/** SHA-256 digests and their one spelling. */
module DigestText {
  import opened Bits
  import opened Results
  import Text

  const DIGEST_BYTES: nat := 32

  type Digest = d: seq<byte> | |d| == DIGEST_BYTES witness seq(DIGEST_BYTES, _ => 0)

  /** `hex_nibble`. */
  function HexDigit(n: nat): (b: byte)
    requires n < 16
  {
    if n < 10 then 0x30 + n else 0x61 + (n - 10)
  }

  /** `hex_value`: capital letters are refused. */
  function HexValue(b: byte): (r: Option<nat>)
    ensures r.Some? ==> r.value < 16
  {
    if 0x30 <= b <= 0x39 then Some(b - 0x30) else if 0x61 <= b <= 0x66 then Some(b - 0x61 + 10) else None
  }

  /** `byte >> 4` and `byte & 0x0f`. */
  function High(b: byte): (n: nat)
    ensures n < 16
  {
    b / 16
  }

  function Low(b: byte): (n: nat)
    ensures n < 16
  {
    b % 16
  }

  /** `(high << 4) | low`. */
  function Joined(high: nat, low: nat): (b: byte)
    requires high < 16 && low < 16
  {
    16 * high + low
  }

  lemma NibblesJoin(b: byte)
    ensures Joined(High(b), Low(b)) == b
  {
  }

  lemma JoinedNibbles(high: nat, low: nat)
    requires high < 16 && low < 16
    ensures High(Joined(high, low)) == high && Low(Joined(high, low)) == low
  {
  }

  function PrintByte(b: byte): (text: seq<byte>)
    ensures |text| == 2
  {
    [HexDigit(High(b)), HexDigit(Low(b))]
  }

  function ParseByte(text: seq<byte>): (r: Option<byte>)
    requires |text| == 2
  {
    var high, low := HexValue(text[0]), HexValue(text[1]);
    if high.None? || low.None? then None else Some(Joined(high.value, low.value))
  }

  lemma ByteOneSpelling(b: byte, text: seq<byte>)
    requires |text| == 2
    ensures ParseByte(text) == Some(b) <==> text == PrintByte(b)
  {
    NibblesJoin(b);
    if ParseByte(text).Some? {
      JoinedNibbles(HexValue(text[0]).value, HexValue(text[1]).value);
    }
  }

  function PrintBytes(bytes: seq<byte>): (text: seq<byte>)
    ensures |text| == 2 * |bytes|
  {
    if bytes == [] then [] else PrintBytes(bytes[..|bytes| - 1]) + PrintByte(bytes[|bytes| - 1])
  }

  /** The bytes that pairs of digits stand for. */
  function ParseBytes(text: seq<byte>): (r: Option<seq<byte>>)
    ensures r.Some? ==> 2 * |r.value| == |text|
  {
    if text == [] then Some([])
    else if |text| == 1 then None
    else
      var front, last := ParseBytes(text[..|text| - 2]), ParseByte(text[|text| - 2..]);
      if front.None? || last.None? then None else Some(front.value + [last.value])
  }

  function Print(d: Digest): (text: seq<byte>)
    ensures |text| == 64
  {
    PrintBytes(d)
  }

  function Parse(text: seq<byte>): (r: Option<Digest>) {
    if |text| != 64 then None
    else
      match ParseBytes(text)
      case None => None
      case Some(bytes) => Some(bytes)
  }

  /** `to_hex`. */
  method ToHex(d: Digest) returns (text: seq<byte>)
    ensures text == Print(d)
  {
    text := [];
    for i := 0 to |d|
      invariant text == PrintBytes(d[..i])
    {
      text := text + [HexDigit(High(d[i])), HexDigit(Low(d[i]))];
      assert d[..i + 1][..i] == d[..i];
    }
    assert d[..|d|] == d;
  }

  /** `parse_hex`. */
  method ParseHex(text: seq<byte>) returns (r: Option<Digest>)
    ensures r == Parse(text)
  {
    if |text| != 64 {
      return None;
    }
    var out: seq<byte> := [];
    var index: nat := 0;
    while index < 32
      invariant index <= 32 && ParseBytes(text[..2 * index]) == Some(out)
    {
      var high, low := HexValue(text[2 * index]), HexValue(text[2 * index + 1]);
      NextPair(text, index);
      if high.None? || low.None? {
        RefusedPrefix(text, index + 1, 32);
        return None;
      }
      out := out + [Joined(high.value, low.value)];
      index := index + 1;
    }
    assert text[..64] == text;
    return Some(out);
  }

  lemma NextPair(text: seq<byte>, k: nat)
    requires 2 * k + 2 <= |text|
    ensures ParseBytes(text[..2 * (k + 1)])
            == var front, last := ParseBytes(text[..2 * k]), ParseByte([text[2 * k], text[2 * k + 1]]);
               if front.None? || last.None? then None else Some(front.value + [last.value])
  {
    var next := text[..2 * (k + 1)];
    assert next[..|next| - 2] == text[..2 * k];
    assert next[|next| - 2..] == [text[2 * k], text[2 * k + 1]];
  }

  lemma {:induction false} RefusedPrefix(text: seq<byte>, k: nat, n: nat)
    requires k <= n && |text| == 2 * n && ParseBytes(text[..2 * k]).None?
    ensures ParseBytes(text).None?
  {
    if k == n {
      assert text[..2 * k] == text;
    } else {
      var front := text[..2 * (n - 1)];
      assert front[..2 * k] == text[..2 * k];
      RefusedPrefix(front, k, n - 1);
      NextPair(text, n - 1);
      assert text[..2 * n] == text;
    }
  }

  // ----- One spelling

  lemma {:induction false} BytesRoundTrip(bytes: seq<byte>)
    ensures ParseBytes(PrintBytes(bytes)) == Some(bytes)
  {
    if bytes == [] {
    } else {
      var front, last := bytes[..|bytes| - 1], bytes[|bytes| - 1];
      BytesRoundTrip(front);
      var text := PrintBytes(bytes);
      assert text[..|text| - 2] == PrintBytes(front) && text[|text| - 2..] == PrintByte(last);
      ByteOneSpelling(last, PrintByte(last));
      assert front + [last] == bytes;
    }
  }

  lemma {:induction false} BytesOneSpelling(text: seq<byte>)
    requires ParseBytes(text).Some?
    ensures PrintBytes(ParseBytes(text).value) == text
  {
    if text == [] {
    } else {
      var front, last := text[..|text| - 2], text[|text| - 2..];
      BytesOneSpelling(front);
      ByteOneSpelling(ParseByte(last).value, last);
      var bytes := ParseBytes(text).value;
      assert bytes[..|bytes| - 1] == ParseBytes(front).value;
      assert text == front + last;
    }
  }

  /** A digest has exactly one spelling: the printed one, and no other text parses to it. */
  lemma OneSpelling(d: Digest, text: seq<byte>)
    ensures Parse(text) == Some(d) <==> text == Print(d)
  {
    BytesRoundTrip(d);
    if Parse(text).Some? {
      BytesOneSpelling(text);
    }
  }

  lemma {:induction false} PrintedIsAscii(bytes: seq<byte>)
    ensures forall i :: 0 <= i < |PrintBytes(bytes)| ==> PrintBytes(bytes)[i] < 128
  {
    if bytes == [] {
    } else {
      PrintedIsAscii(bytes[..|bytes| - 1]);
    }
  }

  lemma PrintedIsText(d: Digest)
    ensures Text.Decode(Print(d)).Some?
  {
    PrintedIsAscii(d);
    Text.AsciiIsText(Print(d));
  }
}
