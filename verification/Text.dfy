/** UTF-8 text as sequences of code points, and slash-separated paths. */
module Text {
  import opened Bits
  import opened Results

  type Code = c: int | 0 <= c < 0x110000

  predicate Between(b: byte, lo: int, hi: int) {
    lo <= b <= hi
  }

  /** One well-formed UTF-8 sequence at the front of `b`: its code point and its length. */
  function DecodeOne(b: seq<byte>): (r: Option<(Code, nat)>)
    ensures r.Some? ==> 1 <= r.value.1 <= |b| && r.value.1 == CodeLen(r.value.0)
  {
    if b == [] then None
    else if b[0] < 0x80 then Some((b[0], 1))
    else if Between(b[0], 0xc2, 0xdf) && |b| >= 2 && Between(b[1], 0x80, 0xbf) then
      Some(((b[0] as int - 0xc0) * 64 + (b[1] as int - 0x80), 2))
    else if Between(b[0], 0xe0, 0xef) && |b| >= 3 && ThirdOk(b[0], b[1]) && Between(b[2], 0x80, 0xbf) then
      Some(((b[0] as int - 0xe0) * 4096 + (b[1] as int - 0x80) * 64 + (b[2] as int - 0x80), 3))
    else if Between(b[0], 0xf0, 0xf4) && |b| >= 4 && FourthOk(b[0], b[1]) && Between(b[2], 0x80, 0xbf) && Between(b[3], 0x80, 0xbf) then
      Some(((b[0] as int - 0xf0) * 262144 + (b[1] as int - 0x80) * 4096 + (b[2] as int - 0x80) * 64 + (b[3] as int - 0x80), 4))
    else None
  }

  /** Second byte of a three-byte sequence: no overlong form, no surrogate. */
  predicate ThirdOk(first: byte, second: byte) {
    Between(second, if first == 0xe0 then 0xa0 else 0x80, if first == 0xed then 0x9f else 0xbf)
  }

  /** Second byte of a four-byte sequence: no overlong form, nothing above U+10FFFF. */
  predicate FourthOk(first: byte, second: byte) {
    Between(second, if first == 0xf0 then 0x90 else 0x80, if first == 0xf4 then 0x8f else 0xbf)
  }

  function CodeLen(c: Code): (n: nat) {
    if c < 0x80 then 1 else if c < 0x800 then 2 else if c < 0x10000 then 3 else 4
  }

  /** `String::from_utf8`. */
  function Decode(b: seq<byte>): (r: Option<seq<Code>>)
    decreases |b|
  {
    if b == [] then Some([])
    else
      match DecodeOne(b)
      case None => None
      case Some(one) =>
        match Decode(b[one.1..])
        case None => None
        case Some(rest) => Some([one.0] + rest)
  }

  function Ascii(text: string): (b: seq<byte>)
    requires forall i :: 0 <= i < |text| ==> text[i] < 128 as char
    ensures |b| == |text| && forall i :: 0 <= i < |text| ==> b[i] == text[i] as int
  {
    seq(|text|, i requires 0 <= i < |text| => text[i] as int)
  }

  lemma {:induction false} AsciiIsText(b: seq<byte>)
    requires forall i :: 0 <= i < |b| ==> b[i] < 128
    ensures Decode(b).Some?
  {
    if b == [] {
    } else {
      AsciiIsText(b[1..]);
    }
  }

  lemma {:induction false} AsciiDecodes(b: seq<byte>)
    requires forall i :: 0 <= i < |b| ==> b[i] < 128
    ensures Decode(b).Some? && |Decode(b).value| == |b| && forall i :: 0 <= i < |b| ==> Decode(b).value[i] == b[i]
  {
    if b == [] {
    } else {
      AsciiDecodes(b[1..]);
    }
  }

  /** `str::len`: the length in bytes. */
  function ByteLen(s: seq<Code>): (n: nat) {
    if s == [] then 0 else CodeLen(s[0]) + ByteLen(s[1..])
  }

  predicate IsControl(c: Code) {
    c < 0x20 || 0x7f <= c <= 0x9f
  }

  // ----- Paths

  const SLASH: Code := 0x2f
  const BACKSLASH: Code := 0x5c
  const DOT: Code := 0x2e

  predicate Kept(part: seq<Code>) {
    part != [] && part != [DOT]
  }

  /** Drops empty and `.` components. */
  function Normal(parts: seq<seq<Code>>): (r: seq<seq<Code>>)
    ensures forall i :: 0 <= i < |r| ==> Kept(r[i]) && r[i] in parts
  {
    if parts == [] then []
    else (if Kept(parts[0]) then [parts[0]] else []) + Normal(parts[1..])
  }

  lemma {:induction false} NormalFixed(parts: seq<seq<Code>>)
    requires forall i :: 0 <= i < |parts| ==> Kept(parts[i])
    ensures Normal(parts) == parts
  {
    if parts == [] {
    } else {
      NormalFixed(parts[1..]);
      assert parts == [parts[0]] + parts[1..];
    }
  }
}
