/** The fixture writer of ustar archives. */
module TarBuilder {
  import opened Bits
  import opened Results
  import opened Widths
  import opened Text
  import opened Strings
  import opened TarSpec

  // ----- Octal fields

  function DigitByte(d: nat): (b: byte)
    requires d < 8
    ensures Digit(b) == d
  {
    0x30 + d
  }

  function Pow8(n: nat): (r: nat)
    ensures r > 0
  {
    if n == 0 then 1 else 8 * Pow8(n - 1)
  }

  /** `{:o}`: the shortest octal text. */
  function Octal(v: nat): (r: seq<byte>)
    ensures r != [] && AreDigits(r, 8)
  {
    if v < 8 then [DigitByte(v)] else Octal(v / 8) + [DigitByte(v % 8)]
  }

  function Filled(b: byte, n: nat): (r: seq<byte>)
    ensures |r| == n
  {
    seq(n, _ => b)
  }

  /** `{:0width$o}`: padded on the left with zeros, never cut. */
  function Padded(v: nat, width: nat): (r: seq<byte>)
    ensures AreDigits(r, 8) && |r| >= width
  {
    if |Octal(v)| >= width then Octal(v) else Filled(0x30, width - |Octal(v)|) + Octal(v)
  }

  /** What `write_octal` leaves in a field of `n` bytes: the text, its last place overwritten by a NUL. */
  function Field(v: nat, n: nat): (r: seq<byte>)
    requires n > 0
    ensures |r| == n
  {
    Padded(v, n - 1)[..n - 1] + [0]
  }

  /** `copy_from_slice`. */
  method Put(buffer: array<byte>, lo: nat, text: seq<byte>)
    requires lo + |text| <= buffer.Length
    modifies buffer
    ensures buffer[..] == old(buffer[..lo]) + text + old(buffer[lo + |text|..])
  {
    forall i | 0 <= i < |text| {
      buffer[lo + i] := text[i];
    }
  }

  method WriteOctal(buffer: array<byte>, lo: nat, hi: nat, value: nat)
    requires lo < hi <= buffer.Length && |Padded(value, hi - lo - 1)| <= hi - lo
    modifies buffer
    ensures buffer[..] == old(buffer[..lo]) + Field(value, hi - lo) + old(buffer[hi..])
  {
    var text := Padded(value, hi - lo - 1);
    Put(buffer, lo, text);
    buffer[hi - 1] := 0;
    Replaced(old(buffer[..]), buffer[..], lo, hi, text);
  }

  lemma Replaced(before: seq<byte>, after: seq<byte>, lo: nat, hi: nat, text: seq<byte>)
    requires lo < hi <= |before| && hi - lo - 1 <= |text| <= hi - lo
    requires after == (before[..lo] + text + before[lo + |text|..])[hi - 1 := 0]
    ensures after == before[..lo] + (text[..hi - lo - 1] + [0]) + before[hi..]
  {
  }

  lemma {:induction false} OctalLength(v: nat, n: nat)
    requires n > 0
    ensures |Octal(v)| <= n <==> v < Pow8(n)
  {
    assert Pow8(1) == 8 * Pow8(0);
    if v >= 8 {
      if n == 1 {
      } else {
        OctalLength(v / 8, n - 1);
      }
    } else if n > 1 {
      OctalLength(v, n - 1);
    }
  }

  lemma {:induction false} OctalValue(v: nat)
    ensures ValueOf(Octal(v), 8) == v
  {
    if v >= 8 {
      OctalValue(v / 8);
      assert Octal(v)[..|Octal(v)| - 1] == Octal(v / 8);
    } else {
      assert Octal(v)[..0] == [];
    }
  }

  lemma {:induction false} LeadingZeros(n: nat, text: seq<byte>)
    requires AreDigits(text, 8)
    ensures AreDigits(Filled(0x30, n) + text, 8)
    ensures ValueOf(Filled(0x30, n) + text, 8) == ValueOf(text, 8)
  {
    var all := Filled(0x30, n) + text;
    if text != [] {
      LeadingZeros(n, text[..|text| - 1]);
      assert all[..|all| - 1] == Filled(0x30, n) + text[..|text| - 1];
    } else if n > 0 {
      LeadingZeros(n - 1, text);
      assert all[..|all| - 1] == Filled(0x30, n - 1) + text;
    }
  }

  /** Padding keeps the value, and a value that fits fills its field exactly. */
  lemma PaddedValue(v: nat, n: nat)
    requires n > 0
    ensures ValueOf(Padded(v, n), 8) == v
    ensures v < Pow8(n) <==> |Padded(v, n)| == n
  {
    OctalValue(v);
    OctalLength(v, n);
    if |Octal(v)| < n {
      LeadingZeros(n - |Octal(v)|, Octal(v));
    }
  }

  /** Digits up to a NUL are read whole. */
  lemma DigitsRead(text: seq<byte>, tail: seq<byte>)
    requires text != [] && AreDigits(text, 8) && ValueOf(text, 8) < U64_LIMIT
    ensures ParseOctal(text + [0] + tail) == Ok(ValueOf(text, 8))
  {
    var field := text + [0] + tail;
    assert field[0] == text[0];
    assert 0 <= Digit(text[0]) < 8;
    UntilNul(text, tail);
    NoTrim(text);
  }

  lemma {:induction false} UntilNul(text: seq<byte>, tail: seq<byte>)
    requires AreDigits(text, 8)
    ensures Until(text + [0] + tail, (x: byte) => x == 0 || x == 32) == text
  {
    var field := text + [0] + tail;
    if text == [] {
      assert field[0] == 0;
    } else {
      UntilNul(text[1..], tail);
      assert 0 <= Digit(text[0]) < 8;
      assert field[0] == text[0] && field[1..] == text[1..] + [0] + tail;
    }
  }

  lemma NoTrim(text: seq<byte>)
    requires text != [] && AreDigits(text, 8)
    ensures Trim(text, IsSpace) == text
  {
    assert 0 <= Digit(text[0]) < 8;
    assert 0 <= Digit(text[|text| - 1]) < 8;
    NothingToTrim(text, IsSpace);
  }

  /**
   * Reading back a field of `n` bytes gives the value exactly when the value
   * has room for its NUL; a text that fills the field loses its last digit.
   */
  lemma FieldReads(v: nat, n: nat, tail: seq<byte>)
    requires n > 1 && v < Pow8(n) && v < U64_LIMIT
    ensures |Padded(v, n - 1)| <= n
    ensures ParseOctal(Field(v, n) + tail) == Ok(if v < Pow8(n - 1) then v else v / 8)
  {
    PaddedValue(v, n - 1);
    OctalLength(v, n);
    var text := Padded(v, n - 1);
    if v < Pow8(n - 1) {
      assert text[..n - 1] == text;
      DigitsRead(text, tail);
      assert Field(v, n) + tail == text + [0] + tail;
    } else {
      OctalLength(v, n - 1);
      OctalValue(v / 8);
      assert text == Octal(v) && v >= 8;
      assert text[..n - 1] == Octal(v / 8);
      DigitsRead(Octal(v / 8), tail);
      assert Field(v, n) + tail == Octal(v / 8) + [0] + tail;
    }
  }

  // ----- Headers

  /** Name, mode and owner. */
  function Owner(name: seq<byte>): (r: seq<byte>)
    requires |name| <= 100
    ensures |r| == 124
  {
    name + Filled(0, 100 - |name|) + Field(MODE, 8) + Field(0, 8) + Field(0, 8)
  }

  /** Size and modification time. */
  function Sizes(size: nat): (r: seq<byte>)
    ensures |r| == 24
  {
    Field(size, 12) + Field(0, 12)
  }

  /** The header up to its checksum field. */
  function Front(name: seq<byte>, size: nat): (r: seq<byte>)
    requires |name| <= 100
    ensures |r| == 148
  {
    Owner(name) + Sizes(size)
  }

  const MODE: nat := 420
  const MAGIC: seq<byte> := [0x75, 0x73, 0x74, 0x61, 0x72, 0]
  const VERSION: seq<byte> := [0x30, 0x30]

  /** The header from its type flag on. */
  function Back(): (r: seq<byte>)
    ensures |r| == 356
  {
    [0x30] + Filled(0, 100) + MAGIC + VERSION + Filled(0, 247)
  }

  function CheckedHeader(front: seq<byte>, back: seq<byte>): (r: seq<byte>)
    requires |front| == 148 && |back| == 356
    ensures |r| == BLOCK
  {
    front + (Field(Sum(front + Spaces(8) + back), 7) + [32]) + back
  }

  function HeaderOf(name: seq<byte>, size: nat): (r: seq<byte>)
    requires |name| <= 100
    ensures |r| == BLOCK
  {
    CheckedHeader(Front(name, size), Back())
  }

  lemma {:induction false} SumBound(b: seq<byte>)
    ensures Sum(b) <= 255 * |b|
  {
    if b == [] {
    } else {
      SumBound(b[1..]);
    }
  }

  lemma Pow8Values()
    ensures Pow8(6) == 0x4_0000 && Pow8(7) == 0x20_0000 && Pow8(8) == 0x100_0000
    ensures Pow8(11) == 0x2_0000_0000 && Pow8(12) == 0x10_0000_0000
  {
    assert Pow8(2) == 64;
    assert Pow8(4) == 4096;
    assert Pow8(6) == 0x4_0000;
    assert Pow8(8) == 0x100_0000;
    assert Pow8(10) == 0x4000_0000;
  }

  /** The written checksum is the one the reader expects, whatever the header holds. */
  lemma ChecksumHolds(front: seq<byte>, back: seq<byte>)
    requires |front| == 148 && |back| == 356
    ensures VerifyChecksum(CheckedHeader(front, back)) == Ok(())
  {
    var header := CheckedHeader(front, back);
    var blank := front + Spaces(8) + back;
    assert header[..148] == front && header[156..] == back;
    assert Blanked(header) == blank;
    assert header[148..156] == Field(Sum(blank), 7) + [32];
    SumBound(blank);
    Pow8Values();
    FieldReads(Sum(blank), 7, [32]);
  }

  lemma OwnerFields(name: seq<byte>)
    requires |name| <= 100
    ensures Owner(name)[0..100] == name + Filled(0, 100 - |name|) && Owner(name)[100..108] == Field(MODE, 8)
  {
  }

  lemma FrontFields(name: seq<byte>, size: nat)
    requires |name| <= 100
    ensures var f := Front(name, size);
            f[0..100] == name + Filled(0, 100 - |name|) && f[100..108] == Field(MODE, 8) && f[124..136] == Field(size, 12)
  {
    OwnerFields(name);
    var f, o := Front(name, size), Owner(name);
    assert f[0..100] == o[0..100] && f[100..108] == o[100..108];
    assert f[124..136] == Sizes(size)[..12];
  }

  lemma BackFields()
    ensures Back()[0] == 0x30 && Back()[101..106] == USTAR && Back()[189..344] == Filled(0, 155)
  {
  }

  lemma HeaderFields(name: seq<byte>, size: nat)
    requires |name| <= 100
    ensures var h := HeaderOf(name, size);
            && h[0..100] == name + Filled(0, 100 - |name|) && h[100..108] == Field(MODE, 8) && h[124..136] == Field(size, 12)
            && h[156] == 0x30 && h[257..262] == USTAR && h[345..500] == Filled(0, 155)
  {
    FrontFields(name, size);
    BackFields();
    var h := HeaderOf(name, size);
    var f, b := Front(name, size), Back();
    assert h[..148] == f && h[156..] == b;
    assert h[0..100] == f[0..100] && h[100..108] == f[100..108] && h[124..136] == f[124..136];
    assert h[257..262] == b[101..106] && h[345..500] == b[189..344];
  }

  lemma {:induction false} NulIsDecoded(b: seq<byte>)
    requires Decode(b).Some? && 0 in b
    ensures 0 in Decode(b).value
    decreases |b|
  {
    var one := DecodeOne(b).value;
    var rest := Decode(b[one.1..]).value;
    assert Decode(b).value == [one.0] + rest;
    if b[0] == 0 {
    } else {
      NoNulInOne(b);
      NulBehind(b, one.1);
      NulIsDecoded(b[one.1..]);
    }
  }

  lemma NoNulInOne(b: seq<byte>)
    requires DecodeOne(b).Some? && b[0] != 0
    ensures forall i :: 0 <= i < DecodeOne(b).value.1 ==> b[i] != 0
  {
  }

  lemma NulBehind(b: seq<byte>, n: nat)
    requires 0 in b && n <= |b| && forall i :: 0 <= i < n ==> b[i] != 0
    ensures 0 in b[n..]
  {
    var i :| 0 <= i < |b| && b[i] == 0;
    assert b[n..][i - n] == 0;
  }

  lemma {:induction false} StripsToName(name: seq<byte>, n: nat)
    requires 0 !in name
    ensures StripNul(name + Filled(0, n)) == name
  {
    var field := name + Filled(0, n);
    if name == [] {
    } else {
      StripsToName(name[1..], n);
      assert field[0] == name[0] && field[1..] == name[1..] + Filled(0, n);
    }
  }

  /** A name the writer may be given: UTF-8 text of at most 100 bytes that is already a normal path. */
  predicate IsName(name: seq<byte>) {
    |name| <= 100 && Decode(name).Some? && ValidatePath(Decode(name).value) == Ok(Decode(name).value)
  }

  lemma PathFrom(header: seq<byte>, name: seq<byte>)
    requires |header| == BLOCK && |name| <= 100 && 0 !in name && Decode(name).Some?
    requires header[0..100] == name + Filled(0, 100 - |name|) && header[345..500] == Filled(0, 155)
    ensures HeaderPath(header) == Ok(Decode(name).value)
  {
    StripsToName(name, 100 - |name|);
    StripsToName([], 155);
    assert [] + Filled(0, 155) == Filled(0, 155);
    PathOfParts(header, name);
  }

  lemma PathOfParts(header: seq<byte>, name: seq<byte>)
    requires |header| == BLOCK && Decode(name).Some?
    requires StripNul(header[0..100]) == name && StripNul(header[345..500]) == []
    ensures HeaderPath(header) == Ok(Decode(name).value)
  {
    assert [] + name == name;
  }

  lemma NamePath(name: seq<byte>, size: nat)
    requires IsName(name)
    ensures HeaderPath(HeaderOf(name, size)) == Ok(Decode(name).value)
  {
    HeaderFields(name, size);
    if 0 in name {
      NulIsDecoded(name);
    }
    PathFrom(HeaderOf(name, size), name);
  }

  lemma FieldsRead(name: seq<byte>, size: nat)
    requires |name| <= 100 && size < Pow8(11)
    ensures var h := HeaderOf(name, size);
            h[156] == 0x30 && ParseOctal(h[124..136]) == Ok(size) && ParseOctal(h[100..108]) == Ok(MODE)
  {
    HeaderFields(name, size);
    Pow8Values();
    FieldReads(size, 12, []);
    FieldReads(MODE, 8, []);
    assert Field(size, 12) + [] == Field(size, 12) && Field(MODE, 8) + [] == Field(MODE, 8);
  }

  /** What the reader makes of any header with these fields. */
  lemma BlockReads(h: seq<byte>, path: seq<Code>, size: nat, rest: seq<byte>, seen: set<seq<Code>>)
    requires |h| == BLOCK && VerifyChecksum(h) == Ok(()) && h[156] == 0x30 && HeaderPath(h) == Ok(path)
    requires ParseOctal(h[124..136]) == Ok(size) && ParseOctal(h[100..108]) == Ok(MODE)
    requires ValidatePath(path) == Ok(path) && path !in seen
    ensures HeaderBlock(h, rest, NO_OVERRIDES, seen) == Ok(File(Found(Header(path, size, MODE), rest, seen + {path})))
  {
    MaskBelow(MODE, 32);
    assert FileHeader(h, size, NO_OVERRIDES, seen) == Ok(Header(path, size, MODE));
  }

  /** The reader's view of one written header. */
  lemma HeaderReads(name: seq<byte>, size: nat, rest: seq<byte>, seen: set<seq<Code>>)
    requires IsName(name) && size < Pow8(11) && Decode(name).value !in seen
    ensures var path := Decode(name).value;
            HeaderBlock(HeaderOf(name, size), rest, NO_OVERRIDES, seen)
            == Ok(File(Found(Header(path, size, MODE), rest, seen + {path})))
  {
    ChecksumHolds(Front(name, size), Back());
    FieldsRead(name, size);
    NamePath(name, size);
    BlockReads(HeaderOf(name, size), Decode(name).value, size, rest, seen);
  }

  lemma MaskBelow(v: nat, n: nat)
    requires v < 512 && 9 <= n
    ensures Mask(v, n) == v
  {
    Pow2Eight();
    assert Pow2(9) == 512;
    Pow2Monotone(9, n);
    MaskSmall(v, n);
  }

  // ----- Archives

  datatype Source = Source(name: seq<byte>, body: seq<byte>)

  function Entry(file: Source): (r: seq<byte>)
    requires |file.name| <= 100
  {
    HeaderOf(file.name, |file.body|) + file.body + Filled(0, PaddingFor(|file.body|))
  }

  predicate NamesFit(files: seq<Source>) {
    forall i :: 0 <= i < |files| ==> |files[i].name| <= 100
  }

  function ArchiveOf(files: seq<Source>): (r: seq<byte>)
    requires NamesFit(files)
  {
    if files == [] then Filled(0, 2 * BLOCK) else Entry(files[0]) + ArchiveOf(files[1..])
  }

  /** The path a file's name spells. */
  function PathOf(file: Source): (path: seq<Code>)
    requires Decode(file.name).Some?
  {
    Decode(file.name).value
  }

  predicate Writable(files: seq<Source>) {
    && (forall i :: 0 <= i < |files| ==> IsName(files[i].name) && |files[i].body| < Pow8(11))
    && (forall i, j :: 0 <= i < j < |files| ==> PathOf(files[i]) != PathOf(files[j]))
  }

  function MembersOf(files: seq<Source>): (r: seq<Member>)
    requires Writable(files)
  {
    seq(|files|, i requires 0 <= i < |files| => MemberOf(files[i]))
  }

  lemma NotEndMarker(name: seq<byte>, size: nat)
    requires |name| <= 100
    ensures !AllZero(HeaderOf(name, size))
  {
    HeaderFields(name, size);
  }

  lemma EndReads(seen: set<seq<Code>>)
    ensures Members(Filled(0, 2 * BLOCK), seen) == Ok([])
  {
    var end := Filled(0, 2 * BLOCK);
    assert Block(end, NO_OVERRIDES, seen) == Ok(Ended);
    assert Next(end, NO_OVERRIDES, seen) == Ok(None);
  }

  /** A header block in front of its body leads where the header says. */
  lemma FileFound(header: seq<byte>, rest: seq<byte>, seen: set<seq<Code>>, found: Found)
    requires |header| == BLOCK && !AllZero(header)
    requires HeaderBlock(header, rest, NO_OVERRIDES, seen) == Ok(File(found))
    ensures Next(header + rest, NO_OVERRIDES, seen) == Ok(Some(found))
  {
    var bytes := header + rest;
    assert bytes[..BLOCK] == header && bytes[BLOCK..] == rest;
    assert Block(bytes, NO_OVERRIDES, seen) == Ok(File(found));
  }

  lemma BodyCut(found: Found, body: seq<byte>, more: seq<byte>)
    requires found.header.size == |body| && found.rest == body + Filled(0, PaddingFor(|body|)) + more
    ensures Body(found) == Ok(Cut(body, more))
  {
    assert found.rest[..|body|] == body;
    assert found.rest[|body| + PaddingFor(|body|)..] == more;
  }

  /** An entry in front of anything is found, and its body and padding lead to what follows. */
  lemma EntryReads(file: Source, more: seq<byte>, seen: set<seq<Code>>)
    requires IsName(file.name) && |file.body| < Pow8(11) && PathOf(file) !in seen
    ensures var rest := file.body + Filled(0, PaddingFor(|file.body|)) + more;
            var found := Found(Header(PathOf(file), |file.body|, MODE), rest, seen + {PathOf(file)});
            && Next(Entry(file) + more, NO_OVERRIDES, seen) == Ok(Some(found))
            && Body(found) == Ok(Cut(file.body, more))
  {
    var header := HeaderOf(file.name, |file.body|);
    var rest := file.body + Filled(0, PaddingFor(|file.body|)) + more;
    var found := Found(Header(PathOf(file), |file.body|, MODE), rest, seen + {PathOf(file)});
    NotEndMarker(file.name, |file.body|);
    HeaderReads(file.name, |file.body|, rest, seen);
    FileFound(header, rest, seen, found);
    EntryParts(file, more);
    BodyCut(found, file.body, more);
  }

  lemma EntryParts(file: Source, more: seq<byte>)
    requires |file.name| <= 100
    ensures Entry(file) + more == HeaderOf(file.name, |file.body|) + (file.body + Filled(0, PaddingFor(|file.body|)) + more)
  {
  }

  lemma MembersCons(bytes: seq<byte>, seen: set<seq<Code>>, found: Found, cut: Cut, more: seq<Member>)
    requires Next(bytes, NO_OVERRIDES, seen) == Ok(Some(found)) && Body(found) == Ok(cut)
    requires Members(cut.rest, found.seen) == Ok(more)
    ensures Members(bytes, seen) == Ok([Member(found.header.path, found.header.size, cut.body)] + more)
  {
  }

  function MemberOf(file: Source): (m: Member)
    requires Decode(file.name).Some?
  {
    Member(PathOf(file), |file.body|, file.body)
  }

  lemma EntryThen(file: Source, rest: seq<byte>, seen: set<seq<Code>>, more: seq<Member>)
    requires IsName(file.name) && |file.body| < Pow8(11) && PathOf(file) !in seen
    requires Members(rest, seen + {PathOf(file)}) == Ok(more)
    ensures Members(Entry(file) + rest, seen) == Ok([MemberOf(file)] + more)
  {
    EntryReads(file, rest, seen);
    var after := file.body + Filled(0, PaddingFor(|file.body|)) + rest;
    MembersCons(Entry(file) + rest, seen, Found(Header(PathOf(file), |file.body|, MODE), after, seen + {PathOf(file)}),
                Cut(file.body, rest), more);
  }

  lemma WritableTail(files: seq<Source>, seen: set<seq<Code>>)
    requires Writable(files) && files != [] && forall i :: 0 <= i < |files| ==> PathOf(files[i]) !in seen
    ensures Writable(files[1..])
    ensures forall i :: 0 <= i < |files[1..]| ==> PathOf(files[1..][i]) !in seen + {PathOf(files[0])}
  {
    assert forall i :: 0 <= i < |files[1..]| ==> PathOf(files[1..][i]) == PathOf(files[i + 1]);
  }

  lemma MembersTail(files: seq<Source>)
    requires Writable(files) && files != [] && Writable(files[1..])
    ensures MembersOf(files) == [MemberOf(files[0])] + MembersOf(files[1..])
  {
  }

  /** Reading a written archive returns its files, whatever paths were seen before. */
  lemma {:induction false} WrittenReads(files: seq<Source>, seen: set<seq<Code>>)
    requires Writable(files)
    requires forall i :: 0 <= i < |files| ==> PathOf(files[i]) !in seen
    ensures Members(ArchiveOf(files), seen) == Ok(MembersOf(files))
  {
    if files == [] {
      EndReads(seen);
      assert MembersOf(files) == [];
    } else {
      var file, more := files[0], files[1..];
      WritableTail(files, seen);
      MembersTail(files);
      WrittenReads(more, seen + {PathOf(file)});
      EntryThen(file, ArchiveOf(more), seen, MembersOf(more));
    }
  }

  /** The archive a list of files is written to reads back as those files. */
  lemma RoundTrip(files: seq<Source>)
    requires Writable(files)
    ensures Archive(ArchiveOf(files)) == Ok(MembersOf(files))
  {
    WrittenReads(files, {});
  }

  // ----- The builder

  lemma Grow(done: seq<byte>, n: nat, field: seq<byte>)
    requires |field| <= n
    ensures var before := done + Filled(0, n);
            before[..|done|] + field + before[|done| + |field|..] == (done + field) + Filled(0, n - |field|)
  {
  }

  /** Writes one field right behind what is already there. */
  method Append(header: array<byte>, ghost done: seq<byte>, lo: nat, hi: nat, value: nat)
    requires lo < hi <= header.Length && |Padded(value, hi - lo - 1)| <= hi - lo
    requires |done| == lo && header[..] == done + Filled(0, header.Length - lo)
    modifies header
    ensures header[..] == (done + Field(value, hi - lo)) + Filled(0, header.Length - hi)
  {
    Grow(done, header.Length - lo, Field(value, hi - lo));
    WriteOctal(header, lo, hi, value);
  }

  lemma FieldFits(v: nat, n: nat)
    requires n > 1 && v < Pow8(n)
    ensures |Padded(v, n - 1)| <= n
  {
    OctalLength(v, n);
  }

  method WriteName(header: array<byte>, name: seq<byte>)
    requires header.Length == BLOCK && header[..] == Filled(0, BLOCK) && |name| <= 100
    modifies header
    ensures header[..] == (name + Filled(0, 100 - |name|)) + Filled(0, BLOCK - 100)
  {
    Put(header, 0, name);
  }

  method WriteOwner(header: array<byte>, name: seq<byte>, mode: nat, owner: nat)
    requires header.Length == BLOCK && header[..] == Filled(0, BLOCK) && |name| <= 100 && mode < Pow8(8) && owner < Pow8(8)
    modifies header
    ensures header[..] == name + Filled(0, 100 - |name|) + Field(mode, 8) + Field(owner, 8) + Field(owner, 8) + Filled(0, BLOCK - 124)
  {
    FieldFits(mode, 8);
    FieldFits(owner, 8);
    WriteName(header, name);
    ghost var f := name + Filled(0, 100 - |name|);
    Append(header, f, 100, 108, mode);
    Append(header, f + Field(mode, 8), 108, 116, owner);
    Append(header, f + Field(mode, 8) + Field(owner, 8), 116, 124, owner);
  }

  method WriteSizes(header: array<byte>, ghost owner: seq<byte>, size: nat)
    requires header.Length == BLOCK && |owner| == 124 && header[..] == owner + Filled(0, BLOCK - 124) && size < Pow8(12)
    modifies header
    ensures header[..] == owner + Sizes(size) + Filled(0, BLOCK - 148)
  {
    Pow8Values();
    FieldFits(size, 12);
    FieldFits(0, 12);
    Append(header, owner, 124, 136, size);
    Append(header, owner + Field(size, 12), 136, 148, 0);
    assert owner + Sizes(size) == owner + Field(size, 12) + Field(0, 12);
  }

  /** The fields in front of the checksum. */
  method WriteFront(header: array<byte>, name: seq<byte>, size: nat)
    requires header.Length == BLOCK && header[..] == Filled(0, BLOCK) && |name| <= 100 && size < Pow8(12)
    modifies header
    ensures header[..] == Front(name, size) + Filled(0, BLOCK - 148)
  {
    Pow8Values();
    WriteOwner(header, name, MODE, 0);
    WriteSizes(header, Owner(name), size);
  }

  /** Type flag, magic and version behind the checksum field. */
  method WriteBack(header: array<byte>, ghost front: seq<byte>)
    requires header.Length == BLOCK && |front| == 148 && header[..] == front + Filled(0, BLOCK - 148)
    modifies header
    ensures header[..] == front + Filled(0, 8) + Back()
  {
    header[156] := 0x30;
    Put(header, 257, MAGIC);
    Put(header, 263, VERSION);
  }

  method SumOf(header: array<byte>) returns (sum: nat)
    ensures sum == Sum(header[..])
  {
    sum := 0;
    var i: nat := header.Length;
    while i > 0
      invariant i <= header.Length && sum == Sum(header[i..])
    {
      i := i - 1;
      assert header[i..][1..] == header[i + 1..];
      sum := header[i] + sum;
    }
    assert header[0..] == header[..];
  }

  /** `add_file`'s header, filled in place. */
  method WriteHeader(name: seq<byte>, size: nat) returns (header: array<byte>)
    requires |name| <= 100 && size < Pow8(12)
    ensures fresh(header) && header[..] == HeaderOf(name, size)
  {
    header := new byte[BLOCK](_ => 0);
    WriteFront(header, name, size);
    WriteBack(header, Front(name, size));
    WriteChecksum(header, Front(name, size));
  }

  /** The sum of the header with blanks in the checksum field, then written into that field. */
  method WriteChecksum(header: array<byte>, ghost front: seq<byte>)
    requires header.Length == BLOCK && |front| == 148 && header[..] == front + Filled(0, 8) + Back()
    modifies header
    ensures header[..] == CheckedHeader(front, Back())
  {
    Put(header, 148, Spaces(8));
    assert header[..] == front + Spaces(8) + Back();
    var sum := SumOf(header);
    SumBound(header[..]);
    FieldFits(sum, 7);
    WriteOctal(header, 148, 155, sum);
    header[155] := 32;
    Sealed(front, Back(), sum, header[..]);
  }

  lemma Sealed(front: seq<byte>, back: seq<byte>, sum: nat, header: seq<byte>)
    requires |front| == 148 && |back| == 356 && sum == Sum(front + Spaces(8) + back)
    requires var blank := front + Spaces(8) + back; header == (blank[..148] + Field(sum, 7) + blank[155..])[155 := 32]
    ensures header == CheckedHeader(front, back)
  {
  }

  lemma Grouped(a: seq<byte>, b: seq<byte>, c: seq<byte>)
    ensures a + (b + c) == (a + b) + c
  {
  }

  lemma {:induction false} ArchiveSnoc(files: seq<Source>, file: Source)
    requires NamesFit(files) && |file.name| <= 100
    ensures NamesFit(files + [file]) && Entries(files + [file]) == Entries(files) + Entry(file)
  {
    if files == [] {
      assert (files + [file])[1..] == [];
      assert Entries(files + [file]) == Entry(file) + [];
      assert [] + Entry(file) == Entry(file);
    } else {
      assert (files + [file])[1..] == files[1..] + [file];
      ArchiveSnoc(files[1..], file);
      Grouped(Entry(files[0]), Entries(files[1..]), Entry(file));
    }
  }

  function Entries(files: seq<Source>): (r: seq<byte>)
    requires NamesFit(files)
  {
    if files == [] then [] else Entry(files[0]) + Entries(files[1..])
  }

  lemma {:induction false} EntriesEnd(files: seq<Source>)
    requires NamesFit(files)
    ensures Entries(files) + Filled(0, 2 * BLOCK) == ArchiveOf(files)
  {
    if files == [] {
      assert [] + Filled(0, 2 * BLOCK) == Filled(0, 2 * BLOCK);
    } else {
      EntriesEnd(files[1..]);
      assert (Entry(files[0]) + Entries(files[1..])) + Filled(0, 2 * BLOCK)
          == Entry(files[0]) + (Entries(files[1..]) + Filled(0, 2 * BLOCK));
    }
  }

  class Builder {
    var bytes: seq<byte>
    /** The files added so far. */
    ghost var files: seq<Source>

    ghost predicate Valid()
      reads this
    {
      NamesFit(files) && bytes == Entries(files)
    }

    constructor ()
      ensures Valid() && files == []
    {
      bytes, files := [], [];
    }

    method AddFile(name: seq<byte>, body: seq<byte>)
      requires Valid() && |name| <= 100 && |body| < Pow8(12)
      modifies this
      ensures Valid() && files == old(files) + [Source(name, body)]
    {
      var header := WriteHeader(name, |body|);
      var padding := ComputePadding(|body|);
      ghost var file := Source(name, body);
      assert header[..] + body + Filled(0, padding) == Entry(file);
      bytes := bytes + (header[..] + body + Filled(0, padding));
      files := files + [file];
      ArchiveSnoc(old(files), file);
    }

    method Finish() returns (out: seq<byte>)
      requires Valid()
      ensures out == ArchiveOf(files)
    {
      EntriesEnd(files);
      return bytes + Filled(0, 2 * BLOCK);
    }
  }
}
