/**
 * What a tar archive means to the strict reader: its regular-file members in
 * order, or the first reason to refuse it.
 */
module TarSpec {
  import opened Bits
  import opened Results
  import opened Widths
  import opened Strings
  import opened Text

  const BLOCK: nat := 512
  const MAX_PATH_LEN: nat := 1024
  const MAX_PAX_BYTES: nat := 0x10_0000

  datatype Error =
    | ArchiveInvalid
    | PathAbsolute(path: seq<Code>)
    | PathTraversal(path: seq<Code>)
    | PathInvalid
    | PathDuplicate(path: seq<Code>)
    | LinkUnsupported
    | MemberTypeUnsupported(path: seq<Code>, flag: byte)
    | MemberSizeMismatch(path: seq<Code>)
    /** A sum of machine words overflows: the process stops here instead of answering. */
    | Overflow

  // ----- Paths

  predicate StartsWithSlash(s: seq<Code>) {
    s != [] && s[0] == SLASH
  }

  const DOT_DOT: seq<Code> := [DOT, DOT]

  /** Walks the components, failing when `..` would leave the archive root. */
  predicate StaysInside(parts: seq<seq<Code>>, depth: nat) {
    if parts == [] then true
    else if parts[0] == [] || parts[0] == [DOT] then StaysInside(parts[1..], depth)
    else if parts[0] == DOT_DOT then depth > 0 && StaysInside(parts[1..], depth - 1)
    else StaysInside(parts[1..], depth + 1)
  }

  predicate HasControl(s: seq<Code>) {
    exists i :: 0 <= i < |s| && IsControl(s[i])
  }

  function ValidatePath(raw: seq<Code>): (r: Result<seq<Code>, Error>) {
    if raw == [] || ByteLen(raw) > MAX_PATH_LEN then Err(PathInvalid)
    else if StartsWithSlash(raw) then Err(PathAbsolute(raw))
    else if BACKSLASH in raw || HasControl(raw) then Err(PathInvalid)
    else
      var parts := Split(raw, SLASH);
      if !StaysInside(parts, 0) then Err(PathTraversal(raw))
      else
        var kept := Normal(parts);
        if kept == [] then Err(PathInvalid)
        else if DOT_DOT in kept then Err(PathTraversal(raw))
        else Ok(Join(kept, SLASH))
  }

  lemma {:induction false} ByteLenConcat(a: seq<Code>, b: seq<Code>)
    ensures ByteLen(a + b) == ByteLen(a) + ByteLen(b)
  {
    if a == [] {
      assert a + b == b;
    } else {
      ByteLenConcat(a[1..], b);
      assert (a + b)[1..] == a[1..] + b;
    }
  }

  lemma ByteLenJoin(part: seq<Code>, rest: seq<seq<Code>>)
    requires rest != []
    ensures ByteLen(Join([part] + rest, SLASH)) == ByteLen(part) + 1 + ByteLen(Join(rest, SLASH))
  {
    assert ([part] + rest)[1..] == rest;
    ByteLenConcat(part + [SLASH], Join(rest, SLASH));
    ByteLenConcat(part, [SLASH]);
    assert [SLASH][1..] == [];
  }

  lemma {:induction false} NormalShrinks(parts: seq<seq<Code>>)
    requires parts != []
    ensures Normal(parts) != [] ==> ByteLen(Join(Normal(parts), SLASH)) <= ByteLen(Join(parts, SLASH))
  {
    if |parts| == 1 {
      assert Normal(parts[1..]) == [];
      assert Kept(parts[0]) ==> Normal(parts) == parts;
    } else {
      NormalShrinks(parts[1..]);
      assert parts == [parts[0]] + parts[1..];
      ByteLenJoin(parts[0], parts[1..]);
      var rest := Normal(parts[1..]);
      if Kept(parts[0]) {
        if rest == [] {
          assert Normal(parts) == [parts[0]];
        } else {
          ByteLenJoin(parts[0], rest);
        }
      } else {
        assert Normal(parts) == rest;
      }
    }
  }

  lemma {:induction false} NoDotDotStaysInside(parts: seq<seq<Code>>, depth: nat)
    requires DOT_DOT !in parts
    ensures StaysInside(parts, depth)
  {
    if parts == [] {
    } else {
      if parts[0] == [] || parts[0] == [DOT] {
        NoDotDotStaysInside(parts[1..], depth);
      } else {
        NoDotDotStaysInside(parts[1..], depth + 1);
      }
    }
  }

  /** Every character of a normalized path was in the raw path. */
  lemma NormalElements(raw: seq<Code>, c: Code)
    requires Normal(Split(raw, SLASH)) != [] && c in Join(Normal(Split(raw, SLASH)), SLASH)
    ensures c in raw || c == SLASH
  {
    JoinElements(Normal(Split(raw, SLASH)), SLASH, c);
    if c != SLASH {
      var i :| 0 <= i < |Normal(Split(raw, SLASH))| && c in Normal(Split(raw, SLASH))[i];
      SplitElements(raw, SLASH, Normal(Split(raw, SLASH))[i], c);
    }
  }

  /** No component of an accepted path is empty, `.` or `..`, and nothing in it is a separator trick. */
  lemma AcceptedPathIsPlain(raw: seq<Code>)
    requires ValidatePath(raw).Ok?
    ensures var p := ValidatePath(raw).value;
            && Split(p, SLASH) == Normal(Split(raw, SLASH))
            && !StartsWithSlash(p) && BACKSLASH !in p && !HasControl(p)
            && ByteLen(p) <= MAX_PATH_LEN
            && forall i :: 0 <= i < |Split(p, SLASH)| ==> Kept(Split(p, SLASH)[i]) && Split(p, SLASH)[i] != DOT_DOT
  {
    var parts := Split(raw, SLASH);
    var kept := Normal(parts);
    var p := Join(kept, SLASH);
    SplitJoin(kept, SLASH);
    NormalShrinks(parts);
    JoinSplit(raw, SLASH);
    assert Kept(kept[0]);
    assert p[0] == kept[0][0];
    if BACKSLASH in p {
      NormalElements(raw, BACKSLASH);
    }
    if HasControl(p) {
      var i :| 0 <= i < |p| && IsControl(p[i]);
      NormalElements(raw, p[i]);
    }
  }

  /** Normalizing is idempotent: two spellings of one member meet in one recorded path. */
  lemma AcceptedPathIsFixed(raw: seq<Code>)
    requires ValidatePath(raw).Ok?
    ensures ValidatePath(ValidatePath(raw).value) == ValidatePath(raw)
  {
    var p := ValidatePath(raw).value;
    AcceptedPathIsPlain(raw);
    assert p != [] by {
      assert Split(p, SLASH)[0] != [];
    }
    NoDotDotStaysInside(Split(p, SLASH), 0);
    NormalFixed(Split(p, SLASH));
    JoinSplit(p, SLASH);
  }

  // ----- Numeric fields

  /** The bytes before the first one that satisfies the stop test. */
  function Until(b: seq<byte>, stop: byte -> bool): (r: seq<byte>)
    ensures r <= b
    ensures forall i :: 0 <= i < |r| ==> !stop(r[i])
    ensures |r| < |b| ==> stop(b[|r|])
  {
    if b == [] || stop(b[0]) then [] else [b[0]] + Until(b[1..], stop)
  }

  function StripNul(b: seq<byte>): (r: seq<byte>) {
    Until(b, (x: byte) => x == 0)
  }

  predicate IsSpace(b: byte) {
    IsWhite(b)
  }

  function Digit(b: byte): (d: int) {
    b as int - 0x30
  }

  predicate AreDigits(text: seq<byte>, radix: nat) {
    forall i :: 0 <= i < |text| ==> 0 <= Digit(text[i]) < radix
  }

  function ValueOf(text: seq<byte>, radix: nat): (v: nat)
    requires AreDigits(text, radix)
  {
    if text == [] then 0 else radix * ValueOf(text[..|text| - 1], radix) + Digit(text[|text| - 1])
  }

  /** `u64::from_str_radix`: an optional plus sign, at least one digit, no overflow. */
  function ParseRadix(text: seq<byte>, radix: nat): (r: Option<nat>) {
    var digits := if text != [] && text[0] == 0x2b then text[1..] else text;
    if digits == [] || !AreDigits(digits, radix) || ValueOf(digits, radix) >= U64_LIMIT then None
    else Some(ValueOf(digits, radix))
  }

  function BigEndian(b: seq<byte>): (v: nat) {
    if b == [] then 0 else 256 * BigEndian(b[..|b| - 1]) + b[|b| - 1]
  }

  function ParseOctal(field: seq<byte>): (r: Result<nat, Error>)
    requires field != []
  {
    if field[0] >= 0x80 then
      var v := BigEndian(field[1..]);
      if v >= U64_LIMIT then Err(ArchiveInvalid) else Ok(v)
    else
      var text := Trim(Until(field, (x: byte) => x == 0 || x == 32), IsSpace);
      if text == [] then Ok(0)
      else
        match ParseRadix(text, 8)
        case Some(v) => Ok(v)
        case None => Err(ArchiveInvalid)
  }

  /** `size` rounded up to whole blocks. */
  function RoundUp(size: nat): (r: nat)
    ensures size <= r < size + BLOCK
  {
    if size == 0 then 0 else if size <= BLOCK then BLOCK else BLOCK + RoundUp(size - BLOCK)
  }

  /** The padding after a body of `size` bytes. */
  function PaddingFor(size: nat): (n: nat)
    ensures n < BLOCK
  {
    RoundUp(size) - size
  }

  lemma {:induction false} PaddingIsModular(size: nat)
    ensures PaddingFor(size) == if size % BLOCK == 0 then 0 else BLOCK - size % BLOCK
  {
    if size <= BLOCK {
    } else {
      PaddingIsModular(size - BLOCK);
      assert size % BLOCK == (size - BLOCK) % BLOCK;
    }
  }

  /** `padding_for`. */
  method ComputePadding(size: nat) returns (n: nat)
    ensures n == PaddingFor(size)
  {
    var remainder := size % BLOCK;
    n := if remainder == 0 then 0 else BLOCK - remainder;
    PaddingIsModular(size);
  }

  // ----- Headers

  function Sum(b: seq<byte>): (n: nat) {
    if b == [] then 0 else b[0] + Sum(b[1..])
  }

  function SignedSum(b: seq<byte>): (n: int) {
    if b == [] then 0 else (if b[0] >= 128 then b[0] as int - 256 else b[0] as int) + SignedSum(b[1..])
  }

  function Spaces(n: nat): (s: seq<byte>)
    ensures |s| == n
  {
    seq(n, _ => 32)
  }

  /** The header with its checksum field read as spaces. */
  function Blanked(header: seq<byte>): (h: seq<byte>)
    requires |header| == BLOCK
  {
    header[..148] + Spaces(8) + header[156..]
  }

  /** Accepts the unsigned sum and, as older writers produce it, the signed one. */
  function VerifyChecksum(header: seq<byte>): (r: Result<(), Error>)
    requires |header| == BLOCK
  {
    var declared :- ParseOctal(header[148..156]);
    var asSigned := if declared >= U64_LIMIT / 2 then declared - U64_LIMIT else declared;
    if declared == Sum(Blanked(header)) || asSigned == SignedSum(Blanked(header)) then Ok(())
    else Err(ArchiveInvalid)
  }

  const USTAR: seq<byte> := [0x75, 0x73, 0x74, 0x61, 0x72]

  function HeaderPath(header: seq<byte>): (r: Result<seq<Code>, Error>)
    requires |header| == BLOCK
  {
    var name := StripNul(header[0..100]);
    var prefix := StripNul(header[345..500]);
    var raw := (if header[257..262] == USTAR && prefix != [] then prefix + [0x2f] else []) + name;
    match Decode(raw)
    case Some(text) => Ok(text)
    case None => Err(PathInvalid)
  }

  // ----- Metadata members

  /** What earlier metadata members say about the next file. */
  datatype Overrides = Overrides(path: Option<seq<Code>>, size: Option<nat>)

  const NO_OVERRIDES: Overrides := Overrides(None, None)

  datatype Cut = Cut(body: seq<byte>, rest: seq<byte>)

  /** A metadata body and its padding, bounded in size. */
  function Metadata(bytes: seq<byte>, size: nat): (r: Result<Cut, Error>)
    ensures r.Ok? ==> |r.value.rest| <= |bytes|
  {
    if size > MAX_PAX_BYTES || |bytes| < size + PaddingFor(size) then Err(ArchiveInvalid)
    else Ok(Cut(bytes[..size], bytes[size + PaddingFor(size)..]))
  }

  const KEY_PATH: seq<byte> := [0x70, 0x61, 0x74, 0x68]
  const KEY_SIZE: seq<byte> := [0x73, 0x69, 0x7a, 0x65]
  const KEY_LINKPATH: seq<byte> := [0x6c, 0x69, 0x6e, 0x6b, 0x70, 0x61, 0x74, 0x68]

  function ApplyRecord(body: seq<byte>, ov: Overrides): (r: Result<Overrides, Error>) {
    var key := Until(body, (x: byte) => x == 0x3d);
    if |key| == |body| then Ok(ov)
    else
      var value := body[|key| + 1..];
      if key == KEY_PATH then
        match Decode(value)
        case Some(text) => Ok(ov.(path := Some(text)))
        case None => Err(PathInvalid)
      else if key == KEY_SIZE then
        match ParseRadix(value, 10)
        case Some(n) => Ok(ov.(size := Some(n)))
        case None => Err(ArchiveInvalid)
      else if key == KEY_LINKPATH then Err(LinkUnsupported)
      else Ok(ov)
  }

  /** One `"%d %s=%s\n"` record: what stands between its length and its newline, and the whole length. */
  datatype Record = Record(text: seq<byte>, length: nat)

  /** Where the length ends and what it says. */
  datatype Length = Length(space: nat, value: nat)

  function FirstLength(records: seq<byte>): (r: Option<Length>)
    ensures r.Some? ==> r.value.space < |records|
  {
    var digits := Until(records, (x: byte) => x == 0x20);
    if |digits| == |records| then None
    else
      match ParseRadix(digits, 10)
      case None => None
      case Some(length) => Some(Length(|digits|, length))
  }

  function FirstRecord(records: seq<byte>): (r: Result<Record, Error>)
    ensures r.Ok? ==> 2 <= r.value.length <= |records|
    ensures r.Err? ==> r.error == ArchiveInvalid
  {
    match FirstLength(records)
    case None => Err(ArchiveInvalid)
    case Some(l) =>
      if l.value < l.space + 2 || l.value > |records| then Err(ArchiveInvalid)
      else Ok(Record(records[l.space + 1..l.value - 1], l.value))
  }

  /** The sum of the cursor and the record's length is formed, and does not fit a machine word. */
  predicate SumOverflows(records: seq<byte>, cursor: nat) {
    && var l := FirstLength(records);
    && l.Some? && l.value.value >= l.value.space + 2 && cursor + l.value.value >= U64_LIMIT
  }

  /** The record at a cursor, as the code reads it. */
  function RecordAt(records: seq<byte>, cursor: nat): (r: Result<Record, Error>)
    ensures r.Ok? ==> 2 <= r.value.length <= |records|
  {
    if SumOverflows(records, cursor) then Err(Overflow) else FirstRecord(records)
  }

  type FirstFunction = (seq<byte>, nat) -> Result<Record, Error>
  type RecordFunction = (seq<byte>, Overrides) -> Result<Overrides, Error>

  /** Every record takes some of the bytes that are there. */
  ghost predicate Advances(first: FirstFunction) {
    forall records, cursor :: first(records, cursor).Ok? ==> 0 < first(records, cursor).value.length <= |records|
  }

  /** Records read by `first` from a cursor on and applied by `one`, in order. */
  function Walk(first: FirstFunction, one: RecordFunction, records: seq<byte>, cursor: nat, ov: Overrides): (r: Result<Overrides, Error>)
    requires Advances(first)
    decreases |records|
  {
    if records == [] then Ok(ov)
    else
      match first(records, cursor)
      case Err(e) => Err(e)
      case Ok(record) =>
        match one(record.text, ov)
        case Err(e) => Err(e)
        case Ok(next) => Walk(first, one, records[record.length..], cursor + record.length, next)
  }

  lemma RecordsAdvance()
    ensures Advances(RecordAt)
  {
  }

  /** The records of a pax extended header. */
  function ApplyPax(body: seq<byte>, ov: Overrides): (r: Result<Overrides, Error>) {
    RecordsAdvance();
    Walk(RecordAt, ApplyRecord, body, 0, ov)
  }

  // ----- Members

  datatype Header = Header(path: seq<Code>, size: nat, mode: nat)

  /** The next file: its header, the bytes from its body on, and the paths seen. */
  datatype Found = Found(header: Header, rest: seq<byte>, seen: set<seq<Code>>)

  predicate AllZero(b: seq<byte>) {
    forall i :: 0 <= i < |b| ==> b[i] == 0
  }

  /** Two zero blocks and then nothing but zeros. */
  function EndMarker(bytes: seq<byte>): (r: Result<Advance, Error>)
    ensures r.Ok? ==> r.value.Ended?
  {
    if |bytes| < BLOCK || !AllZero(bytes[..BLOCK]) || !AllZero(bytes[BLOCK..]) then Err(ArchiveInvalid) else Ok(Ended)
  }

  const FLAG_PAX: byte := 0x78
  const FLAG_PAX_OLD: byte := 0x58
  const FLAG_GLOBAL: byte := 0x67
  const FLAG_LONG_NAME: byte := 0x4c
  const FLAG_LONG_LINK: byte := 0x4b

  predicate IsMetadata(flag: byte) {
    flag in {FLAG_PAX, FLAG_PAX_OLD, FLAG_GLOBAL, FLAG_LONG_NAME, FLAG_LONG_LINK}
  }

  /** The overrides after a metadata member. */
  function ApplyMetadata(flag: byte, body: seq<byte>, ov: Overrides): (r: Result<Overrides, Error>) {
    if flag == FLAG_PAX || flag == FLAG_PAX_OLD then ApplyPax(body, ov)
    else if flag == FLAG_LONG_NAME then
      match Decode(StripNul(body))
      case Some(name) => Ok(ov.(path := Some(name)))
      case None => Err(PathInvalid)
    else Ok(ov)
  }

  /** A header block that is not metadata, given the overrides in force. */
  function FileHeader(block: seq<byte>, size: nat, ov: Overrides, seen: set<seq<Code>>): (r: Result<Header, Error>)
    requires |block| == BLOCK
  {
    var raw :- (match ov.path case Some(path) => Ok(path) case None => HeaderPath(block));
    var path :- ValidatePath(raw);
    var flag := block[156];
    if flag == 0x31 || flag == 0x32 then Err(LinkUnsupported)
    else if flag != 0x30 && flag != 0 && flag != 0x37 then Err(MemberTypeUnsupported(path, flag))
    else if path in seen then Err(PathDuplicate(path))
    else
      var mode :- ParseOctal(block[100..108]);
      Ok(Header(path, if ov.size.Some? then ov.size.value else size, Mask(mode, 32)))
  }

  /** What one header block leads to. */
  datatype Advance = Ended | File(found: Found) | More(rest: seq<byte>, ov: Overrides)

  /** A metadata member leaves its mark on the overrides only. */
  function Skipped(flag: byte, size: nat, rest: seq<byte>, ov: Overrides): (r: Result<Advance, Error>)
    ensures r.Ok? ==> r.value.More? && |r.value.rest| <= |rest|
  {
    var cut :- Metadata(rest, size);
    var next :- ApplyMetadata(flag, cut.body, ov);
    Ok(More(cut.rest, next))
  }

  function Block(bytes: seq<byte>, ov: Overrides, seen: set<seq<Code>>): (r: Result<Advance, Error>)
    ensures r.Ok? && r.value.File? ==> |r.value.found.rest| < |bytes|
    ensures r.Ok? && r.value.More? ==> |r.value.rest| < |bytes|
  {
    if |bytes| < BLOCK then Err(ArchiveInvalid)
    else if AllZero(bytes[..BLOCK]) then EndMarker(bytes[BLOCK..])
    else HeaderBlock(bytes[..BLOCK], bytes[BLOCK..], ov, seen)
  }

  function HeaderBlock(block: seq<byte>, rest: seq<byte>, ov: Overrides, seen: set<seq<Code>>): (r: Result<Advance, Error>)
    requires |block| == BLOCK
    ensures r.Ok? && r.value.File? ==> r.value.found.rest == rest
    ensures r.Ok? && r.value.More? ==> |r.value.rest| <= |rest|
  {
    var _ :- VerifyChecksum(block);
    var size :- ParseOctal(block[124..136]);
    if IsMetadata(block[156]) then Skipped(block[156], size, rest, ov)
    else
      var header :- FileHeader(block, size, ov, seen);
      Ok(File(Found(header, rest, seen + {header.path})))
  }

  /** Advances to the next regular file, consuming metadata members on the way. */
  function Next(bytes: seq<byte>, ov: Overrides, seen: set<seq<Code>>): (r: Result<Option<Found>, Error>)
    ensures r.Ok? && r.value.Some? ==> |r.value.value.rest| < |bytes|
    decreases |bytes|
  {
    var advance :- Block(bytes, ov, seen);
    match advance
    case Ended => Ok(None)
    case File(found) => Ok(Some(found))
    case More(rest, next) => Next(rest, next, seen)
  }

  datatype Member = Member(path: seq<Code>, size: nat, body: seq<byte>)

  function Body(found: Found): (r: Result<Cut, Error>)
    ensures r.Ok? ==> |r.value.rest| <= |found.rest|
  {
    var size := found.header.size;
    if |found.rest| < size then Err(MemberSizeMismatch(found.header.path))
    else if |found.rest| < size + PaddingFor(size) then Err(ArchiveInvalid)
    else Ok(Cut(found.rest[..size], found.rest[size + PaddingFor(size)..]))
  }

  /** All members of an archive. */
  function Members(bytes: seq<byte>, seen: set<seq<Code>>): (r: Result<seq<Member>, Error>)
    decreases |bytes|
  {
    var next :- Next(bytes, NO_OVERRIDES, seen);
    match next
    case None => Ok([])
    case Some(found) =>
      var cut :- Body(found);
      var more :- Members(cut.rest, found.seen);
      Ok([Member(found.header.path, found.header.size, cut.body)] + more)
  }

  function Archive(bytes: seq<byte>): (r: Result<seq<Member>, Error>) {
    Members(bytes, {})
  }
}
