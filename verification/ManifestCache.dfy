/**
 * The manifest cache: what is written next to an artifact, what is accepted
 * when it is read back, and that using it never changes an answer.
 */
module ManifestCache {
  import opened Bits
  import opened Results
  import opened Widths
  import opened Seal
  import opened Wire
  import opened ManifestMessages
  import opened DigestText
  import Text
  import Mtdparts

  type Words = seq<byte>

  datatype Role = PartitionTable | Loader | ImageCandidate | Metadata | Unclassified

  datatype Version = Version(major: nat, minor: nat, patch: nat)

  datatype MemberFact = MemberFact(path: Words, size: nat, sha256: Digest, role: Role)

  datatype EntryFact = EntryFact(
    index: nat, name: Words, offset: nat, size: Option<nat>, attribute: Option<Mtdparts.Attribute>, branch: Mtdparts.GrammarBranch)

  datatype TableFact = TableFact(device: Words, blockSize: nat, entries: seq<EntryFact>)

  datatype Manifest = Manifest(
    formatId: Words, version: Version, digest: Digest, size: nat, members: seq<MemberFact>, table: Option<TableFact>,
    facts: seq<Pair>, unclassified: seq<Words>, unknowns: seq<Pair>, production: bool)

  /** Identifier syntax, manifest validation and the canonical digest. */
  datatype Tools = Tools(isId: Words -> bool, valid: Manifest -> bool, digestOf: Manifest -> Option<Digest>)

  // ----- Names

  function RoleText(r: Role): (s: Words) {
    match r
    case PartitionTable => Text.Ascii("partitionTable")
    case Loader => Text.Ascii("loader")
    case ImageCandidate => Text.Ascii("imageCandidate")
    case Metadata => Text.Ascii("metadata")
    case Unclassified => Text.Ascii("unclassified")
  }

  function ParseRole(s: Words): (r: Option<Role>) {
    if s == RoleText(PartitionTable) then Some(PartitionTable)
    else if s == RoleText(Loader) then Some(Loader)
    else if s == RoleText(ImageCandidate) then Some(ImageCandidate)
    else if s == RoleText(Metadata) then Some(Metadata)
    else if s == RoleText(Unclassified) then Some(Unclassified)
    else None
  }

  lemma RoleRoundTrip(r: Role)
    ensures ParseRole(RoleText(r)) == Some(r) && IsText(RoleText(r)) && |RoleText(r)| < 16
  {
    assert RoleText(PartitionTable)[0] != RoleText(ImageCandidate)[0];
    assert |RoleText(PartitionTable)| == |RoleText(ImageCandidate)| == 14 && |RoleText(Loader)| == 6;
    assert |RoleText(Metadata)| == 8 && |RoleText(Unclassified)| == 12;
    Text.AsciiIsText(RoleText(r));
  }

  function BranchText(b: Mtdparts.GrammarBranch): (s: Words) {
    match b
    case Fixed => Text.Ascii("fixed")
    case FixedBootable => Text.Ascii("fixedBootable")
    case RemainderGrow => Text.Ascii("remainderGrow")
  }

  function ParseBranch(s: Words): (r: Option<Mtdparts.GrammarBranch>) {
    if s == BranchText(Mtdparts.Fixed) then Some(Mtdparts.Fixed)
    else if s == BranchText(Mtdparts.FixedBootable) then Some(Mtdparts.FixedBootable)
    else if s == BranchText(Mtdparts.RemainderGrow) then Some(Mtdparts.RemainderGrow)
    else None
  }

  lemma BranchRoundTrip(b: Mtdparts.GrammarBranch)
    ensures ParseBranch(BranchText(b)) == Some(b) && IsText(BranchText(b)) && |BranchText(b)| < 16
  {
    assert BranchText(Mtdparts.FixedBootable)[0] != BranchText(Mtdparts.RemainderGrow)[0];
    assert |BranchText(Mtdparts.Fixed)| == 5 && |BranchText(Mtdparts.FixedBootable)| == |BranchText(Mtdparts.RemainderGrow)| == 13;
    Text.AsciiIsText(BranchText(b));
  }

  /** No attribute is written as the empty string. */
  function AttributeText(a: Option<Mtdparts.Attribute>): (s: Words) {
    match a
    case None => []
    case Some(Bootable) => Text.Ascii("bootable")
    case Some(Grow) => Text.Ascii("grow")
  }

  function ParseAttribute(s: Words): (r: Option<Option<Mtdparts.Attribute>>) {
    if s == [] then Some(None)
    else if s == AttributeText(Some(Mtdparts.Bootable)) then Some(Some(Mtdparts.Bootable))
    else if s == AttributeText(Some(Mtdparts.Grow)) then Some(Some(Mtdparts.Grow))
    else None
  }

  lemma AttributeRoundTrip(a: Option<Mtdparts.Attribute>)
    ensures ParseAttribute(AttributeText(a)) == Some(a) && IsText(AttributeText(a)) && |AttributeText(a)| < 16
  {
    assert |AttributeText(Some(Mtdparts.Bootable))| == 8 && |AttributeText(Some(Mtdparts.Grow))| == 4;
    Text.AsciiIsText(AttributeText(a));
  }

  function ConfidenceText(production: bool): (s: Words) {
    if production then Text.Ascii("productionManifest") else Text.Ascii("researchOnly")
  }

  function ParseConfidence(s: Words): (r: Option<bool>) {
    if s == ConfidenceText(false) then Some(false) else if s == ConfidenceText(true) then Some(true) else None
  }

  lemma ConfidenceRoundTrip(production: bool)
    ensures ParseConfidence(ConfidenceText(production)) == Some(production)
    ensures IsText(ConfidenceText(production)) && |ConfidenceText(production)| < 32
  {
    assert |ConfidenceText(true)| == 18 && |ConfidenceText(false)| == 12;
    Text.AsciiIsText(ConfidenceText(production));
  }

  // ----- Versions

  function Decimal(v: nat): (s: Words)
    ensures s != [] && forall i :: 0 <= i < |s| ==> 0x30 <= s[i] <= 0x39
  {
    if v < 10 then [0x30 + v] else Decimal(v / 10) + [0x30 + v % 10]
  }

  predicate AreDigits(s: Words) {
    forall i :: 0 <= i < |s| ==> 0x30 <= s[i] <= 0x39
  }

  function DecimalValue(s: Words): (v: nat)
    requires AreDigits(s)
  {
    if s == [] then 0 else 10 * DecimalValue(s[..|s| - 1]) + (s[|s| - 1] - 0x30)
  }

  /** `str::parse::<u32>`: an optional plus sign and digits, no overflow. */
  function ParseU32(s: Words): (r: Option<nat>) {
    var digits := if s != [] && s[0] == 0x2b then s[1..] else s;
    if digits == [] || !AreDigits(digits) || DecimalValue(digits) >= U32_LIMIT then None else Some(DecimalValue(digits))
  }

  lemma {:induction false} DecimalRoundTrip(v: nat)
    ensures DecimalValue(Decimal(v)) == v
  {
    if v < 10 {
    } else {
      DecimalRoundTrip(v / 10);
      assert Decimal(v)[..|Decimal(v)| - 1] == Decimal(v / 10);
    }
  }

  lemma U32RoundTrip(v: nat)
    requires v < U32_LIMIT
    ensures ParseU32(Decimal(v)) == Some(v)
  {
    DecimalRoundTrip(v);
  }

  const DOT: byte := 0x2e

  function FindDot(s: Words): (i: nat)
    ensures i <= |s| && (forall j :: 0 <= j < i ==> s[j] != DOT) && (i < |s| ==> s[i] == DOT)
  {
    if s == [] || s[0] == DOT then 0 else 1 + FindDot(s[1..])
  }

  function PrintVersion(v: Version): (s: Words) {
    Decimal(v.major) + [DOT] + (Decimal(v.minor) + [DOT] + Decimal(v.patch))
  }

  datatype Triple = Triple(first: Words, second: Words, third: Words)

  /** Cuts at the dots; anything but three parts is nothing. */
  function CutAtDots(s: Words): (r: Option<Triple>) {
    var i := FindDot(s);
    if i == |s| then None
    else
      var rest := s[i + 1..];
      var j := FindDot(rest);
      if j == |rest| then None
      else
        var last := rest[j + 1..];
        if FindDot(last) < |last| then None else Some(Triple(s[..i], rest[..j], last))
  }

  function ParseTriple(t: Triple): (r: Option<Version>) {
    var a, b, c := ParseU32(t.first), ParseU32(t.second), ParseU32(t.third);
    if a.Some? && b.Some? && c.Some? then Some(Version(a.value, b.value, c.value)) else None
  }

  /** `Version::parse`. */
  function ParseVersion(s: Words): (r: Option<Version>) {
    match CutAtDots(s)
    case None => None
    case Some(t) => ParseTriple(t)
  }

  lemma {:induction false} DotBehind(digits: Words, rest: Words)
    requires AreDigits(digits)
    ensures FindDot(digits) == |digits| && FindDot(digits + [DOT] + rest) == |digits|
  {
    var s := digits + [DOT] + rest;
    if digits == [] {
      assert s[0] == DOT;
    } else {
      DotBehind(digits[1..], rest);
      assert s[0] == digits[0] && s[1..] == digits[1..] + [DOT] + rest;
    }
  }

  predicate VersionOk(v: Version) {
    v.major < U32_LIMIT && v.minor < U32_LIMIT && v.patch < U32_LIMIT
  }

  lemma CutPrinted(a: Words, b: Words, c: Words)
    requires AreDigits(a) && AreDigits(b) && AreDigits(c)
    ensures CutAtDots(a + [DOT] + (b + [DOT] + c)) == Some(Triple(a, b, c))
  {
    var rest := b + [DOT] + c;
    var s := a + [DOT] + rest;
    DotBehind(a, rest);
    DotBehind(b, c);
    DotBehind(c, []);
    assert s[..|a|] == a && s[|a| + 1..] == rest;
    assert rest[..|b|] == b && rest[|b| + 1..] == c;
  }

  lemma TripleRoundTrip(v: Version)
    requires VersionOk(v)
    ensures ParseTriple(Triple(Decimal(v.major), Decimal(v.minor), Decimal(v.patch))) == Some(v)
  {
    U32RoundTrip(v.major);
    U32RoundTrip(v.minor);
    U32RoundTrip(v.patch);
  }

  lemma VersionIsText(v: Version)
    ensures IsText(PrintVersion(v))
  {
    Text.AsciiIsText(PrintVersion(v));
  }

  lemma VersionRoundTrip(v: Version)
    requires VersionOk(v)
    ensures ParseVersion(PrintVersion(v)) == Some(v)
  {
    CutPrinted(Decimal(v.major), Decimal(v.minor), Decimal(v.patch));
    TripleRoundTrip(v);
  }

  // ----- Manifests and responses

  /** `collect::<Result<_, _>>`. */
  function TryAll<T, U>(items: seq<T>, parse: T -> Option<U>): (r: Option<seq<U>>)
    decreases |items|
  {
    if items == [] then Some([])
    else
      match parse(items[0])
      case None => None
      case Some(first) =>
        match TryAll(items[1..], parse)
        case None => None
        case Some(more) => Some([first] + more)
  }

  lemma {:induction false} TryAllMapped<T, U>(items: seq<U>, f: U -> T, parse: T -> Option<U>)
    requires forall i :: 0 <= i < |items| ==> parse(f(items[i])) == Some(items[i])
    ensures TryAll(Mapped(items, f), parse) == Some(items)
    decreases |items|
  {
    if items != [] {
      var mapped := Mapped(items, f);
      TryAllMapped(items[1..], f, parse);
      assert mapped[1..] == Mapped(items[1..], f);
      assert items == [items[0]] + items[1..];
    } else {
      assert Mapped(items, f) == [];
    }
  }

  function ToMember(m: MemberFact): (r: Member) {
    Member(m.path, m.size, Print(m.sha256), RoleText(m.role))
  }

  function FromMember(m: Member): (r: Option<MemberFact>) {
    match Parse(m.sha256)
    case None => None
    case Some(sha256) =>
      match ParseRole(m.role)
      case None => None
      case Some(role) => Some(MemberFact(m.path, m.size, sha256, role))
  }

  function ToEntry(e: EntryFact): (r: Entry) {
    Entry(e.index, e.name, e.offset, e.size, AttributeText(e.attribute), BranchText(e.branch))
  }

  function FromEntry(e: Entry): (r: Option<EntryFact>) {
    match ParseAttribute(e.attribute)
    case None => None
    case Some(attribute) =>
      match ParseBranch(e.branch)
      case None => None
      case Some(branch) => Some(EntryFact(e.index, e.name, e.offset, e.size, attribute, branch))
  }

  function FromPair(p: Pair, t: Tools): (r: Option<Pair>) {
    if t.isId(p.key) then Some(p) else None
  }

  function Entries(m: Manifest): (r: seq<EntryFact>) {
    if m.table.Some? then m.table.value.entries else []
  }

  /** `manifest_response`. */
  function ToResponse(m: Manifest, t: Tools): (r: Response) {
    Response(
      m.formatId, Print(m.digest), m.size,
      Mapped(m.members, ToMember), Mapped(Entries(m), ToEntry),
      m.facts, m.unclassified, m.unknowns, ConfidenceText(m.production),
      if t.digestOf(m).Some? then Print(t.digestOf(m).value) else [])
  }

  /** The variables the field loop of the cache decoder fills. */
  datatype Envelope = Envelope(
    schema: Words, response: Option<Response>, version: Words, hasTable: bool, device: Words, blockSize: nat)

  const NO_ENVELOPE: Envelope := Envelope([], None, [], false, [], 0)

  function Schema(): (s: Words) {
    Text.Ascii("arkforge.artifact-manifest-cache/v1")
  }

  function TableFrom(e: Envelope, partitions: seq<Entry>): (r: Option<Option<TableFact>>) {
    if e.hasTable then
      if e.device == [] || e.blockSize == 0 then None
      else
        match TryAll(partitions, FromEntry)
        case None => None
        case Some(entries) => Some(Some(TableFact(e.device, e.blockSize, entries)))
    else if partitions != [] then None
    else Some(None)
  }

  /** The manifest a response stands for, before it is validated. */
  function ManifestFrom(e: Envelope, r: Response, digest: Digest, t: Tools): (m: Option<Manifest>) {
    var version, members, table := ParseVersion(e.version), TryAll(r.members, FromMember), TableFrom(e, r.partitions);
    var facts, unknowns := TryAll(r.facts, (x: Pair) => FromPair(x, t)), TryAll(r.unknowns, (x: Pair) => FromPair(x, t));
    var confidence := ParseConfidence(r.confidence);
    if t.isId(r.formatId) && version.Some? && members.Some? && table.Some? && facts.Some? && unknowns.Some? && confidence.Some? then
      Some(Manifest(r.formatId, version.value, digest, r.size, members.value, table.value, facts.value, r.unclassified,
                    unknowns.value, confidence.value))
    else None
  }

  /** The checks after the field loop. */
  function Accept(e: Envelope, expected: Digest, objectSize: nat, t: Tools): (m: Option<Manifest>)
    ensures m.Some? ==> m.value.digest == expected && m.value.size == objectSize && t.valid(m.value)
  {
    if e.schema != Schema() || e.response.None? then None
    else
      var r := e.response.value;
      if r.size != objectSize || Parse(r.contentSha256) != Some(expected) then None
      else
        match ManifestFrom(e, r, expected, t)
        case None => None
        case Some(m) =>
          if t.valid(m) && t.digestOf(m).Some? && Parse(r.manifestSha256) == t.digestOf(m) then Some(m) else None
  }

  /** What strings and machine words guarantee of every manifest: UTF-8 text, 32-bit and 64-bit numbers, buffers whose
      length is a machine word. */
  ghost predicate InRange(m: Manifest, t: Tools) {
    && VersionOk(m.version) && ResponseOk(ToResponse(m, t))
    && Fits(EncodeResponse(ToResponse(m, t))) && Fits(PrintVersion(m.version))
    && (m.table.Some? ==> IsText(m.table.value.device) && Fits(m.table.value.device) && m.table.value.blockSize < U32_LIMIT)
  }

  predicate TableComplete(m: Manifest) {
    m.table.Some? ==> m.table.value.device != [] && m.table.value.blockSize != 0
  }

  predicate AreIds(pairs: seq<Pair>, t: Tools) {
    forall i :: 0 <= i < |pairs| ==> t.isId(pairs[i].key)
  }

  predicate IdsOk(m: Manifest, t: Tools) {
    t.isId(m.formatId) && AreIds(m.facts, t) && AreIds(m.unknowns, t)
  }

  predicate NoEmptyName(m: Manifest) {
    forall i :: 0 <= i < |m.unclassified| ==> m.unclassified[i] != []
  }

  /** A manifest that the cache gives back: valid, with conforming identifiers, a complete table and no empty name. */
  predicate Storable(m: Manifest, t: Tools) {
    t.valid(m) && t.digestOf(m).Some? && IdsOk(m, t) && TableComplete(m) && NoEmptyName(m)
  }

  function ToEnvelope(m: Manifest, t: Tools): (e: Envelope) {
    Envelope(Schema(), Some(ToResponse(m, t)), PrintVersion(m.version), m.table.Some?,
             if m.table.Some? then m.table.value.device else [], if m.table.Some? then m.table.value.blockSize else 0)
  }

  lemma MembersReturn(members: seq<MemberFact>)
    ensures TryAll(Mapped(members, ToMember), FromMember) == Some(members)
  {
    forall i | 0 <= i < |members|
      ensures FromMember(ToMember(members[i])) == Some(members[i])
    {
      RoleRoundTrip(members[i].role);
      OneSpelling(members[i].sha256, Print(members[i].sha256));
    }
    TryAllMapped(members, ToMember, FromMember);
  }

  lemma EntriesReturn(entries: seq<EntryFact>)
    ensures TryAll(Mapped(entries, ToEntry), FromEntry) == Some(entries)
  {
    forall i | 0 <= i < |entries|
      ensures FromEntry(ToEntry(entries[i])) == Some(entries[i])
    {
      AttributeRoundTrip(entries[i].attribute);
      BranchRoundTrip(entries[i].branch);
    }
    TryAllMapped(entries, ToEntry, FromEntry);
  }

  lemma {:induction false} TryAllFails<T, U>(items: seq<T>, parse: T -> Option<U>, i: nat)
    requires i < |items| && parse(items[i]).None?
    ensures TryAll(items, parse).None?
    decreases |items|
  {
    if i == 0 || parse(items[0]).None? {
    } else {
      TryAllFails(items[1..], parse, i - 1);
    }
  }

  lemma PairsReturn(pairs: seq<Pair>, t: Tools)
    ensures TryAll(pairs, (x: Pair) => FromPair(x, t)) == if AreIds(pairs, t) then Some(pairs) else None
  {
    var g := (x: Pair) => FromPair(x, t);
    if AreIds(pairs, t) {
      TryAllMapped(pairs, (x: Pair) => x, g);
      assert Mapped(pairs, (x: Pair) => x) == pairs;
    } else {
      var i :| 0 <= i < |pairs| && !t.isId(pairs[i].key);
      TryAllFails(pairs, g, i);
    }
  }

  /** The response as it comes back: without its empty names. */
  function Returned(m: Manifest, t: Tools): (r: Response) {
    ToResponse(m, t).(unclassified := NonEmpty(m.unclassified))
  }

  function Kept(m: Manifest): (k: Manifest) {
    m.(unclassified := NonEmpty(m.unclassified))
  }

  lemma TableReturns(m: Manifest, t: Tools)
    ensures TableFrom(ToEnvelope(m, t), Returned(m, t).partitions) == if TableComplete(m) then Some(m.table) else None
  {
    EntriesReturn(Entries(m));
  }

  /** What the decoder makes of the response, before it looks at the digest. */
  lemma ManifestReturns(m: Manifest, t: Tools)
    requires VersionOk(m.version)
    ensures ManifestFrom(ToEnvelope(m, t), Returned(m, t), m.digest, t)
            == if IdsOk(m, t) && TableComplete(m) then Some(Kept(m)) else None
  {
    VersionRoundTrip(m.version);
    MembersReturn(m.members);
    TableReturns(m, t);
    PairsReturn(m.facts, t);
    PairsReturn(m.unknowns, t);
    ConfidenceRoundTrip(m.production);
  }

  lemma KeptIsAll(m: Manifest)
    ensures Kept(m) == m <==> NoEmptyName(m)
  {
    NonEmptyIsAll(m.unclassified);
  }

  /** What came back has the digest that was written with it. */
  predicate SameDigest(m: Manifest, t: Tools) {
    t.digestOf(m).Some? && t.digestOf(Kept(m)) == t.digestOf(m)
  }

  /** The canonical digest tells a manifest from what is left of it without its empty names. */
  predicate NoCollision(m: Manifest, t: Tools) {
    SameDigest(m, t) ==> Kept(m) == m
  }

  lemma DigestTest(m: Manifest, t: Tools)
    ensures t.digestOf(Kept(m)).Some? && Parse(ToResponse(m, t).manifestSha256) == t.digestOf(Kept(m)) <==> SameDigest(m, t)
  {
    if t.digestOf(m).Some? {
      OneSpelling(t.digestOf(m).value, Print(t.digestOf(m).value));
    }
  }

  /** What the checks make of a written file, whatever the digest function is. */
  lemma AcceptReturns(m: Manifest, d: Digest, size: nat, t: Tools)
    requires VersionOk(m.version)
    ensures Accept(ToEnvelope(m, t).(response := Some(Returned(m, t))), d, size, t)
            == if d == m.digest && size == m.size && IdsOk(m, t) && TableComplete(m) && t.valid(Kept(m)) && SameDigest(m, t)
               then Some(Kept(m)) else None
  {
    ManifestReturns(m, t);
    DigestTest(m, t);
    OneSpelling(m.digest, Print(m.digest));
    SameManifest(ToEnvelope(m, t), Returned(m, t), m.digest, t);
  }

  /** Which response the envelope carries makes no difference to the rest of it. */
  lemma SameManifest(e: Envelope, r: Response, d: Digest, t: Tools)
    ensures ManifestFrom(e.(response := Some(r)), r, d, t) == ManifestFrom(e, r, d, t)
  {
  }

  // ----- The cache file

  function TableFields(e: Envelope): (fs: seq<Field>) {
    if e.hasTable then Flag(4, true) + Str(5, e.device) + Num(6, e.blockSize) else []
  }

  function EnvelopeFields(e: Envelope): (fs: seq<Field>)
    requires e.response.Some?
  {
    Str(1, e.schema) + [Bytes(2, EncodeResponse(e.response.value))] + Str(3, e.version) + TableFields(e)
  }

  /** What `persist_manifest_cache` writes. */
  function EncodeCache(m: Manifest, t: Tools): (b: seq<byte>) {
    EncodeFields(EnvelopeFields(ToEnvelope(m, t)))
  }

  function ApplyEnvelope(e: Envelope, f: Field): (r: Option<Envelope>) {
    if f.number == 1 then match AsText(f) case Some(s) => Some(e.(schema := s)) case None => None
    else if f.number == 2 then match Nested(f, DecodeResponse) case Some(r) => Some(e.(response := Some(r))) case None => None
    else if f.number == 3 then match AsText(f) case Some(s) => Some(e.(version := s)) case None => None
    else if f.number == 4 then match AsNumber(f) case Some(v) => Some(e.(hasTable := v != 0)) case None => None
    else if f.number == 5 then match AsText(f) case Some(s) => Some(e.(device := s)) case None => None
    else if f.number == 6 then
      match AsNumber(f)
      case Some(v) => if v < U32_LIMIT then Some(e.(blockSize := v)) else None
      case None => None
    else Some(e)
  }

  function DecodeCache(b: seq<byte>, expected: Digest, objectSize: nat, t: Tools): (m: Option<Manifest>)
    ensures m.Some? ==> m.value.digest == expected && m.value.size == objectSize && t.valid(m.value)
  {
    match Decode(b, NO_ENVELOPE, ApplyEnvelope)
    case None => None
    case Some(e) => Accept(e, expected, objectSize, t)
  }

  /** `decode_manifest_cache`: one field after the other, then the checks. */
  method DecodeManifestCache(b: seq<byte>, expected: Digest, objectSize: nat, t: Tools) returns (m: Option<Manifest>)
    ensures m.Some? ==> m == DecodeCache(b, expected, objectSize, t)
    ensures m.None? ==> DecodeCache(b, expected, objectSize, t).None?
  {
    var rest, e := b, NO_ENVELOPE;
    ghost var goal := Decode(b, NO_ENVELOPE, ApplyEnvelope);
    while rest != []
      invariant Decode(rest, e, ApplyEnvelope) == goal
      decreases |rest|
    {
      var next := ReadField(rest);
      DecodeStep(rest, e, ApplyEnvelope);
      if next.None? {
        return None;
      }
      var applied := ApplyEnvelope(e, next.value.0);
      if applied.None? {
        return None;
      }
      rest, e := next.value.1, applied.value;
    }
    m := Accept(e, expected, objectSize, t);
  }

  lemma TableFolds(e: Envelope, x: Envelope)
    requires !x.hasTable && x.device == [] && x.blockSize == 0 && IsText(e.device) && e.blockSize < U32_LIMIT
    ensures Fold(TableFields(e), x, ApplyEnvelope)
            == Some(if e.hasTable then x.(hasTable := true, device := e.device, blockSize := e.blockSize) else x)
  {
    if e.hasTable {
      var y := x.(hasTable := true);
      var z := y.(device := e.device);
      var w := z.(blockSize := e.blockSize);
      FoldFlag(4, true, x, y, ApplyEnvelope);
      FoldStr(5, e.device, y, z, ApplyEnvelope);
      FoldNum(6, e.blockSize, z, w, ApplyEnvelope);
      FoldThen(Flag(4, true), Str(5, e.device), x, y, z, ApplyEnvelope);
      FoldThen(Flag(4, true) + Str(5, e.device), Num(6, e.blockSize), x, z, w, ApplyEnvelope);
    }
  }

  lemma EnvelopeFolds(e: Envelope, back: Response)
    requires e.response.Some? && DecodeResponse(EncodeResponse(e.response.value)) == Some(back)
    requires IsText(e.schema) && IsText(e.version) && IsText(e.device) && e.blockSize < U32_LIMIT
    requires !e.hasTable ==> e.device == [] && e.blockSize == 0
    ensures Fold(EnvelopeFields(e), NO_ENVELOPE, ApplyEnvelope) == Some(e.(response := Some(back)))
  {
    var a, b, c := Str(1, e.schema), [Bytes(2, EncodeResponse(e.response.value))], Str(3, e.version);
    var x := NO_ENVELOPE.(schema := e.schema);
    var y := x.(response := Some(back));
    var z := y.(version := e.version);
    FoldStr(1, e.schema, NO_ENVELOPE, x, ApplyEnvelope);
    FoldOne(Bytes(2, EncodeResponse(e.response.value)), x, ApplyEnvelope);
    FoldStr(3, e.version, y, z, ApplyEnvelope);
    TableFolds(e, z);
    FoldThen(a, b, NO_ENVELOPE, x, y, ApplyEnvelope);
    FoldThen(a + b, c, NO_ENVELOPE, y, z, ApplyEnvelope);
    FoldThen(a + b + c, TableFields(e), NO_ENVELOPE, z, e.(response := Some(back)), ApplyEnvelope);
  }

  lemma TableWritable(e: Envelope)
    requires Fits(e.device) && e.blockSize < U32_LIMIT
    ensures AllWritable(TableFields(e))
  {
    NumWritable(4, 1);
    StrWritable(5, e.device);
    NumWritable(6, e.blockSize);
    WritableConcat(Flag(4, true), Str(5, e.device));
    WritableConcat(Flag(4, true) + Str(5, e.device), Num(6, e.blockSize));
  }

  lemma EnvelopeWritable(e: Envelope)
    requires e.response.Some? && Fits(EncodeResponse(e.response.value)) && Fits(e.schema) && Fits(e.version) && Fits(e.device)
    requires e.blockSize < U32_LIMIT
    ensures AllWritable(EnvelopeFields(e))
  {
    var a, b, c := Str(1, e.schema), [Bytes(2, EncodeResponse(e.response.value))], Str(3, e.version);
    StrWritable(1, e.schema);
    StrWritable(3, e.version);
    TableWritable(e);
    WritableConcat(a, b);
    WritableConcat(a + b, c);
    WritableConcat(a + b + c, TableFields(e));
  }

  lemma SchemaIsText()
    ensures IsText(Schema()) && Fits(Schema())
  {
    Text.AsciiIsText(Schema());
  }

  lemma NothingIsText()
    ensures IsText([])
  {
  }

  /** What a written cache file decodes to, for every manifest there can be and every digest function. */
  lemma CacheDecodes(m: Manifest, d: Digest, size: nat, t: Tools)
    requires InRange(m, t)
    ensures DecodeCache(EncodeCache(m, t), d, size, t)
            == if d == m.digest && size == m.size && IdsOk(m, t) && TableComplete(m) && t.valid(Kept(m)) && SameDigest(m, t)
               then Some(Kept(m)) else None
  {
    var e := ToEnvelope(m, t);
    SchemaIsText();
    NothingIsText();
    VersionIsText(m.version);
    ResponseDecodes(ToResponse(m, t));
    EnvelopeFolds(e, Returned(m, t));
    EnvelopeWritable(e);
    DecodeEncoded(EnvelopeFields(e), NO_ENVELOPE, ApplyEnvelope);
    AcceptReturns(m, d, size, t);
  }

  /**
   * When the digests of these two manifests do not collide, the file gives back
   * the manifest itself when it is storable and the file is asked for its own
   * object, and nothing otherwise.
   */
  lemma CacheRoundTrip(m: Manifest, d: Digest, size: nat, t: Tools)
    requires InRange(m, t) && NoCollision(m, t)
    ensures DecodeCache(EncodeCache(m, t), d, size, t)
            == if d == m.digest && size == m.size && Storable(m, t) then Some(m) else None
  {
    CacheDecodes(m, d, size, t);
    KeptIsAll(m);
  }

  // ----- Inspecting through the cache

  const MAX_CACHE_BYTES: nat := 8 * 1024 * 1024

  datatype CacheFile = CacheFile(bytes: seq<byte>, regular: bool, readOnly: bool)

  /** `load_manifest_cache`: anything unusual is a miss. */
  function Load(f: CacheFile, d: Digest, objectSize: nat, t: Tools): (m: Option<Manifest>) {
    if !f.regular || !f.readOnly || |f.bytes| > MAX_CACHE_BYTES then None else DecodeCache(f.bytes, d, objectSize, t)
  }

  /** Any parser: its manifests are in range, which is what their types say, and their digests do not collide. */
  ghost predicate ParserOk(parse: seq<byte> -> Option<Manifest>, t: Tools) {
    forall k: nat {:trigger Look(k)} :: Look(k) ==> ParserHolds(parse, t)
  }

  ghost predicate ParserHolds(parse: seq<byte> -> Option<Manifest>, t: Tools) {
    forall b :: parse(b).Some? ==> InRange(parse(b).value, t) && NoCollision(parse(b).value, t)
  }

  /** A cache file of the object `bytes` that loads holds what parsing gives. */
  ghost predicate Agrees(f: CacheFile, d: Digest, bytes: seq<byte>, parse: seq<byte> -> Option<Manifest>, t: Tools) {
    forall k: nat {:trigger Look(k)} :: Look(k) ==> Load(f, d, |bytes|, t).None? || Load(f, d, |bytes|, t) == parse(bytes)
  }

  lemma PublishedAgrees(m: Manifest, d: Digest, bytes: seq<byte>, parse: seq<byte> -> Option<Manifest>, t: Tools)
    requires ParserOk(parse, t) && parse(bytes) == Some(m) && m.digest == d
    ensures Agrees(CacheFile(EncodeCache(m, t), true, true), d, bytes, parse, t)
  {
    assert Look(0);
    CacheRoundTrip(m, d, |bytes|, t);
  }

  lemma LoadedAgrees(f: CacheFile, d: Digest, bytes: seq<byte>, parse: seq<byte> -> Option<Manifest>, t: Tools)
    requires Agrees(f, d, bytes, parse, t) && Load(f, d, |bytes|, t).Some?
    ensures parse(bytes) == Load(f, d, |bytes|, t)
    ensures parse(bytes).value.digest == d && t.valid(parse(bytes).value)
  {
    assert Look(0);
  }

  class Inspector {
    const tools: Tools
    /** Parsing a container. */
    const parse: seq<byte> -> Option<Manifest>
    /** The bytes that belong to an address. */
    ghost const content: Digest -> seq<byte>
    var objects: map<Digest, seq<byte>>
    var sealedObjects: set<Digest>
    var cache: map<Digest, CacheFile>

    ghost predicate Valid()
      reads this
    {
      && ParserOk(parse, tools)
      && (forall d :: d in objects ==> objects[d] == content(d))
      && (forall d :: d in cache ==> Agrees(cache[d], d, content(d), parse, tools))
    }

    constructor (t: Tools, p: seq<byte> -> Option<Manifest>, ghost bytesAt: Digest -> seq<byte>)
      requires ParserHolds(p, t)
      ensures Valid() && tools == t && parse == p && content == bytesAt
      ensures objects == map[] && cache == map[] && sealedObjects == {}
    {
      tools, parse, content := t, p, bytesAt;
      objects, sealedObjects, cache := map[], {}, map[];
    }

    /** What a full parse of the object answers. */
    ghost function Reparsed(d: Digest): (r: Option<Manifest>)
      reads this
    {
      if d in objects && parse(objects[d]).Some? && parse(objects[d]).value.digest == d
         && tools.valid(parse(objects[d]).value)
      then parse(objects[d]) else None
    }

    /** The next inspection will be answered from the cache. */
    ghost predicate Cached(d: Digest)
      reads this
    {
      d in objects && d in sealedObjects && d in cache && Load(cache[d], d, |objects[d]|, tools).Some?
    }

    /**
     * `inspect_stored_container`.  Whether the answer comes from the cache or
     * from the parser cannot be told from the answer, except that a miss also
     * has to seal the object.
     */
    method Inspect(d: Digest, sealFails: bool, persists: bool) returns (r: Option<Manifest>, hit: bool)
      requires Valid()
      modifies this
      ensures Valid() && objects == old(objects)
      ensures hit <==> old(Cached(d))
      ensures r == if !hit && sealFails then None else old(Reparsed(d))
      ensures if hit || r.None? then sealedObjects == old(sealedObjects) && cache == old(cache)
              else && sealedObjects == old(sealedObjects) + {d}
                   && cache == if persists then old(cache)[d := CacheFile(EncodeCache(r.value, tools), true, true)] else old(cache)
    {
      if d in objects && d in sealedObjects && d in cache {
        r := LoadCache(cache[d], d, |objects[d]|);
        if r.Some? {
          LoadedAgrees(cache[d], d, objects[d], parse, tools);
          hit := true;
          return;
        }
      }
      hit := false;
      r := Refresh(d, sealFails, persists);
    }

    /** A miss: parse, seal, and publish the manifest. */
    method Refresh(d: Digest, sealFails: bool, persists: bool) returns (r: Option<Manifest>)
      requires Valid()
      modifies this
      ensures Valid() && objects == old(objects)
      ensures r == if sealFails then None else old(Reparsed(d))
      ensures if r.None? then sealedObjects == old(sealedObjects) && cache == old(cache)
              else && sealedObjects == old(sealedObjects) + {d}
                   && cache == if persists then old(cache)[d := CacheFile(EncodeCache(r.value, tools), true, true)] else old(cache)
    {
      r := Parse(d);
      if r.None? {
        return;
      }
      if sealFails {
        return None;
      }
      sealedObjects := sealedObjects + {d};
      if persists {
        Publish(d, r.value);
      }
    }

    /** The full parse, with the checks that follow it. */
    method Parse(d: Digest) returns (r: Option<Manifest>)
      ensures r == Reparsed(d)
    {
      if d !in objects {
        return None;
      }
      r := parse(objects[d]);
      if r.Some? && (r.value.digest != d || !tools.valid(r.value)) {
        r := None;
      }
    }

    /** `persist_manifest_cache`. */
    method Publish(d: Digest, m: Manifest)
      requires Valid() && d in objects && parse(objects[d]) == Some(m) && m.digest == d
      modifies this`cache
      ensures Valid() && cache == old(cache)[d := CacheFile(EncodeCache(m, tools), true, true)]
    {
      PublishedAgrees(m, d, objects[d], parse, tools);
      cache := cache[d := CacheFile(EncodeCache(m, tools), true, true)];
    }

    method LoadCache(f: CacheFile, d: Digest, objectSize: nat) returns (m: Option<Manifest>)
      ensures m == Load(f, d, objectSize, tools)
    {
      if !f.regular || !f.readOnly || |f.bytes| > MAX_CACHE_BYTES {
        return None;
      }
      m := DecodeManifestCache(f.bytes, d, objectSize, tools);
    }

    /**
     * When the cache is of any use: after one inspection the next one is a hit
     * exactly when the manifest is storable, describes the object's size and
     * its file is within the size bound.
     */
    method InspectTwice(d: Digest) returns (first: Option<Manifest>, second: Option<Manifest>, hit: bool)
      requires Valid() && Reparsed(d).Some? && !Cached(d)
      modifies this
      ensures Valid() && objects == old(objects)
      ensures first == second == old(Reparsed(d))
      ensures var m := first.value;
              hit <==> Storable(m, tools) && m.size == |objects[d]| && |EncodeCache(m, tools)| <= MAX_CACHE_BYTES
    {
      var before;
      first, before := Inspect(d, false, true);
      LoadsIff(first.value, d, objects[d], parse, tools);
      second, hit := Inspect(d, false, true);
    }

    /** Somebody else's file in the cache directory, as long as it does not decode. */
    method Disturb(d: Digest, f: CacheFile)
      requires Valid() && Load(f, d, |content(d)|, tools).None?
      modifies this
      ensures Valid() && objects == old(objects) && cache == old(cache)[d := f]
    {
      cache := cache[d := f];
    }

    /** Objects come and go under their own address; the cache stays. */
    method Replace(now: map<Digest, seq<byte>>, seals: set<Digest>)
      requires Valid() && forall d :: d in now ==> now[d] == content(d)
      modifies this
      ensures Valid() && objects == now && sealedObjects == seals && cache == old(cache)
    {
      objects, sealedObjects := now, seals;
    }
  }

  lemma LoadsIff(m: Manifest, d: Digest, bytes: seq<byte>, parse: seq<byte> -> Option<Manifest>, t: Tools)
    requires ParserOk(parse, t) && parse(bytes) == Some(m) && m.digest == d
    ensures Load(CacheFile(EncodeCache(m, t), true, true), d, |bytes|, t).Some?
            <==> Storable(m, t) && m.size == |bytes| && |EncodeCache(m, t)| <= MAX_CACHE_BYTES
  {
    assert Look(0);
    CacheRoundTrip(m, d, |bytes|, t);
  }

  // ----- A manifest that goes through the cache

  function Zeros(): (d: Digest) {
    seq(DIGEST_BYTES, _ => 0)
  }

  function FormatId(): (s: Words)
    ensures |s| == 21
  {
    Text.Ascii("rockchip-images-targz")
  }

  function Device(): (s: Words)
    ensures |s| == 10
  {
    Text.Ascii("rk29xxnand")
  }

  function ExampleImage(): (m: MemberFact) {
    MemberFact(Text.Ascii("system.img"), 4096, Zeros(), ImageCandidate)
  }

  /** One image and a table, of a container of `size` bytes. */
  function Example(d: Digest, size: nat): (m: Manifest) {
    Manifest(FormatId(), Version(1, 0, 0), d, size, [ExampleImage()], Some(TableFact(Device(), 512, [])),
             [], [], [], false)
  }

  /** Any rule on identifiers that admits the format's own, with the validation and the digest left open. */
  predicate Admits(t: Tools, d: Digest, size: nat) {
    t.isId(FormatId()) && t.valid(Example(d, size)) && t.digestOf(Example(d, size)).Some?
  }

  lemma EnvelopeRoom(e: Envelope)
    requires e.response.Some?
    ensures Room(EnvelopeFields(e))
            <= 2 * (|e.schema| + |EncodeResponse(e.response.value)| + |e.version| + |e.device| + e.blockSize) + 14
  {
    var data := EncodeResponse(e.response.value);
    var a, b, c := Str(1, e.schema), [Bytes(2, data)], Str(3, e.version);
    StrRoom(1, e.schema);
    RoomOne(Bytes(2, data));
    StrRoom(3, e.version);
    TableRoom(e);
    RoomConcat(a, b);
    RoomConcat(a + b, c);
    RoomConcat(a + b + c, TableFields(e));
  }

  lemma TableRoom(e: Envelope)
    ensures Room(TableFields(e)) <= 2 * (|e.device| + e.blockSize) + 8
  {
    RoomOne(Varint(4, 1));
    StrRoom(5, e.device);
    NumRoom(6, e.blockSize);
    RoomConcat(Flag(4, true), Str(5, e.device));
    RoomConcat(Flag(4, true) + Str(5, e.device), Num(6, e.blockSize));
  }

  lemma ImageOk(path: Words, d: Digest)
    requires |path| == 10 && IsText(path)
    ensures var m := ToMember(MemberFact(path, 4096, d, ImageCandidate));
            MemberOk(m) && m.size == 4096 && |m.sha256| == 64 && |m.role| < 16
  {
    RoleRoundTrip(ImageCandidate);
    PrintedIsText(d);
  }

  lemma ExampleMember()
    ensures var m := ToMember(ExampleImage());
            MemberOk(m) && |m.path| == 10 && m.size == 4096 && |m.sha256| == 64 && |m.role| < 16
  {
    var path := Text.Ascii("system.img");
    Text.AsciiIsText(path);
    ImageOk(path, Zeros());
  }

  lemma OneMemberOk(r: Response)
    requires |r.members| == 1 && r.partitions == [] && r.facts == [] && r.unclassified == [] && r.unknowns == []
    requires IsText(r.formatId) && |r.formatId| == 21 && r.size < 1000
    requires IsText(r.contentSha256) && |r.contentSha256| == 64 && IsText(r.manifestSha256) && |r.manifestSha256| == 64
    requires IsText(r.confidence) && |r.confidence| < 32
    requires var m := r.members[0]; MemberOk(m) && |m.path| == 10 && m.size == 4096 && |m.sha256| == 64 && |m.role| < 16
    ensures ResponseOk(r) && |EncodeResponse(r)| <= 20_000
  {
    MemberLength(r.members[0]);
    OneMemberLength(r);
  }

  lemma ExampleResponse(d: Digest, size: nat, t: Tools)
    requires size < 1000 && t.digestOf(Example(d, size)).Some?
    ensures var r := ToResponse(Example(d, size), t);
            ResponseOk(r) && |EncodeResponse(r)| <= 20_000
  {
    var m := Example(d, size);
    var r := ToResponse(m, t);
    ExampleMember();
    assert r.members == [ToMember(ExampleImage())] && r.partitions == [];
    FormatIdIsText();
    PrintedIsText(d);
    PrintedIsText(t.digestOf(m).value);
    ConfidenceRoundTrip(false);
    OneMemberOk(r);
  }

  lemma FormatIdIsText()
    ensures IsText(FormatId())
  {
    Text.AsciiIsText(FormatId());
  }

  lemma ExampleInRange(d: Digest, size: nat, t: Tools)
    requires size < 1000 && Admits(t, d, size)
    ensures InRange(Example(d, size), t)
  {
    ExampleResponse(d, size, t);
    ExampleVersion();
    DeviceIsText();
    RangeOf(Example(d, size), t);
  }

  lemma RangeOf(m: Manifest, t: Tools)
    requires VersionOk(m.version) && |PrintVersion(m.version)| == 5
    requires ResponseOk(ToResponse(m, t)) && |EncodeResponse(ToResponse(m, t))| <= 20_000
    requires m.table.Some? && IsText(m.table.value.device) && |m.table.value.device| == 10 && m.table.value.blockSize == 512
    ensures InRange(m, t)
  {
  }

  lemma DeviceIsText()
    ensures IsText(Device())
  {
    Text.AsciiIsText(Device());
  }

  lemma ExampleLength(d: Digest, size: nat, t: Tools)
    requires size < 1000 && Admits(t, d, size)
    ensures |EncodeCache(Example(d, size), t)| <= MAX_CACHE_BYTES
  {
    var e := ToEnvelope(Example(d, size), t);
    ExampleResponse(d, size, t);
    ExampleVersion();
    SchemaIsText();
    EnvelopeRoom(e);
    EnvelopeWritable(e);
    EncodedLength(EnvelopeFields(e));
  }

  /** It is in range, storable, and its digest cannot collide, whatever the digest function is. */
  lemma ExampleIsStorable(d: Digest, size: nat, t: Tools)
    requires size < 1000 && Admits(t, d, size)
    ensures var m := Example(d, size);
            && InRange(m, t) && NoCollision(m, t) && Storable(m, t) && |EncodeCache(m, t)| <= MAX_CACHE_BYTES
  {
    ExampleInRange(d, size, t);
    ExampleLength(d, size, t);
    KeptIsAll(Example(d, size));
  }

  lemma ExampleVersion()
    ensures |PrintVersion(Version(1, 0, 0))| == 5
  {
  }

  /** An inspector over any object below 1000 bytes: the second inspection is answered from the cache, with the same manifest. */
  method InspectExample(bytes: seq<byte>, d: Digest, t: Tools) returns (m: Option<Manifest>, hit: bool)
    requires |bytes| < 1000 && Admits(t, d, |bytes|)
    ensures m == Some(Example(d, |bytes|)) && hit
  {
    var size := |bytes|;
    var parse := (b: seq<byte>) => if |b| == size then Some(Example(d, size)) else None;
    ExampleIsStorable(d, size, t);
    var inspector := new Inspector(t, parse, _ => bytes);
    inspector.Replace(map[d := bytes], {});
    var first;
    first, m, hit := inspector.InspectTwice(d);
  }

  /** The same with tools that accept everything. */
  method InspectWithPlainTools(bytes: seq<byte>) returns (m: Option<Manifest>, hit: bool)
    requires |bytes| < 1000
    ensures m == Some(Example(Zeros(), |bytes|)) && hit
  {
    var t := Tools(_ => true, _ => true, _ => Some(Zeros()));
    m, hit := InspectExample(bytes, Zeros(), t);
  }
}
