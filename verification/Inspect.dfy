/** `inspect`: a container read once, and what its manifest says about the members. */
module Inspect {
  import opened Bits
  import opened Results
  import opened Widths
  import opened Chunks
  import opened Text
  import opened TarSpec
  import opened BitReader
  import opened Seal
  import Bundle
  import Gzip
  import Mtdparts
  import PartitionTable
  import Scanner
  import TarReader

  datatype Role = PartitionTableFile | Loader | ImageCandidate | Metadata | Unclassified

  function Codes(text: string): (r: seq<Code>)
    requires forall i :: 0 <= i < |text| ==> text[i] < 128 as char
    ensures |r| == |text|
  {
    seq(|text|, i requires 0 <= i < |text| => text[i] as int)
  }

  predicate EndsWith(path: seq<Code>, suffix: seq<Code>) {
    |suffix| <= |path| && path[|path| - |suffix|..] == suffix
  }

  function ParameterPath(): (r: seq<Code>) {
    Codes("parameter.txt")
  }

  /** `classify`. */
  function Classify(path: seq<Code>): (r: Role) {
    if path == ParameterPath() then PartitionTableFile
    else if path == Codes("MiniLoaderAll.bin") then Loader
    else if EndsWith(path, Codes(".img")) then ImageCandidate
    else if EndsWith(path, Codes(".cfg")) || EndsWith(path, Codes(".xml")) || EndsWith(path, Codes(".log")) then Metadata
    else Unclassified
  }

  const MAX_PARAMETER_BYTES: nat := 0x10_0000
  const BLOCK_SIZE: nat := 512

  datatype Refusal =
    | ParameterTooLarge(size: nat)
    | ParameterNotUtf8
    | BadParameter(cause: Mtdparts.Error)
    | BadTable(reason: PartitionTable.ManifestError)
    | Contradictory(key: seq<byte>)

  datatype Failure = Stream(cause: TarReader.Failure) | Refused(refusal: Refusal)

  // ----- The parameter file

  predicate IsScalar(c: Code) {
    c < 0xd800 || c >= 0xe000
  }

  lemma OneScalar(b: seq<byte>)
    requires DecodeOne(b).Some?
    ensures IsScalar(DecodeOne(b).value.0)
  {
  }

  lemma {:induction false} DecodesScalars(b: seq<byte>)
    requires Decode(b).Some?
    ensures forall i :: 0 <= i < |Decode(b).value| ==> IsScalar(Decode(b).value[i])
    decreases |b|
  {
    if b == [] {
    } else {
      OneScalar(b);
      DecodesScalars(b[DecodeOne(b).value.1..]);
    }
  }

  /** `String::from_utf8`, as the text the table parser works on. */
  function TextOf(body: seq<byte>): (r: Option<string>) {
    match Decode(body)
    case None => None
    case Some(codes) =>
      DecodesScalars(body);
      Some(seq(|codes|, i requires 0 <= i < |codes| => codes[i] as char))
  }

  // ----- What the loop collects

  datatype MemberFact = MemberFact(member: Member, role: Role)

  datatype Findings = Findings(
    members: seq<MemberFact>, unclassified: seq<seq<Code>>, parameter: Option<string>, facts: Scanner.Facts)

  const NOTHING: Findings := Findings([], [], None, map[])

  function WithRoles(members: seq<Member>): (r: seq<MemberFact>) {
    if members == [] then [] else WithRoles(Bundle.Front(members)) + [MemberFact(Bundle.Last(members), Classify(Bundle.Last(members).path))]
  }

  function UnclassifiedPaths(members: seq<Member>): (r: seq<seq<Code>>) {
    if members == [] then []
    else UnclassifiedPaths(Bundle.Front(members)) + if Classify(Bundle.Last(members).path) == Unclassified then [Bundle.Last(members).path] else []
  }

  /** The text of the parameter file, when there is one. */
  function ParameterOf(members: seq<Member>): (r: Option<string>) {
    if members == [] then None
    else if Bundle.Last(members).path == ParameterPath() then TextOf(Bundle.Last(members).body)
    else ParameterOf(Bundle.Front(members))
  }

  /** Every parameter file is small enough and is text. */
  predicate ParametersOk(members: seq<Member>) {
    forall i :: 0 <= i < |members| && members[i].path == ParameterPath() ==>
                  members[i].size <= MAX_PARAMETER_BYTES && TextOf(members[i].body).Some?
  }

  /** Each image was scanned, whatever its chunks were; nothing else was. */
  ghost predicate AllScanned(scans: seq<Scanner.Facts>, members: seq<Member>) {
    && |scans| == |members|
    && forall i :: 0 <= i < |scans| ==> ScanOf(scans[i], members[i])
  }

  ghost predicate ScanOf(scan: Scanner.Facts, member: Member) {
    if Classify(member.path) == ImageCandidate then Scanner.Describes(Scanner.BuildFactKeys(), scan, member.body)
    else scan == map[]
  }

  /** The facts of all scans together, none of which contradicts another. */
  ghost predicate Merged(facts: Scanner.Facts, scans: seq<Scanner.Facts>) {
    && (forall k :: k in facts ==> exists i :: 0 <= i < |scans| && k in scans[i])
    && (forall i, k :: 0 <= i < |scans| && k in scans[i] ==> k in facts && facts[k] == scans[i][k])
  }

  ghost predicate Collected(f: Findings, members: seq<Member>, scans: seq<Scanner.Facts>) {
    && f.members == WithRoles(members) && f.unclassified == UnclassifiedPaths(members) && f.parameter == ParameterOf(members)
    && ParametersOk(members) && AllScanned(scans, members) && Merged(f.facts, scans)
  }

  // ----- Why a container is refused

  /** Two images whose scans, however they were cut, disagree on a key. */
  ghost predicate Contradict(a: Member, b: Member, key: seq<byte>) {
    && Classify(a.path) == ImageCandidate && Classify(b.path) == ImageCandidate
    && exists x, y :: ScanOf(x, a) && ScanOf(y, b) && key in x && key in y && x[key] != y[key]
  }

  ghost predicate Justified(refusal: Refusal, members: seq<Member>) {
    match refusal
    case ParameterTooLarge(size) =>
      exists i :: 0 <= i < |members| && members[i].path == ParameterPath() && members[i].size == size > MAX_PARAMETER_BYTES
    case ParameterNotUtf8 =>
      exists i :: 0 <= i < |members| && members[i].path == ParameterPath() && TextOf(members[i].body).None?
    case Contradictory(key) =>
      exists i, j :: 0 <= i < j < |members| && Contradict(members[i], members[j], key)
    case BadParameter(e) =>
      ParameterOf(members).Some? && Mtdparts.ParseTable(ParameterOf(members).value, BLOCK_SIZE) == Err(e)
    case BadTable(_) =>
      && ParameterOf(members).Some?
      && var table := Mtdparts.ParseTable(ParameterOf(members).value, BLOCK_SIZE);
      && table.Ok? && !WellFormed(table.value)
  }

  predicate WellFormed(table: Mtdparts.Table) {
    && PartitionTable.DistinctNames(table.entries) && PartitionTable.SizesHold(table.entries)
    && PartitionTable.NoClash(table.entries)
  }

  /** A reason found among the first members is a reason against all of them. */
  lemma JustifiedByPrefix(refusal: Refusal, some: seq<Member>, all: seq<Member>)
    requires Justified(refusal, some) && some <= all && !refusal.BadParameter? && !refusal.BadTable?
    ensures Justified(refusal, all)
  {
    match refusal
    case ParameterTooLarge(size) =>
      var i :| 0 <= i < |some| && some[i].path == ParameterPath() && some[i].size == size > MAX_PARAMETER_BYTES;
      assert all[i] == some[i];
    case ParameterNotUtf8 =>
      var i :| 0 <= i < |some| && some[i].path == ParameterPath() && TextOf(some[i].body).None?;
      assert all[i] == some[i];
    case Contradictory(key) =>
      var i, j :| 0 <= i < j < |some| && Contradict(some[i], some[j], key);
      assert all[i] == some[i] && all[j] == some[j];
  }

  // ----- One member

  /** The facts of one scan, entered into the map one after the other. */
  method Merge(facts: Scanner.Facts, scan: Scanner.Facts) returns (r: Result<Scanner.Facts, seq<byte>>)
    ensures match r
            case Ok(both) =>
              && (forall k :: k in both <==> k in facts || k in scan)
              && (forall k :: k in facts ==> both[k] == facts[k]) && (forall k :: k in scan ==> both[k] == scan[k])
            case Err(key) => key in facts && key in scan && facts[key] != scan[key]
  {
    var both := facts;
    var rest := scan.Keys;
    while rest != {}
      invariant rest <= scan.Keys
      invariant forall k :: k in both <==> k in facts || (k in scan && k !in rest)
      invariant forall k :: k in facts ==> both[k] == facts[k]
      invariant forall k :: k in scan && k !in rest ==> both[k] == scan[k]
      decreases |rest|
    {
      var key :| key in rest;
      if key in both {
        if both[key] != scan[key] {
          return Err(key);
        }
      } else {
        both := both[key := scan[key]];
      }
      rest := rest - {key};
    }
    return Ok(both);
  }

  lemma MergedMore(facts: Scanner.Facts, scans: seq<Scanner.Facts>, scan: Scanner.Facts, both: Scanner.Facts)
    requires Merged(facts, scans)
    requires forall k :: k in both <==> k in facts || k in scan
    requires (forall k :: k in facts ==> both[k] == facts[k]) && (forall k :: k in scan ==> both[k] == scan[k])
    ensures Merged(both, scans + [scan])
  {
    var all := scans + [scan];
    assert all[|scans|] == scan;
    forall k | k in both
      ensures exists i :: 0 <= i < |all| && k in all[i]
    {
      if k in facts {
        var i :| 0 <= i < |scans| && k in scans[i];
        assert k in all[i];
      }
    }
  }

  lemma FrontOfMore(members: seq<Member>, member: Member)
    ensures Bundle.Front(members + [member]) == members && Bundle.Last(members + [member]) == member
  {
  }

  /** The scan of one image, and what it does to the facts so far. */
  method TakeFacts(facts: Scanner.Facts, member: Member, chunks: seq<seq<byte>>, ghost members: seq<Member>, ghost scans: seq<Scanner.Facts>)
    returns (r: Result<Scanner.Facts, Refusal>, ghost scan: Scanner.Facts)
    requires member.body == Flatten(chunks) && AllScanned(scans, members) && Merged(facts, scans)
    ensures r.Ok? ==> ScanOf(scan, member) && Merged(r.value, scans + [scan])
    ensures r.Err? ==> r.error.Contradictory? && Justified(r.error, members + [member])
  {
    scan := map[];
    if Classify(member.path) != ImageCandidate {
      MergedMore(facts, scans, scan, facts);
      return Ok(facts), scan;
    }
    Scanner.BuildFactKeysFit();
    var found := Scanner.ScanMember(Scanner.BuildFactKeys(), chunks);
    scan := found;
    var both := Merge(facts, found);
    if both.Err? {
      Disagrees(facts, members, scans, member, scan, both.error);
      return Err(Contradictory(both.error)), scan;
    }
    MergedMore(facts, scans, scan, both.value);
    r := Ok(both.value);
  }

  lemma Disagrees(facts: Scanner.Facts, members: seq<Member>, scans: seq<Scanner.Facts>, member: Member, scan: Scanner.Facts, key: seq<byte>)
    requires AllScanned(scans, members) && Merged(facts, scans) && ScanOf(scan, member) && Classify(member.path) == ImageCandidate
    requires key in facts && key in scan && facts[key] != scan[key]
    ensures Justified(Contradictory(key), members + [member])
  {
    var i :| 0 <= i < |scans| && key in scans[i];
    var all := members + [member];
    assert ScanOf(scans[i], members[i]) && all[i] == members[i] && all[|members|] == member;
    assert Contradict(all[i], all[|members|], key);
  }

  /** One member whose body has been read. */
  method TakeMember(f: Findings, member: Member, chunks: seq<seq<byte>>, ghost members: seq<Member>, ghost scans: seq<Scanner.Facts>)
    returns (r: Result<Findings, Refusal>, ghost scan: Scanner.Facts)
    requires Collected(f, members, scans) && member.body == Flatten(chunks)
    requires member.path == ParameterPath() ==> member.size <= MAX_PARAMETER_BYTES
    ensures r.Ok? ==> Collected(r.value, members + [member], scans + [scan])
    ensures r.Err? ==> (r.error.Contradictory? || r.error.ParameterNotUtf8?) && Justified(r.error, members + [member])
  {
    FrontOfMore(members, member);
    scan := map[];
    var role := Classify(member.path);
    var unclassified := if role == Unclassified then f.unclassified + [member.path] else f.unclassified;
    var parameter := f.parameter;
    if role == PartitionTableFile {
      parameter := TextOf(member.body);
      if parameter.None? {
        assert (members + [member])[|members|] == member;
        return Err(ParameterNotUtf8), scan;
      }
    }
    var facts;
    facts, scan := TakeFacts(f.facts, member, chunks, members, scans);
    if facts.Err? {
      return Err(facts.error), scan;
    }
    r := Ok(Findings(f.members + [MemberFact(member, role)], unclassified, parameter, facts.value));
    assert UnclassifiedPaths(members) + [] == UnclassifiedPaths(members);
  }

  // ----- The manifest

  datatype Unknown = NoTable | UnclassifiedMembers | NoFacts

  datatype Report = Report(
    members: seq<MemberFact>, table: Option<Mtdparts.Table>, facts: Scanner.Facts, unclassified: seq<seq<Code>>,
    unknowns: seq<Unknown>, production: bool)

  /** What a report says about the members it was made from. */
  ghost predicate Tells(r: Report, members: seq<Member>, scans: seq<Scanner.Facts>) {
    && Collected(Findings(r.members, r.unclassified, ParameterOf(members), r.facts), members, scans)
    && (r.table.Some? <==> ParameterOf(members).Some?)
    && (r.table.Some? ==>
          && Mtdparts.ParseTable(ParameterOf(members).value, BLOCK_SIZE) == Ok(r.table.value)
          && WellFormed(r.table.value))
    && (NoTable in r.unknowns <==> r.table.None?)
    && (UnclassifiedMembers in r.unknowns <==> r.unclassified != [])
    && (NoFacts in r.unknowns <==> r.facts == map[])
    && (r.production <==> r.unknowns == [])
  }

  /** The table that the parameter text declares, parsed and validated. */
  method TableOf(text: string) returns (r: Result<Mtdparts.Table, Refusal>)
    ensures match r
            case Ok(table) => Mtdparts.ParseTable(text, BLOCK_SIZE) == Ok(table) && WellFormed(table)
            case Err(BadParameter(e)) => Mtdparts.ParseTable(text, BLOCK_SIZE) == Err(e)
            case Err(BadTable(_)) => Mtdparts.ParseTable(text, BLOCK_SIZE).Ok? && !WellFormed(Mtdparts.ParseTable(text, BLOCK_SIZE).value)
            case Err(_) => false
  {
    var parsed := Mtdparts.ParseParameter(text, BLOCK_SIZE);
    if parsed.Err? {
      return Err(BadParameter(parsed.error));
    }
    var valid := PartitionTable.Validate(parsed.value);
    if valid.Err? {
      return Err(BadTable(valid.error));
    }
    return Ok(parsed.value);
  }

  /** The list of unknowns, one push after the other. */
  method Unknowns(noTable: bool, someUnclassified: bool, noFacts: bool) returns (unknowns: seq<Unknown>)
    ensures NoTable in unknowns <==> noTable
    ensures UnclassifiedMembers in unknowns <==> someUnclassified
    ensures NoFacts in unknowns <==> noFacts
  {
    unknowns := [];
    if noTable {
      unknowns := unknowns + [NoTable];
    }
    if someUnclassified {
      unknowns := unknowns + [UnclassifiedMembers];
    }
    if noFacts {
      unknowns := unknowns + [NoFacts];
    }
  }

  /** Everything behind the member loop. */
  method Conclude(f: Findings, ghost members: seq<Member>, ghost scans: seq<Scanner.Facts>) returns (r: Result<Report, Refusal>)
    requires Collected(f, members, scans)
    ensures r.Ok? ==> Tells(r.value, members, scans)
    ensures r.Err? ==> Justified(r.error, members) && (r.error.BadParameter? || r.error.BadTable?)
  {
    var table := None;
    if f.parameter.Some? {
      var parsed := TableOf(f.parameter.value);
      if parsed.Err? {
        return Err(parsed.error);
      }
      table := Some(parsed.value);
    }
    var unknowns := Unknowns(f.parameter.None?, f.unclassified != [], f.facts == map[]);
    return Ok(Report(f.members, table, f.facts, f.unclassified, unknowns, unknowns == []));
  }

  // ----- The loop

  predicate TooLarge(header: Header) {
    header.path == ParameterPath() && header.size > MAX_PARAMETER_BYTES
  }

  /** What is left to read and what was read make up the whole. */
  ghost predicate SoFar(goal: Result<seq<Member>, TarSpec.Error>, done: seq<Member>, rest: Result<seq<Member>, TarSpec.Error>) {
    goal == Prepend(done, rest)
  }

  lemma SoFarMore(goal: Result<seq<Member>, TarSpec.Error>, done: seq<Member>, member: Member, rest: Result<seq<Member>, TarSpec.Error>)
    requires SoFar(goal, done, Prepend([member], rest))
    ensures SoFar(goal, done + [member], rest)
    ensures goal.Ok? ==> done + [member] <= goal.value
  {
    PrependTwice(done, [member], rest);
  }

  lemma HeaderIsMember(goal: Result<seq<Member>, TarSpec.Error>, done: seq<Member>, rest: Result<seq<Member>, TarSpec.Error>, header: Header)
    requires SoFar(goal, done, rest) && TooLarge(header)
    requires rest.Ok? ==> rest.value != [] && rest.value[0].path == header.path && rest.value[0].size == header.size
    ensures goal.Ok? ==> Justified(ParameterTooLarge(header.size), goal.value)
  {
    if goal.Ok? {
      assert goal.value[|done|] == rest.value[0];
    }
  }

  /**
   * A refusal has its reason in the members that were read, which are the first
   * ones of the archive: in their bodies, in the header behind them, or, if
   * they are all there are, in their parameter file.
   */
  ghost predicate Reason(refusal: Refusal, next: TarReader.NextFunction, bytes: seq<byte>, done: seq<Member>, goal: Result<seq<Member>, TarSpec.Error>) {
    && (goal.Ok? ==> Justified(refusal, goal.value))
    && exists rest: seq<byte>, now: set<seq<Code>> ::
         && Bundle.ReadsFirst(next, bytes, {}, done, rest, now)
         && if refusal.ParameterTooLarge? then
              exists header :: Bundle.TurnedDown(next, rest, now, header) && TooLarge(header) && refusal.size == header.size
            else Justified(refusal, done) && (refusal.BadParameter? || refusal.BadTable? ==> goal == Ok(done))
  }

  /** How far the loop has come in an archive, and what it has found. */
  datatype Course = Course(bytes: seq<byte>, goal: Result<seq<Member>, TarSpec.Error>, done: seq<Member>, scans: seq<Scanner.Facts>)

  ghost predicate Underway(c: Course, f: Findings, members: Bundle.MembersFunction, next: TarReader.NextFunction, rest: seq<byte>, seen: set<seq<Code>>) {
    forall k: nat {:trigger Look(k)} :: Look(k) ==> OnCourse(c, f, members, next, rest, seen)
  }

  ghost predicate OnCourse(c: Course, f: Findings, members: Bundle.MembersFunction, next: TarReader.NextFunction, rest: seq<byte>, seen: set<seq<Code>>) {
    && SoFar(c.goal, c.done, members(rest, seen)) && Collected(f, c.done, c.scans)
    && Bundle.ReadsFirst(next, c.bytes, {}, c.done, rest, seen)
  }

  lemma SetsOut(members: Bundle.MembersFunction, next: TarReader.NextFunction, bytes: seq<byte>)
    ensures Underway(Course(bytes, members(bytes, {}), [], []), NOTHING, members, next, bytes, {})
  {
    PrependNothing(members(bytes, {}));
  }

  /** The archive ended. */
  lemma Arrives(c: Course, f: Findings, members: Bundle.MembersFunction, next: TarReader.NextFunction, rest: seq<byte>, seen: set<seq<Code>>)
    requires Underway(c, f, members, next, rest, seen) && members(rest, seen) == Ok([])
    ensures c.goal == Ok(c.done) && Collected(f, c.done, c.scans) && exists r, now :: Bundle.ReadsFirst(next, c.bytes, {}, c.done, r, now)
  {
    assert Look(0);
    assert c.done + [] == c.done;
  }

  lemma Fails(c: Course, f: Findings, members: Bundle.MembersFunction, next: TarReader.NextFunction, rest: seq<byte>, seen: set<seq<Code>>)
    requires Underway(c, f, members, next, rest, seen) && members(rest, seen).Err?
    ensures c.goal == members(rest, seen)
  {
    assert Look(0);
  }

  /** A parameter file was turned down. */
  lemma TurnsDown(c: Course, f: Findings, members: Bundle.MembersFunction, next: TarReader.NextFunction, rest: seq<byte>, seen: set<seq<Code>>, header: Header)
    requires Bundle.IsMembers(members) && TarReader.IsNext(next) && Underway(c, f, members, next, rest, seen)
    requires Bundle.TurnedDown(next, rest, seen, header) && TooLarge(header)
    ensures Reason(ParameterTooLarge(header.size), next, c.bytes, c.done, c.goal)
  {
    assert Look(0);
    if members(rest, seen).Ok? {
      Bundle.TurnedDownIsNext(members, next, rest, seen, header);
    }
    HeaderIsMember(c.goal, c.done, members(rest, seen), header);
  }

  /** A member was read. */
  lemma Passes(c: Course, f: Findings, members: Bundle.MembersFunction, next: TarReader.NextFunction, rest: seq<byte>, seen: set<seq<Code>>,
               member: Member, more: seq<byte>, now: set<seq<Code>>)
    requires Underway(c, f, members, next, rest, seen) && Bundle.OneMember(next, rest, seen, member, more, now)
    requires members(rest, seen) == Prepend([member], members(more, now))
    ensures Bundle.ReadsFirst(next, c.bytes, {}, c.done + [member], more, now) && SoFar(c.goal, c.done + [member], members(more, now))
    ensures Collected(f, c.done, c.scans) && (c.goal.Ok? ==> c.done + [member] <= c.goal.value)
  {
    assert Look(0);
    SoFarMore(c.goal, c.done, member, members(more, now));
    Bundle.ReadsOneMore(next, c.bytes, {}, c.done, rest, seen, member, more, now);
  }

  lemma Refuses(refusal: Refusal, next: TarReader.NextFunction, bytes: seq<byte>, done: seq<Member>, goal: Result<seq<Member>, TarSpec.Error>,
                rest: seq<byte>, now: set<seq<Code>>)
    requires Bundle.ReadsFirst(next, bytes, {}, done, rest, now) && (goal.Ok? ==> done <= goal.value)
    requires Justified(refusal, done) && (refusal.Contradictory? || refusal.ParameterNotUtf8?)
    ensures Reason(refusal, next, bytes, done, goal)
  {
    if goal.Ok? {
      JustifiedByPrefix(refusal, done, goal.value);
    }
  }

  /** One turn of the member loop. */
  method CollectOne(reader: TarReader.Reader, f: Findings, ghost members: Bundle.MembersFunction, ghost next: TarReader.NextFunction, ghost c: Course)
    returns (r: Result<Option<Findings>, Failure>, ghost now: Course)
    requires reader.Valid() && !reader.finished && reader.overrides == NO_OVERRIDES
    requires reader.pendingBody == 0 && reader.pendingPadding == 0
    requires Bundle.IsMembers(members) && TarReader.IsNext(next) && Underway(c, f, members, next, reader.gz.Rest(), reader.seenPaths)
    modifies reader, reader.gz, reader.gz.crc, reader.gz.inflate, reader.gz.inflate.bits, reader.gz.inflate.bits.source
    ensures now.bytes == c.bytes && now.goal == c.goal
    ensures match r
            case Err(Stream(Io(e))) => reader.gz.goal == Err(e)
            case Err(Stream(Archive(e))) => c.goal == Err(e)
            case Err(Refused(refusal)) => Reason(refusal, next, c.bytes, now.done, c.goal)
            case Ok(None) =>
              && reader.Valid() && reader.finished && now == c && c.goal == Ok(c.done) && Collected(f, c.done, c.scans)
              && exists rest, ahead :: Bundle.ReadsFirst(next, c.bytes, {}, c.done, rest, ahead)
            case Ok(Some(g)) =>
              && reader.Valid() && !reader.finished && reader.overrides == NO_OVERRIDES
              && reader.pendingBody == 0 && reader.pendingPadding == 0 && |reader.gz.Rest()| < |old(reader.gz.Rest())|
              && Underway(now, g, members, next, reader.gz.Rest(), reader.seenPaths)
  {
    now := c;
    ghost var rest, seen := reader.gz.Rest(), reader.seenPaths;
    var one := Bundle.ReadOne(reader, TooLarge, members, next);
    match one {
      case Err(e) =>
        if e.Archive? {
          Fails(c, f, members, next, rest, seen);
        }
        r := Err(Stream(e));
      case Ok(End) =>
        Arrives(c, f, members, next, rest, seen);
        r := Ok(None);
      case Ok(Refused(header)) =>
        TurnsDown(c, f, members, next, rest, seen, header);
        r := Err(Failure.Refused(ParameterTooLarge(header.size)));
      case Ok(Got(member, chunks)) =>
        Passes(c, f, members, next, rest, seen, member, reader.gz.Rest(), reader.seenPaths);
        ghost var scan;
        var taken;
        taken, scan := TakeMember(f, member, chunks, c.done, c.scans);
        now := c.(done := c.done + [member], scans := c.scans + [scan]);
        if taken.Err? {
          Refuses(taken.error, next, c.bytes, now.done, c.goal, reader.gz.Rest(), reader.seenPaths);
          r := Err(Failure.Refused(taken.error));
        } else {
          r := Ok(Some(taken.value));
        }
    }
  }

  method CollectMembers(reader: TarReader.Reader, ghost members: Bundle.MembersFunction, ghost next: TarReader.NextFunction)
    returns (r: Result<Findings, Failure>, ghost done: seq<Member>, ghost scans: seq<Scanner.Facts>)
    requires reader.Valid() && !reader.finished && reader.overrides == NO_OVERRIDES && reader.seenPaths == {}
    requires reader.pendingBody == 0 && reader.pendingPadding == 0
    requires Bundle.IsMembers(members) && TarReader.IsNext(next)
    modifies reader, reader.gz, reader.gz.crc, reader.gz.inflate, reader.gz.inflate.bits, reader.gz.inflate.bits.source
    ensures var bytes := old(reader.gz.Rest());
            var goal := members(bytes, {});
            match r
            case Err(Stream(Io(e))) => reader.gz.goal == Err(e)
            case Err(Stream(Archive(e))) => goal == Err(e)
            case Err(Refused(refusal)) => Reason(refusal, next, bytes, done, goal)
            case Ok(f) =>
              && goal == Ok(done) && Collected(f, done, scans) && reader.Valid() && reader.finished
              && exists rest, now :: Bundle.ReadsFirst(next, bytes, {}, done, rest, now)
  {
    ghost var c := Course(reader.gz.Rest(), members(reader.gz.Rest(), {}), [], []);
    ghost var bytes, goal := c.bytes, c.goal;
    var f := NOTHING;
    SetsOut(members, next, reader.gz.Rest());
    while true
      invariant reader.Valid() && !reader.finished && reader.overrides == NO_OVERRIDES
      invariant reader.pendingBody == 0 && reader.pendingPadding == 0
      invariant c.bytes == bytes && c.goal == goal && Underway(c, f, members, next, reader.gz.Rest(), reader.seenPaths)
      decreases |reader.gz.Rest()|
    {
      var one;
      one, c := CollectOne(reader, f, members, next, c);
      match one {
        case Err(e) => return Err(e), c.done, c.scans;
        case Ok(None) => return Ok(f), c.done, c.scans;
        case Ok(Some(g)) => f := g;
      }
    }
  }

  /**
   * `inspect`.  A manifest describes the members of a container whose checksum
   * and length were verified and of which every byte was hashed; a refusal has
   * a reason in the container, or in the archive that could be decoded of it.
   */
  method InspectContainer(source: CountingSource)
    returns (r: Result<Report, Failure>, ghost done: seq<Member>, ghost scans: seq<Scanner.Facts>)
    requires source.Valid() && source.remaining == source.whole
    modifies source
    ensures r.Ok? ==>
              && Gzip.Gunzip(source.whole).Ok? && Archive(Gzip.Gunzip(source.whole).value) == Ok(done)
              && Tells(r.value, done, scans)
              && source.remaining == [] && source.hashed == source.whole && source.count == |source.whole|
    ensures r.Err? ==>
              match r.error
              case Stream(Io(e)) => Gzip.Gunzip(source.whole) == Err(e)
              case Stream(Archive(e)) => Archive(Gzip.Decoded(source.whole)) == Err(e)
              case Refused(refusal) =>
                Reason(refusal, Next, Gzip.Decoded(source.whole), done, Archive(Gzip.Decoded(source.whole)))
  {
    done, scans := [], [];
    var header := Gzip.ReadHeader(source);
    if header.Err? {
      r := Err(Stream(TarReader.Io(header.error)));
      return;
    }
    var gz := new Gzip.Reader(source);
    assert gz.goal == Gzip.Gunzip(source.whole);
    var reader := new TarReader.Reader(gz);
    assert gz.Rest() == gz.inflate.goal.output == Gzip.Decoded(source.whole);
    var collected;
    collected, done, scans := CollectMembers(reader, Members, Next);
    if collected.Err? {
      r := Err(collected.error);
      return;
    }
    gz.Verified();
    var concluded := Conclude(collected.value, done, scans);
    r := if concluded.Ok? then Ok(concluded.value) else Err(Refused(concluded.error));
  }

  // ----- What a manifest means

  lemma {:induction false} UnclassifiedIff(members: seq<Member>)
    ensures UnclassifiedPaths(members) == [] <==> forall i :: 0 <= i < |members| ==> Classify(members[i].path) != Unclassified
  {
    if members == [] {
    } else {
      UnclassifiedIff(Bundle.Front(members));
      assert members == Bundle.Front(members) + [Bundle.Last(members)];
    }
  }

  lemma {:induction false} ParameterIff(members: seq<Member>)
    requires ParametersOk(members)
    ensures ParameterOf(members).Some? <==> exists i :: 0 <= i < |members| && members[i].path == ParameterPath()
  {
    if members == [] {
    } else {
      assert members == Bundle.Front(members) + [Bundle.Last(members)];
      if Bundle.Last(members).path != ParameterPath() {
        ParameterIff(Bundle.Front(members));
      }
    }
  }

  lemma NoUnknownsIff(unknowns: seq<Unknown>)
    ensures unknowns == [] <==> NoTable !in unknowns && UnclassifiedMembers !in unknowns && NoFacts !in unknowns
  {
    if unknowns != [] {
      var u := unknowns[0];
      assert u == NoTable || u == UnclassifiedMembers || u == NoFacts;
      assert u in unknowns;
    }
  }

  lemma FactsIff(facts: Scanner.Facts, scans: seq<Scanner.Facts>)
    requires Merged(facts, scans)
    ensures facts != map[] <==> exists i, k :: 0 <= i < |scans| && k in scans[i]
  {
    if facts != map[] {
      assert facts.Keys != {};
      var k :| k in facts.Keys;
      var i :| 0 <= i < |scans| && k in scans[i];
    }
    if i, k :| 0 <= i < |scans| && k in scans[i] {
      assert k in facts;
    }
  }

  /**
   * A manifest claims to be complete exactly when every member is classified,
   * one of them is the parameter file, and some image yielded a fact.
   */
  lemma ProductionIff(r: Report, members: seq<Member>, scans: seq<Scanner.Facts>)
    requires Tells(r, members, scans)
    ensures r.production <==>
              && (forall i :: 0 <= i < |members| ==> Classify(members[i].path) != Unclassified)
              && (exists i :: 0 <= i < |members| && members[i].path == ParameterPath())
              && (exists i, k :: 0 <= i < |scans| && k in scans[i])
  {
    NoUnknownsIff(r.unknowns);
    UnclassifiedIff(members);
    ParameterIff(members);
    FactsIff(r.facts, scans);
  }

  /** Every fact of a manifest stands in some image member, ended by a terminator, a closing quote or the member's end. */
  lemma FactsAreGenuine(r: Report, members: seq<Member>, scans: seq<Scanner.Facts>, key: seq<byte>)
    returns (i: nat, p: nat)
    requires Tells(r, members, scans) && key in r.facts
    ensures i < |members| && Classify(members[i].path) == ImageCandidate
    ensures Scanner.FactAt(members[i].body, key, p, true) == Some(r.facts[key])
  {
    i :| 0 <= i < |scans| && key in scans[i];
    assert ScanOf(scans[i], members[i]);
    p :| Scanner.FactAt(members[i].body, key, p, true) == Some(scans[i][key]);
  }

  /** The table of a manifest has a device, sectors of 512 bytes, and, when its ends fit, disjoint partitions. */
  lemma TableIsLayout(r: Report, members: seq<Member>, scans: seq<Scanner.Facts>)
    requires Tells(r, members, scans) && r.table.Some?
    ensures r.table.value.device != [] && r.table.value.blockSize == BLOCK_SIZE && r.table.value.entries != []
    ensures PartitionTable.LeftEndsFit(r.table.value.entries) ==> PartitionTable.PairwiseDisjoint(r.table.value.entries)
  {
    var text := ParameterOf(members).value;
    Mtdparts.ParsedTableConforms(text, BLOCK_SIZE);
    var entries := r.table.value.entries;
    assert PartitionTable.OffsetsFit(entries) by {
      forall i | 0 <= i < |entries|
        ensures entries[i].offset < U64_LIMIT
      {
        assert Mtdparts.ConformsEntry(entries[i], i);
      }
    }
    PartitionTable.AcceptedIffDisjoint(entries);
    PartitionTable.DisjointIffNothingMissed(entries);
  }
}
