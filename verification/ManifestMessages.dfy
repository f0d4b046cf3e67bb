/** The messages a cached manifest is written in, and their round trips. */
module ManifestMessages {
  import opened Bits
  import opened Results
  import opened Widths
  import opened Wire

  datatype Pair = Pair(key: seq<byte>, value: seq<byte>)

  datatype Member = Member(path: seq<byte>, size: nat, sha256: seq<byte>, role: seq<byte>)

  datatype Entry = Entry(
    index: nat, name: seq<byte>, offset: nat, size: Option<nat>, attribute: seq<byte>, branch: seq<byte>)

  datatype Response = Response(
    formatId: seq<byte>, contentSha256: seq<byte>, size: nat, members: seq<Member>, partitions: seq<Entry>,
    facts: seq<Pair>, unclassified: seq<seq<byte>>, unknowns: seq<Pair>, confidence: seq<byte>, manifestSha256: seq<byte>)

  /** `as_str`. */
  function AsText(f: Field): (r: Option<seq<byte>>) {
    if f.Bytes? && IsText(f.data) then Some(f.data) else None
  }

  /** `as_u64`. */
  function AsNumber(f: Field): (r: Option<nat>) {
    if f.Varint? then Some(f.value) else None
  }

  // ----- Key and value

  const NO_PAIR: Pair := Pair([], [])

  function PairFields(p: Pair): (r: seq<Field>) {
    Str(1, p.key) + Str(2, p.value)
  }

  function ApplyPair(p: Pair, f: Field): (r: Option<Pair>) {
    if f.number == 1 then match AsText(f) case Some(s) => Some(p.(key := s)) case None => None
    else if f.number == 2 then match AsText(f) case Some(s) => Some(p.(value := s)) case None => None
    else Some(p)
  }

  predicate PairOk(p: Pair) {
    IsText(p.key) && IsText(p.value) && |p.key| < U64_LIMIT && |p.value| < U64_LIMIT
  }

  function DecodePair(b: seq<byte>): (r: Option<Pair>) {
    Decode(b, NO_PAIR, ApplyPair)
  }

  lemma PairRoundTrip(p: Pair)
    requires PairOk(p)
    ensures DecodePair(EncodeFields(PairFields(p))) == Some(p)
  {
    var x := NO_PAIR.(key := p.key);
    FoldStr(1, p.key, NO_PAIR, x, ApplyPair);
    FoldStr(2, p.value, x, p, ApplyPair);
    FoldThen(Str(1, p.key), Str(2, p.value), NO_PAIR, x, p, ApplyPair);
    DecodeEncoded(PairFields(p), NO_PAIR, ApplyPair);
  }

  // ----- Archive members

  const NO_MEMBER: Member := Member([], 0, [], [])

  function MemberFields(m: Member): (r: seq<Field>) {
    Str(1, m.path) + Num(2, m.size) + Str(3, m.sha256) + Str(4, m.role)
  }

  function ApplyMember(m: Member, f: Field): (r: Option<Member>) {
    if f.number == 1 then match AsText(f) case Some(s) => Some(m.(path := s)) case None => None
    else if f.number == 2 then match AsNumber(f) case Some(v) => Some(m.(size := v)) case None => None
    else if f.number == 3 then match AsText(f) case Some(s) => Some(m.(sha256 := s)) case None => None
    else if f.number == 4 then match AsText(f) case Some(s) => Some(m.(role := s)) case None => None
    else Some(m)
  }

  predicate MemberOk(m: Member) {
    && IsText(m.path) && IsText(m.sha256) && IsText(m.role) && m.size < U64_LIMIT
    && |m.path| < U64_LIMIT && |m.sha256| < U64_LIMIT && |m.role| < U64_LIMIT
  }

  function DecodeMember(b: seq<byte>): (r: Option<Member>) {
    Decode(b, NO_MEMBER, ApplyMember)
  }

  lemma MemberRoundTrip(m: Member)
    requires MemberOk(m)
    ensures DecodeMember(EncodeFields(MemberFields(m))) == Some(m)
  {
    var x1 := NO_MEMBER.(path := m.path);
    var x2 := x1.(size := m.size);
    var x3 := x2.(sha256 := m.sha256);
    FoldStr(1, m.path, NO_MEMBER, x1, ApplyMember);
    FoldNum(2, m.size, x1, x2, ApplyMember);
    FoldStr(3, m.sha256, x2, x3, ApplyMember);
    FoldStr(4, m.role, x3, m, ApplyMember);
    FoldThen(Str(1, m.path), Num(2, m.size), NO_MEMBER, x1, x2, ApplyMember);
    FoldThen(Str(1, m.path) + Num(2, m.size), Str(3, m.sha256), NO_MEMBER, x2, x3, ApplyMember);
    FoldThen(Str(1, m.path) + Num(2, m.size) + Str(3, m.sha256), Str(4, m.role), NO_MEMBER, x3, m, ApplyMember);
    DecodeEncoded(MemberFields(m), NO_MEMBER, ApplyMember);
  }

  // ----- Partition entries

  /** The decoder's variables: a size counts only when its presence flag was seen. */
  datatype Partial = Partial(entry: Entry, size: nat, hasSize: bool)

  const NO_ENTRY: Partial := Partial(Entry(0, [], 0, None, [], []), 0, false)

  function PlaceFields(e: Entry): (r: seq<Field>) {
    Num(1, e.index) + Str(2, e.name) + Num(3, e.offset)
  }

  function SizeFields(e: Entry): (r: seq<Field>) {
    if e.size.Some? then Num(4, e.size.value) + Flag(5, true) else []
  }

  function KindFields(e: Entry): (r: seq<Field>) {
    Str(6, e.attribute) + Str(7, e.branch)
  }

  function EntryFields(e: Entry): (r: seq<Field>) {
    PlaceFields(e) + SizeFields(e) + KindFields(e)
  }

  function ApplyEntry(p: Partial, f: Field): (r: Option<Partial>) {
    if f.number == 1 then match AsNumber(f) case Some(v) => Some(p.(entry := p.entry.(index := Truncated(v, U32_LIMIT)))) case None => None
    else if f.number == 2 then match AsText(f) case Some(s) => Some(p.(entry := p.entry.(name := s))) case None => None
    else if f.number == 3 then match AsNumber(f) case Some(v) => Some(p.(entry := p.entry.(offset := v))) case None => None
    else if f.number == 4 then match AsNumber(f) case Some(v) => Some(p.(size := v)) case None => None
    else if f.number == 5 then match AsNumber(f) case Some(v) => Some(p.(hasSize := v != 0)) case None => None
    else if f.number == 6 then match AsText(f) case Some(s) => Some(p.(entry := p.entry.(attribute := s))) case None => None
    else if f.number == 7 then match AsText(f) case Some(s) => Some(p.(entry := p.entry.(branch := s))) case None => None
    else Some(p)
  }

  function Finished(p: Partial): (e: Entry) {
    p.entry.(size := if p.hasSize then Some(p.size) else None)
  }

  predicate EntryOk(e: Entry) {
    && e.index < U32_LIMIT && e.offset < U64_LIMIT && (e.size.Some? ==> e.size.value < U64_LIMIT)
    && IsText(e.name) && IsText(e.attribute) && IsText(e.branch)
    && |e.name| < U64_LIMIT && |e.attribute| < U64_LIMIT && |e.branch| < U64_LIMIT
  }

  function DecodeEntry(b: seq<byte>): (r: Option<Entry>) {
    match Decode(b, NO_ENTRY, ApplyEntry)
    case None => None
    case Some(p) => Some(Finished(p))
  }

  lemma PlaceFolds(e: Entry)
    requires EntryOk(e)
    ensures Fold(PlaceFields(e), NO_ENTRY, ApplyEntry)
            == Some(NO_ENTRY.(entry := Entry(e.index, e.name, e.offset, None, [], [])))
  {
    var x1 := NO_ENTRY.(entry := NO_ENTRY.entry.(index := e.index));
    var x2 := x1.(entry := x1.entry.(name := e.name));
    var x3 := x2.(entry := x2.entry.(offset := e.offset));
    FoldNum(1, e.index, NO_ENTRY, x1, ApplyEntry);
    FoldStr(2, e.name, x1, x2, ApplyEntry);
    FoldNum(3, e.offset, x2, x3, ApplyEntry);
    FoldThen(Num(1, e.index), Str(2, e.name), NO_ENTRY, x1, x2, ApplyEntry);
    FoldThen(Num(1, e.index) + Str(2, e.name), Num(3, e.offset), NO_ENTRY, x2, x3, ApplyEntry);
  }

  lemma SizeFolds(e: Entry, x: Partial)
    requires x.size == 0 && !x.hasSize && EntryOk(e)
    ensures Fold(SizeFields(e), x, ApplyEntry)
            == Some(if e.size.Some? then x.(size := e.size.value, hasSize := true) else x)
  {
    if e.size.Some? {
      var y := x.(size := e.size.value);
      FoldNum(4, e.size.value, x, y, ApplyEntry);
      FoldFlag(5, true, y, y.(hasSize := true), ApplyEntry);
      FoldThen(Num(4, e.size.value), Flag(5, true), x, y, y.(hasSize := true), ApplyEntry);
    }
  }

  lemma KindFolds(e: Entry, x: Partial)
    requires EntryOk(e) && x.entry.attribute == [] && x.entry.branch == []
    ensures Fold(KindFields(e), x, ApplyEntry)
            == Some(x.(entry := x.entry.(attribute := e.attribute, branch := e.branch)))
  {
    var y := x.(entry := x.entry.(attribute := e.attribute));
    FoldStr(6, e.attribute, x, y, ApplyEntry);
    FoldStr(7, e.branch, y, y.(entry := y.entry.(branch := e.branch)), ApplyEntry);
    FoldThen(Str(6, e.attribute), Str(7, e.branch), x, y, y.(entry := y.entry.(branch := e.branch)), ApplyEntry);
  }

  lemma EntryWritable(e: Entry)
    requires EntryOk(e)
    ensures AllWritable(EntryFields(e))
  {
    assert AllWritable(PlaceFields(e));
    assert AllWritable(SizeFields(e));
    assert AllWritable(KindFields(e));
  }

  lemma EntryRoundTrip(e: Entry)
    requires EntryOk(e)
    ensures DecodeEntry(EncodeFields(EntryFields(e))) == Some(e)
  {
    var x := NO_ENTRY.(entry := Entry(e.index, e.name, e.offset, None, [], []));
    var y := if e.size.Some? then x.(size := e.size.value, hasSize := true) else x;
    var z := y.(entry := y.entry.(attribute := e.attribute, branch := e.branch));
    PlaceFolds(e);
    SizeFolds(e, x);
    KindFolds(e, y);
    FoldThen(PlaceFields(e), SizeFields(e), NO_ENTRY, x, y, ApplyEntry);
    FoldThen(PlaceFields(e) + SizeFields(e), KindFields(e), NO_ENTRY, y, z, ApplyEntry);
    EntryWritable(e);
    DecodeEncoded(EntryFields(e), NO_ENTRY, ApplyEntry);
  }

  // ----- The response

  const NO_RESPONSE: Response := Response([], [], 0, [], [], [], [], [], [], [])

  function MemberField(m: Member): (f: Field) {
    Bytes(4, EncodeFields(MemberFields(m)))
  }

  function EntryField(e: Entry): (f: Field) {
    Bytes(5, EncodeFields(EntryFields(e)))
  }

  function FactField(p: Pair): (f: Field) {
    Bytes(6, EncodeFields(PairFields(p)))
  }

  function UnknownField(p: Pair): (f: Field) {
    Bytes(8, EncodeFields(PairFields(p)))
  }

  /** A repeated string is written with the writer that skips empty ones. */
  function Strings(items: seq<seq<byte>>): (r: seq<Field>) {
    if items == [] then [] else Strings(items[..|items| - 1]) + Str(7, items[|items| - 1])
  }

  function HeadFields(r: Response): (fs: seq<Field>) {
    Str(1, r.formatId) + Str(2, r.contentSha256) + Num(3, r.size)
  }

  function ListFields(r: Response): (fs: seq<Field>) {
    Mapped(r.members, MemberField) + Mapped(r.partitions, EntryField) + Mapped(r.facts, FactField)
    + Strings(r.unclassified) + Mapped(r.unknowns, UnknownField)
  }

  function TailFields(r: Response): (fs: seq<Field>) {
    Str(9, r.confidence) + Str(10, r.manifestSha256)
  }

  function ResponseFields(r: Response): (fs: seq<Field>) {
    HeadFields(r) + ListFields(r) + TailFields(r)
  }

  function EncodeResponse(r: Response): (b: seq<byte>) {
    EncodeFields(ResponseFields(r))
  }

  /** A nested message. */
  function AsBytes(f: Field): (r: Option<seq<byte>>) {
    if f.Bytes? then Some(f.data) else None
  }

  function Nested<T>(f: Field, decode: seq<byte> -> Option<T>): (r: Option<T>) {
    match AsBytes(f)
    case None => None
    case Some(b) => decode(b)
  }

  function ApplyResponse(r: Response, f: Field): (s: Option<Response>) {
    if f.number == 1 then match AsText(f) case Some(s) => Some(r.(formatId := s)) case None => None
    else if f.number == 2 then match AsText(f) case Some(s) => Some(r.(contentSha256 := s)) case None => None
    else if f.number == 3 then match AsNumber(f) case Some(v) => Some(r.(size := v)) case None => None
    else if f.number == 4 then match Nested(f, DecodeMember) case Some(m) => Some(r.(members := r.members + [m])) case None => None
    else if f.number == 5 then match Nested(f, DecodeEntry) case Some(e) => Some(r.(partitions := r.partitions + [e])) case None => None
    else if f.number == 6 then match Nested(f, DecodePair) case Some(p) => Some(r.(facts := r.facts + [p])) case None => None
    else if f.number == 7 then match AsText(f) case Some(s) => Some(r.(unclassified := r.unclassified + [s])) case None => None
    else if f.number == 8 then match Nested(f, DecodePair) case Some(p) => Some(r.(unknowns := r.unknowns + [p])) case None => None
    else if f.number == 9 then match AsText(f) case Some(s) => Some(r.(confidence := s)) case None => None
    else if f.number == 10 then match AsText(f) case Some(s) => Some(r.(manifestSha256 := s)) case None => None
    else Some(r)
  }

  function DecodeResponse(b: seq<byte>): (r: Option<Response>) {
    Decode(b, NO_RESPONSE, ApplyResponse)
  }

  predicate Fits(b: seq<byte>) {
    |b| < U64_LIMIT
  }

  predicate ResponseOk(r: Response) {
    && IsText(r.formatId) && IsText(r.contentSha256) && IsText(r.confidence) && IsText(r.manifestSha256) && r.size < U64_LIMIT
    && Fits(r.formatId) && Fits(r.contentSha256) && Fits(r.confidence) && Fits(r.manifestSha256)
    && (forall i :: 0 <= i < |r.members| ==> MemberOk(r.members[i]) && Fits(EncodeFields(MemberFields(r.members[i]))))
    && (forall i :: 0 <= i < |r.partitions| ==> EntryOk(r.partitions[i]) && Fits(EncodeFields(EntryFields(r.partitions[i]))))
    && (forall i :: 0 <= i < |r.facts| ==> PairOk(r.facts[i]) && Fits(EncodeFields(PairFields(r.facts[i]))))
    && (forall i :: 0 <= i < |r.unknowns| ==> PairOk(r.unknowns[i]) && Fits(EncodeFields(PairFields(r.unknowns[i]))))
    && (forall i :: 0 <= i < |r.unclassified| ==> IsText(r.unclassified[i]) && Fits(r.unclassified[i]))
  }

  /** Empty repeated strings are not written, so they cannot come back. */
  predicate NoEmptyString(r: Response) {
    forall i :: 0 <= i < |r.unclassified| ==> r.unclassified[i] != []
  }

  // ----- The response's round trip

  lemma HeadFolds(r: Response)
    requires ResponseOk(r)
    ensures Fold(HeadFields(r), NO_RESPONSE, ApplyResponse)
            == Some(NO_RESPONSE.(formatId := r.formatId, contentSha256 := r.contentSha256, size := r.size))
  {
    var x := NO_RESPONSE.(formatId := r.formatId);
    var y := x.(contentSha256 := r.contentSha256);
    var z := y.(size := r.size);
    FoldStr(1, r.formatId, NO_RESPONSE, x, ApplyResponse);
    FoldStr(2, r.contentSha256, x, y, ApplyResponse);
    FoldNum(3, r.size, y, z, ApplyResponse);
    FoldThen(Str(1, r.formatId), Str(2, r.contentSha256), NO_RESPONSE, x, y, ApplyResponse);
    FoldThen(Str(1, r.formatId) + Str(2, r.contentSha256), Num(3, r.size), NO_RESPONSE, y, z, ApplyResponse);
  }

  lemma MemberApplies(x: Response, item: Member)
    requires MemberOk(item)
    ensures Steps(ApplyResponse, x, MemberField(item), x.(members := x.members + [item]))
  {
    MemberRoundTrip(item);
  }

  lemma MembersFold(r: Response, x: Response)
    requires ResponseOk(r) && x.members == []
    ensures Fold(Mapped(r.members, MemberField), x, ApplyResponse) == Some(x.(members := r.members))
  {
    var with := (items: seq<Member>) => x.(members := items);
    forall k | 0 <= k < |r.members|
      ensures Steps(ApplyResponse, with(r.members[..k]), MemberField(r.members[k]), with(r.members[..k] + [r.members[k]]))
    {
      MemberApplies(with(r.members[..k]), r.members[k]);
    }
    FoldList(r.members, MemberField, with, ApplyResponse);
    assert with([]) == x;
  }

  lemma PartitionApplies(x: Response, item: Entry)
    requires EntryOk(item)
    ensures Steps(ApplyResponse, x, EntryField(item), x.(partitions := x.partitions + [item]))
  {
    EntryRoundTrip(item);
  }

  lemma PartitionsFold(r: Response, x: Response)
    requires ResponseOk(r) && x.partitions == []
    ensures Fold(Mapped(r.partitions, EntryField), x, ApplyResponse) == Some(x.(partitions := r.partitions))
  {
    var with := (items: seq<Entry>) => x.(partitions := items);
    forall k | 0 <= k < |r.partitions|
      ensures Steps(ApplyResponse, with(r.partitions[..k]), EntryField(r.partitions[k]), with(r.partitions[..k] + [r.partitions[k]]))
    {
      PartitionApplies(with(r.partitions[..k]), r.partitions[k]);
    }
    FoldList(r.partitions, EntryField, with, ApplyResponse);
    assert with([]) == x;
  }

  lemma FactApplies(x: Response, item: Pair)
    requires PairOk(item)
    ensures Steps(ApplyResponse, x, FactField(item), x.(facts := x.facts + [item]))
  {
    PairRoundTrip(item);
  }

  lemma FactsFold(r: Response, x: Response)
    requires ResponseOk(r) && x.facts == []
    ensures Fold(Mapped(r.facts, FactField), x, ApplyResponse) == Some(x.(facts := r.facts))
  {
    var with := (items: seq<Pair>) => x.(facts := items);
    forall k | 0 <= k < |r.facts|
      ensures Steps(ApplyResponse, with(r.facts[..k]), FactField(r.facts[k]), with(r.facts[..k] + [r.facts[k]]))
    {
      FactApplies(with(r.facts[..k]), r.facts[k]);
    }
    FoldList(r.facts, FactField, with, ApplyResponse);
    assert with([]) == x;
  }

  lemma UnknownApplies(x: Response, item: Pair)
    requires PairOk(item)
    ensures Steps(ApplyResponse, x, UnknownField(item), x.(unknowns := x.unknowns + [item]))
  {
    PairRoundTrip(item);
  }

  lemma UnknownsFold(r: Response, x: Response)
    requires ResponseOk(r) && x.unknowns == []
    ensures Fold(Mapped(r.unknowns, UnknownField), x, ApplyResponse) == Some(x.(unknowns := r.unknowns))
  {
    var with := (items: seq<Pair>) => x.(unknowns := items);
    forall k | 0 <= k < |r.unknowns|
      ensures Steps(ApplyResponse, with(r.unknowns[..k]), UnknownField(r.unknowns[k]), with(r.unknowns[..k] + [r.unknowns[k]]))
    {
      UnknownApplies(with(r.unknowns[..k]), r.unknowns[k]);
    }
    FoldList(r.unknowns, UnknownField, with, ApplyResponse);
    assert with([]) == x;
  }

  /** The strings that come back: all but the empty ones. */
  function NonEmpty(items: seq<seq<byte>>): (r: seq<seq<byte>>) {
    if items == [] then []
    else NonEmpty(items[..|items| - 1]) + if items[|items| - 1] == [] then [] else [items[|items| - 1]]
  }

  lemma {:induction false} NonEmptyIsAll(items: seq<seq<byte>>)
    ensures NonEmpty(items) == items <==> forall i :: 0 <= i < |items| ==> items[i] != []
    ensures |NonEmpty(items)| <= |items|
  {
    if items == [] {
    } else {
      var front, last := items[..|items| - 1], items[|items| - 1];
      NonEmptyIsAll(front);
      assert items == front + [last];
      if last == [] {
        assert |NonEmpty(items)| < |items|;
      } else if NonEmpty(items) == items {
        assert NonEmpty(items)[..|front|] == front;
        assert |NonEmpty(front)| == |front|;
        assert NonEmpty(items)[..|front|] == NonEmpty(front);
      }
    }
  }

  lemma {:induction false} StringsFold(items: seq<seq<byte>>, x: Response)
    requires x.unclassified == [] && forall i :: 0 <= i < |items| ==> IsText(items[i])
    ensures Fold(Strings(items), x, ApplyResponse) == Some(x.(unclassified := NonEmpty(items)))
    decreases |items|
  {
    if items == [] {
    } else {
      var front, last := items[..|items| - 1], items[|items| - 1];
      StringsFold(front, x);
      var y := x.(unclassified := NonEmpty(front));
      var z := x.(unclassified := NonEmpty(items));
      assert last == items[|items| - 1] && IsText(last);
      assert NonEmpty(front) + [] == NonEmpty(front);
      FoldStr(7, last, y, z, ApplyResponse);
      FoldThen(Strings(front), Str(7, last), x, y, z, ApplyResponse);
    }
  }

  lemma ListsFold(r: Response, x: Response)
    requires ResponseOk(r)
    requires x.members == [] && x.partitions == [] && x.facts == [] && x.unclassified == [] && x.unknowns == []
    ensures Fold(ListFields(r), x, ApplyResponse)
            == Some(x.(members := r.members, partitions := r.partitions, facts := r.facts,
                       unclassified := NonEmpty(r.unclassified), unknowns := r.unknowns))
  {
    var a, b, c := Mapped(r.members, MemberField), Mapped(r.partitions, EntryField), Mapped(r.facts, FactField);
    var x1 := x.(members := r.members);
    var x2 := x1.(partitions := r.partitions);
    var x3 := x2.(facts := r.facts);
    var x4 := x3.(unclassified := NonEmpty(r.unclassified));
    var x5 := x4.(unknowns := r.unknowns);
    MembersFold(r, x);
    PartitionsFold(r, x1);
    FactsFold(r, x2);
    StringsFold(r.unclassified, x3);
    UnknownsFold(r, x4);
    FoldThen(a, b, x, x1, x2, ApplyResponse);
    FoldThen(a + b, c, x, x2, x3, ApplyResponse);
    FoldThen(a + b + c, Strings(r.unclassified), x, x3, x4, ApplyResponse);
    FoldThen(a + b + c + Strings(r.unclassified), Mapped(r.unknowns, UnknownField), x, x4, x5, ApplyResponse);
  }

  lemma TailFolds(r: Response, x: Response)
    requires ResponseOk(r) && x.confidence == [] && x.manifestSha256 == []
    ensures Fold(TailFields(r), x, ApplyResponse) == Some(x.(confidence := r.confidence, manifestSha256 := r.manifestSha256))
  {
    var y := x.(confidence := r.confidence);
    FoldStr(9, r.confidence, x, y, ApplyResponse);
    FoldStr(10, r.manifestSha256, y, y.(manifestSha256 := r.manifestSha256), ApplyResponse);
    FoldThen(Str(9, r.confidence), Str(10, r.manifestSha256), x, y, y.(manifestSha256 := r.manifestSha256), ApplyResponse);
  }

  lemma {:induction false} StringsWritable(items: seq<seq<byte>>)
    requires forall i :: 0 <= i < |items| ==> Fits(items[i])
    ensures AllWritable(Strings(items))
  {
    if items == [] {
    } else {
      StringsWritable(items[..|items| - 1]);
    }
  }

  lemma ListsWritable(r: Response)
    requires ResponseOk(r)
    ensures AllWritable(ListFields(r))
  {
    var a, b, c := Mapped(r.members, MemberField), Mapped(r.partitions, EntryField), Mapped(r.facts, FactField);
    var d, e := Strings(r.unclassified), Mapped(r.unknowns, UnknownField);
    StringsWritable(r.unclassified);
    assert AllWritable(a) && AllWritable(b) && AllWritable(c) && AllWritable(e);
    WritableConcat(a, b);
    WritableConcat(a + b, c);
    WritableConcat(a + b + c, d);
    WritableConcat(a + b + c + d, e);
  }

  lemma EndsWritable(r: Response)
    requires ResponseOk(r)
    ensures AllWritable(HeadFields(r)) && AllWritable(TailFields(r))
  {
    StrWritable(1, r.formatId);
    StrWritable(2, r.contentSha256);
    NumWritable(3, r.size);
    WritableConcat(Str(1, r.formatId), Str(2, r.contentSha256));
    WritableConcat(Str(1, r.formatId) + Str(2, r.contentSha256), Num(3, r.size));
    StrWritable(9, r.confidence);
    StrWritable(10, r.manifestSha256);
    WritableConcat(Str(9, r.confidence), Str(10, r.manifestSha256));
  }

  lemma ResponseWritable(r: Response)
    requires ResponseOk(r)
    ensures AllWritable(ResponseFields(r))
  {
    ListsWritable(r);
    EndsWritable(r);
    WritableConcat(HeadFields(r), ListFields(r));
    WritableConcat(HeadFields(r) + ListFields(r), TailFields(r));
  }

  /** What decoding an encoded response gives: everything but its empty strings. */
  lemma ResponseDecodes(r: Response)
    requires ResponseOk(r)
    ensures DecodeResponse(EncodeResponse(r)) == Some(r.(unclassified := NonEmpty(r.unclassified)))
  {
    var x := NO_RESPONSE.(formatId := r.formatId, contentSha256 := r.contentSha256, size := r.size);
    var y := x.(members := r.members, partitions := r.partitions, facts := r.facts,
                unclassified := NonEmpty(r.unclassified), unknowns := r.unknowns);
    HeadFolds(r);
    ListsFold(r, x);
    TailFolds(r, y);
    var z := y.(confidence := r.confidence, manifestSha256 := r.manifestSha256);
    FoldThen(HeadFields(r), ListFields(r), NO_RESPONSE, x, y, ApplyResponse);
    FoldThen(HeadFields(r) + ListFields(r), TailFields(r), NO_RESPONSE, y, z, ApplyResponse);
    ResponseWritable(r);
    DecodeEncoded(ResponseFields(r), NO_RESPONSE, ApplyResponse);
  }

  /** The round trip holds exactly for responses without empty strings. */
  lemma ResponseRoundTrip(r: Response)
    requires ResponseOk(r)
    ensures DecodeResponse(EncodeResponse(r)) == Some(r) <==> NoEmptyString(r)
  {
    ResponseDecodes(r);
    NonEmptyIsAll(r.unclassified);
  }

  // ----- Lengths

  lemma StrRoom(n: nat, s: seq<byte>)
    ensures Room(Str(n, s)) <= 2 * |s| + 2
  {
    if s != [] {
      RoomOne(Bytes(n, s));
    }
  }

  lemma NumRoom(n: nat, v: nat)
    ensures Room(Num(n, v)) <= 2 * v + 2
  {
    if v != 0 {
      RoomOne(Varint(n, v));
    }
  }

  lemma MemberLength(m: Member)
    requires MemberOk(m)
    ensures |EncodeFields(MemberFields(m))| <= 2 * (|m.path| + m.size + |m.sha256| + |m.role|) + 8
  {
    var a, b, c, d := Str(1, m.path), Num(2, m.size), Str(3, m.sha256), Str(4, m.role);
    StrRoom(1, m.path);
    NumRoom(2, m.size);
    StrRoom(3, m.sha256);
    StrRoom(4, m.role);
    RoomConcat(a, b);
    RoomConcat(a + b, c);
    RoomConcat(a + b + c, d);
    EncodedLength(MemberFields(m));
  }

  lemma HeadRoom(r: Response)
    ensures Room(HeadFields(r)) <= 2 * (|r.formatId| + |r.contentSha256| + r.size) + 6
  {
    StrRoom(1, r.formatId);
    StrRoom(2, r.contentSha256);
    NumRoom(3, r.size);
    RoomConcat(Str(1, r.formatId), Str(2, r.contentSha256));
    RoomConcat(Str(1, r.formatId) + Str(2, r.contentSha256), Num(3, r.size));
  }

  lemma TailRoom(r: Response)
    ensures Room(TailFields(r)) <= 2 * (|r.confidence| + |r.manifestSha256|) + 4
  {
    StrRoom(9, r.confidence);
    StrRoom(10, r.manifestSha256);
    RoomConcat(Str(9, r.confidence), Str(10, r.manifestSha256));
  }

  /** A response about one member and nothing else. */
  lemma OneMemberLength(r: Response)
    requires |r.members| == 1 && r.partitions == [] && r.facts == [] && r.unclassified == [] && r.unknowns == []
    requires ResponseOk(r)
    ensures |EncodeResponse(r)|
            <= 2 * (|r.formatId| + |r.contentSha256| + r.size + |r.confidence| + |r.manifestSha256|)
               + 4 * (|r.members[0].path| + r.members[0].size + |r.members[0].sha256| + |r.members[0].role|) + 28
  {
    var field := MemberField(r.members[0]);
    assert Mapped(r.members, MemberField) == [field];
    assert ListFields(r) == [field];
    HeadRoom(r);
    TailRoom(r);
    RoomOne(field);
    MemberLength(r.members[0]);
    RoomConcat(HeadFields(r), [field]);
    RoomConcat(HeadFields(r) + [field], TailFields(r));
    ResponseWritable(r);
    EncodedLength(ResponseFields(r));
  }
}
