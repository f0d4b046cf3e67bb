/** A whole compressed archive: gzip under tar, read once through the counting hasher. */
module Bundle {
  import opened Bits
  import opened Results
  import opened Chunks
  import opened Text
  import opened TarSpec
  import opened BitReader
  import TarReader
  import Gzip

  type MembersFunction = (seq<byte>, set<seq<Code>>) -> Result<seq<Member>, TarSpec.Error>

  ghost predicate IsMembers(members: MembersFunction) {
    forall bytes, seen {:trigger Members(bytes, seen)} :: members(bytes, seen) == Members(bytes, seen)
  }

  lemma MembersStep(members: MembersFunction, next: TarReader.NextFunction, bytes: seq<byte>, seen: set<seq<Code>>)
    requires IsMembers(members) && TarReader.IsNext(next)
    ensures members(bytes, seen) ==
            match next(bytes, NO_OVERRIDES, seen)
            case Err(e) => Err(e)
            case Ok(None) => Ok([])
            case Ok(Some(found)) =>
              match Body(found)
              case Err(e) => Err(e)
              case Ok(cut) => Prepend([Member(found.header.path, found.header.size, cut.body)], members(cut.rest, found.seen))
  {
    assert members(bytes, seen) == Members(bytes, seen);
    assert next(bytes, NO_OVERRIDES, seen) == Next(bytes, NO_OVERRIDES, seen);
    match Next(bytes, NO_OVERRIDES, seen)
    case Ok(Some(found)) =>
      var cut := Body(found);
      if cut.Ok? {
        assert members(cut.value.rest, found.seen) == Members(cut.value.rest, found.seen);
      }
    case _ =>
  }

  lemma NextShrinks(next: TarReader.NextFunction, bytes: seq<byte>, seen: set<seq<Code>>)
    requires TarReader.IsNext(next)
    ensures var r := next(bytes, NO_OVERRIDES, seen); r.Ok? && r.value.Some? ==> |r.value.value.rest| < |bytes|
  {
    assert next(bytes, NO_OVERRIDES, seen) == Next(bytes, NO_OVERRIDES, seen);
  }

  /** What one turn of the member loop comes to. */
  datatype One = End | Refused(header: Header) | Got(member: Member, chunks: seq<seq<byte>>)

  /** The next header belongs to a file that the caller turns down before its body is read. */
  ghost predicate TurnedDown(next: TarReader.NextFunction, bytes: seq<byte>, seen: set<seq<Code>>, header: Header) {
    && var r := next(bytes, NO_OVERRIDES, seen);
    && r.Ok? && r.value.Some? && r.value.value.header == header
  }

  /** The next member, and what is left behind it. */
  ghost predicate OneMember(next: TarReader.NextFunction, bytes: seq<byte>, seen: set<seq<Code>>, member: Member, rest: seq<byte>, now: set<seq<Code>>) {
    && var r := next(bytes, NO_OVERRIDES, seen);
    && r.Ok? && r.value.Some? && now == r.value.value.seen
    && member.path == r.value.value.header.path && member.size == r.value.value.header.size
    && Body(r.value.value) == Ok(Cut(member.body, rest))
  }

  function Front(members: seq<Member>): (r: seq<Member>)
    requires members != []
    ensures |r| < |members|
  {
    members[..|members| - 1]
  }

  function Last(members: seq<Member>): (m: Member)
    requires members != []
  {
    members[|members| - 1]
  }

  /** These members come first, whatever follows. */
  ghost predicate ReadsFirst(next: TarReader.NextFunction, bytes: seq<byte>, seen: set<seq<Code>>, done: seq<Member>, rest: seq<byte>, now: set<seq<Code>>)
    decreases |done|
  {
    if done == [] then rest == bytes && now == seen
    else
      exists mid: seq<byte>, before: set<seq<Code>> ::
        ReadsFirst(next, bytes, seen, Front(done), mid, before) && OneMember(next, mid, before, Last(done), rest, now)
  }

  lemma ReadsOneMore(next: TarReader.NextFunction, bytes: seq<byte>, seen: set<seq<Code>>, done: seq<Member>, mid: seq<byte>, before: set<seq<Code>>,
                     member: Member, rest: seq<byte>, now: set<seq<Code>>)
    requires ReadsFirst(next, bytes, seen, done, mid, before) && OneMember(next, mid, before, member, rest, now)
    ensures ReadsFirst(next, bytes, seen, done + [member], rest, now)
  {
    var more := done + [member];
    assert Front(more) == done && Last(more) == member;
  }

  /** One header and, unless the caller turns it down, its body. */
  method ReadOne(reader: TarReader.Reader, refuses: Header -> bool, ghost members: MembersFunction, ghost next: TarReader.NextFunction)
    returns (r: Result<One, TarReader.Failure>)
    requires reader.Valid() && !reader.finished && reader.overrides == NO_OVERRIDES
    requires reader.pendingBody == 0 && reader.pendingPadding == 0
    requires IsMembers(members) && TarReader.IsNext(next)
    modifies reader, reader.gz, reader.gz.crc, reader.gz.inflate, reader.gz.inflate.bits, reader.gz.inflate.bits.source
    ensures r.Ok? && !r.value.Refused? ==> reader.Valid()
    ensures var spec := members(old(reader.gz.Rest()), old(reader.seenPaths));
            match r
            case Err(Io(e)) => reader.gz.goal == Err(e)
            case Err(Archive(e)) => spec == Err(e)
            case Ok(End) => spec == Ok([]) && reader.finished
            case Ok(Refused(header)) => refuses(header) && TurnedDown(next, old(reader.gz.Rest()), old(reader.seenPaths), header)
            case Ok(Got(member, chunks)) =>
              && spec == Prepend([member], members(reader.gz.Rest(), reader.seenPaths)) && member.body == Flatten(chunks)
              && (exists mode :: !refuses(Header(member.path, member.size, mode)))
              && OneMember(next, old(reader.gz.Rest()), old(reader.seenPaths), member, reader.gz.Rest(), reader.seenPaths)
              && |reader.gz.Rest()| < |old(reader.gz.Rest())|
              && !reader.finished && reader.overrides == NO_OVERRIDES
              && reader.pendingBody == 0 && reader.pendingPadding == 0
  {
    ghost var bytes := reader.gz.Rest();
    MembersStep(members, next, bytes, reader.seenPaths);
    NextShrinks(next, bytes, reader.seenPaths);
    assert bytes[0..] == bytes;
    var header := reader.NextMember(next);
    if header.Err? {
      return Err(header.error);
    }
    if header.value.None? {
      return Ok(End);
    }
    if refuses(header.value.value) {
      return Ok(Refused(header.value.value));
    }
    var body := reader.ReadMemberBody(header.value.value);
    if body.Err? {
      return Err(body.error);
    }
    assert header.value.value == Header(header.value.value.path, header.value.value.size, header.value.value.mode);
    return Ok(Got(Member(header.value.value.path, header.value.value.size, Flatten(body.value)), body.value));
  }

  /** A file turned down is the next member of an archive that reads on. */
  lemma TurnedDownIsNext(members: MembersFunction, next: TarReader.NextFunction, bytes: seq<byte>, seen: set<seq<Code>>, header: Header)
    requires IsMembers(members) && TarReader.IsNext(next) && TurnedDown(next, bytes, seen, header) && members(bytes, seen).Ok?
    ensures members(bytes, seen).value != []
    ensures members(bytes, seen).value[0].path == header.path && members(bytes, seen).value[0].size == header.size
  {
    MembersStep(members, next, bytes, seen);
  }

  /** All members, from a reader at its beginning. */
  method ReadMembers(reader: TarReader.Reader, ghost members: MembersFunction, ghost next: TarReader.NextFunction)
    returns (r: Result<seq<Member>, TarReader.Failure>)
    requires reader.Valid() && !reader.finished && reader.overrides == NO_OVERRIDES && reader.seenPaths == {}
    requires reader.pendingBody == 0 && reader.pendingPadding == 0
    requires IsMembers(members) && TarReader.IsNext(next)
    modifies reader, reader.gz, reader.gz.crc, reader.gz.inflate, reader.gz.inflate.bits, reader.gz.inflate.bits.source
    ensures match r
            case Err(Io(e)) => reader.gz.goal == Err(e)
            case Err(Archive(e)) => members(old(reader.gz.Rest()), {}) == Err(e)
            case Ok(found) => members(old(reader.gz.Rest()), {}) == Ok(found) && reader.Valid() && reader.finished
  {
    ghost var goal := members(reader.gz.Rest(), {});
    var found: seq<Member> := [];
    PrependNothing(goal);
    while true
      invariant reader.Valid() && !reader.finished && reader.overrides == NO_OVERRIDES
      invariant reader.pendingBody == 0 && reader.pendingPadding == 0
      invariant goal == Prepend(found, members(reader.gz.Rest(), reader.seenPaths))
      decreases |reader.gz.Rest()|
    {
      var one := ReadOne(reader, _ => false, members, next);
      match one {
        case Err(e) => return Err(e);
        case Ok(End) =>
          assert found + [] == found;
          return Ok(found);
        case Ok(Got(member, _)) =>
          PrependTwice(found, [member], members(reader.gz.Rest(), reader.seenPaths));
          found := found + [member];
      }
    }
  }

  /**
   * The streaming spine of `inspect`.  A success means that the container's
   * checksum and length were verified, that the members are those of its
   * payload, and that the hasher saw every byte of the input although it sits
   * below two buffering readers.  A failure is a refusal of one of the layers:
   * of the container, or of the archive in what could be decoded of it.
   */
  method ReadArchive(source: CountingSource) returns (r: Result<seq<Member>, TarReader.Failure>)
    requires source.Valid() && source.remaining == source.whole
    modifies source
    ensures r.Ok? ==>
              && Gzip.Gunzip(source.whole).Ok?
              && Archive(Gzip.Gunzip(source.whole).value) == Ok(r.value)
              && source.remaining == [] && source.hashed == source.whole && source.count == |source.whole|
    ensures r.Err? && r.error.Io? ==> Gzip.Gunzip(source.whole) == Err(r.error.error)
    ensures r.Err? && r.error.Archive? ==> Archive(Gzip.Decoded(source.whole)) == Err(r.error.cause)
  {
    var header := Gzip.ReadHeader(source);
    if header.Err? {
      return Err(TarReader.Io(header.error));
    }
    var gz := new Gzip.Reader(source);
    assert gz.goal == Gzip.Gunzip(source.whole);
    var reader := new TarReader.Reader(gz);
    assert gz.Rest() == gz.inflate.goal.output == Gzip.Decoded(source.whole);
    r := ReadMembers(reader, Members, Next);
    if r.Ok? {
      gz.Verified();
    }
  }
}
