/** The streaming tar reader, on top of the gzip reader. */
module TarReader {
  import opened Bits
  import opened Results
  import opened Widths
  import opened Chunks
  import opened Text
  import opened TarSpec
  import Gzip
  import BitReader

  datatype Failure = Archive(cause: TarSpec.Error) | Io(error: Gzip.Error)

  class Reader {
    const gz: Gzip.Reader
    var pendingBody: nat
    var pendingPadding: nat
    var seenPaths: set<seq<Code>>
    var finished: bool
    var overrides: Overrides

    ghost predicate Valid()
      reads this, gz, gz.crc, gz.inflate, gz.inflate.bits, gz.inflate.bits.source
    {
      gz.Valid() && (finished ==> gz.trailerVerified)
    }

    constructor (stream: Gzip.Reader)
      requires stream.Valid()
      ensures Valid() && gz == stream && !finished
      ensures pendingBody == 0 && pendingPadding == 0 && seenPaths == {} && overrides == NO_OVERRIDES
    {
      gz := stream;
      pendingBody, pendingPadding, seenPaths := 0, 0, {};
      finished, overrides := false, NO_OVERRIDES;
    }

    /** Reads exactly `n` bytes; a shorter stream is the given archive error. */
    method Exactly(n: nat, short: TarSpec.Error) returns (r: Result<seq<byte>, Failure>)
      requires gz.Valid()
      modifies gz, gz.crc, gz.inflate, gz.inflate.bits, gz.inflate.bits.source
      ensures match r
              case Err(Io(e)) => gz.goal == Err(e)
              case Err(Archive(e)) => e == short && |old(gz.Rest())| < n
              case Ok(data) => gz.Valid() && |data| == n && old(gz.Rest()) == data + gz.Rest()
    {
      var data := gz.ReadUpTo(n);
      if data.Err? {
        return Err(Io(data.error));
      }
      if |data.value| < n {
        return Err(Archive(short));
      }
      return Ok(data.value);
    }

    /** A body of `n` bytes and the `m` bytes of padding behind it. */
    method BodyAndPadding(n: nat, m: nat) returns (r: Result<seq<byte>, Failure>)
      requires gz.Valid()
      modifies gz, gz.crc, gz.inflate, gz.inflate.bits, gz.inflate.bits.source
      ensures match r
              case Err(Io(e)) => gz.goal == Err(e)
              case Err(Archive(e)) => e == ArchiveInvalid && |old(gz.Rest())| < n + m
              case Ok(body) =>
                && gz.Valid() && |old(gz.Rest())| >= n + m
                && body == old(gz.Rest())[..n] && gz.Rest() == old(gz.Rest())[n + m..]
    {
      ghost var bytes := gz.Rest();
      r := Exactly(n, ArchiveInvalid);
      if r.Err? {
        return;
      }
      ghost var middle := gz.Rest();
      var padding := Exactly(m, ArchiveInvalid);
      if padding.Err? {
        return Err(padding.error);
      }
      CutAt(bytes, r.value, padding.value, gz.Rest());
    }

    /** Skips what is left of the current member. */
    method SkipPending() returns (r: Result<(), Failure>)
      requires gz.Valid()
      modifies this`pendingBody, this`pendingPadding, gz, gz.crc, gz.inflate, gz.inflate.bits, gz.inflate.bits.source
      ensures var n := old(pendingBody) + old(pendingPadding);
              match r
              case Err(Io(e)) => gz.goal == Err(e)
              case Err(Archive(e)) => e == ArchiveInvalid && |old(gz.Rest())| < n
              case Ok(_) => gz.Valid() && |old(gz.Rest())| >= n && gz.Rest() == old(gz.Rest())[n..]
                            && pendingBody == 0 && pendingPadding == 0
    {
      var skipped := BodyAndPadding(pendingBody, pendingPadding);
      if skipped.Err? {
        return Err(skipped.error);
      }
      pendingBody, pendingPadding := 0, 0;
      return Ok(());
    }

    /** After the end marker only zeros may follow, and the stream is read to its verified end. */
    method CheckNoTrailingData() returns (r: Result<(), Failure>)
      requires gz.Valid()
      modifies gz, gz.crc, gz.inflate, gz.inflate.bits, gz.inflate.bits.source
      ensures match r
              case Err(Io(e)) => gz.goal == Err(e)
              case Err(Archive(e)) => e == ArchiveInvalid && !AllZero(old(gz.Rest()))
              case Ok(_) => gz.Valid() && gz.trailerVerified && AllZero(old(gz.Rest()))
    {
      ghost var passed: seq<byte> := [];
      while true
        invariant gz.Valid() && AllZero(passed) && old(gz.Rest()) == passed + gz.Rest()
        decreases |gz.Rest()|
      {
        var chunk := gz.ReadUpTo(BLOCK);
        if chunk.Err? {
          return Err(Io(chunk.error));
        }
        Gzip.Joined(passed, chunk.value, gz.Rest());
        if !AllZero(chunk.value) {
          NotAllZero(passed, chunk.value, gz.Rest());
          return Err(Archive(ArchiveInvalid));
        }
        passed := passed + chunk.value;
        if |chunk.value| < BLOCK {
          assert old(gz.Rest()) == passed;
          return Ok(());
        }
      }
    }

    method ReadEndMarker() returns (r: Result<(), Failure>)
      requires gz.Valid()
      modifies gz, gz.crc, gz.inflate, gz.inflate.bits, gz.inflate.bits.source
      ensures match r
              case Err(Io(e)) => gz.goal == Err(e)
              case Err(Archive(e)) => EndMarker(old(gz.Rest())) == Err(e)
              case Ok(_) => gz.Valid() && gz.trailerVerified && EndMarker(old(gz.Rest())) == Ok(Ended)
    {
      ghost var bytes := gz.Rest();
      var second := Exactly(BLOCK, ArchiveInvalid);
      if second.Err? {
        return Err(second.error);
      }
      assert bytes[..BLOCK] == second.value && bytes[BLOCK..] == gz.Rest();
      if !AllZero(second.value) {
        return Err(Archive(ArchiveInvalid));
      }
      r := CheckNoTrailingData();
    }

    /** A metadata body with its padding. */
    method ReadMetadata(size: nat) returns (r: Result<seq<byte>, Failure>)
      requires gz.Valid()
      modifies this`pendingPadding, gz, gz.crc, gz.inflate, gz.inflate.bits, gz.inflate.bits.source
      ensures match r
              case Err(Io(e)) => gz.goal == Err(e)
              case Err(Archive(e)) => Metadata(old(gz.Rest()), size) == Err(e)
              case Ok(body) => gz.Valid() && Metadata(old(gz.Rest()), size) == Ok(Cut(body, gz.Rest()))
                               && pendingPadding == 0
    {
      if size > MAX_PAX_BYTES {
        return Err(Archive(ArchiveInvalid));
      }
      pendingPadding := ComputePadding(size);
      r := BodyAndPadding(size, pendingPadding);
      pendingPadding := 0;
    }

    /** A metadata member whose header has been read. */
    method StepMetadata(flag: byte, size: nat, ghost apply: ApplyFunction) returns (r: Result<(), Failure>)
      requires gz.Valid() && IsApply(apply)
      modifies this`pendingPadding, this`overrides
      modifies gz, gz.crc, gz.inflate, gz.inflate.bits, gz.inflate.bits.source
      ensures match r
              case Err(Io(e)) => gz.goal == Err(e)
              case Err(Archive(e)) => SkippedBy(apply, flag, size, old(gz.Rest()), old(overrides)) == Err(e)
              case Ok(_) => gz.Valid() && pendingPadding == 0
                            && SkippedBy(apply, flag, size, old(gz.Rest()), old(overrides)) == Ok(More(gz.Rest(), overrides))
    {
      var body := ReadMetadata(size);
      if body.Err? {
        return Err(body.error);
      }
      var next := ReadOverrides(flag, body.value, overrides, apply);
      if next.Err? {
        return Err(Archive(next.error));
      }
      overrides := next.value;
      return Ok(());
    }

    /** A header block that is not the end marker, already read. */
    method StepHeader(block: seq<byte>) returns (r: Result<Option<Header>, Failure>)
      requires gz.Valid() && |block| == BLOCK && pendingPadding == 0
      modifies this`pendingPadding, this`overrides, this`seenPaths
      modifies gz, gz.crc, gz.inflate, gz.inflate.bits, gz.inflate.bits.source
      ensures var spec := HeaderBlock(block, old(gz.Rest()), old(overrides), old(seenPaths));
              match r
              case Err(Io(e)) => gz.goal == Err(e)
              case Err(Archive(e)) => spec == Err(e)
              case Ok(None) => gz.Valid() && pendingPadding == 0 && seenPaths == old(seenPaths)
                               && spec == Ok(More(gz.Rest(), overrides))
              case Ok(Some(header)) => gz.Valid() && pendingPadding == 0 && overrides == NO_OVERRIDES
                                       && spec == Ok(File(Found(header, gz.Rest(), seenPaths)))
    {
      var sum := CheckSum(block);
      if sum.Err? {
        return Err(Archive(sum.error));
      }
      var size := ReadOctal(block[124..136]);
      if size.Err? {
        return Err(Archive(size.error));
      }
      if IsMetadata(block[156]) {
        SkippedIsSkippedBy(ApplyMetadata, block[156], size.value, gz.Rest(), overrides);
        var skipped := StepMetadata(block[156], size.value, ApplyMetadata);
        return if skipped.Err? then Err(skipped.error) else Ok(None);
      }
      var header := FileHeader(block, size.value, overrides, seenPaths);
      if header.Err? {
        return Err(Archive(header.error));
      }
      overrides := NO_OVERRIDES;
      seenPaths := seenPaths + {header.value.path};
      return Ok(Some(header.value));
    }

    /** One turn of the header loop: a block and what it leads to. */
    method StepBlock() returns (r: Result<Progress, Failure>)
      requires gz.Valid() && pendingPadding == 0
      modifies this`pendingPadding, this`overrides, this`seenPaths, this`finished
      modifies gz, gz.crc, gz.inflate, gz.inflate.bits, gz.inflate.bits.source
      ensures r.Ok? ==> gz.Valid() && pendingPadding == 0
      ensures finished == (old(finished) || r == Ok(AtEnd))
      ensures var spec := Block(old(gz.Rest()), old(overrides), old(seenPaths));
              match r
              case Err(Io(e)) => gz.goal == Err(e)
              case Err(Archive(e)) => spec == Err(e)
              case Ok(AtEnd) => spec == Ok(Ended) && gz.trailerVerified
              case Ok(Again) => spec == Ok(More(gz.Rest(), overrides)) && seenPaths == old(seenPaths)
              case Ok(AtFile(header)) => spec == Ok(File(Found(header, gz.Rest(), seenPaths))) && overrides == NO_OVERRIDES
    {
      ghost var bytes := gz.Rest();
      var block := Exactly(BLOCK, ArchiveInvalid);
      if block.Err? {
        return Err(block.error);
      }
      assert bytes[..BLOCK] == block.value && bytes[BLOCK..] == gz.Rest();
      if AllZero(block.value) {
        var ended := ReadEndMarker();
        if ended.Err? {
          return Err(ended.error);
        }
        finished := true;
        return Ok(AtEnd);
      }
      var step := StepHeader(block.value);
      match step
      case Err(e) => return Err(e);
      case Ok(None) => return Ok(Again);
      case Ok(Some(header)) => return Ok(AtFile(header));
    }

    /** `StepBlock` as one step of `next`, which the header loop need not see into. */
    method StepNext(ghost next: NextFunction) returns (r: Result<Progress, Failure>)
      requires gz.Valid() && pendingPadding == 0 && IsNext(next)
      modifies this`pendingPadding, this`overrides, this`seenPaths, this`finished
      modifies gz, gz.crc, gz.inflate, gz.inflate.bits, gz.inflate.bits.source
      ensures r.Ok? ==> gz.Valid() && pendingPadding == 0
      ensures finished == (old(finished) || r == Ok(AtEnd))
      ensures var spec := next(old(gz.Rest()), old(overrides), old(seenPaths));
              match r
              case Err(Io(e)) => gz.goal == Err(e)
              case Err(Archive(e)) => spec == Err(e)
              case Ok(AtEnd) => spec == Ok(None) && gz.trailerVerified
              case Ok(Again) => spec == next(gz.Rest(), overrides, seenPaths) && |gz.Rest()| < |old(gz.Rest())|
              case Ok(AtFile(header)) => spec == Ok(Some(Found(header, gz.Rest(), seenPaths))) && overrides == NO_OVERRIDES
    {
      NextStep(next, gz.Rest(), overrides, seenPaths);
      r := StepBlock();
    }

    /** The header loop. */
    method Search(ghost next: NextFunction) returns (r: Result<Option<Header>, Failure>)
      requires gz.Valid() && pendingPadding == 0 && IsNext(next) && !finished
      modifies this`pendingPadding, this`overrides, this`seenPaths, this`finished
      modifies gz, gz.crc, gz.inflate, gz.inflate.bits, gz.inflate.bits.source
      ensures r.Ok? ==> Valid()
      ensures var spec := next(old(gz.Rest()), old(overrides), old(seenPaths));
              match r
              case Err(Io(e)) => gz.goal == Err(e)
              case Err(Archive(e)) => spec == Err(e)
              case Ok(None) => spec == Ok(None) && finished
              case Ok(Some(header)) => spec == Ok(Some(Found(header, gz.Rest(), seenPaths))) && !finished && overrides == NO_OVERRIDES
    {
      ghost var goal := next(gz.Rest(), overrides, seenPaths);
      while true
        invariant gz.Valid() && !finished && pendingPadding == 0
        invariant next(gz.Rest(), overrides, seenPaths) == goal
        decreases |gz.Rest()|
      {
        var step := StepNext(next);
        match step {
          case Err(e) => return Err(e);
          case Ok(Again) =>
          case Ok(AtEnd) => return Ok(None);
          case Ok(AtFile(header)) => return Ok(Some(header));
        }
      }
    }

    /** Advances to the next regular file, skipping what is left of the current one. */
    method NextMember(ghost next: NextFunction) returns (r: Result<Option<Header>, Failure>)
      requires Valid() && IsNext(next)
      modifies this, gz, gz.crc, gz.inflate, gz.inflate.bits, gz.inflate.bits.source
      ensures r.Ok? ==> Valid()
      ensures old(finished) ==> r == Ok(None) && finished
      ensures !old(finished) ==>
                var spec := After(old(gz.Rest()), old(pendingBody) + old(pendingPadding), next, old(overrides), old(seenPaths));
                match r
                case Err(Io(e)) => gz.goal == Err(e)
                case Err(Archive(e)) => spec == Err(e)
                case Ok(None) => spec == Ok(None) && finished
                case Ok(Some(header)) =>
                  && spec == Ok(Some(Found(header, gz.Rest(), seenPaths)))
                  && !finished && overrides == NO_OVERRIDES
                  && pendingBody == header.size && pendingPadding == PaddingFor(header.size)
    {
      if finished {
        return Ok(None);
      }
      var skipped := SkipPending();
      if skipped.Err? {
        return Err(skipped.error);
      }
      r := Search(next);
      if r.Ok? && r.value.Some? {
        pendingBody := r.value.value.size;
        pendingPadding := ComputePadding(pendingBody);
      }
    }

    /** The body of the current member, in the chunks the sink is given, none of them above 64 KiB. */
    method ReadChunks(n: nat, short: TarSpec.Error) returns (r: Result<seq<seq<byte>>, Failure>)
      requires gz.Valid()
      modifies gz, gz.crc, gz.inflate, gz.inflate.bits, gz.inflate.bits.source
      ensures match r
              case Err(Io(e)) => gz.goal == Err(e)
              case Err(Archive(e)) => e == short && |old(gz.Rest())| < n
              case Ok(chunks) =>
                && gz.Valid() && |Flatten(chunks)| == n && old(gz.Rest()) == Flatten(chunks) + gz.Rest()
                && (forall i :: 0 <= i < |chunks| ==> 0 < |chunks[i]| <= CHUNK)
    {
      var chunks: seq<seq<byte>> := [];
      var remaining: nat := n;
      while remaining > 0
        invariant gz.Valid() && |Flatten(chunks)| + remaining == n
        invariant old(gz.Rest()) == Flatten(chunks) + gz.Rest()
        invariant forall i :: 0 <= i < |chunks| ==> 0 < |chunks[i]| <= CHUNK
      {
        var want := if remaining < CHUNK then remaining else CHUNK;
        var chunk := gz.ReadChunk(want);
        if chunk.Err? {
          return Err(Io(chunk.error));
        }
        if chunk.value == [] {
          return Err(Archive(short));
        }
        Gzip.Joined(Flatten(chunks), chunk.value, gz.Rest());
        FlattenSnoc(chunks, chunk.value);
        chunks := chunks + [chunk.value];
        remaining := remaining - |chunk.value|;
      }
      return Ok(chunks);
    }

    /** Streams the current member's body and consumes its padding. */
    method ReadMemberBody(header: Header) returns (r: Result<seq<seq<byte>>, Failure>)
      requires Valid() && pendingBody == header.size && pendingPadding == PaddingFor(header.size)
      modifies this`pendingBody, this`pendingPadding
      modifies gz, gz.crc, gz.inflate, gz.inflate.bits, gz.inflate.bits.source
      ensures r.Ok? && !finished ==> Valid()
      ensures var spec := Body(Found(header, old(gz.Rest()), seenPaths));
              match r
              case Err(Io(e)) => gz.goal == Err(e)
              case Err(Archive(e)) => spec == Err(e)
              case Ok(chunks) =>
                && gz.Valid() && pendingBody == 0 && pendingPadding == 0
                && spec == Ok(Cut(Flatten(chunks), gz.Rest()))
                && (forall i :: 0 <= i < |chunks| ==> 0 < |chunks[i]| <= CHUNK)
    {
      ghost var bytes := gz.Rest();
      r := ReadChunks(pendingBody, MemberSizeMismatch(header.path));
      if r.Err? {
        return;
      }
      pendingBody := 0;
      var padding := Exactly(pendingPadding, ArchiveInvalid);
      if padding.Err? {
        return Err(padding.error);
      }
      pendingPadding := 0;
      CutAt(bytes, Flatten(r.value), padding.value, gz.Rest());
    }
  }

  const CHUNK: nat := 64 * 1024

  datatype Progress = AtEnd | Again | AtFile(header: Header)

  type NextFunction = (seq<byte>, Overrides, set<seq<Code>>) -> Result<Option<Found>, TarSpec.Error>

  ghost predicate IsNext(next: NextFunction) {
    forall bytes, ov, seen {:trigger Next(bytes, ov, seen)} :: next(bytes, ov, seen) == Next(bytes, ov, seen)
  }

  lemma NextStep(next: NextFunction, bytes: seq<byte>, ov: Overrides, seen: set<seq<Code>>)
    requires IsNext(next)
    ensures next(bytes, ov, seen) ==
            match Block(bytes, ov, seen)
            case Err(e) => Err(e)
            case Ok(Ended) => Ok(None)
            case Ok(File(found)) => Ok(Some(found))
            case Ok(More(rest, over)) => next(rest, over, seen)
  {
    assert next(bytes, ov, seen) == Next(bytes, ov, seen);
    match Block(bytes, ov, seen)
    case Ok(More(rest, over)) => assert next(rest, over, seen) == Next(rest, over, seen);
    case _ =>
  }

  /** The next file once the rest of the current member is skipped. */
  ghost function After(bytes: seq<byte>, n: nat, next: NextFunction, ov: Overrides, seen: set<seq<Code>>)
    : (r: Result<Option<Found>, TarSpec.Error>)
  {
    if |bytes| < n then Err(ArchiveInvalid) else next(bytes[n..], ov, seen)
  }

  // ----- Header fields

  /** `verify_checksum`: both sums in one pass over the header. */
  method CheckSum(header: seq<byte>) returns (r: Result<(), TarSpec.Error>)
    requires |header| == BLOCK
    ensures r == VerifyChecksum(header)
  {
    var declared := ReadOctal(header[148..156]);
    if declared.Err? {
      return Err(declared.error);
    }
    ghost var blanked := Blanked(header);
    var unsigned: nat, signed: int := 0, 0;
    assert blanked[..0] == [];
    for index := 0 to BLOCK
      invariant unsigned == Sum(blanked[..index])
      invariant signed == SignedSum(blanked[..index])
    {
      var value := if 148 <= index < 156 then 32 else header[index];
      assert value == blanked[index];
      assert blanked[..index + 1] == blanked[..index] + [value];
      SumSnoc(blanked[..index], value);
      unsigned := unsigned + value;
      signed := signed + (if value >= 128 then value as int - 256 else value as int);
    }
    assert blanked[..BLOCK] == blanked;
    var asSigned := if declared.value >= U64_LIMIT / 2 then declared.value - U64_LIMIT else declared.value;
    if declared.value == unsigned || asSigned == signed {
      return Ok(());
    }
    return Err(ArchiveInvalid);
  }

  lemma {:induction false} SumSnoc(b: seq<byte>, x: byte)
    ensures Sum(b + [x]) == Sum(b) + x
    ensures SignedSum(b + [x]) == SignedSum(b) + (if x >= 128 then x as int - 256 else x as int)
  {
    if b == [] {
      assert ([] + [x])[1..] == [];
    } else {
      SumSnoc(b[1..], x);
      assert (b + [x])[1..] == b[1..] + [x];
    }
  }

  /** `parse_octal`: the base-256 form is folded with an overflow check at every byte. */
  method ReadOctal(field: seq<byte>) returns (r: Result<nat, TarSpec.Error>)
    requires field != []
    ensures r == ParseOctal(field)
  {
    if field[0] < 0x80 {
      return ParseOctal(field);
    }
    var rest := field[1..];
    var value := 0;
    assert rest[..0] == [];
    for i := 0 to |rest|
      invariant value == BigEndian(rest[..i])
    {
      assert rest[..i + 1][..i] == rest[..i];
      value := 256 * value + rest[i];
      if value >= U64_LIMIT {
        BigEndianGrows(rest, i + 1);
        return Err(ArchiveInvalid);
      }
    }
    assert rest[..|rest|] == rest;
    if value >= U64_LIMIT {
      return Err(ArchiveInvalid);
    }
    return Ok(value);
  }

  lemma {:induction false} BigEndianGrows(b: seq<byte>, i: nat)
    requires i <= |b|
    ensures BigEndian(b[..i]) <= BigEndian(b)
  {
    if i == |b| {
      assert b[..i] == b;
    } else {
      var front := b[..|b| - 1];
      BigEndianGrows(front, i);
      assert front[..i] == b[..i];
    }
  }

  /** `apply_pax`: the records are walked with a cursor. */
  method ReadPax(body: seq<byte>, ov: Overrides, first: FirstFunction, one: RecordFunction)
    returns (r: Result<Overrides, TarSpec.Error>)
    requires Advances(first)
    ensures r == Walk(first, one, body, 0, ov)
  {
    var cursor: nat, next := 0, ov;
    assert body[0..] == body;
    while cursor < |body|
      invariant cursor <= |body|
      invariant Walk(first, one, body[cursor..], cursor, next) == Walk(first, one, body, 0, ov)
    {
      var records := body[cursor..];
      var record := first(records, cursor);
      if record.Err? {
        return Err(record.error);
      }
      var applied := one(record.value.text, next);
      if applied.Err? {
        return Err(applied.error);
      }
      assert records[record.value.length..] == body[cursor + record.value.length..];
      next := applied.value;
      cursor := cursor + record.value.length;
    }
    return Ok(next);
  }

  type ApplyFunction = (byte, seq<byte>, Overrides) -> Result<Overrides, TarSpec.Error>

  ghost predicate IsApply(apply: ApplyFunction) {
    forall flag, body, ov {:trigger ApplyMetadata(flag, body, ov)} ::
      apply(flag, body, ov) == ApplyMetadata(flag, body, ov)
  }

  ghost function SkippedBy(apply: ApplyFunction, flag: byte, size: nat, rest: seq<byte>, ov: Overrides)
    : (r: Result<Advance, TarSpec.Error>)
  {
    var cut :- Metadata(rest, size);
    var next :- apply(flag, cut.body, ov);
    Ok(More(cut.rest, next))
  }

  lemma SkippedIsSkippedBy(apply: ApplyFunction, flag: byte, size: nat, rest: seq<byte>, ov: Overrides)
    requires IsApply(apply)
    ensures Skipped(flag, size, rest, ov) == SkippedBy(apply, flag, size, rest, ov)
  {
    var cut := Metadata(rest, size);
    if cut.Ok? {
      assert apply(flag, cut.value.body, ov) == ApplyMetadata(flag, cut.value.body, ov);
    }
  }

  method ReadOverrides(flag: byte, body: seq<byte>, ov: Overrides, ghost apply: ApplyFunction)
    returns (r: Result<Overrides, TarSpec.Error>)
    requires IsApply(apply)
    ensures r == apply(flag, body, ov)
  {
    assert apply(flag, body, ov) == ApplyMetadata(flag, body, ov);
    if flag == FLAG_PAX || flag == FLAG_PAX_OLD {
      RecordsAdvance();
      r := ReadPax(body, ov, RecordAt, ApplyRecord);
    } else {
      r := ApplyMetadata(flag, body, ov);
    }
  }

  lemma NotAllZero(a: seq<byte>, b: seq<byte>, c: seq<byte>)
    requires !AllZero(b)
    ensures !AllZero(a + (b + c))
  {
    var i :| 0 <= i < |b| && b[i] != 0;
    assert (a + (b + c))[|a| + i] == b[i];
  }

  lemma CutAt(bytes: seq<byte>, body: seq<byte>, padding: seq<byte>, rest: seq<byte>)
    requires bytes == body + (padding + rest)
    ensures bytes[..|body|] == body && bytes[|body| + |padding|..] == rest
  {
  }
}
