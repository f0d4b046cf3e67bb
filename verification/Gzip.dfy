/** The gzip container of RFC 1952: what a stream means, and the reader that verifies it. */
module Gzip {
  import opened Seal
  import opened Bits
  import opened Results
  import opened BitReader
  import Crc32
  import Huffman
  import InflateSpec
  import Inflate

  datatype Error =
    | NotGzip
    | UnsupportedMethod(cm: byte)
    | ReservedFlags(flags: byte)
    | HeaderChecksum
    | HeaderStringTooLong
    | Truncated
    | Deflate(cause: Huffman.Error)
    | CrcMismatch
    | LengthMismatch
    | TrailingBytes(count: nat)

  const MAX_HEADER: nat := 64 * 1024

  // ----- Header

  /** The header bytes consumed so far and the bytes after them. */
  datatype Cut = Cut(header: seq<byte>, rest: seq<byte>)

  function Flag(flags: byte, i: nat): (r: bool) {
    Odd(Shr(flags, i))
  }

  function FixedHeader(bytes: seq<byte>): (r: Result<Cut, Error>)
    ensures r.Ok? ==> |r.value.header| == 10
  {
    if |bytes| < 10 then Err(Truncated)
    else if bytes[0] != 0x1f || bytes[1] != 0x8b then Err(NotGzip)
    else if bytes[2] != 8 then Err(UnsupportedMethod(bytes[2]))
    else if bytes[3] >= 0x20 then Err(ReservedFlags(bytes[3]))
    else Ok(Cut(bytes[..10], bytes[10..]))
  }

  function SkipExtra(present: bool, c: Cut): (r: Result<Cut, Error>) {
    if !present then Ok(c)
    else if |c.rest| < 2 then Err(Truncated)
    else
      var n := 2 + Le16(c.rest[0], c.rest[1]);
      if |c.rest| < n then Err(Truncated) else Ok(Cut(c.header + c.rest[..n], c.rest[n..]))
  }

  /** A zero-terminated string, bounded by the total header length. */
  function SkipString(present: bool, c: Cut): (r: Result<Cut, Error>)
    decreases |c.rest|
  {
    if !present then Ok(c)
    else if c.rest == [] then Err(Truncated)
    else
      var next := Cut(c.header + [c.rest[0]], c.rest[1..]);
      if c.rest[0] == 0 then Ok(next)
      else if |next.header| > MAX_HEADER then Err(HeaderStringTooLong)
      else SkipString(true, next)
  }

  function CheckHeader(present: bool, c: Cut): (r: Result<seq<byte>, Error>) {
    if !present then Ok(c.rest)
    else if |c.rest| < 2 then Err(Truncated)
    else if BytesToBits(c.rest[..2]) != Crc32.Crc(c.header)[..16] then Err(HeaderChecksum)
    else Ok(c.rest[2..])
  }

  /** What follows the header of section 2.3 of RFC 1952. */
  function AfterHeader(bytes: seq<byte>): (r: Result<seq<byte>, Error>) {
    var fixed :- FixedHeader(bytes);
    var flags := fixed.header[3];
    var extra :- SkipExtra(Flag(flags, 2), fixed);
    var name :- SkipString(Flag(flags, 3), extra);
    var comment :- SkipString(Flag(flags, 4), name);
    CheckHeader(Flag(flags, 1), comment)
  }

  // ----- Body and trailer

  function BitsToBytes(bits: seq<bool>): (bytes: seq<byte>)
    ensures |bytes| == |bits| / 8
  {
    if |bits| < 8 then []
    else
      FromBitsBound(bits[..8]);
      Pow2Eight();
      [FromBits(bits[..8])] + BitsToBytes(bits[8..])
  }

  /** The trailer check, in the order the reader makes it, against a checksum and a length. */
  function Verdict(crc: Crc32.Word, total: nat, trailing: seq<byte>): (r: Result<(), Error>) {
    if |trailing| < 8 then Err(Truncated)
    else if BytesToBits(trailing[..4]) != crc then Err(CrcMismatch)
    else if BytesToBits(trailing[4..8]) != Crc32.WordOf(total) then Err(LengthMismatch)
    else if |trailing| > 8 then Err(TrailingBytes(|trailing| - 8))
    else Ok(())
  }

  /** No more than 4097 trailing bytes are ever counted. */
  function Capped(bytes: seq<byte>): (r: seq<byte>) {
    if |bytes| > DRAIN_LIMIT then bytes[..DRAIN_LIMIT + 1] else bytes
  }

  function CheckTrailer(data: seq<byte>, trailing: seq<byte>): (r: Result<seq<byte>, Error>) {
    var _ :- Verdict(Crc32.Crc(data), |data|, Capped(trailing));
    Ok(data)
  }

  /** How the container ends, given how its compressed data ends. */
  ghost function Conclude(o: InflateSpec.Outcome): (r: Result<seq<byte>, Error>) {
    match o
    case Failed(e, _) => Err(Deflate(e))
    case Done(data, rest) => CheckTrailer(data, BitsToBytes(AlignedTail(rest)))
  }

  lemma ConcludedOutput(o: InflateSpec.Outcome)
    requires Conclude(o).Ok?
    ensures o.Done? && Conclude(o).value == o.output
  {
  }

  ghost function Body(bytes: seq<byte>): (r: Result<seq<byte>, Error>) {
    Conclude(InflateSpec.Inflate(BytesToBits(bytes)))
  }

  /** The payload of a whole gzip stream, or why it is refused. */
  ghost function Gunzip(bytes: seq<byte>): (r: Result<seq<byte>, Error>) {
    var rest :- AfterHeader(bytes);
    Body(rest)
  }

  /** What the compressed data of a stream decodes to, up to its end or its first fault. */
  ghost function Decoded(bytes: seq<byte>): (r: seq<byte>) {
    match AfterHeader(bytes)
    case Err(_) => []
    case Ok(rest) => InflateSpec.Inflate(BytesToBits(rest)).output
  }

  /** On a good stream that is the payload. */
  lemma DecodedIsPayload(bytes: seq<byte>)
    requires Gunzip(bytes).Ok?
    ensures Gunzip(bytes) == Ok(Decoded(bytes))
  {
    ConcludedOutput(InflateSpec.Inflate(BytesToBits(AfterHeader(bytes).value)));
  }

  // ----- Bits and bytes

  lemma FirstByte(b: byte, rest: seq<bool>)
    ensures BitsToBytes(ToBits(b, 8) + rest) == [b] + BitsToBytes(rest)
  {
    Pow2Eight();
    MaskSmall(b, 8);
    var bits := ToBits(b, 8) + rest;
    assert bits[..8] == ToBits(b, 8);
    assert bits[8..] == rest;
  }

  lemma {:induction false} BytesOfPrefix(bytes: seq<byte>, rest: seq<bool>)
    ensures BitsToBytes(BytesToBits(bytes) + rest) == bytes + BitsToBytes(rest)
  {
    if bytes == [] {
      assert BytesToBits(bytes) + rest == rest;
    } else {
      BytesOfPrefix(bytes[1..], rest);
      Assoc(ToBits(bytes[0], 8), BytesToBits(bytes[1..]), rest);
      FirstByte(bytes[0], BytesToBits(bytes[1..]) + rest);
      assert [bytes[0]] + (bytes[1..] + BitsToBytes(rest)) == bytes + BitsToBytes(rest);
    }
  }

  lemma BytesOfBits(bytes: seq<byte>)
    ensures BitsToBytes(BytesToBits(bytes)) == bytes
  {
    BytesOfPrefix(bytes, []);
    assert BytesToBits(bytes) + [] == BytesToBits(bytes);
  }

  lemma WholeBytes(bytes: seq<byte>)
    ensures BitsToBytes(AlignedTail(BytesToBits(bytes))) == bytes
  {
    AlignedTailOf([], bytes);
    assert [] + BytesToBits(bytes) == BytesToBits(bytes);
    BytesOfBits(bytes);
  }

  // ----- Reading the header

  method ReadExact(source: CountingSource, n: nat) returns (r: Result<seq<byte>, Error>)
    requires source.Valid()
    modifies source
    ensures source.Valid()
    ensures r == if old(|source.remaining|) < n then Err(Truncated) else Ok(old(source.remaining)[..n])
    ensures r.Ok? ==> source.remaining == old(source.remaining)[n..]
  {
    var out: seq<byte> := [];
    while |out| < n
      invariant source.Valid() && |out| <= n
      invariant out + source.remaining == old(source.remaining)
      decreases n - |out|
    {
      var chunk := source.Read(n - |out|);
      if chunk == [] {
        return Err(Truncated);
      }
      out := out + chunk;
    }
    return Ok(out);
  }

  method ReadExtra(source: CountingSource, present: bool, header: seq<byte>) returns (r: Result<seq<byte>, Error>)
    requires source.Valid()
    modifies source
    ensures source.Valid()
    ensures Reads(SkipExtra(present, Cut(header, old(source.remaining))), r, source.remaining)
  {
    if !present {
      return Ok(header);
    }
    var length := ReadExact(source, 2);
    if length.Err? {
      return Err(Truncated);
    }
    var n := Le16(length.value[0], length.value[1]);
    var extra := ReadExact(source, n);
    if extra.Err? {
      return Err(Truncated);
    }
    assert old(source.remaining)[..2 + n] == length.value + extra.value;
    assert (header + length.value) + extra.value == header + (length.value + extra.value);
    return Ok(header + length.value + extra.value);
  }

  method ReadString(source: CountingSource, present: bool, header: seq<byte>) returns (r: Result<seq<byte>, Error>)
    requires source.Valid()
    modifies source
    ensures source.Valid()
    ensures Reads(SkipString(present, Cut(header, old(source.remaining))), r, source.remaining)
  {
    if !present {
      return Ok(header);
    }
    var sink := header;
    while true
      invariant source.Valid()
      invariant SkipString(true, Cut(sink, source.remaining)) == SkipString(true, Cut(header, old(source.remaining)))
      decreases |source.remaining|
    {
      ghost var before := source.remaining;
      var b := ReadExact(source, 1);
      if b.Err? {
        return Err(Truncated);
      }
      assert b.value == [before[0]];
      sink := sink + b.value;
      if b.value[0] == 0 {
        return Ok(sink);
      }
      if |sink| > MAX_HEADER {
        return Err(HeaderStringTooLong);
      }
    }
  }

  /** The bytes a header reader has collected, compared with the reference cut. */
  ghost predicate Reads(spec: Result<Cut, Error>, r: Result<seq<byte>, Error>, remaining: seq<byte>) {
    match spec
    case Ok(c) => r == Ok(c.header) && remaining == c.rest
    case Err(e) => r == Err(e)
  }

  method CheckHeaderCrc(source: CountingSource, present: bool, header: seq<byte>) returns (r: Result<(), Error>)
    requires source.Valid()
    modifies source
    ensures source.Valid()
    ensures match CheckHeader(present, Cut(header, old(source.remaining)))
            case Ok(rest) => r.Ok? && source.remaining == rest
            case Err(e) => r == Err(e)
  {
    if !present {
      return Ok(());
    }
    var stored := ReadExact(source, 2);
    if stored.Err? {
      return Err(Truncated);
    }
    var crc := new Crc32.Running();
    crc.Update(header);
    assert crc.seen == header;
    var observed := crc.Finalize();
    if BytesToBits(stored.value) != observed[..16] {
      return Err(HeaderChecksum);
    }
    return Ok(());
  }

  method ReadHeader(source: CountingSource) returns (r: Result<(), Error>)
    requires source.Valid()
    modifies source
    ensures source.Valid()
    ensures match AfterHeader(old(source.remaining))
            case Ok(rest) => r.Ok? && source.remaining == rest
            case Err(e) => r == Err(e)
  {
    var fixed := ReadExact(source, 10);
    if fixed.Err? {
      return Err(fixed.error);
    }
    var header := fixed.value;
    if header[0] != 0x1f || header[1] != 0x8b {
      return Err(NotGzip);
    }
    if header[2] != 8 {
      return Err(UnsupportedMethod(header[2]));
    }
    var flags := header[3];
    // `flags & 0xe0 != 0`
    if flags >= 0x20 {
      return Err(ReservedFlags(flags));
    }
    var extra := ReadExtra(source, Flag(flags, 2), header);
    if extra.Err? {
      return Err(extra.error);
    }
    var name := ReadString(source, Flag(flags, 3), extra.value);
    if name.Err? {
      return Err(name.error);
    }
    var comment := ReadString(source, Flag(flags, 4), name.value);
    if comment.Err? {
      return Err(comment.error);
    }
    r := CheckHeaderCrc(source, Flag(flags, 1), comment.value);
  }

  // ----- The reader

  class Reader {
    const inflate: Inflate.Reader
    const crc: Crc32.Running
    /** Whether the inflater is still there; checking the trailer takes it. */
    var present: bool
    var finished: bool
    var trailerVerified: bool

    /** What the rest of the stream means. */
    ghost const goal: Result<seq<byte>, Error>

    /** The invariant as clients carry it around; `Look` opens it. */
    ghost predicate Valid()
      reads this, crc, inflate, inflate.bits, inflate.bits.source
    {
      && crc.seen <= inflate.goal.output
      && (forall k: nat {:trigger Look(k)} :: Look(k) ==> Inside())
    }

    ghost predicate Inside()
      reads this, crc, inflate, inflate.bits, inflate.bits.source
    {
      && crc.Valid() && inflate.bits.source.Valid()
      && (!finished ==> present && inflate.Valid() && inflate.OnTrack() && crc.seen == inflate.Delivered())
      && goal == Conclude(inflate.goal)
      && crc.seen <= inflate.goal.output
      && (finished ==> trailerVerified)
      && (trailerVerified ==> finished && goal == Ok(crc.seen) && inflate.bits.source.remaining == [])
    }

    /** The decoded bytes still to come; on a good stream, the rest of the payload. */
    ghost function Rest(): (r: seq<byte>)
      requires crc.seen <= inflate.goal.output
      reads this, crc, inflate
    {
      inflate.goal.output[|crc.seen|..]
    }

    /** Takes a source positioned after the header. */
    constructor (source: CountingSource)
      requires source.Valid()
      ensures Valid() && !finished && !trailerVerified && crc.seen == []
      ensures fresh(crc) && fresh(inflate) && fresh(inflate.bits) && inflate.bits.source == source
      ensures goal == Body(source.remaining) && inflate.goal == InflateSpec.Inflate(BytesToBits(source.remaining))
      ensures EndVerdict() == Verdict(Crc32.Crc([]), 0, Capped(source.remaining))
    {
      var inner := new Inflate.Reader(source);
      inflate := inner;
      crc := new Crc32.Running();
      present, finished, trailerVerified := true, false, false;
      goal := Conclude(inner.goal);
      new;
      Opened();
      WholeBytes(source.remaining);
    }

    lemma Opened()
      requires crc.Valid() && inflate.bits.source.Valid() && inflate.Valid() && inflate.OnTrack()
      requires present && !finished && !trailerVerified && crc.seen == [] && inflate.Delivered() == []
      requires goal == Conclude(inflate.goal)
      ensures Valid()
    {
    }

    /** On a good stream the decoded bytes are the payload. */
    lemma Payload()
      requires Valid() && goal.Ok?
      ensures goal.value == inflate.goal.output
    {
      assert Look(0);
      ConcludedOutput(inflate.goal);
    }

    /** What a reader that has seen a good trailer proves about the whole stream. */
    lemma Verified()
      requires Valid() && trailerVerified
      ensures goal == Ok(inflate.goal.output) && crc.seen == inflate.goal.output && inflate.bits.source.Valid() && inflate.bits.source.remaining == []
    {
      assert Look(0);
      ConcludedOutput(inflate.goal);
    }

    /** Takes the inflater and checks what it left against the checksum and the length. */
    method VerifyTrailer() returns (r: Result<(), Error>)
      requires present && crc.Valid() && inflate.Valid()
      modifies this`present, this`trailerVerified, inflate.bits, inflate.bits.source
      ensures !present && inflate.bits.source.Valid()
      ensures trailerVerified <==> old(trailerVerified) || r.Ok?
      ensures r.Ok? ==> inflate.bits.source.remaining == []
      ensures r == Verdict(Crc32.Crc(crc.seen), inflate.totalOut, Capped(BitsToBytes(AlignedTail(old(inflate.bits.Rest())))))
    {
      present := false;
      var observed := crc.Finalize();
      var trailing := inflate.bits.DrainRemaining();
      DrainedBytes(trailing, inflate.bits.Rest(), AlignedTail(old(inflate.bits.Rest())));
      r := Verdict(observed, inflate.totalOut, trailing);
      if r.Ok? {
        trailerVerified := true;
      }
    }

    /** What the trailer check would say if the stream ended here: about the bytes handed out, the bytes decoded and the
        bytes left. */
    ghost function EndVerdict(): (r: Result<(), Error>)
      requires Valid() && !finished
      reads this, crc, inflate, inflate.bits, inflate.bits.source
    {
      assert Look(0);
      Verdict(Crc32.Crc(crc.seen), inflate.totalOut, Capped(BitsToBytes(AlignedTail(inflate.bits.Rest()))))
    }

    /** The inflater reported the end of the stream. */
    method Finish() returns (r: Result<(), Error>)
      requires Valid() && !finished
      modifies this, inflate.bits, inflate.bits.source
      ensures finished && !present
      ensures r == old(EndVerdict()) && (trailerVerified <==> r.Ok?)
      ensures old(inflate.finished && inflate.Available() == 0) ==>
                match r
                case Err(e) => goal == Err(e)
                case Ok(_) => Valid() && trailerVerified
    {
      assert Look(0);
      if inflate.finished && |inflate.output| == inflate.readCursor {
        inflate.AtEnd();
        assert inflate.totalOut == |crc.seen|;
      }
      finished := true;
      r := VerifyTrailer();
    }

    /**
     * One read.  With a positive size, an empty answer means the whole stream
     * was decoded, its CRC and length matched, and the source was read to its
     * last byte.  An empty buffer is taken for the end of the stream: whatever
     * is left is judged as if it were the trailer.
     */
    method Read(max: nat) returns (r: Result<seq<byte>, Error>)
      requires Valid()
      modifies this, crc, inflate, inflate.bits, inflate.bits.source
      ensures old(finished) ==> r == Ok([]) && Valid() && finished && crc.seen == old(crc.seen)
      ensures max > 0 && !old(finished) ==>
                match r
                case Err(e) => goal == Err(e)
                case Ok(data) =>
                  && Valid() && |data| <= max && crc.seen == old(crc.seen) + data
                  && (finished <==> data == [])
                  && (data == [] ==> trailerVerified)
      ensures max == 0 && !old(finished) ==>
                && finished && crc.seen == old(crc.seen)
                && (trailerVerified <==> old(EndVerdict()).Ok?)
                && r == match old(EndVerdict()) case Ok(_) => Ok([]) case Err(e) => Err(e)
    {
      assert Look(0);
      if finished {
        return Ok([]);
      }
      var chunk := inflate.Read(max);
      if chunk.Err? {
        return Err(Deflate(chunk.error));
      }
      if chunk.value == [] {
        var checked := Finish();
        if checked.Err? {
          return Err(checked.error);
        }
        return Ok([]);
      }
      crc.Update(chunk.value);
      inflate.DeliveredIsPrefix();
      return Ok(chunk.value);
    }

    /** A positive-size read, in terms of the bytes still to come. */
    method ReadChunk(max: nat) returns (r: Result<seq<byte>, Error>)
      requires Valid() && max > 0
      modifies this, crc, inflate, inflate.bits, inflate.bits.source
      ensures match r
              case Err(e) => goal == Err(e)
              case Ok(data) =>
                && Valid() && |data| <= max && old(Rest()) == data + Rest()
                && (data == [] ==> trailerVerified && Rest() == [])
    {
      assert Look(0);
      r := Read(max);
      if r.Ok? {
        RestAdvances(inflate.goal.output, old(crc.seen), r.value);
      }
    }

    /** Reads until `n` bytes are there or the stream ends. */
    method ReadUpTo(n: nat) returns (r: Result<seq<byte>, Error>)
      requires Valid()
      modifies this, crc, inflate, inflate.bits, inflate.bits.source
      ensures match r
              case Err(e) => goal == Err(e)
              case Ok(data) =>
                && Valid() && |data| <= n && old(Rest()) == data + Rest()
                && (|data| < n ==> trailerVerified && Rest() == [])
    {
      var out: seq<byte> := [];
      while |out| < n
        invariant Valid() && |out| <= n && old(Rest()) == out + Rest()
        decreases n - |out|
      {
        var chunk := ReadChunk(n - |out|);
        if chunk.Err? {
          return Err(chunk.error);
        }
        Joined(out, chunk.value, Rest());
        if chunk.value == [] {
          return Ok(out);
        }
        out := out + chunk.value;
      }
      return Ok(out);
    }
  }

  lemma RestAdvances(whole: seq<byte>, seen: seq<byte>, data: seq<byte>)
    requires seen + data <= whole
    ensures whole[|seen|..] == data + whole[|seen + data|..]
  {
  }

  lemma Joined(a: seq<byte>, b: seq<byte>, c: seq<byte>)
    ensures (a + b) + c == a + (b + c)
  {
  }

  /** The collected bytes stand for all that is left, up to the drain limit. */
  lemma DrainedBytes(out: seq<byte>, rest: seq<bool>, tail: seq<bool>)
    requires BytesToBits(out) + rest == tail
    requires |out| <= DRAIN_LIMIT + 1
    requires |out| <= DRAIN_LIMIT ==> rest == []
    ensures out == Capped(BitsToBytes(tail))
  {
    BytesOfPrefix(out, rest);
  }
}
