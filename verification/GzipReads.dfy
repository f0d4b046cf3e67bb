/** Runs of reads of any sizes, the empty buffer included. */
module GzipReads {
  import opened Bits
  import opened Results
  import BitReader
  import opened Gzip
  import Crc32
  import Huffman
  import InflateSpec
  import Inflate

  /**
   * Reads of the given sizes, up to the first failure or the end.  As long as
   * no buffer was empty, a failure is the stream's own and a verified trailer
   * means that the whole stream was handed out.
   */
  method ReadRun(reader: Reader, sizes: seq<nat>) returns (r: Result<seq<byte>, Error>, n: nat)
    requires reader.Valid() && !reader.finished && reader.crc.seen == []
    modifies reader, reader.crc, reader.inflate, reader.inflate.bits, reader.inflate.bits.source
    ensures n <= |sizes| && (n < |sizes| ==> r.Err? || reader.finished)
    ensures 0 !in sizes[..n] ==>
              match r
              case Err(e) => reader.goal == Err(e)
              case Ok(data) =>
                && reader.Valid() && reader.crc.seen == data
                && (reader.finished ==> reader.trailerVerified)
                && (reader.trailerVerified ==> reader.goal == Ok(data))
  {
    r, n := Ok([]), 0;
    while n < |sizes| && !reader.finished
      invariant n <= |sizes| && r.Ok?
      invariant reader.finished || 0 !in sizes[..n]
      invariant 0 !in sizes[..n] ==> reader.Valid() && reader.crc.seen == r.value
      invariant 0 !in sizes[..n] && reader.finished ==> reader.trailerVerified
    {
      ghost var before := sizes[..n];
      assert sizes[..n + 1] == before + [sizes[n]];
      var chunk := reader.Read(sizes[n]);
      n := n + 1;
      if chunk.Err? {
        return Err(chunk.error), n;
      }
      r := Ok(r.value + chunk.value);
    }
    if 0 !in sizes[..n] && reader.trailerVerified {
      reader.Verified();
    }
  }

  // ----- An empty buffer at the start

  const ZEROS: seq<byte> := [0, 0, 0, 0, 0, 0, 0, 0]

  lemma FourZeros()
    ensures BytesToBits([0, 0, 0, 0]) == Crc32.Zeros(32)
  {
    Crc32.ShrZero(8);
    var one := ToBits(0, 8);
    BytesToBitsCons(0, []);
    BytesToBitsCons(0, [0]);
    BytesToBitsCons(0, [0, 0]);
    BytesToBitsCons(0, [0, 0, 0]);
    assert [0] + [0, 0, 0] == [0, 0, 0, 0];
  }

  lemma OnlyFourZeros(b: seq<byte>)
    requires |b| == 4
    ensures BytesToBits(b) == Crc32.Zeros(32) <==> b == [0, 0, 0, 0]
  {
    FourZeros();
    BytesOfBits(b);
    BytesOfBits([0, 0, 0, 0]);
  }

  /** Before anything was read, eight zero bytes and nothing else pass for a trailer. */
  lemma PassesForTrailer(body: seq<byte>)
    ensures Verdict(Crc32.Crc([]), 0, Capped(body)).Ok? <==> body == ZEROS
  {
    assert Crc32.Crc([]) == Crc32.Zeros(32);
    Crc32.ShrZero(32);
    var t := Capped(body);
    if |t| == 8 {
      OnlyFourZeros(t[..4]);
      OnlyFourZeros(t[4..8]);
      assert t == t[..4] + t[4..8];
    }
  }

  /** The bits of the eight bytes: a block header of zeros, then the four bytes of a stored length. */
  lemma ZeroStream()
    ensures var bits := BytesToBits(ZEROS);
            && |bits| == 64 && bits[..1] == [false] && bits[1..][..2] == [false, false]
            && bits[8..] == BytesToBits([0, 0, 0, 0]) + BytesToBits([0, 0, 0])
  {
    Crc32.ShrZero(8);
    BytesToBitsCons(0, [0, 0, 0, 0, 0, 0, 0]);
    assert ZEROS == [0] + [0, 0, 0, 0, 0, 0, 0];
    BytesToBitsConcat([0, 0, 0, 0], [0, 0, 0]);
    assert [0, 0, 0, 0] + [0, 0, 0] == [0, 0, 0, 0, 0, 0, 0];
  }

  lemma BehindTheFlags(bits: seq<bool>)
    requires |bits| == 64
    ensures BitReader.AlignedTail(bits[1..][2..]) == bits[8..]
  {
    assert bits[1..][2..] == bits[3..];
  }

  lemma TwoFlags(bits: seq<bool>)
    requires |bits| >= 3 && bits[..1] == [false] && bits[1..][..2] == [false, false]
    ensures InflateSpec.TakeBits(bits, 1) == Ok(InflateSpec.Read(0, bits[1..]))
    ensures InflateSpec.TakeBits(bits[1..], 2) == Ok(InflateSpec.Read(0, bits[1..][2..]))
  {
    assert FromBits([false]) == 0;
    assert [false, false][1..] == [false];
  }

  lemma HeaderOfZeros(bits: seq<bool>)
    requires |bits| >= 3 && bits[..1] == [false] && bits[1..][..2] == [false, false]
    requires InflateSpec.StoredHeader(bits[1..][2..]) == Err(Huffman.Invalid)
    ensures InflateSpec.Inflate(bits) == InflateSpec.Failed(Huffman.Invalid, [])
  {
    TwoFlags(bits);
    assert InflateSpec.Header(bits) == Err(Huffman.Invalid);
  }

  /** As compressed data they are a stored block with a wrong length. */
  lemma ZerosAreRefused()
    ensures Body(ZEROS) == Err(Deflate(Huffman.Invalid))
  {
    var bits := BytesToBits(ZEROS);
    ZeroStream();
    BehindTheFlags(bits);
    Inflate.StoredHeaderBytes(bits[1..][2..], [0, 0, 0, 0], BytesToBits([0, 0, 0]));
    HeaderOfZeros(bits);
  }

  /**
   * A first read into an empty buffer marks the trailer as verified exactly
   * when eight zero bytes follow the header, and then the stream is one that
   * every reader of positive sizes refuses.
   */
  method EmptyFirstRead(body: seq<byte>) returns (verified: bool, ghost goal: Result<seq<byte>, Error>)
    ensures goal == Body(body)
    ensures verified <==> body == ZEROS
    ensures verified ==> goal == Err(Deflate(Huffman.Invalid))
  {
    var source := new BitReader.CountingSource(body);
    var reader := new Reader(source);
    goal := reader.goal;
    var _ := reader.Read(0);
    verified := reader.trailerVerified;
    PassesForTrailer(body);
    ZerosAreRefused();
  }

  const HEADER: seq<byte> := [0x1f, 0x8b, 8, 0, 0, 0, 0, 0, 0, 0xff]

  /** The whole stream: a plain header, eight zero bytes, and one empty read. */
  method EmptyReadVerifies() returns (verified: bool)
    ensures verified && Gunzip(HEADER + ZEROS).Err?
  {
    var source := new BitReader.CountingSource(HEADER + ZEROS);
    assert AfterHeader(HEADER + ZEROS) == Ok(ZEROS) by {
      PlainHeader(ZEROS);
    }
    var header := ReadHeader(source);
    var reader := new Reader(source);
    var _ := reader.Read(0);
    verified := reader.trailerVerified;
    PassesForTrailer(ZEROS);
    ZerosAreRefused();
  }

  lemma PlainHeader(body: seq<byte>)
    ensures AfterHeader(HEADER + body) == Ok(body)
  {
    var bytes := HEADER + body;
    assert bytes[..10] == HEADER && bytes[10..] == body;
    assert HEADER[3] == 0;
    Crc32.ShrOfZero(1);
    Crc32.ShrOfZero(2);
    Crc32.ShrOfZero(3);
    Crc32.ShrOfZero(4);
  }
}
