/** The fixture writer that wraps data in stored blocks, and its round trip through the decoder. */
module GzipStored {
  import opened Bits
  import opened Results
  import opened BitReader
  import opened Gzip
  import opened InflateSpec
  import Crc32
  import Inflate

  const MAX_STORED: nat := 0xffff

  /** The two bytes of a 16-bit word, low byte first. */
  function Le16Bytes(v: nat): (r: seq<byte>)
    requires v <= 0xffff
    ensures |r| == 2 && Le16(r[0], r[1]) == v
  {
    LowAndHigh(v);
    var lo: byte, hi: byte :| Le16(lo, hi) == v;
    [lo, hi]
  }

  lemma LowAndHigh(v: nat)
    requires v <= 0xffff
    ensures exists lo: byte, hi: byte :: Le16(lo, hi) == v
  {
    var lo: byte, hi: byte := v % 256, v / 256;
    assert Le16(lo, hi) == v;
  }

  /** One stored block of section 3.2.4 of RFC 1951, starting on a byte boundary. */
  function StoredBlock(last: bool, chunk: seq<byte>): (r: seq<byte>)
    requires |chunk| <= MAX_STORED
  {
    [if last then 1 else 0] + Le16Bytes(|chunk|) + Le16Bytes(0xffff - |chunk|) + chunk
  }

  function StoredBlocks(data: seq<byte>): (r: seq<byte>)
    decreases |data|
  {
    if |data| <= MAX_STORED then StoredBlock(true, data)
    else StoredBlock(false, data[..MAX_STORED]) + StoredBlocks(data[MAX_STORED..])
  }

  function Header(): (r: seq<byte>) {
    [0x1f, 0x8b, 0x08, 0x00, 0, 0, 0, 0, 0x00, 0xff]
  }

  function Trailer(data: seq<byte>): (r: seq<byte>) {
    BitsToBytes(Crc32.Crc(data)) + BitsToBytes(Crc32.WordOf(|data|))
  }

  function StoredGzip(data: seq<byte>): (r: seq<byte>) {
    Header() + StoredBlocks(data) + Trailer(data)
  }

  /** The writer produces that stream. */
  method WriteStored(data: seq<byte>) returns (out: seq<byte>)
    ensures out == StoredGzip(data)
  {
    out := Header();
    if data == [] {
      out := out + [0x01, 0x00, 0x00, 0xff, 0xff];
      EmptyBlock(data);
    } else {
      out := WriteBlocks(out, data);
    }
    var crc := new Crc32.Running();
    crc.Update(data);
    assert crc.seen == data;
    var sum := crc.Finalize();
    out := out + BitsToBytes(sum);
    out := out + BitsToBytes(Crc32.WordOf(|data|));
  }

  lemma EmptyBlock(data: seq<byte>)
    requires data == []
    ensures StoredBlocks(data) == [0x01, 0x00, 0x00, 0xff, 0xff]
  {
    WordEnds(|data|);
    WordEnds(0xffff - |data|);
  }

  lemma WordEnds(v: nat)
    requires v <= 0xffff
    ensures v == 0 ==> Le16Bytes(v) == [0, 0]
    ensures v == 0xffff ==> Le16Bytes(v) == [0xff, 0xff]
  {
  }

  method WriteBlocks(start: seq<byte>, data: seq<byte>) returns (out: seq<byte>)
    requires data != []
    ensures out == start + StoredBlocks(data)
  {
    out := start;
    var offset := 0;
    assert data[0..] == data;
    while offset < |data|
      invariant offset <= |data|
      invariant if offset < |data| then out + StoredBlocks(data[offset..]) == start + StoredBlocks(data)
                else out == start + StoredBlocks(data)
    {
      var chunk := if |data| - offset < MAX_STORED then |data| - offset else MAX_STORED;
      var last := offset + chunk == |data|;
      FirstBlock(out, data[offset..], chunk);
      assert data[offset..][..chunk] == data[offset..offset + chunk];
      assert data[offset..][chunk..] == data[offset + chunk..];
      out := WriteBlock(out, last, data[offset..offset + chunk]);
      offset := offset + chunk;
    }
  }

  method WriteBlock(start: seq<byte>, last: bool, chunk: seq<byte>) returns (out: seq<byte>)
    requires |chunk| <= MAX_STORED
    ensures out == start + StoredBlock(last, chunk)
  {
    out := start + [if last then 1 else 0];
    out := out + Le16Bytes(|chunk|);
    out := out + Le16Bytes(0xffff - |chunk|);
    out := out + chunk;
  }

  /** The first block of some data, behind what is already written. */
  lemma FirstBlock(before: seq<byte>, data: seq<byte>, chunk: nat)
    requires chunk == if |data| < MAX_STORED then |data| else MAX_STORED
    ensures var last := chunk == |data|;
            before + StoredBlocks(data)
            == before + StoredBlock(last, data[..chunk]) + (if last then [] else StoredBlocks(data[chunk..]))
  {
    if chunk == |data| {
      OnlyBlock(before, data);
    } else {
      MoreBlocks(before, data);
    }
  }

  lemma OnlyBlock(before: seq<byte>, data: seq<byte>)
    requires |data| <= MAX_STORED
    ensures before + StoredBlocks(data) == before + StoredBlock(true, data[..|data|]) + []
  {
    assert data[..|data|] == data;
  }

  lemma MoreBlocks(before: seq<byte>, data: seq<byte>)
    requires |data| > MAX_STORED
    ensures before + StoredBlocks(data) == before + StoredBlock(false, data[..MAX_STORED]) + StoredBlocks(data[MAX_STORED..])
  {
    Associate(before, StoredBlock(false, data[..MAX_STORED]), StoredBlocks(data[MAX_STORED..]));
  }

  lemma Associate(a: seq<byte>, b: seq<byte>, c: seq<byte>)
    ensures (a + b) + c == a + (b + c)
  {
  }

  // ----- Reading it back

  lemma {:induction false} BitsOfBytes(bits: seq<bool>)
    requires |bits| % 8 == 0
    ensures BytesToBits(BitsToBytes(bits)) == bits
  {
    if |bits| < 8 {
    } else {
      BitsOfBytes(bits[8..]);
      ToFromBits(bits[..8]);
      assert bits == bits[..8] + bits[8..];
      FromBitsBound(bits[..8]);
      Pow2Eight();
      BytesToBitsCons(FromBits(bits[..8]), BitsToBytes(bits[8..]));
    }
  }

  /** The three header bits of a byte-aligned stored block, its padding and its length fields. */
  lemma StoredBlockHeader(last: bool, len: nat, rest: seq<byte>)
    requires len <= MAX_STORED
    ensures var bytes := [if last then 1 else 0] + Le16Bytes(len) + Le16Bytes(0xffff - len) + rest;
            InflateSpec.Header(BytesToBits(bytes)) == Ok(Read((last, InStored(len)), BytesToBits(rest)))
  {
    var first: byte := if last then 1 else 0;
    var fields := Le16Bytes(len) + Le16Bytes(0xffff - len);
    var bytes := [first] + Le16Bytes(len) + Le16Bytes(0xffff - len) + rest;
    assert bytes == [first] + (fields + rest);
    BytesToBitsCons(first, fields + rest);
    var tail := BytesToBits(fields + rest);
    HeaderByte(last, tail);
    BytesToBitsConcat(fields, rest);
    PaddingDropped(first, tail, |fields + rest|);
    Inflate.StoredHeaderBytes((ToBits(first, 8) + tail)[3..], fields, BytesToBits(rest));
  }

  lemma HeaderByte(last: bool, tail: seq<bool>)
    ensures var bits := ToBits(if last then 1 else 0, 8) + tail;
            TakeBits(bits, 1) == Ok(Read(if last then 1 else 0, bits[1..]))
            && TakeBits(bits[1..], 2) == Ok(Read(0, bits[3..]))
  {
    var v := if last then 1 else 0;
    var bits := ToBits(v, 8) + tail;
    assert bits[0] == Odd(Shr(v, 0)) == last;
    assert Shr(v, 1) == Shr(0, 0) == 0;
    assert Shr(v, 2) == Shr(0, 1) == Shr(0, 0);
    assert !bits[1] && !bits[2];
    assert bits[..1] == [last];
    assert bits[1..][..2] == [false, false];
    FromBitsOne(last);
    FromBitsTwoZeros();
    assert bits[1..][2..] == bits[3..];
  }

  lemma FromBitsOne(b: bool)
    ensures FromBits([b]) == if b then 1 else 0
  {
    assert [b][1..] == [];
  }

  lemma FromBitsTwoZeros()
    ensures FromBits([false, false]) == 0
  {
    assert [false, false][1..] == [false];
    FromBitsOne(false);
  }

  lemma PaddingDropped(first: byte, tail: seq<bool>, n: nat)
    requires |tail| == 8 * n
    ensures AlignedTail((ToBits(first, 8) + tail)[3..]) == tail
  {
    PhaseAdd(5, n);
  }

  lemma OpensStored(last: bool, chunk: seq<byte>, rest: seq<byte>, history: seq<byte>)
    requires |chunk| <= MAX_STORED
    ensures Run(State(AtHeader, false, BytesToBits(StoredBlock(last, chunk) + rest), history))
            == Run(State(InStored(|chunk|), last, BytesToBits(chunk + rest), history))
  {
    BlockBytes(last, chunk, rest);
    StoredBlockHeader(last, |chunk|, chunk + rest);
  }

  lemma BlockBytes(last: bool, chunk: seq<byte>, rest: seq<byte>)
    requires |chunk| <= MAX_STORED
    ensures StoredBlock(last, chunk) + rest
            == [if last then 1 else 0] + Le16Bytes(|chunk|) + Le16Bytes(0xffff - |chunk|) + (chunk + rest)
  {
  }

  lemma ClosesStored(last: bool, bits: seq<bool>, history: seq<byte>)
    ensures Run(State(InStored(0), last, bits, history)) == Run(State(AtHeader, last, bits, history))
  {
  }

  /** A stored block is read back whole. */
  lemma StoredBlockRuns(last: bool, chunk: seq<byte>, rest: seq<byte>, history: seq<byte>)
    requires |chunk| <= MAX_STORED
    ensures RunBytes(false, StoredBlock(last, chunk) + rest, history) == RunBytes(last, rest, history + chunk)
  {
    OpensStored(last, chunk, rest, history);
    CopiesStored(last, chunk, rest, history);
    ClosesStored(last, BytesToBits(rest), history + chunk);
  }

  lemma CopiesStored(last: bool, chunk: seq<byte>, rest: seq<byte>, history: seq<byte>)
    ensures Run(State(InStored(|chunk|), last, BytesToBits(chunk + rest), history))
            == Run(State(InStored(0), last, BytesToBits(rest), history + chunk))
  {
    BytesToBitsConcat(chunk, rest);
    Inflate.StoredRun(chunk, State(InStored(|chunk|), last, BytesToBits(chunk + rest), history),
                      State(InStored(0), last, BytesToBits(rest), history + chunk));
  }

  /** What decoding the bytes from a block boundary gives. */
  type Decoder = (bool, seq<byte>, seq<byte>) -> Outcome

  /** `block` is read back whole as `chunk`, whatever follows it. */
  ghost predicate ReadsAs(run: Decoder, last: bool, block: seq<byte>, chunk: seq<byte>) {
    forall rest, history :: run(false, block + rest, history) == run(last, rest, history + chunk)
  }

  type BlockWriter = (bool, seq<byte>) -> seq<byte>

  /** `blocks` cuts data into blocks of the largest size, at every point a proof looks at. */
  ghost predicate Cuts(blocks: seq<byte> -> seq<byte>, block: BlockWriter) {
    forall data {:trigger Whole(data)} :: Whole(data) ==>
      blocks(data) == if |data| <= MAX_STORED then block(true, data)
                      else block(false, data[..MAX_STORED]) + blocks(data[MAX_STORED..])
  }

  ghost predicate Whole(data: seq<byte>) {
    true
  }

  lemma {:induction false} ReadsBlocks(run: Decoder, blocks: seq<byte> -> seq<byte>, block: BlockWriter,
                                       data: seq<byte>, rest: seq<byte>, history: seq<byte>)
    requires Cuts(blocks, block)
    requires forall last, chunk: seq<byte> :: |chunk| <= MAX_STORED ==> ReadsAs(run, last, block(last, chunk), chunk)
    ensures run(false, blocks(data) + rest, history) == run(true, rest, history + data)
    decreases |data|
  {
    assert Whole(data);
    if |data| <= MAX_STORED {
      assert ReadsAs(run, true, block(true, data), data);
    } else {
      var chunk, more := data[..MAX_STORED], data[MAX_STORED..];
      ReadsBlocks(run, blocks, block, more, rest, history + chunk);
      assert ReadsAs(run, false, block(false, chunk), chunk);
      ReadsTwo(run, block(false, chunk), chunk, blocks(more), rest, history);
      assert (history + chunk) + more == history + data;
    }
  }

  /** The block writer, total for chunks that do not fit. */
  function BlockOf(last: bool, chunk: seq<byte>): (r: seq<byte>) {
    if |chunk| <= MAX_STORED then StoredBlock(last, chunk) else []
  }

  lemma StoredCuts()
    ensures Cuts(StoredBlocks, BlockOf)
  {
  }

  lemma StoredReads(last: bool, chunk: seq<byte>)
    requires |chunk| <= MAX_STORED
    ensures ReadsAs(RunBytes, last, BlockOf(last, chunk), chunk)
  {
    forall r, h ensures RunBytes(false, StoredBlock(last, chunk) + r, h) == RunBytes(last, r, h + chunk) {
      StoredBlockRuns(last, chunk, r, h);
    }
  }

  lemma ReadsTwo(run: Decoder, block: seq<byte>, chunk: seq<byte>, blocks: seq<byte>, rest: seq<byte>, history: seq<byte>)
    requires ReadsAs(run, false, block, chunk)
    ensures run(false, (block + blocks) + rest, history) == run(false, blocks + rest, history + chunk)
  {
    assert (block + blocks) + rest == block + (blocks + rest);
  }

  ghost function RunBytes(finalSeen: bool, bytes: seq<byte>, history: seq<byte>): (o: Outcome) {
    Run(State(AtHeader, finalSeen, BytesToBits(bytes), history))
  }

  /** Inflating the stored blocks of `data` gives `data` and stops right after them. */
  lemma StoredBlocksInflate(data: seq<byte>, rest: seq<byte>)
    ensures InflateSpec.Inflate(BytesToBits(StoredBlocks(data) + rest)) == Done(data, BytesToBits(rest))
  {
    StoredCuts();
    forall last, chunk: seq<byte> | |chunk| <= MAX_STORED
      ensures ReadsAs(RunBytes, last, BlockOf(last, chunk), chunk)
    {
      StoredReads(last, chunk);
    }
    ReadsBlocks(RunBytes, StoredBlocks, BlockOf, data, rest, []);
    assert [] + data == data;
    RunStops(BytesToBits(rest), data);
  }

  lemma RunStops(bits: seq<bool>, history: seq<byte>)
    ensures Run(State(AtHeader, true, bits, history)) == Done(history, bits)
  {
  }

  lemma HeaderSkipped(rest: seq<byte>)
    ensures AfterHeader(Header() + rest) == Ok(rest)
  {
    var bytes := Header() + rest;
    assert bytes[..10] == Header() && bytes[10..] == rest;
    forall i: nat ensures !Flag(0, i) { Crc32.ShrOfZero(i); }
  }

  lemma TrailerAccepted(data: seq<byte>)
    ensures CheckTrailer(data, Trailer(data)) == Ok(data)
  {
    var crc, size := Crc32.Crc(data), Crc32.WordOf(|data|);
    BitsOfBytes(crc);
    BitsOfBytes(size);
    var t := Trailer(data);
    assert t[..4] == BitsToBytes(crc) && t[4..8] == BitsToBytes(size);
  }

  /** Every byte string survives the stored-block writer and the gzip reader. */
  lemma RoundTrip(data: seq<byte>)
    ensures Gunzip(StoredGzip(data)) == Ok(data)
  {
    BodyOfStored(data);
    BehindHeader(StoredBlocks(data) + Trailer(data), data);
    Associate(Header(), StoredBlocks(data), Trailer(data));
  }

  lemma BehindHeader(rest: seq<byte>, data: seq<byte>)
    requires Body(rest) == Ok(data)
    ensures Gunzip(Header() + rest) == Ok(data)
  {
    HeaderSkipped(rest);
    GunzipVia(Header(), rest, data);
  }

  lemma GunzipVia(header: seq<byte>, rest: seq<byte>, data: seq<byte>)
    requires AfterHeader(header + rest) == Ok(rest) && Body(rest) == Ok(data)
    ensures Gunzip(header + rest) == Ok(data)
  {
  }

  lemma BodyOfStored(data: seq<byte>)
    ensures Body(StoredBlocks(data) + Trailer(data)) == Ok(data)
  {
    StoredBlocksInflate(data, Trailer(data));
    StoredEnd(data);
  }

  lemma StoredEnd(data: seq<byte>)
    ensures Conclude(Done(data, BytesToBits(Trailer(data)))) == Ok(data)
  {
    var rest := BytesToBits(Trailer(data));
    PhaseAdd(0, |Trailer(data)|);
    assert AlignedTail(rest) == rest;
    BytesOfBits(Trailer(data));
    TrailerAccepted(data);
  }
}
