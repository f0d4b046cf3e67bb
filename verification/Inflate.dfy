/**
 * The streaming raw-DEFLATE reader: an output buffer that is cut down to the
 * back-reference window once enough of it has been consumed.
 */
module Inflate {
  import opened Bits
  import opened CanonicalCode
  import opened Results
  import opened InflateSpec
  import Huffman
  import BitReader

  const COMPACT_THRESHOLD: nat := WINDOW * 4

  datatype BlockState = NoBlock | Stored(remaining: nat) | Coded(literal: Huffman.Table, distance: Huffman.Table)

  class Reader {
    const bits: BitReader.Reader
    var output: seq<byte>
    var readCursor: nat
    var block: BlockState
    var finalBlockSeen: bool
    var finished: bool
    var totalOut: nat

    /** The compressed stream as it was when the reader was created. */
    ghost const start: seq<bool>
    /** The reference decoder, and how it ends on that stream. */
    ghost const run: State -> Outcome
    ghost const goal: Outcome
    /** Everything decoded so far, including what compaction dropped. */
    ghost var history: seq<byte>
    ghost var literalLens: seq<nat>
    ghost var distanceLens: seq<nat>

    ghost function BlockOf(): (b: Block)
      reads this
    {
      match block
      case NoBlock => AtHeader
      case Stored(n) => InStored(n)
      case Coded(_, _) => InHuffman(literalLens, distanceLens)
    }

    /** Where the reference decoder stands. */
    ghost function Abs(): (st: State)
      requires bits.position <= |bits.buffer|
      reads this, bits, bits.source
    {
      State(BlockOf(), finalBlockSeen, bits.Rest(), history)
    }

    /** The buffer is the end of the history, and long enough for any back-reference. */
    ghost predicate BufferOk()
      reads this
    {
      && readCursor <= |output| <= |history|
      && output == history[|history| - |output|..]
      && (|output| == |history| || |output| >= WINDOW)
    }

    ghost predicate BlockOk()
      reads this, bits
    {
      match block
      case NoBlock => true
      case Stored(n) => bits.bitCount % 8 == 0
      case Coded(l, d) => Huffman.Represents(l, literalLens) && Huffman.Represents(d, distanceLens)
    }

    ghost predicate Valid()
      reads this, bits, bits.source
    {
      && bits.Valid()
      && BufferOk()
      && BlockOk()
      && totalOut == |history|
      && (finished ==> block.NoBlock? && finalBlockSeen)
      && IsRun(run)
    }

    /** From where the reader stands, the reference decoder still ends as it does on the whole stream. */
    ghost predicate OnTrack()
      requires bits.position <= |bits.buffer|
      reads this, bits, bits.source
    {
      run(Abs()) == goal
    }

    /** What has been handed to callers. */
    ghost function Delivered(): (d: seq<byte>)
      requires BufferOk()
      reads this
    {
      history[..|history| - (|output| - readCursor)]
    }

    ghost function Available(): (n: int)
      reads this
    {
      |output| - readCursor
    }

    constructor (source: BitReader.CountingSource)
      requires source.Valid()
      ensures Valid() && OnTrack() && fresh(bits) && bits.source == source
      ensures start == BytesToBits(source.remaining) && goal == InflateSpec.Inflate(start)
      ensures Delivered() == [] && !finished && bits.RestBytes() == source.remaining
      ensures totalOut == 0 && bits.Rest() == start
    {
      bits := new BitReader.Reader(source);
      output, readCursor, block := [], 0, NoBlock;
      finalBlockSeen, finished, totalOut := false, false, 0;
      start := BytesToBits(source.remaining);
      run := st => Run(st);
      goal := InflateSpec.Inflate(BytesToBits(source.remaining));
      history, literalLens, distanceLens := [], [], [];
    }

    /** Drops consumed output beyond the window. */
    method Compact()
      requires BufferOk()
      modifies this`output, this`readCursor
      ensures BufferOk()
      ensures Delivered() == old(Delivered()) && Available() == old(Available())
    {
      if readCursor > COMPACT_THRESHOLD {
        var keepFrom := readCursor - WINDOW;
        output := output[keepFrom..];
        readCursor := readCursor - keepFrom;
      }
    }

    /** Appends one decoded byte. */
    method Push(b: byte)
      requires BufferOk()
      modifies this`output, this`history, this`totalOut
      ensures BufferOk()
      ensures history == old(history) + [b] && output == old(output) + [b]
      ensures Delivered() == old(Delivered())
      ensures totalOut == old(totalOut) + 1
    {
      SuffixGrows(history, output, [b]);
      output := output + [b];
      history := history + [b];
      totalOut := totalOut + 1;
      assert Delivered() == old(Delivered());
    }

    // ----- Block headers

    method ReadStoredHeader() returns (r: Result<nat, Huffman.Error>)
      requires bits.Valid()
      modifies bits, bits.source
      ensures bits.Valid() && bits.bitCount % 8 == 0
      ensures r == match StoredHeader(old(bits.Rest()))
                   case Ok(read) => Ok(read.value.remaining)
                   case Err(e) => Err(e)
      ensures r.Ok? ==> bits.Rest() == StoredHeader(old(bits.Rest())).value.rest
    {
      bits.AlignToByte();
      var header := bits.ReadAligned(4);
      if header.Err? {
        StoredHeaderShort(old(bits.Rest()));
        return Err(header.error);
      }
      var h := header.value;
      StoredHeaderBytes(old(bits.Rest()), h, bits.Rest());
      var length := Le16(h[0], h[1]);
      var complement := Le16(h[2], h[3]);
      // `length != !complement` on 16-bit words
      if length != 0xffff - complement {
        return Err(Huffman.Invalid);
      }
      return Ok(length);
    }

    method ReadCodeLengthLengths(count: nat) returns (r: Result<seq<nat>, Huffman.Error>)
      requires bits.Valid() && count <= 19
      modifies bits, bits.source
      ensures bits.Valid()
      ensures Follows(CodeLengthLengths(old(bits.Rest()), Repeat(0, 19), 0, count), r, bits.Rest())
    {
      ghost var spec := CodeLengthLengths(bits.Rest(), Repeat(0, 19), 0, count);
      var lens: seq<nat> := Repeat(0, 19);
      for index := 0 to count
        invariant bits.Valid() && |lens| == 19
        invariant CodeLengthLengths(bits.Rest(), lens, index, count) == spec
      {
        var length := bits.Take(3);
        if length.Err? {
          return Err(length.error);
        }
        lens := lens[CODE_LENGTH_ORDER[index] := length.value];
      }
      return Ok(lens);
    }

    /** One item of the code-length loop: `lengths[..index]` is filled, the rest still zero. */
    method ReadLengthItem(table: Huffman.Table, ghost codeLens: seq<nat>, lengths: seq<nat>, index: nat)
      returns (r: Result<(seq<nat>, nat), Huffman.Error>)
      requires bits.Valid() && Huffman.Represents(table, codeLens)
      requires index < |lengths| && ZeroFrom(lengths, index)
      modifies bits, bits.source
      ensures bits.Valid()
      ensures Filled(LengthItem(codeLens, old(bits.Rest()), lengths[..index], |lengths|), r, |lengths|, bits.Rest())
    {
      var symbol := bits.DecodeSymbol(table, codeLens);
      if symbol.Err? {
        return Err(symbol.error);
      }
      r := ApplyLengthSymbol(symbol.value, lengths, index);
    }

    method ApplyLengthSymbol(symbol: nat, lengths: seq<nat>, index: nat)
      returns (r: Result<(seq<nat>, nat), Huffman.Error>)
      requires bits.Valid() && index < |lengths| && ZeroFrom(lengths, index)
      modifies bits, bits.source
      ensures bits.Valid()
      ensures Filled(ApplyLength(symbol, old(bits.Rest()), lengths[..index], |lengths|), r, |lengths|, bits.Rest())
    {
      if symbol <= 15 {
        return Ok((lengths[index := symbol], index + 1));
      } else if symbol == 16 {
        if index == 0 {
          return Err(Huffman.Invalid);
        }
        var previous := lengths[index - 1];
        var extra := bits.Take(2);
        if extra.Err? {
          return Err(extra.error);
        }
        var repeat := 3 + extra.value;
        if index + repeat > |lengths| {
          return Err(Huffman.Invalid);
        }
        var filled := FillRun(lengths, index, previous, repeat);
        return Ok((filled, index + repeat));
      } else if symbol == 17 {
        r := SkipZeros(lengths, index, 3, 3);
      } else if symbol == 18 {
        r := SkipZeros(lengths, index, 11, 7);
      } else {
        return Err(Huffman.Invalid);
      }
    }

    /** A run of zero lengths leaves the zero-initialised vector alone. */
    method SkipZeros(lengths: seq<nat>, index: nat, least: nat, extra: nat)
      returns (r: Result<(seq<nat>, nat), Huffman.Error>)
      requires bits.Valid() && index < |lengths| && ZeroFrom(lengths, index) && least > 0 && extra <= 32
      modifies bits, bits.source
      ensures bits.Valid()
      ensures Filled(RepeatRun(lengths[..index], 0, least, extra, old(bits.Rest()), |lengths|), r, |lengths|, bits.Rest())
    {
      var more := bits.Take(extra);
      if more.Err? {
        return Err(more.error);
      }
      var n := least + more.value;
      if index + n > |lengths| {
        return Err(Huffman.Invalid);
      }
      assert lengths[..index + n] == lengths[..index] + Repeat(0, n);
      return Ok((lengths, index + n));
    }

    method ReadLengths(table: Huffman.Table, ghost codeLens: seq<nat>, total: nat)
      returns (r: Result<seq<nat>, Huffman.Error>)
      requires bits.Valid() && Huffman.Represents(table, codeLens)
      modifies bits, bits.source
      ensures bits.Valid()
      ensures Follows(LengthItems(codeLens, old(bits.Rest()), [], total), r, bits.Rest())
    {
      ghost var spec := LengthItems(codeLens, bits.Rest(), [], total);
      var lengths: seq<nat> := Repeat(0, total);
      var index := 0;
      while index < total
        invariant bits.Valid() && index <= |lengths| == total && ZeroFrom(lengths, index)
        invariant LengthItems(codeLens, bits.Rest(), lengths[..index], total) == spec
      {
        var item := ReadLengthItem(table, codeLens, lengths, index);
        if item.Err? {
          return Err(item.error);
        }
        lengths, index := item.value.0, item.value.1;
      }
      assert lengths[..index] == lengths;
      return Ok(lengths);
    }

    /** The two Huffman tables of a block, or the refusal of an over-subscribed one. */
    method OpenTables(literal: seq<nat>, distance: seq<nat>) returns (r: Result<BlockState, Huffman.Error>)
      requires bits.position <= |bits.buffer|
      requires |literal| <= 4096 && |distance| <= 4096
      modifies this`literalLens, this`distanceLens
      ensures Opened(OpenHuffman(literal, distance, bits.Rest()), r, literalLens, distanceLens, bits.Rest())
    {
      literalLens, distanceLens := literal, distance;
      var l := Huffman.NewTable(literal);
      if l.Err? {
        return Err(l.error);
      }
      var d := Huffman.NewTable(distance);
      if d.Err? {
        return Err(d.error);
      }
      return Ok(Coded(l.value, d.value));
    }

    method ReadDynamicCounts() returns (r: Result<Counts, Huffman.Error>)
      requires bits.Valid()
      modifies bits, bits.source
      ensures bits.Valid()
      ensures Follows(DynamicCounts(old(bits.Rest())), r, bits.Rest())
    {
      var hlit := bits.Take(5);
      if hlit.Err? {
        return Err(hlit.error);
      }
      var hdist := bits.Take(5);
      if hdist.Err? {
        return Err(hdist.error);
      }
      var hclen := bits.Take(4);
      if hclen.Err? {
        return Err(hclen.error);
      }
      if hlit.value + 257 > 286 || hdist.value + 1 > 30 {
        return Err(Huffman.Invalid);
      }
      return Ok(Counts(hlit.value + 257, hdist.value + 1, hclen.value + 4));
    }

    method ReadDynamicTables(counts: Counts) returns (r: Result<BlockState, Huffman.Error>)
      requires bits.Valid() && counts.codeLengths <= 19 && counts.literals <= 286 && counts.distances <= 30
      modifies bits, bits.source, this`literalLens, this`distanceLens
      ensures bits.Valid()
      ensures Opened(DynamicTables(counts, old(bits.Rest())), r, literalLens, distanceLens, bits.Rest())
    {
      var codeLens := ReadCodeLengthLengths(counts.codeLengths);
      if codeLens.Err? {
        return Err(codeLens.error);
      }
      r := ReadCodedTables(codeLens.value, counts);
    }

    method ReadCodedTables(codeLens: seq<nat>, counts: Counts) returns (r: Result<BlockState, Huffman.Error>)
      requires bits.Valid() && |codeLens| == 19 && counts.literals <= 286 && counts.distances <= 30
      modifies bits, bits.source, this`literalLens, this`distanceLens
      ensures bits.Valid()
      ensures Opened(CodedTables(codeLens, counts, old(bits.Rest())), r, literalLens, distanceLens, bits.Rest())
    {
      var codeTable := Huffman.NewTable(codeLens);
      if codeTable.Err? {
        return Err(codeTable.error);
      }
      var lengths := ReadLengths(codeTable.value, codeLens, counts.literals + counts.distances);
      if lengths.Err? {
        return Err(lengths.error);
      }
      r := OpenTables(lengths.value[..counts.literals], lengths.value[counts.literals..]);
    }

    method ReadDynamicHeader() returns (r: Result<BlockState, Huffman.Error>)
      requires bits.Valid()
      modifies bits, bits.source, this`literalLens, this`distanceLens
      ensures bits.Valid()
      ensures Opened(DynamicHeader(old(bits.Rest())), r, literalLens, distanceLens, bits.Rest())
    {
      var counts := ReadDynamicCounts();
      if counts.Err? {
        return Err(counts.error);
      }
      r := ReadDynamicTables(counts.value);
    }

    method ReadBlockHeader(kind: nat) returns (r: Result<BlockState, Huffman.Error>)
      requires bits.Valid()
      modifies bits, bits.source, this`literalLens, this`distanceLens
      ensures bits.Valid()
      ensures Entered(BlockHeader(kind, old(bits.Rest())), r, literalLens, distanceLens, bits.Rest(), bits.bitCount)
    {
      if kind == 0 {
        var length := ReadStoredHeader();
        if length.Err? {
          return Err(length.error);
        }
        return Ok(Stored(length.value));
      } else if kind == 1 {
        r := OpenTables(FixedLiteral(), FixedDistance());
      } else if kind == 2 {
        r := ReadDynamicHeader();
      } else {
        return Err(Huffman.Invalid);
      }
    }

    /** Everything but the position in the compressed stream is as before. */
    twostate predicate SameOutput()
      reads this
    {
      output == old(output) && readCursor == old(readCursor) && history == old(history) && totalOut == old(totalOut)
    }

    /** Reads the next block header, or finishes after the final block. */
    method StartBlock() returns (r: Result<bool, Huffman.Error>)
      requires Valid() && block.NoBlock? && !finished
      modifies this, bits, bits.source
      ensures SameOutput()
      ensures old(finalBlockSeen) ==> r == Ok(false) && finished && Valid() && Abs() == old(Abs())
      ensures !old(finalBlockSeen) ==>
                match Step(old(Abs()))
                case Next(st) => r == Ok(true) && !finished && Valid() && Abs() == st
                case Stop(o) => r.Err? && FailsWith(o, r.error)
    {
      if finalBlockSeen {
        finished := true;
        return Ok(false);
      }
      var header := ReadHeader();
      if header.Err? {
        return Err(header.error);
      }
      finalBlockSeen, block := header.value.0, header.value.1;
      assert Step(old(Abs())) == Next(Abs());
      return Ok(true);
    }

    method ReadHeader() returns (r: Result<(bool, BlockState), Huffman.Error>)
      requires bits.Valid()
      modifies bits, bits.source, this`literalLens, this`distanceLens
      ensures bits.Valid()
      ensures match Header(old(bits.Rest()))
              case Err(e) => r == Err(e)
              case Ok(read) =>
                && r.Ok? && r.value.0 == read.value.0 && bits.Rest() == read.rest
                && Holds(r.value.1, read.value.1, literalLens, distanceLens, bits.bitCount)
    {
      var last := bits.Take(1);
      if last.Err? {
        return Err(last.error);
      }
      var kind := bits.Take(2);
      if kind.Err? {
        return Err(kind.error);
      }
      var entered := ReadBlockHeader(kind.value);
      if entered.Err? {
        return Err(entered.error);
      }
      return Ok((last.value == 1, entered.value));
    }

    // ----- Compressed data

    method ReadToken(literal: Huffman.Table, distance: Huffman.Table, ghost l: seq<nat>, ghost d: seq<nat>)
      returns (r: Result<Token, Huffman.Error>)
      requires bits.Valid() && Huffman.Represents(literal, l) && Huffman.Represents(distance, d)
      modifies bits, bits.source
      ensures bits.Valid()
      ensures Follows(NextToken(l, d, old(bits.Rest())), r, bits.Rest())
    {
      var symbol := bits.DecodeSymbol(literal, l);
      if symbol.Err? {
        return Err(symbol.error);
      }
      r := FinishToken(symbol.value, distance, d);
    }

    method FinishToken(symbol: nat, distance: Huffman.Table, ghost d: seq<nat>) returns (r: Result<Token, Huffman.Error>)
      requires bits.Valid() && Huffman.Represents(distance, d)
      modifies bits, bits.source
      ensures bits.Valid()
      ensures Follows(TokenOf(symbol, d, old(bits.Rest())), r, bits.Rest())
    {
      if symbol <= 255 {
        return Ok(Literal(symbol));
      } else if symbol == 256 {
        return Ok(EndOfBlock);
      } else if symbol <= 285 {
        r := ReadCopy(symbol - 257, distance, d);
      } else {
        return Err(Huffman.Invalid);
      }
    }

    method ReadCopy(index: nat, distance: Huffman.Table, ghost d: seq<nat>) returns (r: Result<Token, Huffman.Error>)
      requires bits.Valid() && index <= 28 && Huffman.Represents(distance, d)
      modifies bits, bits.source
      ensures bits.Valid()
      ensures Follows(CopyToken(index, d, old(bits.Rest())), r, bits.Rest())
    {
      var extra := bits.Take(LengthExtra(index));
      if extra.Err? {
        return Err(extra.error);
      }
      var back := ReadBack(distance, d);
      if back.Err? {
        return Err(back.error);
      }
      return Ok(Copy(LengthBase(index) + extra.value, back.value));
    }

    method ReadBack(distance: Huffman.Table, ghost d: seq<nat>) returns (r: Result<nat, Huffman.Error>)
      requires bits.Valid() && Huffman.Represents(distance, d)
      modifies bits, bits.source
      ensures bits.Valid()
      ensures Follows(TakeBack(d, old(bits.Rest())), r, bits.Rest())
    {
      var symbol := bits.DecodeSymbol(distance, d);
      if symbol.Err? {
        return Err(symbol.error);
      }
      if symbol.value >= 30 {
        return Err(Huffman.Invalid);
      }
      var extra := bits.Take(DistanceExtra(symbol.value));
      if extra.Err? {
        return Err(extra.error);
      }
      return Ok(DistanceBase(symbol.value) + extra.value);
    }

    /** Copies from the buffer what the reference decoder copies from the whole history. */
    method CopyFrom(back: nat, length: nat)
      requires BufferOk() && 1 <= back <= |output| && totalOut == |history|
      modifies this`output, this`history, this`totalOut
      ensures BufferOk() && totalOut == |history|
      ensures history == CopyBack(old(history), back, length)
      ensures Delivered() == old(Delivered())
    {
      var source := |output| - back;
      for i := 0 to length
        invariant BufferOk() && totalOut == |history|
        invariant source == |output| - back - i
        invariant Delivered() == old(Delivered())
        invariant |output| <= |history| && CopyBack(history, back, length - i) == CopyBack(old(history), back, length)
      {
        PushFrom(source + i, back);
      }
    }

    method PushFrom(source: nat, ghost back: nat)
      requires BufferOk() && 1 <= back <= |output| && source == |output| - back
      modifies this`output, this`history, this`totalOut
      ensures BufferOk()
      ensures back <= |old(history)| && history == old(history) + [old(history)[|old(history)| - back]]
      ensures |output| == |old(output)| + 1
      ensures totalOut == old(totalOut) + 1
      ensures Delivered() == old(Delivered())
    {
      Push(output[source]);
    }

    /** Carries out one token, as the reference decoder would on the whole history. */
    method Apply(token: Token) returns (r: Result<(), Huffman.Error>)
      requires BufferOk() && totalOut == |history| && block.Coded?
      requires token.Copy? ==> 1 <= token.back <= WINDOW
      modifies this`output, this`history, this`totalOut, this`block
      ensures r.Ok? <==> !(token.Copy? && token.back > old(|history|))
      ensures r.Err? ==> r.error == Huffman.Invalid
      ensures r.Ok? ==> BufferOk() && totalOut == |history| && Delivered() == old(Delivered())
      ensures r.Ok? ==> block == if token.EndOfBlock? then NoBlock else old(block)
      ensures r.Ok? ==> history == match token
                                   case Literal(b) => old(history) + [b]
                                   case EndOfBlock => old(history)
                                   case Copy(length, back) => CopyBack(old(history), back, length)
    {
      match token {
        case Literal(b) =>
          Push(b);
        case EndOfBlock =>
          block := NoBlock;
        case Copy(length, back) =>
          if back > |output| {
            return Err(Huffman.Invalid);
          }
          CopyFrom(back, length);
      }
      return Ok(());
    }

    /** One turn of the decoding loop: a literal, a copy or the end of the block. */
    method DecodeOne() returns (r: Result<(), Huffman.Error>)
      requires Valid() && block.Coded?
      modifies this, bits, bits.source
      ensures match Step(old(Abs()))
              case Next(st) => r.Ok? && Valid() && !finished && Abs() == st && Delivered() == old(Delivered())
              case Stop(o) => r.Err? && FailsWith(o, r.error)
    {
      BackWithinWindow(literalLens, distanceLens, bits.Rest());
      var token := ReadToken(block.literal, block.distance, literalLens, distanceLens);
      if token.Err? {
        return Err(token.error);
      }
      assert Step(old(Abs())) == ApplyToken(old(Abs()), token.value, bits.Rest());
      r := Apply(token.value);
    }

    /** Decodes the open block until enough is buffered or the block ends. */
    method DecodeBlock(want: nat) returns (r: Result<(), Huffman.Error>)
      requires Valid() && OnTrack() && block.Coded? && Available() < want
      modifies this, bits, bits.source
      ensures r.Ok? ==> Valid() && OnTrack() && !finished && Delivered() == old(Delivered())
      ensures r.Ok? ==> Measure(Abs()) < old(Measure(Abs()))
      ensures r.Err? ==> FailsWith(goal, r.error)
    {
      while true
        invariant Valid() && OnTrack() && !finished && block.Coded? && Delivered() == old(Delivered())
        invariant Measure(Abs()) < old(Measure(Abs())) || (Available() < want && Measure(Abs()) == old(Measure(Abs())))
        decreases Measure(Abs())
      {
        if |output| - readCursor >= want {
          return Ok(());
        }
        ghost var before := Abs();
        var one := DecodeOne();
        if one.Err? {
          RunStop(run, before);
          return Err(one.error);
        }
        RunNext(run, before, Abs());
        if block.NoBlock? {
          return Ok(());
        }
      }
    }

    /** The next chunk of a stored block, or a failure when the stream is too short for it. */
    method CopyStored() returns (r: Result<(), Huffman.Error>)
      requires Valid() && block.Stored? && block.remaining > 0
      modifies this, bits, bits.source
      ensures match r
              case Ok(_) =>
                && Valid() && !finished && Delivered() == old(Delivered())
                && StoredMove(old(Abs()), Abs())
              case Err(e) => e == Huffman.Truncated && old(|bits.Rest()|) < 8 * old(block.remaining)
    {
      var remaining := block.remaining;
      var chunk := if remaining < 64 * 1024 then remaining else 64 * 1024;
      var data := bits.ReadAligned(chunk);
      if data.Err? {
        return Err(data.error);
      }
      Append(data.value);
      block := Stored(remaining - chunk);
      assert StoredBytes(data.value, old(Abs()), Abs());
      return Ok(());
    }

    method Append(data: seq<byte>)
      requires BufferOk()
      modifies this`output, this`history, this`totalOut
      ensures BufferOk()
      ensures history == old(history) + data
      ensures totalOut == old(totalOut) + |data|
      ensures Delivered() == old(Delivered())
    {
      SuffixGrows(history, output, data);
      output := output + data;
      history := history + data;
      totalOut := totalOut + |data|;
      assert Delivered() == old(Delivered());
    }

    /** Decodes until at least `want` bytes are buffered or the stream ends. */
    method Fill(want: nat) returns (r: Result<(), Huffman.Error>)
      requires Valid() && OnTrack()
      modifies this, bits, bits.source
      ensures r.Ok? ==> Valid() && OnTrack() && Delivered() == old(Delivered()) && (finished || Available() >= want)
      ensures r.Err? ==> FailsWith(goal, r.error)
    {
      while !finished && |output| - readCursor < want
        invariant Valid() && OnTrack() && Delivered() == old(Delivered())
        decreases Measure(Abs()), !finished
      {
        var more := FillOnce(want);
        if more.Err? {
          return Err(more.error);
        }
      }
      return Ok(());
    }

    /** One turn of the filling loop. */
    method FillOnce(want: nat) returns (r: Result<(), Huffman.Error>)
      requires Valid() && OnTrack() && !finished && Available() < want
      modifies this, bits, bits.source
      ensures r.Ok? ==> Valid() && OnTrack() && Delivered() == old(Delivered())
      ensures r.Ok? ==> if finished then Abs() == old(Abs()) && Available() == old(Available())
                        else Measure(Abs()) < old(Measure(Abs()))
      ensures r.Err? ==> FailsWith(goal, r.error)
    {
      match block {
        case NoBlock =>
          ghost var before := Abs();
          var more := StartBlock();
          if more.Err? {
            RunStop(run, before);
            return Err(more.error);
          }
          if more.value {
            RunNext(run, before, Abs());
          }
          return Ok(());
        case Stored(remaining) =>
          if remaining == 0 {
            block := NoBlock;
            RunNext(run, old(Abs()), Abs());
            return Ok(());
          }
          r := CopyStored();
          if r.Err? {
            StoredShort(remaining, old(Abs()));
          } else {
            StoredMoved(old(Abs()), Abs());
          }
        case Coded(_, _) =>
          r := DecodeBlock(want);
      }
    }

    /**
     * One read of at most `max` bytes.  What is handed out continues what was
     * handed out before; a short read happens only at the end, and an empty
     * one only when the reference decoder is done; a failure is the reference
     * decoder's own.
     */
    method Read(max: nat) returns (r: Result<seq<byte>, Huffman.Error>)
      requires Valid() && OnTrack()
      modifies this, bits, bits.source
      ensures r.Ok? ==> Valid() && OnTrack()
      ensures r.Ok? ==> |r.value| <= max && Delivered() == old(Delivered()) + r.value
      ensures r.Ok? && |r.value| < max ==> finished && Available() == 0
      ensures r.Err? ==> FailsWith(goal, r.error)
      ensures max == 0 ==> r.Ok? && unchanged(this) && unchanged(bits) && unchanged(bits.source)
    {
      if max == 0 {
        return Ok([]);
      }
      var ready := Fill(max);
      if ready.Err? {
        return Err(ready.error);
      }
      var count := if |output| - readCursor < max then |output| - readCursor else max;
      if count == 0 {
        return Ok([]);
      }
      var data := Hand(count);
      return Ok(data);
    }

    /** Hands out the next `count` buffered bytes and compacts. */
    method Hand(count: nat) returns (data: seq<byte>)
      requires BufferOk() && readCursor + count <= |output|
      modifies this`readCursor, this`output
      ensures BufferOk() && |data| == count
      ensures Delivered() == old(Delivered()) + data
      ensures Available() == old(Available()) - count
    {
      data := output[readCursor..readCursor + count];
      HandedOut(history, output, readCursor, count);
      readCursor := readCursor + count;
      Compact();
    }

    /** What has been handed out starts whatever the reference decoder ends with. */
    lemma DeliveredIsPrefix()
      requires Valid() && OnTrack()
      ensures Delivered() <= goal.output
    {
      assert history <= Run(Abs()).output;
    }

    /** At the end of the stream, everything decoded has been handed out. */
    lemma AtEnd()
      requires Valid() && OnTrack() && finished && Available() == 0
      ensures goal == Done(Delivered(), bits.Rest())
    {
      RunEnds(run, Abs());
      assert Delivered() == history;
    }

    /** One read of a size the caller picks; `None` at the end of the stream. */
    method ReadSome() returns (r: Result<Option<seq<byte>>, Huffman.Error>)
      requires Valid() && OnTrack()
      modifies this, bits, bits.source
      ensures match r
              case Err(e) => FailsWith(goal, e)
              case Ok(None) => Valid() && Delivered() == old(Delivered()) && goal == Done(Delivered(), bits.Rest())
              case Ok(Some(data)) => data != [] && Valid() && OnTrack() && Delivered() == old(Delivered()) + data
    {
      var max: nat :| max > 0;
      var chunk := Read(max);
      if chunk.Err? {
        return Err(chunk.error);
      }
      if chunk.value == [] {
        AtEnd();
        return Ok(None);
      }
      return Ok(Some(chunk.value));
    }

    /**
     * Reads to the end with whatever positive sizes the caller picks.  The
     * reader accepts exactly when the reference decoder does, and yields the
     * same bytes: neither the read sizes nor compaction can be observed.
     */
    method ReadToEnd() returns (r: Result<seq<byte>, Huffman.Error>)
      requires Valid() && OnTrack() && Delivered() == []
      modifies this, bits, bits.source
      ensures match r
              case Ok(data) => Valid() && goal == Done(data, bits.Rest())
              case Err(e) => FailsWith(goal, e)
    {
      var out: seq<byte> := [];
      while true
        invariant Valid() && OnTrack() && out == Delivered() <= goal.output
        decreases |goal.output| - |out|
      {
        var some := ReadSome();
        if some.Err? {
          return Err(some.error);
        }
        if some.value.None? {
          return Ok(out);
        }
        out := out + some.value.value;
        DeliveredIsPrefix();
      }
    }
  }

  lemma HandedOut(whole: seq<byte>, suffix: seq<byte>, cursor: nat, count: nat)
    requires cursor + count <= |suffix| <= |whole| && suffix == whole[|whole| - |suffix|..]
    ensures whole[..|whole| - (|suffix| - (cursor + count))]
            == whole[..|whole| - (|suffix| - cursor)] + suffix[cursor..cursor + count]
  {
  }

  lemma SuffixGrows(whole: seq<byte>, suffix: seq<byte>, more: seq<byte>)
    requires |suffix| <= |whole| && suffix == whole[|whole| - |suffix|..]
    ensures suffix + more == (whole + more)[|whole + more| - |suffix + more|..]
  {
  }

  // ----- Stored blocks

  /** `to` is `from` after the bytes `data` of a stored block. */
  ghost predicate StoredBytes(data: seq<byte>, from: State, to: State) {
    && from.block.InStored? && |data| <= from.block.remaining
    && from.bits == BytesToBits(data) + to.bits
    && to == State(InStored(from.block.remaining - |data|), from.finalSeen, to.bits, from.history + data)
  }

  ghost predicate StoredMove(from: State, to: State) {
    exists data :: data != [] && StoredBytes(data, from, to)
  }

  lemma StoredMoved(from: State, to: State)
    requires StoredMove(from, to)
    ensures Run(from) == Run(to)
    ensures Measure(to) < Measure(from)
  {
    var data :| data != [] && StoredBytes(data, from, to);
    StoredRun(data, from, to);
  }

  lemma StoredRunOne(b: byte, st: State, rest: seq<bool>)
    requires st.block.InStored? && st.block.remaining > 0
    requires st.bits == ToBits(b, 8) + rest
    ensures Run(st) == Run(State(InStored(st.block.remaining - 1), st.finalSeen, rest, st.history + [b]))
  {
    assert st.bits[..8] == ToBits(b, 8);
    assert st.bits[8..] == rest;
    Pow2Eight();
    MaskSmall(b, 8);
  }

  lemma {:induction false} StoredRun(data: seq<byte>, from: State, to: State)
    requires StoredBytes(data, from, to)
    ensures Run(from) == Run(to)
  {
    if data == [] {
      assert from == to;
    } else {
      var rest := BytesToBits(data[1..]) + to.bits;
      assert from.bits == ToBits(data[0], 8) + rest;
      StoredRunOne(data[0], from, rest);
      var mid := State(InStored(from.block.remaining - 1), from.finalSeen, rest, from.history + [data[0]]);
      assert mid.history + data[1..] == from.history + data;
      StoredRun(data[1..], mid, to);
    }
  }

  lemma {:induction false} StoredShort(n: nat, st: State)
    requires st.block == InStored(n) && |st.bits| < 8 * n
    ensures FailsWith(Run(st), Huffman.Truncated)
  {
    if |st.bits| < 8 {
    } else {
      StoredShort(n - 1, Step(st).state);
    }
  }

  /** A reader's open block holds what the reference block says. */
  ghost predicate Holds(state: BlockState, block: Block, literal: seq<nat>, distance: seq<nat>, bitCount: nat) {
    match state
    case NoBlock => false
    case Stored(n) => block == InStored(n) && bitCount % 8 == 0
    case Coded(l, d) =>
      block == InHuffman(literal, distance) && Huffman.Represents(l, literal) && Huffman.Represents(d, distance)
  }

  /** A block header read, compared with the reference header. */
  ghost predicate Entered(spec: Result<Read<Block>, Huffman.Error>, r: Result<BlockState, Huffman.Error>,
                          literal: seq<nat>, distance: seq<nat>, rest: seq<bool>, bitCount: nat)
  {
    match spec
    case Err(e) => r == Err(e)
    case Ok(read) => r.Ok? && rest == read.rest && Holds(r.value, read.value, literal, distance, bitCount)
  }

  /** A filled prefix of the length vector, compared with the reference list of lengths. */
  ghost predicate Filled(spec: Result<Read<seq<nat>>, Huffman.Error>, r: Result<(seq<nat>, nat), Huffman.Error>,
                         total: nat, rest: seq<bool>)
  {
    match spec
    case Ok(read) =>
      && r.Ok? && |r.value.0| == total && r.value.1 <= total
      && r.value.0[..r.value.1] == read.value && ZeroFrom(r.value.0, r.value.1)
      && rest == read.rest
    case Err(e) => r == Err(e)
  }

  /** An opened block holds the tables of the lengths the reference decoder read. */
  ghost predicate Opened(spec: Result<Read<Block>, Huffman.Error>, r: Result<BlockState, Huffman.Error>,
                         literal: seq<nat>, distance: seq<nat>, rest: seq<bool>)
  {
    match spec
    case Ok(read) =>
      && r.Ok? && r.value.Coded? && rest == read.rest
      && read.value == InHuffman(literal, distance)
      && Huffman.Represents(r.value.literal, literal)
      && Huffman.Represents(r.value.distance, distance)
    case Err(e) => r == Err(e)
  }

  ghost predicate ZeroFrom(lengths: seq<nat>, index: nat) {
    forall i :: index <= i < |lengths| ==> lengths[i] == 0
  }

  method FillRun(lengths: seq<nat>, index: nat, value: nat, n: nat) returns (filled: seq<nat>)
    requires index + n <= |lengths| && ZeroFrom(lengths, index)
    ensures |filled| == |lengths| && ZeroFrom(filled, index + n)
    ensures filled[..index + n] == lengths[..index] + Repeat(value, n)
  {
    filled := lengths;
    for i := 0 to n
      invariant |filled| == |lengths| && ZeroFrom(filled, index + i)
      invariant filled[..index + i] == lengths[..index] + Repeat(value, i)
    {
      filled := filled[index + i := value];
    }
  }

  /** A method's result and the bits it leaves, compared with a reference read. */
  ghost predicate Follows<T>(spec: Result<Read<T>, Huffman.Error>, r: Result<T, Huffman.Error>, rest: seq<bool>) {
    match spec
    case Ok(read) => r == Ok(read.value) && rest == read.rest
    case Err(e) => r == Err(e)
  }

  lemma StoredHeaderShort(all: seq<bool>)
    requires |BitReader.AlignedTail(all)| < 32
    ensures StoredHeader(all) == Err(Huffman.Truncated)
  {
  }

  lemma StoredHeaderBytes(all: seq<bool>, h: seq<byte>, rest: seq<bool>)
    requires |h| == 4 && BytesToBits(h) + rest == BitReader.AlignedTail(all)
    ensures StoredHeader(all)
            == if Le16(h[0], h[1]) + Le16(h[2], h[3]) != 0xffff then Err(Huffman.Invalid)
               else Ok(Read(InStored(Le16(h[0], h[1])), rest))
  {
    var aligned := BitReader.AlignedTail(all);
    assert h == [h[0], h[1]] + [h[2], h[3]];
    BytesToBitsConcat([h[0], h[1]], [h[2], h[3]]);
    assert aligned[..16] == BytesToBits([h[0], h[1]]);
    assert aligned[16..][..16] == BytesToBits([h[2], h[3]]);
    assert aligned[16..][16..] == rest;
    TwoBytes(h[0], h[1]);
    TwoBytes(h[2], h[3]);
  }

  lemma TwoBytes(a: byte, b: byte)
    ensures FromBits(BytesToBits([a, b])) == Le16(a, b)
  {
    assert [a, b] == [a] + [b];
    BytesToBitsCons(a, [b]);
    BytesToBitsCons(b, []);
    assert BytesToBits([b]) == ToBits(b, 8);
    FromBitsConcatByte(ToBits(a, 8), ToBits(b, 8));
    Pow2Eight();
    MaskSmall(a, 8);
    MaskSmall(b, 8);
  }

  lemma FromBitsConcatByte(a: seq<bool>, b: seq<bool>)
    requires |a| == 8
    ensures FromBits(a + b) == FromBits(a) + 256 * FromBits(b)
  {
    Weighted(a, b, 8);
    ShlEight(FromBits(b));
  }

  lemma {:induction false} Weighted(a: seq<bool>, b: seq<bool>, n: nat)
    requires |a| == n
    ensures FromBits(a + b) == FromBits(a) + Shl(FromBits(b), n)
  {
    if n == 0 {
      assert a + b == b;
    } else {
      Weighted(a[1..], b, n - 1);
      assert (a + b)[1..] == a[1..] + b;
    }
  }
}
