/**
 * The reference DEFLATE decoder of section 3.2.3 of RFC 1951, over a list of
 * bits and an unbounded output history.  It advances in steps, so that a
 * streaming reader stopped anywhere inside a block can be related to it.
 *
 * Incomplete Huffman code sets are accepted, as in the reader; only
 * over-subscribed ones are refused.
 */
module InflateSpec {
  import opened Bits
  import opened CanonicalCode
  import opened Results
  import opened Huffman
  import opened BitReader

  const WINDOW: nat := 32 * 1024

  const CODE_LENGTH_ORDER: seq<nat> := [
    16, 17, 18, 0, 8, 7, 9, 6, 10, 5, 11, 4, 12, 3, 13, 2, 14, 1, 15]

  /** Shortest match of the `i`-th length code. */
  function LengthBase(i: nat): (r: nat)
    requires i <= 28
    ensures 3 <= r <= 258
  {
    match i
    case 0 => 3 case 1 => 4 case 2 => 5 case 3 => 6 case 4 => 7 case 5 => 8 case 6 => 9 case 7 => 10
    case 8 => 11 case 9 => 13 case 10 => 15 case 11 => 17 case 12 => 19 case 13 => 23 case 14 => 27
    case 15 => 31 case 16 => 35 case 17 => 43 case 18 => 51 case 19 => 59 case 20 => 67 case 21 => 83
    case 22 => 99 case 23 => 115 case 24 => 131 case 25 => 163 case 26 => 195 case 27 => 227 case _ => 258
  }

  /** Extra bits of the `i`-th length code. */
  function LengthExtra(i: nat): (r: nat)
    requires i <= 28
    ensures r <= 5
  {
    match i
    case 0 => 0 case 1 => 0 case 2 => 0 case 3 => 0 case 4 => 0 case 5 => 0 case 6 => 0 case 7 => 0 case 8 => 1
    case 9 => 1 case 10 => 1 case 11 => 1 case 12 => 2 case 13 => 2 case 14 => 2 case 15 => 2 case 16 => 3
    case 17 => 3 case 18 => 3 case 19 => 3 case 20 => 4 case 21 => 4 case 22 => 4 case 23 => 4 case 24 => 5
    case 25 => 5 case 26 => 5 case 27 => 5 case _ => 0
  }

  /** Nearest distance of a distance code. */
  function DistanceBase(d: nat): (r: nat)
    requires d < 30
    ensures 1 <= r <= 24577
  {
    match d
    case 0 => 1 case 1 => 2 case 2 => 3 case 3 => 4 case 4 => 5 case 5 => 7 case 6 => 9 case 7 => 13
    case 8 => 17 case 9 => 25 case 10 => 33 case 11 => 49 case 12 => 65 case 13 => 97 case 14 => 129
    case 15 => 193 case 16 => 257 case 17 => 385 case 18 => 513 case 19 => 769 case 20 => 1025 case 21 => 1537
    case 22 => 2049 case 23 => 3073 case 24 => 4097 case 25 => 6145 case 26 => 8193 case 27 => 12289
    case 28 => 16385 case _ => 24577
  }

  /** Extra bits of a distance code. */
  function DistanceExtra(d: nat): (r: nat)
    requires d < 30
    ensures r <= 13
  {
    match d
    case 0 => 0 case 1 => 0 case 2 => 0 case 3 => 0 case 4 => 1 case 5 => 1 case 6 => 2 case 7 => 2 case 8 => 3
    case 9 => 3 case 10 => 4 case 11 => 4 case 12 => 5 case 13 => 5 case 14 => 6 case 15 => 6 case 16 => 7
    case 17 => 7 case 18 => 8 case 19 => 8 case 20 => 9 case 21 => 9 case 22 => 10 case 23 => 10 case 24 => 11
    case 25 => 11 case 26 => 12 case 27 => 12 case 28 => 13 case _ => 13
  }

  /** A value read from the stream and the bits left after it. */
  datatype Read<+T> = Read(value: T, rest: seq<bool>)

  function TakeBits(bits: seq<bool>, n: nat): (r: Result<Read<nat>, Error>)
    ensures r.Ok? ==> |r.value.rest| == |bits| - n
  {
    if |bits| < n then Err(Truncated) else Ok(Read(FromBits(bits[..n]), bits[n..]))
  }

  ghost function TakeSymbol(lens: seq<nat>, bits: seq<bool>): (r: Result<Read<nat>, Error>)
    ensures r.Ok? ==> |r.value.rest| < |bits| && r.value.value < |lens|
  {
    match Decode(lens, bits)
    case Some(s) => Ok(Read(s, bits[lens[s]..]))
    case None => Err(if |bits| < MAX_BITS then Truncated else Invalid)
  }

  // ----- Block headers

  datatype Block =
    | AtHeader
    | InStored(remaining: nat)
    | InHuffman(literal: seq<nat>, distance: seq<nat>)

  function FixedLiteral(): (lens: seq<nat>)
    ensures |lens| == 288
  {
    seq(288, i => if i <= 143 then 8 else if i <= 255 then 9 else if i <= 279 then 7 else 8)
  }

  function FixedDistance(): (lens: seq<nat>)
    ensures |lens| == 30
  {
    seq(30, _ => 5)
  }

  /** A stored block: skip to a byte boundary, then the length and its complement. */
  function StoredHeader(bits: seq<bool>): (r: Result<Read<Block>, Error>)
    ensures r.Ok? ==> |r.value.rest| <= |bits|
    ensures r.Ok? ==> r.value.value.InStored?
  {
    var aligned := AlignedTail(bits);
    var length :- TakeBits(aligned, 16);
    var complement :- TakeBits(length.rest, 16);
    if length.value + complement.value != 0xffff then Err(Invalid)
    else Ok(Read(InStored(length.value), complement.rest))
  }

  /** Lengths of the code-length code, in the order of section 3.2.7 of RFC 1951. */
  function CodeLengthLengths(bits: seq<bool>, lens: seq<nat>, index: nat, count: nat): (r: Result<Read<seq<nat>>, Error>)
    requires |lens| == 19 && index <= count <= 19
    ensures r.Ok? ==> |r.value.rest| <= |bits| && |r.value.value| == 19
    decreases count - index
  {
    if index == count then Ok(Read(lens, bits))
    else
      var length :- TakeBits(bits, 3);
      CodeLengthLengths(length.rest, lens[CODE_LENGTH_ORDER[index] := length.value], index + 1, count)
  }

  function Repeat(value: nat, n: nat): (s: seq<nat>)
    ensures |s| == n
  {
    seq(n, _ => value)
  }

  /** One item of the run-length coded literal and distance lengths. */
  ghost function LengthItem(codeLens: seq<nat>, bits: seq<bool>, soFar: seq<nat>, total: nat): (r: Result<Read<seq<nat>>, Error>)
    requires |soFar| < total
    ensures r.Ok? ==> |r.value.rest| < |bits| && |soFar| < |r.value.value| <= total
  {
    var symbol :- TakeSymbol(codeLens, bits);
    ApplyLength(symbol.value, symbol.rest, soFar, total)
  }

  function ApplyLength(symbol: nat, bits: seq<bool>, soFar: seq<nat>, total: nat): (r: Result<Read<seq<nat>>, Error>)
    requires |soFar| < total
    ensures r.Ok? ==> |r.value.rest| <= |bits| && |soFar| < |r.value.value| <= total
  {
    if symbol <= 15 then Ok(Read(soFar + [symbol], bits))
    else if symbol == 16 then
      if soFar == [] then Err(Invalid) else RepeatRun(soFar, soFar[|soFar| - 1], 3, 2, bits, total)
    else if symbol == 17 then RepeatRun(soFar, 0, 3, 3, bits, total)
    else if symbol == 18 then RepeatRun(soFar, 0, 11, 7, bits, total)
    else Err(Invalid)
  }

  /** `least` plus an `extra`-bit number of copies of `value`. */
  function RepeatRun(soFar: seq<nat>, value: nat, least: nat, extra: nat, bits: seq<bool>, total: nat): (r: Result<Read<seq<nat>>, Error>)
    requires least > 0
    ensures r.Ok? ==> |r.value.rest| <= |bits| && |soFar| < |r.value.value| <= total
  {
    var more :- TakeBits(bits, extra);
    Extend(soFar, value, least + more.value, more.rest, total)
  }

  function Extend(soFar: seq<nat>, value: nat, n: nat, rest: seq<bool>, total: nat): (r: Result<Read<seq<nat>>, Error>)
    requires n > 0
    ensures r.Ok? ==> r.value.rest == rest && |soFar| < |r.value.value| <= total
  {
    if |soFar| + n > total then Err(Invalid) else Ok(Read(soFar + Repeat(value, n), rest))
  }

  ghost function LengthItems(codeLens: seq<nat>, bits: seq<bool>, soFar: seq<nat>, total: nat): (r: Result<Read<seq<nat>>, Error>)
    requires |soFar| <= total
    ensures r.Ok? ==> |r.value.rest| <= |bits| && |r.value.value| == total
    decreases total - |soFar|
  {
    if |soFar| == total then Ok(Read(soFar, bits))
    else
      var item :- LengthItem(codeLens, bits, soFar, total);
      LengthItems(codeLens, item.rest, item.value, total)
  }

  function OpenHuffman(literal: seq<nat>, distance: seq<nat>, rest: seq<bool>): (r: Result<Read<Block>, Error>)
    ensures r.Ok? ==> r.value.rest == rest && r.value.value == InHuffman(literal, distance)
    ensures r.Ok? <==> Accepted(literal) && Accepted(distance)
  {
    if Accepted(literal) && Accepted(distance) then Ok(Read(InHuffman(literal, distance), rest)) else Err(Invalid)
  }

  datatype Counts = Counts(literals: nat, distances: nat, codeLengths: nat)

  function DynamicCounts(bits: seq<bool>): (r: Result<Read<Counts>, Error>)
    ensures r.Ok? ==> |r.value.rest| <= |bits|
    ensures r.Ok? ==> r.value.value.literals <= 286 && r.value.value.distances <= 30 && r.value.value.codeLengths <= 19
  {
    var hlit :- TakeBits(bits, 5);
    var hdist :- TakeBits(hlit.rest, 5);
    var hclen :- TakeBits(hdist.rest, 4);
    FourBits(hdist.rest[..4]);
    if hlit.value + 257 > 286 || hdist.value + 1 > 30 then Err(Invalid)
    else Ok(Read(Counts(hlit.value + 257, hdist.value + 1, hclen.value + 4), hclen.rest))
  }

  ghost function DynamicTables(counts: Counts, bits: seq<bool>): (r: Result<Read<Block>, Error>)
    requires counts.codeLengths <= 19
    ensures r.Ok? ==> |r.value.rest| <= |bits| && r.value.value.InHuffman?
  {
    var codeLens :- CodeLengthLengths(bits, Repeat(0, 19), 0, counts.codeLengths);
    CodedTables(codeLens.value, counts, codeLens.rest)
  }

  ghost function CodedTables(codeLens: seq<nat>, counts: Counts, bits: seq<bool>): (r: Result<Read<Block>, Error>)
    ensures r.Ok? ==> |r.value.rest| <= |bits| && r.value.value.InHuffman?
  {
    if !Accepted(codeLens) then Err(Invalid)
    else
      var lens :- LengthItems(codeLens, bits, [], counts.literals + counts.distances);
      OpenHuffman(lens.value[..counts.literals], lens.value[counts.literals..], lens.rest)
  }

  ghost function DynamicHeader(bits: seq<bool>): (r: Result<Read<Block>, Error>)
    ensures r.Ok? ==> |r.value.rest| <= |bits| && r.value.value.InHuffman?
  {
    var counts :- DynamicCounts(bits);
    DynamicTables(counts.value, counts.rest)
  }

  lemma EightBits(bits: seq<bool>)
    requires |bits| == 8
    ensures FromBits(bits) < 256
  {
    FromBitsBound(bits);
    Pow2Eight();
  }

  lemma FourBits(bits: seq<bool>)
    requires |bits| == 4
    ensures FromBits(bits) <= 15
  {
    FromBitsBound(bits);
    assert Pow2(4) == 16;
  }

  ghost function BlockHeader(blockType: nat, bits: seq<bool>): (r: Result<Read<Block>, Error>)
    ensures r.Ok? ==> |r.value.rest| <= |bits|
    ensures r.Ok? ==> !r.value.value.AtHeader?
  {
    if blockType == 0 then StoredHeader(bits)
    else if blockType == 1 then OpenHuffman(FixedLiteral(), FixedDistance(), bits)
    else if blockType == 2 then DynamicHeader(bits)
    else Err(Invalid)
  }

  // ----- Compressed data

  datatype Token = Literal(b: byte) | EndOfBlock | Copy(length: nat, back: nat)

  ghost function NextToken(literal: seq<nat>, distance: seq<nat>, bits: seq<bool>): (r: Result<Read<Token>, Error>)
    ensures r.Ok? ==> |r.value.rest| < |bits|
    ensures r.Ok? && r.value.value.Copy? ==> 1 <= r.value.value.back
  {
    var symbol :- TakeSymbol(literal, bits);
    TokenOf(symbol.value, distance, symbol.rest)
  }

  ghost function TokenOf(symbol: nat, distance: seq<nat>, bits: seq<bool>): (r: Result<Read<Token>, Error>)
    ensures r.Ok? ==> |r.value.rest| <= |bits|
    ensures r.Ok? && r.value.value.Copy? ==> 1 <= r.value.value.back
  {
    if symbol <= 255 then Ok(Read(Literal(symbol), bits))
    else if symbol == 256 then Ok(Read(EndOfBlock, bits))
    else if symbol <= 285 then CopyToken(symbol - 257, distance, bits)
    else Err(Invalid)
  }

  ghost function CopyToken(index: nat, distance: seq<nat>, bits: seq<bool>): (r: Result<Read<Token>, Error>)
    requires index <= 28
    ensures r.Ok? ==> |r.value.rest| < |bits|
    ensures r.Ok? ==> r.value.value.Copy? && 1 <= r.value.value.back
  {
    var extra :- TakeBits(bits, LengthExtra(index));
    var back :- TakeBack(distance, extra.rest);
    Ok(Read(Copy(LengthBase(index) + extra.value, back.value), back.rest))
  }

  /** A distance symbol and its extra bits. */
  ghost function TakeBack(distance: seq<nat>, bits: seq<bool>): (r: Result<Read<nat>, Error>)
    ensures r.Ok? ==> |r.value.rest| < |bits| && r.value.value >= 1
  {
    var symbol :- TakeSymbol(distance, bits);
    if symbol.value >= 30 then Err(Invalid)
    else
      var extra :- TakeBits(symbol.rest, DistanceExtra(symbol.value));
      Ok(Read(DistanceBase(symbol.value) + extra.value, extra.rest))
  }

  /** Repeats the byte `back` positions before the end, `length` times over. */
  function CopyBack(history: seq<byte>, back: nat, length: nat): (r: seq<byte>)
    requires 1 <= back <= |history|
    ensures |r| == |history| + length && history <= r
    decreases length
  {
    if length == 0 then history
    else CopyBack(history + [history[|history| - back]], back, length - 1)
  }

  // ----- Stepping

  datatype State = State(block: Block, finalSeen: bool, bits: seq<bool>, history: seq<byte>)

  /** How decoding ends: with the whole output, or with what was decoded before the failure. */
  datatype Outcome = Done(output: seq<byte>, rest: seq<bool>) | Failed(error: Error, output: seq<byte>)

  predicate FailsWith(o: Outcome, e: Error) {
    o.Failed? && o.error == e
  }

  datatype Progress = Next(state: State) | Stop(outcome: Outcome)

  function Measure(st: State): (m: nat) {
    2 * |st.bits| + (if st.block.AtHeader? then 0 else 1)
  }

  ghost function Step(st: State): (p: Progress)
    ensures p.Next? ==> Measure(p.state) < Measure(st)
    ensures p.Next? ==> st.history <= p.state.history
  {
    match st.block
    case AtHeader => if st.finalSeen then Stop(Done(st.history, st.bits)) else HeaderStep(st)
    case InStored(n) => StoredStep(st)
    case InHuffman(literal, distance) => TokenStep(st)
  }

  /** The final-block flag, the block type, and what follows for that type. */
  ghost function Header(bits: seq<bool>): (r: Result<Read<(bool, Block)>, Error>)
    ensures r.Ok? ==> |r.value.rest| < |bits| && !r.value.value.1.AtHeader?
  {
    var last :- TakeBits(bits, 1);
    var kind :- TakeBits(last.rest, 2);
    var block :- BlockHeader(kind.value, kind.rest);
    Ok(Read((last.value == 1, block.value), block.rest))
  }

  ghost function HeaderStep(st: State): (p: Progress)
    requires st.block.AtHeader?
    ensures p.Next? ==> |p.state.bits| < |st.bits| && p.state.history == st.history && !p.state.block.AtHeader?
  {
    match Header(st.bits)
    case Err(e) => Stop(Failed(e, st.history))
    case Ok(read) => Next(State(read.value.1, read.value.0, read.rest, st.history))
  }

  function StoredStep(st: State): (p: Progress)
    requires st.block.InStored?
    ensures p.Next? ==> Measure(p.state) < Measure(st) && st.history <= p.state.history
  {
    if st.block.remaining == 0 then Next(st.(block := AtHeader))
    else
      match TakeBits(st.bits, 8)
      case Err(e) => Stop(Failed(e, st.history))
      case Ok(b) =>
        EightBits(st.bits[..8]);
        Next(State(InStored(st.block.remaining - 1), st.finalSeen, b.rest, st.history + [b.value]))
  }

  ghost function TokenStep(st: State): (p: Progress)
    requires st.block.InHuffman?
    ensures p.Next? ==> |p.state.bits| < |st.bits| && st.history <= p.state.history
  {
    match NextToken(st.block.literal, st.block.distance, st.bits)
    case Err(e) => Stop(Failed(e, st.history))
    case Ok(token) => ApplyToken(st, token.value, token.rest)
  }

  function ApplyToken(st: State, token: Token, rest: seq<bool>): (p: Progress)
    requires st.block.InHuffman?
    requires token.Copy? ==> 1 <= token.back
    ensures p.Next? ==> p.state.bits == rest && st.history <= p.state.history
  {
    match token
    case Literal(b) => Next(st.(bits := rest, history := st.history + [b]))
    case EndOfBlock => Next(st.(bits := rest, block := AtHeader))
    case Copy(length, back) =>
      if back > |st.history| then Stop(Failed(Invalid, st.history))
      else Next(st.(bits := rest, history := CopyBack(st.history, back, length)))
  }

  ghost function Run(st: State): (o: Outcome)
    ensures st.history <= o.output
    decreases Measure(st)
  {
    match Step(st)
    case Stop(o) => o
    case Next(st') => Run(st')
  }

  /** `run` is the reference decoder under another name; see `Run` to learn what it returns. */
  ghost predicate IsRun(run: State -> Outcome) {
    forall st {:trigger Run(st)} :: run(st) == Run(st)
  }

  lemma RunNext(run: State -> Outcome, from: State, to: State)
    requires IsRun(run) && Step(from) == Next(to)
    ensures run(from) == run(to)
  {
    assert Run(from) == Run(to);
  }

  lemma RunStop(run: State -> Outcome, from: State)
    requires IsRun(run) && Step(from).Stop?
    ensures run(from) == Step(from).outcome
  {
    assert Run(from) == Step(from).outcome;
  }

  lemma RunEnds(run: State -> Outcome, st: State)
    requires IsRun(run) && st.block.AtHeader? && st.finalSeen
    ensures run(st) == Done(st.history, st.bits)
  {
    RunStop(run, st);
  }

  /** Decodes a whole raw DEFLATE stream. */
  ghost function Inflate(bits: seq<bool>): (o: Outcome) {
    Run(State(AtHeader, false, bits, []))
  }

  // ----- Reach of a back-reference

  /** No back-reference reaches further than the window. */
  lemma BackWithinWindow(literal: seq<nat>, distance: seq<nat>, bits: seq<bool>)
    ensures var r := NextToken(literal, distance, bits);
            r.Ok? && r.value.value.Copy? ==> r.value.value.back <= WINDOW
  {
    var r := NextToken(literal, distance, bits);
    if r.Ok? && r.value.value.Copy? {
      var symbol := TakeSymbol(literal, bits).value;
      CopyWithinWindow(symbol.value - 257, distance, symbol.rest);
    }
  }

  lemma CopyWithinWindow(index: nat, distance: seq<nat>, bits: seq<bool>)
    requires index <= 28
    ensures var r := CopyToken(index, distance, bits);
            r.Ok? ==> r.value.value.back <= WINDOW
  {
    var r := CopyToken(index, distance, bits);
    if r.Ok? {
      var rest := TakeBits(bits, LengthExtra(index)).value.rest;
      var symbol := TakeSymbol(distance, rest).value;
      DistanceReach(symbol.value);
      FromBitsBound(symbol.rest[..DistanceExtra(symbol.value)]);
    }
  }

  lemma PowersTo13()
    ensures Pow2(0) == 1 && Pow2(1) == 2 && Pow2(2) == 4 && Pow2(3) == 8 && Pow2(4) == 16 && Pow2(5) == 32
    ensures Pow2(6) == 64 && Pow2(7) == 128 && Pow2(8) == 256 && Pow2(9) == 512 && Pow2(10) == 1024
    ensures Pow2(11) == 2048 && Pow2(12) == 4096 && Pow2(13) == 8192
  {
  }

  /** The distance codes tile the window: each starts where the previous one ends, the last ends at its edge. */
  lemma DistancesTileWindow(d: nat)
    requires d < 30
    ensures DistanceBase(0) == 1
    ensures DistanceBase(d) + Pow2(DistanceExtra(d)) == if d == 29 then WINDOW + 1 else DistanceBase(d + 1)
  {
    PowersTo13();
  }

  lemma DistanceReach(d: nat)
    requires d < 30
    ensures DistanceBase(d) + Pow2(DistanceExtra(d)) <= WINDOW + 1
  {
    DistancesTileWindow(d);
  }
}
