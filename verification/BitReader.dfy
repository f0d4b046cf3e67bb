/** The LSB-first bit reader over a byte source that delivers arbitrary chunks. */
module BitReader {
  import opened Bits
  import opened CanonicalCode
  import opened Results
  import Huffman

  /**
   * A byte source behind the hashing wrapper: every chunk it hands out is
   * counted and fed to the hasher.  How many bytes a read yields is up to the
   * source; it yields none only at its end.
   */
  class CountingSource {
    /** Everything the source will ever yield. */
    ghost const whole: seq<byte>
    var remaining: seq<byte>
    var count: nat
    /** What the hasher has been given so far. */
    var hashed: seq<byte>

    ghost predicate Valid()
      reads this
    {
      hashed + remaining == whole && count == |hashed|
    }

    constructor (content: seq<byte>)
      ensures Valid() && whole == content && remaining == content
    {
      whole := content;
      remaining, count, hashed := content, 0, [];
    }

    method Read(max: nat) returns (chunk: seq<byte>)
      requires Valid() && max > 0
      modifies this
      ensures Valid()
      ensures |chunk| <= max
      ensures chunk == [] <==> old(remaining) == []
      ensures old(remaining) == chunk + remaining
    {
      if remaining == [] {
        chunk := [];
      } else {
        var n: nat :| 1 <= n <= |remaining| && n <= max;
        chunk := remaining[..n];
        remaining := remaining[n..];
      }
      hashed := hashed + chunk;
      count := count + |chunk|;
    }
  }

  const BUFFER_SIZE: nat := 64 * 1024

  const DRAIN_LIMIT: nat := 4096

  lemma AppendByteBits(out: seq<byte>, b: byte, rest: seq<bool>)
    ensures BytesToBits(out + [b]) + rest == BytesToBits(out) + (ToBits(b, 8) + rest)
  {
    BytesToBitsConcat(out, [b]);
    BytesToBitsCons(b, []);
    assert [b] + [] == [b];
    Assoc(BytesToBits(out), ToBits(b, 8), rest);
  }

  /** How many bits a count is past a byte boundary. */
  function Phase(n: nat): (r: nat)
    ensures r <= n && r < 8
  {
    n % 8
  }

  lemma PhaseDrop(n: nat)
    ensures (n - Phase(n)) % 8 == 0
  {
  }

  /** The stream from its next byte boundary on; the stream as a whole is made of bytes. */
  function AlignedTail(bits: seq<bool>): (r: seq<bool>) {
    bits[Phase(|bits|)..]
  }

  lemma AlignedTailOf(low: seq<bool>, bytes: seq<byte>)
    ensures AlignedTail(low + BytesToBits(bytes)) == (low + BytesToBits(bytes))[Phase(|low|)..]
  {
    PhaseAdd(|low|, |bytes|);
  }

  lemma PhaseAdd(a: nat, n: nat)
    ensures Phase(a + 8 * n) == Phase(a)
  {
  }

  class Reader {
    const source: CountingSource
    /** The filled part of the read buffer. */
    var buffer: seq<byte>
    var position: nat
    var bitBuffer: nat
    var bitCount: nat
    var sourceExhausted: bool

    /** The 64-bit buffer holds exactly `bitCount` bits, always fewer than 64. */
    ghost predicate Valid()
      reads this, source
    {
      && source.Valid()
      && position <= |buffer|
      && bitBuffer < Pow2(bitCount)
      && bitCount < 64
      && (sourceExhausted ==> source.remaining == [])
    }

    /** Bytes not yet moved into the bit buffer. */
    ghost function RestBytes(): (bytes: seq<byte>)
      requires position <= |buffer|
      reads this, source
    {
      buffer[position..] + source.remaining
    }

    /** The bits still to be read, in stream order. */
    ghost function Rest(): (bits: seq<bool>)
      requires position <= |buffer|
      reads this, source
    {
      ToBits(bitBuffer, bitCount) + BytesToBits(RestBytes())
    }

    constructor (s: CountingSource)
      requires s.Valid()
      ensures source == s && Valid() && Rest() == BytesToBits(s.remaining)
      ensures bitCount == 0 && RestBytes() == s.remaining
    {
      source := s;
      buffer, position := [], 0;
      bitBuffer, bitCount, sourceExhausted := 0, 0, false;
      new;
      assert buffer[position..] + source.remaining == source.remaining;
    }

    method NextByte() returns (r: Option<byte>)
      requires Valid()
      modifies this`buffer, this`position, this`sourceExhausted, source
      ensures Valid()
      ensures r.None? ==> old(RestBytes()) == [] && RestBytes() == [] && source.remaining == []
      ensures r.Some? ==> old(RestBytes()) == [r.value] + RestBytes()
    {
      if position == |buffer| {
        if sourceExhausted {
          return None;
        }
        assert RestBytes() == source.remaining;
        buffer := source.Read(BUFFER_SIZE);
        position := 0;
        assert buffer[position..] == buffer;
        if buffer == [] {
          sourceExhausted := true;
          return None;
        }
      }
      var b := buffer[position];
      assert buffer[position..] == [b] + buffer[position + 1..];
      position := position + 1;
      return Some(b);
    }

    method PushByte(b: byte)
      requires bitBuffer < Pow2(bitCount)
      modifies this`bitBuffer, this`bitCount
      ensures bitBuffer < Pow2(bitCount) && bitCount == old(bitCount) + 8
      ensures ToBits(bitBuffer, bitCount) == old(ToBits(bitBuffer, bitCount)) + ToBits(b, 8)
    {
      OrByte(bitBuffer, bitCount, b);
      OrByteBound(bitBuffer, bitCount, b);
      bitBuffer := Or(bitBuffer, Shl(b, bitCount));
      bitCount := bitCount + 8;
    }

    /** The loop shared by `need` and `peek`: load bytes until `bits` bits are buffered or the source ends. */
    method Load(bits: nat) returns (enough: bool)
      requires Valid() && bits <= 56
      modifies this, source
      ensures Valid()
      ensures Rest() == old(Rest())
      ensures enough <==> bitCount >= bits
      ensures enough <==> |Rest()| >= bits
      ensures !enough ==> RestBytes() == []
    {
      while bitCount < bits
        invariant Valid()
        invariant Rest() == old(Rest())
        decreases bits - bitCount
      {
        ghost var low, before := ToBits(bitBuffer, bitCount), RestBytes();
        var r := NextByte();
        if r.None? {
          return false;
        }
        PushByte(r.value);
        BytesToBitsCons(r.value, RestBytes());
        assert low + (ToBits(r.value, 8) + BytesToBits(RestBytes())) == low + BytesToBits(before);
      }
      return true;
    }

    method Consume(bits: nat)
      requires Valid() && bits <= bitCount
      modifies this`bitBuffer, this`bitCount
      ensures Valid()
      ensures Rest() == old(Rest())[bits..]
      ensures bitCount == old(bitCount) - bits
      ensures RestBytes() == old(RestBytes())
    {
      ToBitsSplit(bitBuffer, bits, bitCount);
      ShrSmall(bitBuffer, bits, bitCount);
      bitBuffer := Shr(bitBuffer, bits);
      bitCount := bitCount - bits;
    }

    method Take(bits: nat) returns (r: Result<nat, Huffman.Error>)
      requires Valid() && bits <= 32
      modifies this, source
      ensures Valid()
      ensures r == if |old(Rest())| >= bits then Ok(FromBits(old(Rest())[..bits])) else Err(Huffman.Truncated)
      ensures r.Ok? ==> Rest() == old(Rest())[bits..]
    {
      if bits == 0 {
        return Ok(0);
      }
      var enough := Load(bits);
      if !enough {
        return Err(Huffman.Truncated);
      }
      ToBitsSplit(bitBuffer, bits, bitCount);
      assert Rest()[..bits] == ToBits(bitBuffer, bits);
      var value := Mask(bitBuffer, bits);
      Consume(bits);
      return Ok(value);
    }

    /** Up to `bits` bits without consuming them; missing ones read as zero. */
    method Peek(bits: nat) returns (window: nat)
      requires Valid() && bits <= 56
      modifies this, source
      ensures Valid()
      ensures Rest() == old(Rest())
      ensures window < Pow2(bits)
      ensures var n := if |Rest()| < bits then |Rest()| else bits;
              n <= bitCount && ToBits(window, bits)[..n] == Rest()[..n]
      ensures bitCount >= bits <==> |Rest()| >= bits
      ensures bitCount < bits ==> RestBytes() == []
    {
      var enough := Load(bits);
      window := Mask(bitBuffer, bits);
      MaskBound(bitBuffer, bits);
      ToBitsMask(bitBuffer, bits);
      if enough {
        ToBitsSplit(bitBuffer, bits, bitCount);
      } else {
        ToBitsSplit(bitBuffer, bitCount, bits);
      }
    }

    method AlignToByte()
      requires Valid()
      modifies this`bitBuffer, this`bitCount
      ensures Valid()
      ensures bitCount % 8 == 0
      ensures Rest() == AlignedTail(old(Rest()))
    {
      var drop := Phase(bitCount);
      ghost var low := ToBits(bitBuffer, bitCount);
      AlignedTailOf(low, RestBytes());
      PhaseDrop(bitCount);
      Consume(drop);
    }

    /** `n` whole bytes, from the bit buffer first and then straight from the source. */
    method ReadAligned(n: nat) returns (r: Result<seq<byte>, Huffman.Error>)
      requires Valid() && bitCount % 8 == 0
      modifies this, source
      ensures Valid() && bitCount % 8 == 0
      ensures r.Ok? <==> old(|Rest()|) >= 8 * n
      ensures r.Ok? ==> |r.value| == n && BytesToBits(r.value) + Rest() == old(Rest())
      ensures r.Err? ==> r.error == Huffman.Truncated
    {
      var out: seq<byte> := [];
      for i := 0 to n
        invariant Valid() && bitCount % 8 == 0
        invariant |out| == i
        invariant BytesToBits(out) + Rest() == old(Rest())
      {
        var b := ReadByte();
        if b.None? {
          return Err(Huffman.Truncated);
        }
        AppendByteBits(out, b.value, Rest());
        out := out + [b.value];
      }
      return Ok(out);
    }

    /** One slot of `read_aligned`. */
    method ReadByte() returns (r: Option<byte>)
      requires Valid() && bitCount % 8 == 0
      modifies this, source
      ensures Valid() && bitCount % 8 == 0
      ensures r.Some? ==> old(Rest()) == ToBits(r.value, 8) + Rest()
      ensures r.None? ==> old(Rest()) == [] && Rest() == []
    {
      if bitCount >= 8 {
        var b := TakeBufferedByte();
        return Some(b);
      }
      assert bitCount == 0;
      r := NextByte();
      if r.Some? {
        BytesToBitsCons(r.value, RestBytes());
      }
    }

    method LowByte() returns (b: byte)
      requires Valid() && bitCount >= 8
      ensures Rest()[..8] == ToBits(b, 8)
    {
      Pow2Eight();
      MaskBound(bitBuffer, 8);
      b := Mask(bitBuffer, 8);
      ToBitsMask(bitBuffer, 8);
      ToBitsSplit(bitBuffer, 8, bitCount);
    }

    /**
     * What is left after the compressed data, from the next byte boundary on.
     * At most 4097 bytes are collected; fewer means the source has ended.
     */
    method DrainRemaining() returns (out: seq<byte>)
      requires Valid()
      modifies this, source
      ensures Valid()
      ensures BytesToBits(out) + Rest() == AlignedTail(old(Rest()))
      ensures |out| <= DRAIN_LIMIT + 1
      ensures |out| <= DRAIN_LIMIT ==> Rest() == [] && source.remaining == []
    {
      AlignToByte();
      var buffered := DrainBuffered();
      out := DrainSource(buffered);
    }

    /** The whole bytes already in the bit buffer. */
    method DrainBuffered() returns (out: seq<byte>)
      requires Valid() && bitCount % 8 == 0
      modifies this`bitBuffer, this`bitCount
      ensures Valid() && bitCount == 0 && |out| < 8
      ensures BytesToBits(out) + Rest() == old(Rest())
    {
      out := [];
      while bitCount >= 8
        invariant Valid() && bitCount % 8 == 0
        invariant 8 * |out| + bitCount < 64
        invariant BytesToBits(out) + Rest() == old(Rest())
        decreases bitCount
      {
        var b := TakeBufferedByte();
        AppendByteBits(out, b, Rest());
        out := out + [b];
      }
    }

    method TakeBufferedByte() returns (b: byte)
      requires Valid() && bitCount >= 8
      modifies this`bitBuffer, this`bitCount
      ensures Valid() && bitCount == old(bitCount) - 8
      ensures old(Rest()) == ToBits(b, 8) + Rest()
    {
      b := LowByte();
      Consume(8);
    }

    method DrainSource(start: seq<byte>) returns (out: seq<byte>)
      requires Valid() && bitCount == 0 && |start| < 8
      modifies this`buffer, this`position, this`sourceExhausted, source
      ensures Valid()
      ensures BytesToBits(out) + Rest() == BytesToBits(start) + old(Rest())
      ensures |out| <= DRAIN_LIMIT + 1
      ensures |out| <= DRAIN_LIMIT ==> Rest() == [] && source.remaining == []
    {
      out := start;
      while true
        invariant Valid() && |out| <= DRAIN_LIMIT
        invariant BytesToBits(out) + Rest() == BytesToBits(start) + old(Rest())
        decreases |RestBytes()|
      {
        ghost var before := Rest();
        var b := NextByte();
        if b.None? {
          return;
        }
        BytesToBitsCons(b.value, RestBytes());
        assert before == ToBits(b.value, 8) + Rest();
        AppendByteBits(out, b.value, Rest());
        out := out + [b.value];
        if |out| > DRAIN_LIMIT {
          return;
        }
      }
    }

    /**
     * Decodes one symbol by the nine-bit table, or by the walk over longer
     * codes.  The answer is the reference decoder's, also within the last bits
     * of the stream.
     */
    method DecodeSymbol(table: Huffman.Table, ghost lens: seq<nat>) returns (r: Result<nat, Huffman.Error>)
      requires Valid() && Huffman.Represents(table, lens)
      modifies this, source
      ensures Valid()
      ensures Answers(lens, old(Rest()), r, Rest())
    {
      ghost var all := Rest();
      var window := Peek(Huffman.FAST_BITS);
      assert Pow2(9) == Huffman.FAST_SIZE by { Pow2Eight(); }
      var entry := table.fast[window];
      if entry != Huffman.NO_ENTRY {
        ghost var s: nat :| Huffman.Hits(lens, s, window);
        assert entry == Huffman.Entry(s, lens[s]) by {
          Huffman.SlotBounds(lens, s);
        }
        Huffman.EntryParts(s, lens[s]);
        var length := Huffman.EntryLength(entry);
        if length <= bitCount {
          assert |all| == bitCount + 8 * |RestBytes()|;
          FastHit(lens, s, window, all);
          Consume(length);
          return Ok(Huffman.EntrySymbol(entry));
        }
      }
      FastMiss(table, lens, window, all, bitCount);
      r := Walk(table, lens, window);
    }

    /** The slow path: nine bits must be present, and the walk starts after them. */
    method Walk(table: Huffman.Table, ghost lens: seq<nat>, window: nat) returns (r: Result<nat, Huffman.Error>)
      requires Valid() && Huffman.Represents(table, lens)
      requires NoMatchUpTo(lens, Rest(), Huffman.FAST_BITS)
      requires WindowOf(window, Rest())
      modifies this, source
      ensures Valid()
      ensures Answers(lens, old(Rest()), r, Rest())
    {
      ghost var all := Rest();
      var code := Huffman.ReverseBits(window, Huffman.FAST_BITS);
      var enough := Load(Huffman.FAST_BITS);
      if !enough {
        ShortAnswer(lens, all, Huffman.FAST_BITS, Rest());
        return Err(Huffman.Truncated);
      }
      ReversedWindow(window, code, all[..Huffman.FAST_BITS]);
      Consume(Huffman.FAST_BITS);
      r := WalkLong(table, lens, code, all);
    }

    /** The walk over codes of ten bits and more, one bit at a time. */
    method WalkLong(table: Huffman.Table, ghost lens: seq<nat>, start: nat, ghost all: seq<bool>)
      returns (r: Result<nat, Huffman.Error>)
      requires Valid() && Huffman.Represents(table, lens)
      requires NoMatchUpTo(lens, all, Huffman.FAST_BITS)
      requires |all| >= Huffman.FAST_BITS && Rest() == all[Huffman.FAST_BITS..]
      requires start == FromMsb(all[..Huffman.FAST_BITS])
      modifies this, source
      ensures Valid()
      ensures Answers(lens, all, r, Rest())
    {
      var code := start;
      for length := Huffman.FAST_BITS + 1 to MAX_BITS + 1
        invariant Valid()
        invariant length - 1 <= |all| && Rest() == all[length - 1..]
        invariant code == FromMsb(all[..length - 1])
        invariant NoMatchUpTo(lens, all, length - 1)
      {
        var bit := Take(1);
        if bit.Err? {
          ShortAnswer(lens, all, length, Rest());
          return Err(Huffman.Truncated);
        }
        NextCode(all, length);
        code := 2 * code + bit.value;
        Huffman.RowOf(table, lens, length);
        if InRun(code, table.firstCode[length], table.counts[length]) {
          ghost var s := WalkHit(table, lens, all, length, code);
          return Ok(table.symbols[table.firstIndex[length] + (code - table.firstCode[length])]);
        }
        WalkMiss(lens, all, length, code);
      }
      NoAnswer(lens, all, Rest());
      return Err(Huffman.Invalid);
    }
  }

  /**
   * `r` and the stream `rest` it leaves are what the reference decoder gives
   * on `all`; a failure is a truncation exactly when fewer than fifteen bits
   * were left.
   */
  ghost predicate Answers(lens: seq<nat>, all: seq<bool>, r: Result<nat, Huffman.Error>, rest: seq<bool>) {
    match Decode(lens, all)
    case Some(s) => r == Ok(s) && Used(lens, s) && rest == all[lens[s]..]
    case None => r == Err(if |all| < MAX_BITS then Huffman.Truncated else Huffman.Invalid)
  }

  ghost predicate NoMatchUpTo(lens: seq<nat>, all: seq<bool>, n: nat) {
    forall s: nat :: Matches(lens, s, all) ==> lens[s] > n
  }

  lemma ShortAnswer(lens: seq<nat>, all: seq<bool>, n: nat, rest: seq<bool>)
    requires |all| < n <= MAX_BITS && NoMatchUpTo(lens, all, n - 1)
    ensures Answers(lens, all, Err(Huffman.Truncated), rest)
  {
  }

  lemma NoAnswer(lens: seq<nat>, all: seq<bool>, rest: seq<bool>)
    requires LengthsInRange(lens) && NoMatchUpTo(lens, all, MAX_BITS) && |all| >= MAX_BITS
    ensures Answers(lens, all, Err(Huffman.Invalid), rest)
  {
  }

  /** `count > 0 && code.wrapping_sub(first) < count`, on 32-bit words. */
  predicate InRun(code: nat, first: nat, count: nat) {
    count > 0 && (code - first) % 0x1_0000_0000 < count
  }

  lemma InRunIff(code: nat, first: nat, count: nat)
    requires code < 65536 && first <= 65536 && count <= 65536
    ensures InRun(code, first, count) <==> first <= code < first + count
  {
  }

  lemma NextCode(all: seq<bool>, length: nat)
    requires 1 <= length <= |all|
    ensures FromMsb(all[..length]) == 2 * FromMsb(all[..length - 1]) + FromBits(all[length - 1..][..1])
  {
    FromMsbAppend(all[..length - 1], all[length - 1]);
    assert all[..length] == all[..length - 1] + [all[length - 1]];
    OneBit(all[length - 1..][..1]);
  }

  /** The part of the nine-bit window that is stream rather than padding. */
  ghost predicate WindowOf(window: nat, all: seq<bool>) {
    var n := if |all| < Huffman.FAST_BITS then |all| else Huffman.FAST_BITS;
    ToBits(window, Huffman.FAST_BITS)[..n] == all[..n]
  }

  lemma FastHit(lens: seq<nat>, s: nat, window: nat, all: seq<bool>)
    requires Accepted(lens) && Huffman.Hits(lens, s, window) && lens[s] <= |all|
    requires WindowOf(window, all)
    ensures Decode(lens, all) == Some(s)
  {
    var l := lens[s];
    assert CodeBits(lens, s) == ToBits(window, Huffman.FAST_BITS)[..l];
    assert all[..l] == CodeBits(lens, s);
    DecodeExact(lens, s, all);
  }

  lemma FastMiss(table: Huffman.Table, lens: seq<nat>, window: nat, all: seq<bool>, buffered: nat)
    requires Huffman.Represents(table, lens) && window < Huffman.FAST_SIZE
    requires WindowOf(window, all)
    requires buffered >= (if |all| < Huffman.FAST_BITS then |all| else Huffman.FAST_BITS)
    requires table.fast[window] == Huffman.NO_ENTRY || Huffman.EntryLength(table.fast[window]) > buffered
    ensures NoMatchUpTo(lens, all, Huffman.FAST_BITS)
  {
    forall s: nat | Matches(lens, s, all)
      ensures lens[s] > Huffman.FAST_BITS
    {
      if lens[s] <= Huffman.FAST_BITS {
        MatchIsInTable(table, lens, window, all, s);
      }
    }
  }

  lemma MatchIsInTable(table: Huffman.Table, lens: seq<nat>, window: nat, all: seq<bool>, s: nat)
    requires Huffman.Represents(table, lens) && window < Huffman.FAST_SIZE
    requires WindowOf(window, all)
    requires Used(lens, s) && Matches(lens, s, all) && lens[s] <= Huffman.FAST_BITS
    ensures table.fast[window] != Huffman.NO_ENTRY && Huffman.EntryLength(table.fast[window]) == lens[s]
  {
    var l := lens[s];
    assert ToBits(window, Huffman.FAST_BITS)[..l] == all[..l] == CodeBits(lens, s);
    assert Huffman.Hits(lens, s, window);
    Huffman.SlotBounds(lens, s);
    Huffman.EntryParts(s, l);
  }

  lemma WalkHit(table: Huffman.Table, lens: seq<nat>, all: seq<bool>, length: nat, code: nat) returns (s: nat)
    requires Huffman.Represents(table, lens) && 1 <= length <= MAX_BITS && length <= |all|
    requires code == FromMsb(all[..length])
    requires InRun(code, FirstCode(lens, length), CountLen(lens, length))
    ensures FirstCode(lens, length) <= code
    ensures var i := FirstIndex(lens, length) + (code - FirstCode(lens, length));
            i < |table.symbols| && table.symbols[i] == s
    ensures Answers(lens, all, Ok(s), all[length..])
  {
    CodeWidth(lens, length);
    FromMsbBound(all[..length]);
    InRunIff(code, FirstCode(lens, length), CountLen(lens, length));
    s := Huffman.SymbolAt(lens, table.symbols, length, code - FirstCode(lens, length));
    MsbFromMsb(all[..length]);
    assert CodeBits(lens, s) == all[..length];
    DecodeExact(lens, s, all);
  }

  lemma WalkMiss(lens: seq<nat>, all: seq<bool>, length: nat, code: nat)
    requires Accepted(lens) && 1 <= length <= MAX_BITS && length <= |all|
    requires code == FromMsb(all[..length])
    requires NoMatchUpTo(lens, all, length - 1)
    requires !InRun(code, FirstCode(lens, length), CountLen(lens, length))
    ensures NoMatchUpTo(lens, all, length)
  {
    CodeWidth(lens, length);
    FromMsbBound(all[..length]);
    InRunIff(code, FirstCode(lens, length), CountLen(lens, length));
    forall s: nat | Matches(lens, s, all)
      ensures lens[s] != length
    {
      MatchIsInRun(lens, all, s);
    }
  }

  lemma MatchIsInRun(lens: seq<nat>, all: seq<bool>, s: nat)
    requires Accepted(lens) && Used(lens, s) && Matches(lens, s, all)
    ensures FirstCode(lens, lens[s]) <= FromMsb(all[..lens[s]]) < FirstCode(lens, lens[s]) + CountLen(lens, lens[s])
  {
    CodeInRange(lens, s);
    FromMsbBits(Code(lens, s), lens[s]);
    assert CodeBits(lens, s) == all[..lens[s]];
  }

  /** Codes are far below the 32-bit wrap-around of the walk's subtraction. */
  lemma CodeWidth(lens: seq<nat>, length: nat)
    requires Accepted(lens) && 1 <= length <= MAX_BITS
    ensures FirstCode(lens, length) + CountLen(lens, length) <= Pow2(length) <= 32768
  {
    assert Fits(lens, length);
    Pow2Monotone(length, MAX_BITS);
    Pow2Eight();
    assert Pow2(11) == 2048;
    assert Pow2(15) == 32768;
  }

  /** Reversing the window gives the number its bits spell in stream order. */
  lemma ReversedWindow(window: nat, code: nat, bits: seq<bool>)
    requires |bits| == Huffman.FAST_BITS && ToBits(window, Huffman.FAST_BITS) == bits
    requires ToBits(code, Huffman.FAST_BITS) == MsbBits(window, Huffman.FAST_BITS) && code < Pow2(Huffman.FAST_BITS)
    ensures code == FromMsb(bits)
  {
    ReverseTwice(window, code, Huffman.FAST_BITS);
  }

  lemma ReverseTwice(v: nat, code: nat, n: nat)
    requires ToBits(code, n) == MsbBits(v, n) && code < Pow2(n)
    ensures code == FromMsb(ToBits(v, n))
  {
    // listing the bits of `code` from the top lists those of `v` from the bottom
    forall i: nat | i < n
      ensures MsbBits(code, n)[i] == ToBits(v, n)[i]
    {
      assert MsbBits(code, n)[i] == ToBits(code, n)[n - 1 - i];
    }
    assert MsbBits(code, n) == ToBits(v, n);
    FromMsbBits(code, n);
  }

  lemma OneBit(bits: seq<bool>)
    requires |bits| == 1
    ensures FromBits(bits) == Bit(bits[0])
  {
    assert bits[1..] == [];
  }
}
