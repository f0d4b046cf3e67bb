/**
 * The Huffman decoding tables: a 512-entry table indexed by the next nine
 * stream bits, plus the per-length arrays that the bit-at-a-time walk uses.
 */
module Huffman {
  import opened Bits
  import opened CanonicalCode
  import opened Results

  const FAST_BITS: nat := 9
  const FAST_SIZE: nat := 512
  /** The table entry for "no code of at most nine bits starts here". */
  const NO_ENTRY: nat := 0xffff

  datatype Error = Truncated | Invalid

  datatype Table = Table(
    counts: seq<nat>, symbols: seq<nat>, firstCode: seq<nat>, firstIndex: seq<nat>, fast: seq<nat>)

  /** `(symbol << 4) | length`, the length filling the low four bits. */
  function Entry(symbol: nat, length: nat): (e: nat) {
    16 * symbol + length
  }

  function EntryLength(e: nat): (l: nat) {
    e % 16
  }

  function EntrySymbol(e: nat): (s: nat) {
    e / 16
  }

  lemma EntryParts(symbol: nat, length: nat)
    requires 1 <= length <= FAST_BITS
    ensures EntryLength(Entry(symbol, length)) == length
    ensures EntrySymbol(Entry(symbol, length)) == symbol
    ensures Entry(symbol, length) != NO_ENTRY
  {
  }

  ghost predicate CountsFor(lens: seq<nat>, counts: seq<nat>) {
    |counts| == MAX_BITS + 1 && forall l :: 1 <= l <= MAX_BITS ==> counts[l] == CountLen(lens, l)
  }

  function SymbolSlot(lens: seq<nat>, s: nat): (i: nat)
    requires Used(lens, s)
  {
    FirstIndex(lens, lens[s]) + Rank(lens, s)
  }

  ghost predicate SymbolsFor(lens: seq<nat>, symbols: seq<nat>) {
    && |symbols| == FirstIndex(lens, MAX_BITS + 1)
    && forall s :: Used(lens, s) ==>
         SymbolSlot(lens, s) < |symbols| && symbols[SymbolSlot(lens, s)] == s
  }

  ghost predicate FirstsFor(lens: seq<nat>, firstCode: seq<nat>, firstIndex: seq<nat>) {
    && |firstCode| == |firstIndex| == MAX_BITS + 2
    && (forall l :: 1 <= l <= MAX_BITS ==> firstCode[l] == FirstCode(lens, l))
    && (forall l :: 1 <= l <= MAX_BITS ==> firstIndex[l] == FirstIndex(lens, l))
  }

  /** `s` has a code of at most nine bits, and the index `w` starts with it. */
  ghost predicate Hits(lens: seq<nat>, s: nat, w: nat) {
    Used(lens, s) && lens[s] <= FAST_BITS && Matches(lens, s, ToBits(w, FAST_BITS))
  }

  /** The fast table restricted to the symbols sorted before position `n`. */
  ghost predicate FastUpTo(lens: seq<nat>, fast: seq<nat>, n: nat) {
    && |fast| == FAST_SIZE
    && (forall s: nat, w :: 0 <= w < FAST_SIZE && Hits(lens, s, w) && SymbolSlot(lens, s) < n
          ==> fast[w] == Entry(s, lens[s]))
    && (forall w :: 0 <= w < FAST_SIZE && fast[w] != NO_ENTRY
          ==> exists s: nat :: Hits(lens, s, w) && SymbolSlot(lens, s) < n)
  }

  /** `t` holds the decoding tables of the length vector `lens`. */
  ghost predicate Represents(t: Table, lens: seq<nat>) {
    && Accepted(lens)
    && |lens| <= 4096
    && CountsFor(lens, t.counts)
    && SymbolsFor(lens, t.symbols)
    && FirstsFor(lens, t.firstCode, t.firstIndex)
    && FastUpTo(lens, t.fast, FirstIndex(lens, MAX_BITS + 1))
  }

  lemma RowOf(t: Table, lens: seq<nat>, l: nat)
    requires Represents(t, lens) && 1 <= l <= MAX_BITS
    ensures l < |t.counts| && t.counts[l] == CountLen(lens, l)
    ensures l < |t.firstCode| && t.firstCode[l] == FirstCode(lens, l)
    ensures l < |t.firstIndex| && t.firstIndex[l] == FirstIndex(lens, l)
  {
  }

  // ----- Positions in the symbol array

  lemma {:induction false} IndexBelow(lens: seq<nat>, l: nat, m: nat)
    requires 1 <= l < m
    ensures FirstIndex(lens, l) + CountLen(lens, l) <= FirstIndex(lens, m)
  {
    if l >= m - 1 {
    } else {
      IndexBelow(lens, l, m - 1);
    }
  }

  lemma SlotBounds(lens: seq<nat>, s: nat)
    requires LengthsInRange(lens) && Used(lens, s)
    ensures FirstIndex(lens, lens[s]) <= SymbolSlot(lens, s) < FirstIndex(lens, lens[s]) + CountLen(lens, lens[s])
    ensures SymbolSlot(lens, s) < FirstIndex(lens, MAX_BITS + 1)
  {
    CountPrefix(lens, lens[s], s);
    IndexBelow(lens, lens[s], MAX_BITS + 1);
  }

  lemma SlotInjective(lens: seq<nat>, s: nat, t: nat)
    requires LengthsInRange(lens) && Used(lens, s) && Used(lens, t)
    requires SymbolSlot(lens, s) == SymbolSlot(lens, t)
    ensures s == t
  {
    SlotBounds(lens, s);
    SlotBounds(lens, t);
    if lens[s] < lens[t] {
      IndexBelow(lens, lens[s], lens[t]);
    } else if lens[t] < lens[s] {
      IndexBelow(lens, lens[t], lens[s]);
    } else {
      RankInjective(lens, s, t);
    }
  }

  lemma CountSnoc(lens: seq<nat>, i: nat, l: nat)
    requires i < |lens|
    ensures CountLen(lens[..i + 1], l) == CountLen(lens[..i], l) + (if lens[i] == l then 1 else 0)
  {
    assert lens[..i + 1][..i] == lens[..i];
  }

  // ----- Construction

  method CountLengths(lens: seq<nat>) returns (r: Result<seq<nat>, Error>)
    ensures r.Ok? <==> LengthsInRange(lens)
    ensures r.Ok? ==> CountsFor(lens, r.value)
    ensures r.Err? ==> r.error == Invalid
  {
    var counts := seq(MAX_BITS + 1, _ => 0);
    assert forall l: nat :: CountLen(lens[..0], l) == 0;
    for i := 0 to |lens|
      invariant |counts| == MAX_BITS + 1
      invariant forall j :: 0 <= j < i ==> lens[j] <= MAX_BITS
      invariant forall l :: 0 <= l <= MAX_BITS ==> counts[l] == CountLen(lens[..i], l)
    {
      if lens[i] > MAX_BITS {
        return Err(Invalid);
      }
      forall l: nat ensures CountLen(lens[..i + 1], l) == CountLen(lens[..i], l) + (if lens[i] == l then 1 else 0) {
        CountSnoc(lens, i, l);
      }
      counts := counts[lens[i] := counts[lens[i]] + 1];
    }
    assert lens[..|lens|] == lens;
    counts := counts[0 := 0];
    return Ok(counts);
  }

  /** The running count of unused codes refuses exactly the over-subscribed vectors. */
  method CheckNotOversubscribed(lens: seq<nat>, counts: seq<nat>) returns (ok: bool)
    requires LengthsInRange(lens) && CountsFor(lens, counts)
    ensures ok <==> Accepted(lens)
  {
    var left: int := 1;
    for l := 1 to MAX_BITS + 1
      invariant forall k :: 1 <= k < l ==> Fits(lens, k)
      invariant l == 1 ==> left == 1
      invariant l > 1 ==> left == Pow2(l - 1) - (FirstCode(lens, l - 1) + CountLen(lens, l - 1))
    {
      left := 2 * left;
      left := left - counts[l];
      assert left == Pow2(l) - (FirstCode(lens, l) + CountLen(lens, l));
      if left < 0 {
        assert !Fits(lens, l);
        return false;
      }
    }
    return true;
  }

  /** The symbols below `i` are in place, and each offset points past those of its length. */
  ghost predicate SortedUpTo(lens: seq<nat>, symbols: seq<nat>, offsets: seq<nat>, i: nat)
    requires i <= |lens|
  {
    && |offsets| == MAX_BITS + 2
    && |symbols| == FirstIndex(lens, MAX_BITS + 1)
    && (forall l :: 1 <= l <= MAX_BITS ==> offsets[l] == FirstIndex(lens, l) + CountLen(lens[..i], l))
    && (forall s :: 0 <= s < i && Used(lens, s) ==>
          SymbolSlot(lens, s) < |symbols| && symbols[SymbolSlot(lens, s)] == s)
  }

  lemma SortStep(lens: seq<nat>, symbols: seq<nat>, offsets: seq<nat>, i: nat)
    requires LengthsInRange(lens) && i < |lens| && SortedUpTo(lens, symbols, offsets, i)
    ensures lens[i] == 0 ==> SortedUpTo(lens, symbols, offsets, i + 1)
    ensures lens[i] != 0 ==>
              var at := offsets[lens[i]];
              at < |symbols| && SortedUpTo(lens, symbols[at := i], offsets[lens[i] := at + 1], i + 1)
  {
    forall l: nat ensures CountLen(lens[..i + 1], l) == CountLen(lens[..i], l) + (if lens[i] == l then 1 else 0) {
      CountSnoc(lens, i, l);
    }
    if lens[i] != 0 {
      var at := offsets[lens[i]];
      assert at == SymbolSlot(lens, i);
      SlotBounds(lens, i);
      var symbols' := symbols[at := i];
      forall s | 0 <= s < i + 1 && Used(lens, s)
        ensures SymbolSlot(lens, s) < |symbols'| && symbols'[SymbolSlot(lens, s)] == s
      {
        if s < i && SymbolSlot(lens, s) == at {
          SlotInjective(lens, s, i);
        }
      }
    }
  }

  method SortSymbols(lens: seq<nat>, counts: seq<nat>) returns (symbols: seq<nat>)
    requires LengthsInRange(lens) && CountsFor(lens, counts)
    ensures SymbolsFor(lens, symbols)
  {
    var offsets := seq(MAX_BITS + 2, _ => 0);
    for l := 1 to MAX_BITS + 1
      invariant |offsets| == MAX_BITS + 2
      invariant forall k :: 1 <= k <= l ==> offsets[k] == FirstIndex(lens, k)
    {
      offsets := offsets[l + 1 := offsets[l] + counts[l]];
    }
    symbols := seq(offsets[MAX_BITS + 1], _ => 0);
    assert forall l: nat :: CountLen(lens[..0], l) == 0;
    for i := 0 to |lens|
      invariant SortedUpTo(lens, symbols, offsets, i)
    {
      SortStep(lens, symbols, offsets, i);
      if lens[i] != 0 {
        var at := offsets[lens[i]];
        symbols := symbols[at := i];
        offsets := offsets[lens[i] := at + 1];
      }
    }
  }

  method FirstTables(lens: seq<nat>, counts: seq<nat>) returns (firstCode: seq<nat>, firstIndex: seq<nat>)
    requires CountsFor(lens, counts)
    ensures FirstsFor(lens, firstCode, firstIndex)
  {
    firstCode := seq(MAX_BITS + 2, _ => 0);
    firstIndex := seq(MAX_BITS + 2, _ => 0);
    var code, index := 0, 0;
    for l := 1 to MAX_BITS + 1
      invariant |firstCode| == |firstIndex| == MAX_BITS + 2
      invariant code == FirstCode(lens, l) && index == FirstIndex(lens, l)
      invariant forall k :: 1 <= k < l ==> firstCode[k] == FirstCode(lens, k)
      invariant forall k :: 1 <= k < l ==> firstIndex[k] == FirstIndex(lens, k)
    {
      firstCode := firstCode[l := code];
      firstIndex := firstIndex[l := index];
      code := 2 * (code + counts[l]);
      index := index + counts[l];
    }
  }

  // ----- Bit reversal and the fast table

  /** Reversing the low `n` bits turns a code into the index its stream bits form. */
  method ReverseBits(value: nat, n: nat) returns (out: nat)
    ensures ToBits(out, n) == MsbBits(value, n)
    ensures out < Pow2(n)
  {
    // out |= ((value >> index) & 1) << (n - 1 - index), for index = 0 .. n - 1
    out := 0;
    ghost var high: nat := 0;
    ShlZero(n);
    for index := 0 to n
      invariant out == Shl(high, n - index) && high < Pow2(index)
      invariant ToBits(high, index) == MsbBits(value, index)
    {
      var bit := Odd(Shr(value, index));
      out := Or(out, Shl(Bit(bit), n - 1 - index));
      PlaceBit(high, bit, n - 1 - index);
      MsbBitsHigh(value, index);
      ToBitsOfDouble(high, bit, index);
      high := Bit(bit) + 2 * high;
    }
  }

  lemma {:induction false} ShlZero(n: nat)
    ensures Shl(0, n) == 0
  {
    if n == 0 {
    } else {
      ShlZero(n - 1);
    }
  }

  lemma {:induction false} PlaceBit(h: nat, bit: bool, k: nat)
    ensures Or(Shl(h, k + 1), Shl(Bit(bit), k)) == Shl(Bit(bit) + 2 * h, k)
  {
    if k == 0 {
      assert Shl(h, 1) == 2 * Shl(h, 0) == 2 * h;
      OrOne(h, bit);
    } else {
      PlaceBit(h, bit, k - 1);
      ShlHalf(h, k + 1);
      ShlHalf(Bit(bit), k);
      OrHalf(Shl(h, k + 1), Shl(Bit(bit), k));
    }
  }

  lemma OrOne(h: nat, bit: bool)
    ensures Or(2 * h, Bit(bit)) == Bit(bit) + 2 * h
  {
    if h != 0 && bit {
      assert 2 * h / 2 == h;
      assert Or(h, 0) == h;
    }
  }

  /** The bit of weight `2^i` comes first when the `i + 1` low bits are listed from the top. */
  lemma MsbBitsHigh(v: nat, i: nat)
    ensures MsbBits(v, i + 1) == [Odd(Shr(v, i))] + MsbBits(v, i)
  {
  }

  lemma {:induction false} MaskGap(v: nat, d: nat, n: nat)
    requires d < Pow2(n)
    ensures Mask(v + d, n) == Mask(v, n) <==> d == 0
  {
    if n == 0 {
    } else {
      MaskCons(v + d, n);
      MaskCons(v, n);
      if !Odd(d) {
        MaskGap(v / 2, d / 2, n - 1);
        assert (v + d) / 2 == v / 2 + d / 2;
      }
    }
  }

  lemma {:induction false} MaskStep(v: nat, n: nat)
    ensures Mask(v + Pow2(n), n) == Mask(v, n)
  {
    if n == 0 {
    } else {
      MaskStep(v / 2, n - 1);
      assert (v + Pow2(n)) / 2 == v / 2 + Pow2(n - 1);
      MaskCons(v + Pow2(n), n);
      MaskCons(v, n);
    }
  }

  /** Writes `entry` at every index whose low `length` bits are `reversed`. */
  method FillSlots(table: seq<nat>, reversed: nat, length: nat, entry: nat) returns (fast: seq<nat>)
    requires |table| == FAST_SIZE && reversed < Pow2(length)
    ensures |fast| == FAST_SIZE
    ensures forall w :: 0 <= w < FAST_SIZE ==>
              fast[w] == if Mask(w, length) == reversed then entry else table[w]
  {
    fast := table;
    var step := Pow2(length);
    var slot := reversed;
    MaskSmall(reversed, length);
    forall w: nat | w < reversed ensures Mask(w, length) != reversed {
      MaskGap(w, reversed - w, length);
    }
    while slot < FAST_SIZE
      invariant |fast| == FAST_SIZE
      invariant Mask(slot, length) == reversed
      invariant forall w :: 0 <= w < FAST_SIZE && w < slot ==>
                  fast[w] == if Mask(w, length) == reversed then entry else table[w]
      invariant forall w :: slot <= w < FAST_SIZE ==> fast[w] == table[w]
      decreases FAST_SIZE - slot
    {
      fast := fast[slot := entry];
      MaskStep(slot, length);
      forall w: nat | slot < w < slot + step ensures Mask(w, length) != reversed {
        MaskGap(slot, w - slot, length);
      }
      slot := slot + step;
    }
  }

  /** An index hits `s` exactly when its low bits are the reversed code. */
  lemma HitsIffMasked(lens: seq<nat>, s: nat, w: nat, reversed: nat)
    requires Used(lens, s) && lens[s] <= FAST_BITS
    requires ToBits(reversed, lens[s]) == CodeBits(lens, s) && reversed < Pow2(lens[s])
    ensures Hits(lens, s, w) <==> Mask(w, lens[s]) == reversed
  {
    var l := lens[s];
    ToBitsSplit(w, l, FAST_BITS);
    MaskSmall(reversed, l);
    ToBitsMask(w, l);
    assert Hits(lens, s, w) <==> CodeBits(lens, s) == ToBits(w, FAST_BITS)[..l];
    if ToBits(w, l) == ToBits(reversed, l) {
      assert Mask(w, l) == Mask(reversed, l);
    }
  }

  /** Adding the symbol at position `n` of the sorted order to the fast table. */
  lemma FastExtend(lens: seq<nat>, table: seq<nat>, fast: seq<nat>, s: nat, n: nat)
    requires Accepted(lens) && |lens| <= 4096 && Used(lens, s) && SymbolSlot(lens, s) == n
    requires FastUpTo(lens, table, n)
    requires |fast| == FAST_SIZE
    requires forall w :: 0 <= w < FAST_SIZE ==> fast[w] == if Hits(lens, s, w) then Entry(s, lens[s]) else table[w]
    ensures FastUpTo(lens, fast, n + 1)
  {
    forall t: nat, w | 0 <= w < FAST_SIZE && Hits(lens, t, w) && SymbolSlot(lens, t) < n + 1
      ensures fast[w] == Entry(t, lens[t])
    {
      if Hits(lens, s, w) {
        UniqueMatch(lens, s, t, ToBits(w, FAST_BITS));
      } else if SymbolSlot(lens, t) == n {
        SlotInjective(lens, s, t);
        assert false;
      }
    }
    forall w | 0 <= w < FAST_SIZE && fast[w] != NO_ENTRY
      ensures exists t: nat :: Hits(lens, t, w) && SymbolSlot(lens, t) < n + 1
    {
      if Hits(lens, s, w) {
      } else {
        var t: nat :| Hits(lens, t, w) && SymbolSlot(lens, t) < n;
        assert SymbolSlot(lens, t) < n + 1;
      }
    }
  }

  lemma FastSkip(lens: seq<nat>, fast: seq<nat>, s: nat, n: nat)
    requires Accepted(lens) && Used(lens, s) && SymbolSlot(lens, s) == n
    requires lens[s] > FAST_BITS
    requires FastUpTo(lens, fast, n)
    ensures FastUpTo(lens, fast, n + 1)
  {
    forall t: nat, w | 0 <= w < FAST_SIZE && Hits(lens, t, w) && SymbolSlot(lens, t) < n + 1
      ensures fast[w] == Entry(t, lens[t])
    {
      if SymbolSlot(lens, t) == n {
        SlotInjective(lens, s, t);
        assert false;
      }
    }
    forall w | 0 <= w < FAST_SIZE && fast[w] != NO_ENTRY
      ensures exists t: nat :: Hits(lens, t, w) && SymbolSlot(lens, t) < n + 1
    {
      var t: nat :| Hits(lens, t, w) && SymbolSlot(lens, t) < n;
      assert SymbolSlot(lens, t) < n + 1;
    }
  }

  /** The symbol at position `FirstIndex(l) + j` has length `l` and the `j`-th code of that length. */
  lemma SymbolAt(lens: seq<nat>, symbols: seq<nat>, l: nat, j: nat) returns (s: nat)
    requires LengthsInRange(lens) && SymbolsFor(lens, symbols)
    requires 1 <= l <= MAX_BITS && j < CountLen(lens, l)
    ensures FirstIndex(lens, l) + j < |symbols| && symbols[FirstIndex(lens, l) + j] == s
    ensures Used(lens, s) && lens[s] == l && Rank(lens, s) == j
  {
    s := RankOnto(lens, l, j);
    assert Used(lens, s);
    assert SymbolSlot(lens, s) == FirstIndex(lens, l) + j;
  }

  /** One pass of the table-building loop: all symbols of length `l`. */
  method FastOfLength(lens: seq<nat>, symbols: seq<nat>, l: nat, count: nat,
                      table: seq<nat>, firstCode: nat, firstIndex: nat)
    returns (fast: seq<nat>, canonical: nat, symbolIndex: nat)
    requires Accepted(lens) && |lens| <= 4096 && SymbolsFor(lens, symbols)
    requires 1 <= l <= MAX_BITS && count == CountLen(lens, l)
    requires firstCode == FirstCode(lens, l) && firstIndex == FirstIndex(lens, l)
    requires FastUpTo(lens, table, firstIndex)
    ensures canonical == FirstCode(lens, l) + count
    ensures symbolIndex == FirstIndex(lens, l + 1)
    ensures FastUpTo(lens, fast, symbolIndex)
  {
    fast, canonical, symbolIndex := table, firstCode, firstIndex;
    for j := 0 to count
      invariant canonical == FirstCode(lens, l) + j
      invariant symbolIndex == FirstIndex(lens, l) + j
      invariant FastUpTo(lens, fast, symbolIndex)
    {
      ghost var s := SymbolAt(lens, symbols, l, j);
      if l <= FAST_BITS {
        var reversed := ReverseBits(canonical, l);
        var filled := FillSlots(fast, reversed, l, Entry(symbols[symbolIndex], l));
        forall w | 0 <= w < FAST_SIZE
          ensures filled[w] == if Hits(lens, s, w) then Entry(s, lens[s]) else fast[w]
        {
          HitsIffMasked(lens, s, w, reversed);
        }
        FastExtend(lens, fast, filled, s, symbolIndex);
        fast := filled;
      } else {
        FastSkip(lens, fast, s, symbolIndex);
      }
      canonical := canonical + 1;
      symbolIndex := symbolIndex + 1;
    }
  }

  method FastTable(lens: seq<nat>, counts: seq<nat>, symbols: seq<nat>) returns (fast: seq<nat>)
    requires Accepted(lens) && |lens| <= 4096
    requires CountsFor(lens, counts) && SymbolsFor(lens, symbols)
    ensures FastUpTo(lens, fast, FirstIndex(lens, MAX_BITS + 1))
  {
    fast := seq(FAST_SIZE, _ => NO_ENTRY);
    var symbolIndex, canonical := 0, 0;
    for l := 1 to MAX_BITS + 1
      invariant canonical == FirstCode(lens, l) && symbolIndex == FirstIndex(lens, l)
      invariant FastUpTo(lens, fast, symbolIndex)
    {
      fast, canonical, symbolIndex := FastOfLength(lens, symbols, l, counts[l], fast, canonical, symbolIndex);
      canonical := 2 * canonical;
    }
  }

  /**
   * `Huffman::new`: the tables of every vector that is in range and not
   * over-subscribed, and a refusal of every other vector.  The bound on the
   * alphabet is what lets `symbol << 4` fit the 16-bit table entries.
   */
  method NewTable(lens: seq<nat>) returns (r: Result<Table, Error>)
    requires |lens| <= 4096
    ensures r.Ok? <==> Accepted(lens)
    ensures r.Ok? ==> Represents(r.value, lens)
    ensures r.Err? ==> r.error == Invalid
  {
    var counted := CountLengths(lens);
    if counted.Err? {
      return Err(counted.error);
    }
    var counts := counted.value;
    var fits := CheckNotOversubscribed(lens, counts);
    if !fits {
      return Err(Invalid);
    }
    var symbols := SortSymbols(lens, counts);
    var firstCode, firstIndex := FirstTables(lens, counts);
    var fast := FastTable(lens, counts, symbols);
    return Ok(Table(counts, symbols, firstCode, firstIndex, fast));
  }
}
