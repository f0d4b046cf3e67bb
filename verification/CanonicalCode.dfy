/**
 * The canonical Huffman code of section 3.2.2 of RFC 1951, as a specification:
 * a vector of code lengths determines one code per symbol, and a decoder
 * returns the symbol whose code is a prefix of the stream.
 */
module CanonicalCode {
  import opened Bits
  import opened Results

  const MAX_BITS: nat := 15

  /** How many symbols have length `l`. */
  function CountLen(lens: seq<nat>, l: nat): (n: nat)
    ensures n <= |lens|
  {
    if lens == [] then 0
    else CountLen(lens[..|lens| - 1], l) + (if lens[|lens| - 1] == l then 1 else 0)
  }

  /** The numerically first code of length `l`. */
  function FirstCode(lens: seq<nat>, l: nat): (c: nat)
    requires l >= 1
  {
    if l == 1 then 0 else 2 * (FirstCode(lens, l - 1) + CountLen(lens, l - 1))
  }

  /** How many symbols have a length in `1 .. l - 1`. */
  function FirstIndex(lens: seq<nat>, l: nat): (i: nat)
    requires l >= 1
  {
    if l == 1 then 0 else FirstIndex(lens, l - 1) + CountLen(lens, l - 1)
  }

  /** Position of `s` among the symbols of its own length. */
  function Rank(lens: seq<nat>, s: nat): (k: nat)
    requires s < |lens|
  {
    CountLen(lens[..s], lens[s])
  }

  predicate Used(lens: seq<nat>, s: nat) {
    s < |lens| && lens[s] > 0
  }

  function Code(lens: seq<nat>, s: nat): (c: nat)
    requires Used(lens, s)
  {
    FirstCode(lens, lens[s]) + Rank(lens, s)
  }

  /** The code of `s` in stream order. */
  function CodeBits(lens: seq<nat>, s: nat): (bits: seq<bool>)
    requires Used(lens, s)
    ensures |bits| == lens[s]
  {
    MsbBits(Code(lens, s), lens[s])
  }

  predicate LengthsInRange(lens: seq<nat>) {
    forall i :: 0 <= i < |lens| ==> lens[i] <= MAX_BITS
  }

  /** Every code of length `l` fits in `l` bits. */
  predicate Fits(lens: seq<nat>, l: nat)
    requires l >= 1
  {
    FirstCode(lens, l) + CountLen(lens, l) <= Pow2(l)
  }

  /** Length vectors that are not over-subscribed; incomplete ones are included. */
  predicate Accepted(lens: seq<nat>) {
    LengthsInRange(lens) && forall l :: 1 <= l <= MAX_BITS ==> Fits(lens, l)
  }

  predicate Matches(lens: seq<nat>, s: nat, bits: seq<bool>) {
    Used(lens, s) && CodeBits(lens, s) <= bits
  }

  /** The reference decoder: the symbol, if any, whose code the stream starts with. */
  ghost function Decode(lens: seq<nat>, bits: seq<bool>): (r: Option<nat>)
    ensures r.Some? ==> Matches(lens, r.value, bits)
    ensures r.None? ==> forall s: nat :: !Matches(lens, s, bits)
  {
    if exists s: nat :: Matches(lens, s, bits) then
      var s: nat :| Matches(lens, s, bits);
      Some(s)
    else None
  }

  // ----- Counting

  lemma {:induction false} CountPrefix(lens: seq<nat>, l: nat, s: nat)
    requires s <= |lens|
    ensures CountLen(lens[..s], l) <= CountLen(lens, l)
    ensures s < |lens| && lens[s] == l ==> CountLen(lens[..s], l) < CountLen(lens, l)
  {
    if s == |lens| {
      assert lens[..s] == lens;
    } else {
      var front := lens[..|lens| - 1];
      assert front[..s] == lens[..s];
      CountPrefix(front, l, s);
    }
  }

  lemma {:induction false} RankStrict(lens: seq<nat>, s: nat, t: nat)
    requires s < t < |lens| && lens[s] == lens[t]
    ensures Rank(lens, s) < Rank(lens, t)
  {
    CountPrefix(lens[..t], lens[s], s);
    assert lens[..t][..s] == lens[..s];
  }

  lemma RankInjective(lens: seq<nat>, s: nat, t: nat)
    requires s < |lens| && t < |lens| && lens[s] == lens[t]
    requires Rank(lens, s) == Rank(lens, t)
    ensures s == t
  {
    if s < t {
      RankStrict(lens, s, t);
    } else if t < s {
      RankStrict(lens, t, s);
    }
  }

  /** Every rank below the count belongs to a symbol. */
  lemma {:induction false} RankOnto(lens: seq<nat>, l: nat, k: nat) returns (s: nat)
    requires k < CountLen(lens, l)
    ensures s < |lens| && lens[s] == l && Rank(lens, s) == k
  {
    var last := |lens| - 1;
    var front := lens[..last];
    if k < CountLen(front, l) {
      s := RankOnto(front, l, k);
      assert front[..s] == lens[..s];
    } else {
      s := last;
    }
  }

  // ----- Codes

  lemma CodeInRange(lens: seq<nat>, s: nat)
    requires Accepted(lens) && Used(lens, s)
    ensures FirstCode(lens, lens[s]) <= Code(lens, s)
    ensures Code(lens, s) < FirstCode(lens, lens[s]) + CountLen(lens, lens[s]) <= Pow2(lens[s])
  {
    CountPrefix(lens, lens[s], s);
    assert Fits(lens, lens[s]);
  }

  /** A code of length `m`, cut to a shorter length `l`, lies above all codes of length `l`. */
  lemma {:induction false} LongerCodesAbove(lens: seq<nat>, l: nat, m: nat, c: nat)
    requires 1 <= l < m
    requires FirstCode(lens, m) <= c
    ensures FirstCode(lens, l) + CountLen(lens, l) <= Shr(c, m - l)
  {
    if m == l + 1 {
      assert Shr(c, 1) == Shr(c / 2, 0);
    } else {
      LongerCodesAbove(lens, l, m - 1, c / 2);
    }
  }

  lemma MsbBitsCut(c: nat, m: nat, l: nat)
    requires l <= m
    ensures MsbBits(c, m)[..l] == MsbBits(Shr(c, m - l), l)
  {
    forall i: nat | i < l
      ensures MsbBits(c, m)[i] == MsbBits(Shr(c, m - l), l)[i]
    {
      ShrAdd(c, m - l, l - 1 - i);
    }
  }

  lemma {:induction false} ShrFits(c: nat, m: nat, l: nat)
    requires l <= m && c < Pow2(m)
    ensures Shr(c, m - l) < Pow2(l)
  {
    ShrSmall(c, m - l, m);
  }

  /**
   * The codes of an accepted vector are prefix-free: no code of one symbol
   * starts the code of another.
   */
  lemma PrefixFree(lens: seq<nat>, s: nat, t: nat)
    requires Accepted(lens) && Used(lens, s) && Used(lens, t)
    requires CodeBits(lens, s) <= CodeBits(lens, t)
    ensures s == t
  {
    var l, m := lens[s], lens[t];
    var c, d := Code(lens, s), Code(lens, t);
    CodeInRange(lens, s);
    CodeInRange(lens, t);
    assert CodeBits(lens, t)[..l] == CodeBits(lens, s);
    MsbBitsCut(d, m, l);
    ShrFits(d, m, l);
    FromMsbBits(c, l);
    FromMsbBits(Shr(d, m - l), l);
    assert c == Shr(d, m - l);
    if l < m {
      LongerCodesAbove(lens, l, m, d);
      assert false;
    }
    RankInjective(lens, s, t);
  }

  /** At most one symbol matches, so `Decode` has no choice to make. */
  lemma UniqueMatch(lens: seq<nat>, s: nat, t: nat, bits: seq<bool>)
    requires Accepted(lens)
    requires Matches(lens, s, bits) && Matches(lens, t, bits)
    ensures s == t
  {
    if lens[s] <= lens[t] {
      assert CodeBits(lens, s) == CodeBits(lens, t)[..lens[s]];
      PrefixFree(lens, s, t);
    } else {
      assert CodeBits(lens, t) == CodeBits(lens, s)[..lens[t]];
      PrefixFree(lens, t, s);
    }
  }

  /** `Decode` returns `s` exactly when the stream starts with the code of `s`. */
  lemma DecodeExact(lens: seq<nat>, s: nat, bits: seq<bool>)
    requires Accepted(lens)
    ensures Decode(lens, bits) == Some(s) <==> Matches(lens, s, bits)
  {
    if Matches(lens, s, bits) {
      var r := Decode(lens, bits);
      assert r.Some?;
      UniqueMatch(lens, s, r.value, bits);
    }
  }

  // ----- Over-subscription is the Kraft inequality

  /** Share of the 15-bit code space taken by the codes of `lens`. */
  function KraftSum(lens: seq<nat>): (k: nat)
    requires LengthsInRange(lens)
  {
    if lens == [] then 0
    else
      var last := lens[|lens| - 1];
      KraftSum(lens[..|lens| - 1]) + (if last == 0 then 0 else Pow2(MAX_BITS - last))
  }

  lemma {:induction false} LastCodeOfSnoc(lens: seq<nat>, l: nat)
    requires lens != [] && l >= 1
    ensures var front, last := lens[..|lens| - 1], lens[|lens| - 1];
            FirstCode(lens, l) + CountLen(lens, l)
            == FirstCode(front, l) + CountLen(front, l) + (if 1 <= last <= l then Pow2(l - last) else 0)
  {
    if l <= 1 {
    } else {
      LastCodeOfSnoc(lens, l - 1);
    }
  }

  lemma {:induction false} KraftIsLastCode(lens: seq<nat>)
    requires LengthsInRange(lens)
    ensures KraftSum(lens) == FirstCode(lens, MAX_BITS) + CountLen(lens, MAX_BITS)
  {
    if lens == [] {
      EmptyFirstCode(MAX_BITS);
    } else {
      KraftIsLastCode(lens[..|lens| - 1]);
      LastCodeOfSnoc(lens, MAX_BITS);
    }
  }

  lemma {:induction false} EmptyFirstCode(l: nat)
    requires l >= 1
    ensures FirstCode([], l) == 0
  {
    if l <= 1 {
    } else {
      EmptyFirstCode(l - 1);
    }
  }

  lemma {:induction false} FitsBelow(lens: seq<nat>, l: nat, m: nat)
    requires 1 <= l <= m && Fits(lens, m)
    ensures Fits(lens, l)
  {
    if l >= m {
    } else {
      assert Fits(lens, m - 1);
      FitsBelow(lens, l, m - 1);
    }
  }

  /** The length-by-length test refuses exactly the vectors that overfill the code space. */
  lemma AcceptedIffKraft(lens: seq<nat>)
    requires LengthsInRange(lens)
    ensures Accepted(lens) <==> KraftSum(lens) <= Pow2(MAX_BITS)
  {
    KraftIsLastCode(lens);
    if KraftSum(lens) <= Pow2(MAX_BITS) {
      assert Fits(lens, MAX_BITS);
      forall l | 1 <= l <= MAX_BITS ensures Fits(lens, l) {
        FitsBelow(lens, l, MAX_BITS);
      }
    } else {
      assert !Fits(lens, MAX_BITS);
    }
  }
}
