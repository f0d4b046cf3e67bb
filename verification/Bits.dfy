/**
 * Bit lists, and the integer operators the decoder applies to its buffers.
 *
 * A bit list is ordered as DEFLATE reads it: index 0 is the next bit of the
 * stream.  `ToBits` unpacks an integer least significant bit first (the order
 * of a byte in the stream); `MsbBits` unpacks it most significant bit first
 * (the order of a Huffman code in the stream, section 3.1.1 of RFC 1951).
 */
module Bits {

  type byte = b: int | 0 <= b < 256

  function Pow2(n: nat): (p: nat)
    ensures p >= 1
  {
    if n == 0 then 1 else 2 * Pow2(n - 1)
  }

  predicate Odd(v: nat) {
    v % 2 == 1
  }

  function Bit(b: bool): (r: nat)
    ensures r <= 1
  {
    if b then 1 else 0
  }

  /** `v << n`, before any truncation to a machine width. */
  function Shl(v: nat, n: nat): (r: nat)
  {
    if n == 0 then v else 2 * Shl(v, n - 1)
  }

  /** `v >> n`. */
  function Shr(v: nat, n: nat): (r: nat)
  {
    if n == 0 then v else Shr(v / 2, n - 1)
  }

  /** `a | b`. */
  function Or(a: nat, b: nat): (r: nat)
    decreases a + b
  {
    if a == 0 then b
    else if b == 0 then a
    else Bit(Odd(a) || Odd(b)) + 2 * Or(a / 2, b / 2)
  }

  function ToBits(v: nat, n: nat): (bits: seq<bool>)
    ensures |bits| == n
  {
    seq(n, (i: nat) => Odd(Shr(v, i)))
  }

  function FromBits(bits: seq<bool>): (v: nat)
  {
    if bits == [] then 0 else Bit(bits[0]) + 2 * FromBits(bits[1..])
  }

  /** `v & ((1 << n) - 1)`: the number made of the low `n` bits. */
  function Mask(v: nat, n: nat): (r: nat)
  {
    FromBits(ToBits(v, n))
  }

  function MsbBits(v: nat, n: nat): (bits: seq<bool>)
    ensures |bits| == n
  {
    seq(n, (i: nat) requires i < n => Odd(Shr(v, n - 1 - i)))
  }

  function FromMsb(bits: seq<bool>): (v: nat)
  {
    if bits == [] then 0 else 2 * FromMsb(bits[..|bits| - 1]) + Bit(bits[|bits| - 1])
  }

  function BytesToBits(bytes: seq<byte>): (bits: seq<bool>)
    ensures |bits| == 8 * |bytes|
  {
    if bytes == [] then [] else ToBits(bytes[0], 8) + BytesToBits(bytes[1..])
  }

  /** A little-endian 16-bit word. */
  function Le16(a: byte, b: byte): (w: nat)
    ensures w < 65536
  {
    (a as nat) + 256 * (b as nat)
  }

  // ----- Bounds

  lemma {:induction false} Pow2Monotone(a: nat, b: nat)
    requires a <= b
    ensures Pow2(a) <= Pow2(b)
  {
    if a == b {
    } else {
      Pow2Monotone(a, b - 1);
    }
  }

  lemma Pow2Eight()
    ensures Pow2(8) == 256
  {
    assert Pow2(4) == 16;
  }

  lemma {:induction false} FromBitsBound(bits: seq<bool>)
    ensures FromBits(bits) < Pow2(|bits|)
  {
    if bits == [] {
    } else {
      FromBitsBound(bits[1..]);
    }
  }

  lemma MaskBound(v: nat, n: nat)
    ensures Mask(v, n) < Pow2(n)
  {
    FromBitsBound(ToBits(v, n));
  }

  lemma {:induction false} FromMsbBound(bits: seq<bool>)
    ensures FromMsb(bits) < Pow2(|bits|)
  {
    if bits == [] {
    } else {
      FromMsbBound(bits[..|bits| - 1]);
    }
  }

  lemma {:induction false} ShrSmall(v: nat, n: nat, total: nat)
    requires n <= total && v < Pow2(total)
    ensures Shr(v, n) < Pow2(total - n)
  {
    if n == 0 {
    } else {
      ShrSmall(v / 2, n - 1, total - 1);
    }
  }

  // ----- Shifts

  lemma {:induction false} ShrAdd(v: nat, a: nat, b: nat)
    ensures Shr(Shr(v, a), b) == Shr(v, a + b)
  {
    if a == 0 {
    } else {
      ShrAdd(v / 2, a - 1, b);
    }
  }

  lemma {:induction false} ShlHalf(v: nat, n: nat)
    requires n > 0
    ensures Shl(v, n) / 2 == Shl(v, n - 1)
    ensures !Odd(Shl(v, n))
  {
  }

  lemma ShlEight(v: nat)
    ensures Shl(v, 8) == 256 * v
  {
    assert Shl(v, 1) == 2 * v;
    assert Shl(v, 3) == 8 * v;
    assert Shl(v, 5) == 32 * v;
    assert Shl(v, 7) == 128 * v;
  }

  // ----- Least significant bit first

  lemma ToBitsCons(v: nat, n: nat)
    requires n > 0
    ensures ToBits(v, n) == [Odd(v)] + ToBits(v / 2, n - 1)
  {
  }

  lemma {:induction false} ToFromBits(bits: seq<bool>)
    ensures ToBits(FromBits(bits), |bits|) == bits
  {
    if bits == [] {
    } else {
      ToFromBits(bits[1..]);
      ToBitsOfDouble(FromBits(bits[1..]), bits[0], |bits| - 1);
      assert bits == [bits[0]] + bits[1..];
    }
  }

  lemma ToBitsOfDouble(v: nat, b: bool, n: nat)
    ensures ToBits(Bit(b) + 2 * v, n + 1) == [b] + ToBits(v, n)
  {
    var w := Bit(b) + 2 * v;
    assert w / 2 == v && Odd(w) == b;
    ToBitsCons(w, n + 1);
  }

  lemma {:induction false} MaskSmall(v: nat, n: nat)
    requires v < Pow2(n)
    ensures Mask(v, n) == v
  {
    if n == 0 {
    } else {
      MaskSmall(v / 2, n - 1);
      MaskCons(v, n);
    }
  }

  lemma MaskCons(v: nat, n: nat)
    requires n > 0
    ensures Mask(v, n) == Bit(Odd(v)) + 2 * Mask(v / 2, n - 1)
  {
    ToBitsCons(v, n);
    assert ToBits(v, n)[1..] == ToBits(v / 2, n - 1);
  }

  lemma ToBitsMask(v: nat, n: nat)
    ensures ToBits(Mask(v, n), n) == ToBits(v, n)
  {
    ToFromBits(ToBits(v, n));
  }

  /** The low `n` bits, then what a right shift by `n` leaves. */
  lemma ToBitsSplit(v: nat, n: nat, total: nat)
    requires n <= total
    ensures ToBits(v, total)[..n] == ToBits(v, n)
    ensures ToBits(v, total)[n..] == ToBits(Shr(v, n), total - n)
  {
    forall i: nat | i < total - n
      ensures ToBits(v, total)[n..][i] == ToBits(Shr(v, n), total - n)[i]
    {
      ShrAdd(v, n, i);
    }
  }

  /**
   * A byte or-ed in above the `k` low bits of a buffer extends the bit list by
   * eight and loses nothing.
   */
  lemma {:induction false} OrByte(low: nat, k: nat, b: byte)
    requires low < Pow2(k)
    ensures ToBits(Or(low, Shl(b, k)), k + 8) == ToBits(low, k) + ToBits(b, 8)
  {
    if k == 0 {
    } else {
      OrByte(low / 2, k - 1, b);
      OrShl(low, b, k);
      ToBitsCons(Or(low, Shl(b, k)), k + 8);
      ToBitsCons(low, k);
    }
  }

  lemma {:induction false} OrByteBound(low: nat, k: nat, b: byte)
    requires low < Pow2(k)
    ensures Or(low, Shl(b, k)) < Pow2(k + 8)
  {
    if k == 0 {
      Pow2Eight();
    } else {
      OrByteBound(low / 2, k - 1, b);
      OrShl(low, b, k);
      assert Pow2(k + 8) == 2 * Pow2(k - 1 + 8);
    }
  }

  lemma OrShl(low: nat, b: nat, k: nat)
    requires k > 0
    ensures Or(low, Shl(b, k)) / 2 == Or(low / 2, Shl(b, k - 1))
    ensures Odd(Or(low, Shl(b, k))) == Odd(low)
  {
    ShlHalf(b, k);
    OrHalf(low, Shl(b, k));
  }

  lemma OrHalf(a: nat, b: nat)
    requires !Odd(b)
    ensures Or(a, b) / 2 == Or(a / 2, b / 2)
    ensures Odd(Or(a, b)) == Odd(a)
  {
    if a != 0 && b != 0 {
      assert Or(a, b) == Bit(Odd(a)) + 2 * Or(a / 2, b / 2);
    }
  }

  // ----- Most significant bit first

  lemma MsbBitsSnoc(v: nat, n: nat)
    requires n > 0
    ensures MsbBits(v, n) == MsbBits(v / 2, n - 1) + [Odd(v)]
  {
    forall i: nat | i < n - 1
      ensures MsbBits(v, n)[i] == MsbBits(v / 2, n - 1)[i]
    {
      assert Shr(v, n - 1 - i) == Shr(v / 2, n - 2 - i);
    }
    assert MsbBits(v, n)[n - 1] == Odd(Shr(v, 0)) == Odd(v);
  }

  lemma FromMsbAppend(bits: seq<bool>, b: bool)
    ensures FromMsb(bits + [b]) == 2 * FromMsb(bits) + Bit(b)
  {
    assert (bits + [b])[..|bits|] == bits;
  }

  lemma {:induction false} FromMsbBits(v: nat, n: nat)
    requires v < Pow2(n)
    ensures FromMsb(MsbBits(v, n)) == v
  {
    if n == 0 {
    } else {
      FromMsbBits(v / 2, n - 1);
      MsbBitsSnoc(v, n);
      FromMsbAppend(MsbBits(v / 2, n - 1), Odd(v));
    }
  }

  lemma {:induction false} MsbFromMsb(bits: seq<bool>)
    ensures MsbBits(FromMsb(bits), |bits|) == bits
  {
    if bits == [] {
    } else {
      var front, last := bits[..|bits| - 1], bits[|bits| - 1];
      MsbFromMsb(front);
      assert bits == front + [last];
      MsbOfDouble(FromMsb(front), last, |front|);
    }
  }

  lemma MsbOfDouble(v: nat, b: bool, n: nat)
    ensures MsbBits(2 * v + Bit(b), n + 1) == MsbBits(v, n) + [b]
  {
    var w := 2 * v + Bit(b);
    assert w / 2 == v && Odd(w) == b;
    MsbBitsSnoc(w, n + 1);
  }

  // ----- Byte sequences

  lemma Assoc(a: seq<bool>, b: seq<bool>, c: seq<bool>)
    ensures (a + b) + c == a + (b + c)
  {
  }

  lemma {:induction false} BytesToBitsConcat(a: seq<byte>, b: seq<byte>)
    ensures BytesToBits(a + b) == BytesToBits(a) + BytesToBits(b)
  {
    if a == [] {
      assert a + b == b;
    } else {
      BytesToBitsConcat(a[1..], b);
      assert a + b == [a[0]] + (a[1..] + b);
      BytesToBitsCons(a[0], a[1..] + b);
      Assoc(ToBits(a[0], 8), BytesToBits(a[1..]), BytesToBits(b));
    }
  }

  lemma BytesToBitsCons(b: byte, rest: seq<byte>)
    ensures BytesToBits([b] + rest) == ToBits(b, 8) + BytesToBits(rest)
  {
    assert ([b] + rest)[1..] == rest;
  }
}
