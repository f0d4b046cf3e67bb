/**
 * CRC-32 as section 8 of RFC 1952 specifies it.  A 32-bit word is modelled by
 * its bits, least significant first.
 */
module Crc32 {
  import opened Bits

  type Word = w: seq<bool> | |w| == 32 witness seq(32, _ => false)

  function Xor(x: Word, y: Word): (r: Word) {
    seq(32, (i: nat) requires i < 32 => x[i] != y[i])
  }

  function Zeros(n: nat): (z: seq<bool>)
    ensures |z| == n
  {
    seq(n, _ => false)
  }

  /** `x >> n`. */
  function ShiftRight(x: Word, n: nat): (r: Word)
    requires n <= 32
  {
    x[n..] + Zeros(n)
  }

  function WordOf(v: nat): (w: Word) {
    ToBits(v, 32)
  }

  function Polynomial(): (w: Word) {
    WordOf(0xedb8_8320)
  }

  function AllOnes(): (w: Word) {
    seq(32, _ => true)
  }

  /** One shift of the reflected register. */
  function Round(x: Word): (r: Word) {
    if x[0] then Xor(Polynomial(), ShiftRight(x, 1)) else ShiftRight(x, 1)
  }

  function Rounds(x: Word, n: nat): (r: Word)
    decreases n
  {
    if n == 0 then x else Rounds(Round(x), n - 1)
  }

  function BitWord(b: bool): (w: Word) {
    [b] + Zeros(31)
  }

  /** The bit-serial register: one message bit at a time. */
  function Serial(crc: Word, bits: seq<bool>): (r: Word)
    decreases |bits|
  {
    if bits == [] then crc else Serial(Round(Xor(crc, BitWord(bits[0]))), bits[1..])
  }

  /** The CRC of a message, defined over its bits. */
  function Crc(data: seq<byte>): (r: Word) {
    Xor(Serial(AllOnes(), BytesToBits(data)), AllOnes())
  }

  // ----- The register is linear

  lemma XorLaws(x: Word, y: Word, z: Word)
    ensures Xor(Xor(x, y), z) == Xor(x, Xor(y, z))
    ensures Xor(x, y) == Xor(y, x)
    ensures Xor(Xor(z, x), Xor(z, y)) == Xor(x, y)
  {
  }

  lemma XorZeros(x: Word)
    ensures Xor(x, Zeros(32)) == x
  {
  }

  lemma ShiftXor(x: Word, y: Word)
    ensures ShiftRight(Xor(x, y), 1) == Xor(ShiftRight(x, 1), ShiftRight(y, 1))
  {
  }

  lemma RoundLinear(x: Word, y: Word)
    ensures Round(Xor(x, y)) == Xor(Round(x), Round(y))
  {
    var p, a, b := Polynomial(), ShiftRight(x, 1), ShiftRight(y, 1);
    ShiftXor(x, y);
    assert Xor(x, y)[0] == (x[0] != y[0]);
    XorLaws(a, b, p);
    XorLaws(p, a, b);
    XorLaws(a, p, b);
  }

  lemma {:induction false} RoundsLinear(x: Word, y: Word, n: nat)
    ensures Rounds(Xor(x, y), n) == Xor(Rounds(x, n), Rounds(y, n))
    decreases n
  {
    if n == 0 {
    } else {
      RoundLinear(x, y);
      RoundsLinear(Round(x), Round(y), n - 1);
    }
  }

  // ----- Eight message bits at once

  /** Low zero bits only move the register down. */
  lemma {:induction false} RoundsOfZeros(x: Word, n: nat)
    requires n <= 32 && x[..n] == Zeros(n)
    ensures Rounds(x, n) == ShiftRight(x, n)
    decreases n
  {
    if n == 0 {
      assert x[0..] + Zeros(0) == x;
    } else {
      var y := ShiftRight(x, 1);
      assert !x[0] by { assert x[..n][0] == x[0]; }
      assert y[..n - 1] == Zeros(n - 1) by {
        assert forall i :: 0 <= i < n - 1 ==> y[i] == x[..n][i + 1];
      }
      RoundsOfZeros(y, n - 1);
      ShiftTwice(x, n);
    }
  }

  /** The message in the register: its low bit enters, the rest moves down with it. */
  lemma RoundOfXor(c: Word, w: Word)
    ensures Round(Xor(c, w)) == Xor(Round(Xor(c, BitWord(w[0]))), ShiftRight(w, 1))
  {
    var e := BitWord(w[0]);
    assert Xor(c, w)[0] == Xor(c, e)[0];
    assert ShiftRight(Xor(c, e), 1) == ShiftRight(c, 1);
    ShiftXor(c, w);
    XorLaws(Polynomial(), ShiftRight(c, 1), ShiftRight(w, 1));
  }

  lemma {:induction false} RoundsAreSerial(c: Word, w: Word, n: nat)
    requires n <= 32
    ensures Rounds(Xor(c, w), n) == Xor(Serial(c, w[..n]), ShiftRight(w, n))
    decreases n
  {
    if n == 0 {
      assert w[..0] == [];
      assert ShiftRight(w, 0) == w;
    } else {
      var c', w' := Round(Xor(c, BitWord(w[0]))), ShiftRight(w, 1);
      RoundOfXor(c, w);
      RoundsAreSerial(c', w', n - 1);
      ShiftTwice(w, n);
    }
  }

  lemma ShiftTwice(w: Word, n: nat)
    requires 1 <= n <= 32
    ensures ShiftRight(ShiftRight(w, 1), n - 1) == ShiftRight(w, n)
    ensures w[..n][1..] == ShiftRight(w, 1)[..n - 1]
  {
  }

  // ----- The table

  /** `x & 0xff`. */
  function LowByte(x: Word): (r: Word) {
    x[..8] + Zeros(24)
  }

  lemma RoundsByTable(x: Word)
    ensures Rounds(x, 8) == Xor(Rounds(LowByte(x), 8), ShiftRight(x, 8))
  {
    var high: Word := Zeros(8) + x[8..];
    assert Xor(LowByte(x), high) == x;
    RoundsLinear(LowByte(x), high, 8);
    assert high[..8] == Zeros(8);
    RoundsOfZeros(high, 8);
    assert ShiftRight(high, 8) == ShiftRight(x, 8);
  }

  /** `table[i]` is the byte `i` shifted through the register. */
  ghost predicate IsTable(table: seq<Word>) {
    |table| == 256 && forall i :: 0 <= i < 256 ==> table[i] == Rounds(WordOf(i), 8)
  }

  method BuildTable() returns (table: seq<Word>)
    ensures IsTable(table)
  {
    table := seq(256, _ => Zeros(32));
    for index := 0 to 256
      invariant |table| == 256
      invariant forall i :: 0 <= i < index ==> table[i] == Rounds(WordOf(i), 8)
    {
      var value := WordOf(index);
      for bit := 0 to 8
        invariant Rounds(value, 8 - bit) == Rounds(WordOf(index), 8)
      {
        value := Round(value);
      }
      table := table[index := value];
    }
  }

  /** The table index formed from the low byte selects that byte's entry. */
  lemma LookUp(x: Word)
    ensures FromBits(x[..8]) < 256
    ensures WordOf(FromBits(x[..8])) == LowByte(x)
  {
    var low := x[..8];
    FromBitsBound(low);
    Pow2Eight();
    WidenBits(FromBits(low), 8, 32);
    ToFromBits(low);
  }

  lemma WidenBits(v: nat, n: nat, total: nat)
    requires n <= total && v < Pow2(n)
    ensures ToBits(v, total) == ToBits(v, n) + Zeros(total - n)
  {
    ToBitsSplit(v, n, total);
    ShrSmall(v, n, n);
    ShrZero(total - n);
    assert ToBits(v, total) == ToBits(v, total)[..n] + ToBits(v, total)[n..];
  }

  lemma {:induction false} ShrZero(n: nat)
    ensures ToBits(0, n) == Zeros(n)
  {
    forall i: nat | i < n
      ensures !ToBits(0, n)[i]
    {
      ShrOfZero(i);
    }
  }

  lemma {:induction false} ShrOfZero(i: nat)
    ensures Shr(0, i) == 0
  {
    if i == 0 {
    } else {
      ShrOfZero(i - 1);
    }
  }

  // ----- The running value

  /** One byte through the table is eight message bits through the register. */
  lemma ByteStep(value: Word, b: byte, table: seq<Word>)
    requires IsTable(table)
    ensures var x := Xor(value, WordOf(b));
            FromBits(x[..8]) < 256
            && Xor(table[FromBits(x[..8])], ShiftRight(value, 8)) == Serial(value, ToBits(b, 8))
  {
    var w := WordOf(b);
    var x := Xor(value, w);
    LookUp(x);
    RoundsByTable(x);
    RoundsAreSerial(value, w, 8);
    ByteWord(value, b);
    XorZeros(Serial(value, ToBits(b, 8)));
  }

  lemma ByteWord(value: Word, b: byte)
    ensures WordOf(b)[..8] == ToBits(b, 8)
    ensures ShiftRight(WordOf(b), 8) == Zeros(32)
    ensures ShiftRight(Xor(value, WordOf(b)), 8) == ShiftRight(value, 8)
  {
    Pow2Eight();
    WidenBits(b, 8, 32);
  }

  lemma {:induction false} SerialConcat(c: Word, a: seq<bool>, b: seq<bool>)
    ensures Serial(c, a + b) == Serial(Serial(c, a), b)
    decreases |a|
  {
    if a == [] {
      assert a + b == b;
    } else {
      SerialConcat(Round(Xor(c, BitWord(a[0]))), a[1..], b);
      assert (a + b)[1..] == a[1..] + b;
    }
  }

  /** The value after `data`, for any way the data was split over earlier updates. */
  lemma SerialBytes(c: Word, done: seq<byte>, data: seq<byte>)
    ensures Serial(c, BytesToBits(done + data)) == Serial(Serial(c, BytesToBits(done)), BytesToBits(data))
  {
    BytesToBitsConcat(done, data);
    SerialConcat(c, BytesToBits(done), BytesToBits(data));
  }

  /** One turn of the update loop. */
  function TableStep(value: Word, b: byte, table: seq<Word>): (r: Word)
    requires |table| == 256
  {
    var x := Xor(value, WordOf(b));
    LookUp(x);
    Xor(table[FromBits(x[..8])], ShiftRight(value, 8))
  }

  /** The register after some bytes. */
  ghost function Register(bytes: seq<byte>): (r: Word) {
    Serial(AllOnes(), BytesToBits(bytes))
  }

  lemma RegisterStep(done: seq<byte>, b: byte, table: seq<Word>)
    requires IsTable(table)
    ensures TableStep(Register(done), b, table) == Register(done + [b])
  {
    UpdateStep(AllOnes(), done, b, table);
  }

  lemma UpdateStep(c: Word, done: seq<byte>, b: byte, table: seq<Word>)
    requires IsTable(table)
    ensures TableStep(Serial(c, BytesToBits(done)), b, table) == Serial(c, BytesToBits(done + [b]))
  {
    ByteStep(Serial(c, BytesToBits(done)), b, table);
    SerialBytes(c, done, [b]);
    BytesToBitsCons(b, []);
    assert [b] + [] == [b];
    assert BytesToBits([b]) == ToBits(b, 8);
  }

  /** The running checksum over a stream of updates. */
  class Running {
    const table: seq<Word>
    var value: Word
    /** The bytes seen so far. */
    ghost var seen: seq<byte>

    ghost predicate Valid()
      reads this
    {
      IsTable(table) && value == Register(seen)
    }

    constructor ()
      ensures Valid() && seen == []
    {
      var t := BuildTable();
      table := t;
      value, seen := AllOnes(), [];
    }

    /** Feeds `data`; how the message is split over calls leaves no trace. */
    method Update(data: seq<byte>)
      requires Valid()
      modifies this
      ensures Valid() && seen == old(seen) + data
    {
      var v := value;
      assert seen + data[..0] == seen;
      for i := 0 to |data|
        invariant seen == old(seen) && v == Register(seen + data[..i])
      {
        RegisterStep(seen + data[..i], data[i], table);
        assert seen + data[..i + 1] == (seen + data[..i]) + [data[i]];
        v := TableStep(v, data[i], table);
      }
      assert data[..|data|] == data;
      value := v;
      seen := seen + data;
    }

    /** The finished value is the bit-serial CRC of everything seen. */
    method Finalize() returns (r: Word)
      requires Valid()
      ensures r == Crc(seen)
    {
      r := Xor(value, AllOnes());
    }
  }
}
