/** Protobuf wire primitives: varints, length-delimited fields, and messages as field lists. */
module Wire {
  import opened Bits
  import opened Results
  import opened Widths
  import opened Seal
  import Text


  /** One field; `Fixed` stands for the two fixed-width types, which no message here uses. */
  datatype Field = Varint(number: nat, value: nat) | Bytes(number: nat, data: seq<byte>) | Fixed(number: nat, data: seq<byte>)

  // ----- Varints

  function EncodeVarint(v: nat): (r: seq<byte>)
    ensures r != []
  {
    if v < 128 then [v] else [128 + v % 128] + EncodeVarint(v / 128)
  }

  /** `read_varint` before the shift drops bits beyond 64: `k` bytes are already read. */
  function ReadGroups(b: seq<byte>, k: nat): (r: Option<(nat, seq<byte>)>)
    ensures r.Some? ==> |r.value.1| < |b|
    decreases |b|
  {
    if k >= 10 || b == [] then None
    else if b[0] < 128 then Some((b[0], b[1..]))
    else
      match ReadGroups(b[1..], k + 1)
      case None => None
      case Some(more) => Some((b[0] - 128 + 128 * more.0, more.1))
  }

  function Truncated(v: nat, limit: nat): (r: nat)
    requires limit > 0
    ensures r < limit && (v < limit ==> r == v)
  {
    v % limit
  }

  function ReadVarint(b: seq<byte>): (r: Option<(nat, seq<byte>)>)
    ensures r.Some? ==> |r.value.1| < |b| && r.value.0 < U64_LIMIT
  {
    match ReadGroups(b, 0)
    case None => None
    case Some(x) => Some((Truncated(x.0, U64_LIMIT), x.1))
  }

  /** The values that `n` groups of seven bits can hold. */
  function Reach(n: nat): (r: nat) {
    if n == 0 then 1 else 128 * Reach(n - 1)
  }

  lemma {:induction false} GroupsRoundTrip(v: nat, rest: seq<byte>, k: nat)
    requires k <= 9 && v < Reach(10 - k)
    ensures ReadGroups(EncodeVarint(v) + rest, k) == Some((v, rest))
    decreases v
  {
    var b := EncodeVarint(v) + rest;
    if v < 128 {
      assert b[1..] == rest;
    } else {
      assert Reach(10 - k) == 128 * Reach(9 - k);
      SmallerReach(v, 9 - k);
      GroupsRoundTrip(v / 128, rest, k + 1);
      assert b[1..] == EncodeVarint(v / 128) + rest;
    }
  }

  lemma SmallerReach(v: nat, n: nat)
    requires 128 <= v < 128 * Reach(n)
    ensures n > 0 && v / 128 < Reach(n) && v / 128 < v
  {
  }

  lemma ReachTen()
    ensures U64_LIMIT <= Reach(10)
  {
    assert Reach(2) == 16384;
    assert Reach(4) == 0x1000_0000;
    assert Reach(6) == 0x400_0000_0000;
    assert Reach(8) == 0x100_0000_0000_0000;
  }

  lemma VarintRoundTrip(v: nat, rest: seq<byte>)
    requires v < U64_LIMIT
    ensures ReadVarint(EncodeVarint(v) + rest) == Some((v, rest))
  {
    ReachTen();
    GroupsRoundTrip(v, rest, 0);
  }

  // ----- Fields

  function WireType(f: Field): (t: nat) {
    match f
    case Varint(_, _) => 0
    case Bytes(_, _) => 2
    case Fixed(_, data) => if |data| == 8 then 1 else 5
  }

  function Payload(f: Field): (r: seq<byte>) {
    match f
    case Varint(_, v) => EncodeVarint(v)
    case Bytes(_, data) => EncodeVarint(|data|) + data
    case Fixed(_, data) => data
  }

  function EncodeField(f: Field): (r: seq<byte>)
    ensures r != []
  {
    EncodeVarint(Key(f)) + Payload(f)
  }

  function Key(f: Field): (k: nat) {
    8 * f.number + WireType(f)
  }

  function ReadPayload(number: nat, wireType: nat, b: seq<byte>): (r: Option<(Field, seq<byte>)>)
    ensures r.Some? ==> |r.value.1| <= |b|
  {
    if wireType == 0 then
      match ReadVarint(b)
      case None => None
      case Some(x) => Some((Varint(number, x.0), x.1))
    else if wireType == 2 then
      match ReadVarint(b)
      case None => None
      case Some(x) => if x.0 > |x.1| then None else Some((Bytes(number, x.1[..x.0]), x.1[x.0..]))
    else if wireType == 1 then if |b| < 8 then None else Some((Fixed(number, b[..8]), b[8..]))
    else if wireType == 5 then if |b| < 4 then None else Some((Fixed(number, b[..4]), b[4..]))
    else None
  }

  /** `next_field` on a non-empty input. */
  function ReadField(b: seq<byte>): (r: Option<(Field, seq<byte>)>)
    ensures r.Some? ==> |r.value.1| < |b|
  {
    match ReadVarint(b)
    case None => None
    case Some(key) =>
      if KeyNumber(key.0) == 0 then None else ReadPayload(KeyNumber(key.0), KeyType(key.0), key.1)
  }

  function KeyNumber(key: nat): (n: nat) {
    Truncated(key / 8, U32_LIMIT)
  }

  function KeyType(key: nat): (t: nat) {
    key % 8
  }

  function ReadFields(b: seq<byte>): (r: Option<seq<Field>>)
    decreases |b|
  {
    if b == [] then Some([])
    else
      match ReadField(b)
      case None => None
      case Some(x) =>
        match ReadFields(x.1)
        case None => None
        case Some(more) => Some([x.0] + more)
  }

  function EncodeFields(fs: seq<Field>): (r: seq<byte>) {
    if fs == [] then [] else EncodeField(fs[0]) + EncodeFields(fs[1..])
  }

  /** What the writers produce. */
  predicate Writable(f: Field) {
    && 1 <= f.number < 16
    && match f
       case Varint(_, v) => v < U64_LIMIT
       case Bytes(_, data) => |data| < U64_LIMIT
       case Fixed(_, _) => false
  }

  predicate AllWritable(fs: seq<Field>) {
    forall i :: 0 <= i < |fs| ==> Writable(fs[i])
  }

  lemma KeyParts(number: nat, t: nat)
    requires t < 8 && number < U32_LIMIT
    ensures KeyNumber(8 * number + t) == number && KeyType(8 * number + t) == t
  {
    assert (8 * number + t) / 8 == number && (8 * number + t) % 8 == t;
  }

  lemma PayloadRoundTrip(f: Field, rest: seq<byte>)
    requires Writable(f)
    ensures ReadPayload(f.number, WireType(f), Payload(f) + rest) == Some((f, rest))
  {
    match f
    case Varint(n, v) => VarintRoundTrip(v, rest);
    case Bytes(n, data) =>
      VarintRoundTrip(|data|, data + rest);
      assert EncodeVarint(|data|) + data + rest == EncodeVarint(|data|) + (data + rest);
      assert (data + rest)[..|data|] == data && (data + rest)[|data|..] == rest;
  }

  lemma FieldFrom(b: seq<byte>, key: nat, after: seq<byte>, f: Field, rest: seq<byte>)
    requires ReadVarint(b) == Some((key, after)) && KeyNumber(key) == f.number != 0 && KeyType(key) == WireType(f)
    requires ReadPayload(f.number, WireType(f), after) == Some((f, rest))
    ensures ReadField(b) == Some((f, rest))
  {
  }

  lemma FieldRoundTrip(f: Field, rest: seq<byte>)
    requires Writable(f)
    ensures ReadField(EncodeField(f) + rest) == Some((f, rest))
  {
    KeyRoundTrip(f, Payload(f) + rest);
    PayloadRoundTrip(f, rest);
    FieldFrom(EncodeVarint(Key(f)) + (Payload(f) + rest), Key(f), Payload(f) + rest, f, rest);
    assert EncodeField(f) + rest == EncodeVarint(Key(f)) + (Payload(f) + rest);
  }

  lemma KeyRoundTrip(f: Field, payload: seq<byte>)
    requires Writable(f)
    ensures ReadVarint(EncodeVarint(Key(f)) + payload) == Some((Key(f), payload))
    ensures KeyNumber(Key(f)) == f.number && KeyType(Key(f)) == WireType(f)
  {
    VarintRoundTrip(Key(f), payload);
    KeyParts(f.number, WireType(f));
  }

  lemma FieldsFrom(b: seq<byte>, f: Field, rest: seq<byte>, more: seq<Field>)
    requires ReadField(b) == Some((f, rest)) && ReadFields(rest) == Some(more)
    ensures ReadFields(b) == Some([f] + more)
  {
  }

  lemma {:induction false} FieldsRoundTrip(fs: seq<Field>)
    requires AllWritable(fs)
    ensures ReadFields(EncodeFields(fs)) == Some(fs)
  {
    if fs == [] {
    } else {
      FieldRoundTrip(fs[0], EncodeFields(fs[1..]));
      FieldsRoundTrip(fs[1..]);
      FieldsFrom(EncodeFields(fs), fs[0], EncodeFields(fs[1..]), fs[1..]);
      assert fs == [fs[0]] + fs[1..];
    }
  }

  // ----- Lengths

  /** What a field's encoding grows with. */
  function Weight(f: Field): (n: nat) {
    match f
    case Varint(_, v) => v
    case Bytes(_, data) => |data|
    case Fixed(_, data) => |data|
  }

  lemma {:induction false} VarintLength(v: nat)
    ensures |EncodeVarint(v)| <= v + 1
  {
    if v < 128 {
    } else {
      VarintLength(v / 128);
    }
  }

  lemma FieldLength(f: Field)
    requires f.number < 16 && !f.Fixed?
    ensures |EncodeField(f)| <= 2 * Weight(f) + 2
  {
    assert Key(f) < 128;
    VarintLength(Weight(f));
  }

  /** Room for the encoding of some fields. */
  function Room(fs: seq<Field>): (n: nat) {
    if fs == [] then 0 else 2 * Weight(fs[0]) + 2 + Room(fs[1..])
  }

  lemma {:induction false} EncodedLength(fs: seq<Field>)
    requires AllWritable(fs)
    ensures |EncodeFields(fs)| <= Room(fs)
  {
    if fs == [] {
    } else {
      FieldLength(fs[0]);
      EncodedLength(fs[1..]);
    }
  }

  lemma {:induction false} RoomConcat(a: seq<Field>, b: seq<Field>)
    ensures Room(a + b) == Room(a) + Room(b)
  {
    if a == [] {
      assert a + b == b;
    } else {
      RoomConcat(a[1..], b);
      assert (a + b)[1..] == a[1..] + b;
    }
  }

  lemma RoomOne(f: Field)
    ensures Room([f]) == 2 * Weight(f) + 2
  {
    assert [f][1..] == [];
  }

  // ----- Messages

  /** The writers skip defaults. */
  function Str(number: nat, s: seq<byte>): (r: seq<Field>) {
    if s == [] then [] else [Bytes(number, s)]
  }

  function Num(number: nat, v: nat): (r: seq<Field>) {
    if v == 0 then [] else [Varint(number, v)]
  }

  function Flag(number: nat, b: bool): (r: seq<Field>) {
    if b then [Varint(number, 1)] else []
  }

  /** UTF-8 text, as the readers of string fields demand. */
  predicate IsText(s: seq<byte>) {
    Text.Decode(s).Some?
  }

  /** Applies the fields one after the other. */
  function Fold<X>(fs: seq<Field>, x: X, apply: (X, Field) -> Option<X>): (r: Option<X>)
    decreases |fs|
  {
    if fs == [] then Some(x)
    else
      match apply(x, fs[0])
      case None => None
      case Some(y) => Fold(fs[1..], y, apply)
  }

  lemma {:induction false} FoldConcat<X>(a: seq<Field>, b: seq<Field>, x: X, apply: (X, Field) -> Option<X>)
    requires Fold(a, x, apply).Some?
    ensures Fold(a + b, x, apply) == Fold(b, Fold(a, x, apply).value, apply)
    decreases |a|
  {
    if a == [] {
      assert a + b == b;
    } else {
      FoldConcat(a[1..], b, apply(x, a[0]).value, apply);
      assert (a + b)[1..] == a[1..] + b;
    }
  }

  lemma FoldOne<X>(f: Field, x: X, apply: (X, Field) -> Option<X>)
    ensures Fold([f], x, apply) == apply(x, f)
  {
    assert [f][1..] == [];
  }

  function Decode<X>(b: seq<byte>, x: X, apply: (X, Field) -> Option<X>): (r: Option<X>) {
    match ReadFields(b)
    case None => None
    case Some(fs) => Fold(fs, x, apply)
  }

  lemma DecodeEncoded<X>(fs: seq<Field>, x: X, apply: (X, Field) -> Option<X>)
    requires AllWritable(fs)
    ensures Decode(EncodeFields(fs), x, apply) == Fold(fs, x, apply)
  {
    FieldsRoundTrip(fs);
  }

  lemma FoldThen<X>(a: seq<Field>, b: seq<Field>, x: X, y: X, z: X, apply: (X, Field) -> Option<X>)
    requires Fold(a, x, apply) == Some(y) && Fold(b, y, apply) == Some(z)
    ensures Fold(a + b, x, apply) == Some(z)
  {
    FoldConcat(a, b, x, apply);
  }

  lemma FoldStr<X>(n: nat, s: seq<byte>, x: X, y: X, apply: (X, Field) -> Option<X>)
    requires if s == [] then y == x else apply(x, Bytes(n, s)) == Some(y)
    ensures Fold(Str(n, s), x, apply) == Some(y)
  {
    if s != [] {
      FoldOne(Bytes(n, s), x, apply);
    }
  }

  lemma FoldNum<X>(n: nat, v: nat, x: X, y: X, apply: (X, Field) -> Option<X>)
    requires if v == 0 then y == x else apply(x, Varint(n, v)) == Some(y)
    ensures Fold(Num(n, v), x, apply) == Some(y)
  {
    if v != 0 {
      FoldOne(Varint(n, v), x, apply);
    }
  }

  lemma FoldFlag<X>(n: nat, b: bool, x: X, y: X, apply: (X, Field) -> Option<X>)
    requires if b then apply(x, Varint(n, 1)) == Some(y) else y == x
    ensures Fold(Flag(n, b), x, apply) == Some(y)
  {
    if b {
      FoldOne(Varint(n, 1), x, apply);
    }
  }

  function Mapped<T, U>(items: seq<T>, f: T -> U): (r: seq<U>)
    ensures |r| == |items| && forall i :: 0 <= i < |items| ==> r[i] == f(items[i])
  {
    seq(|items|, i requires 0 <= i < |items| => f(items[i]))
  }

  /** Applying this field leads from `x` to `y`. */
  ghost predicate Steps<X>(apply: (X, Field) -> Option<X>, x: X, f: Field, y: X) {
    forall k: nat {:trigger Look(k)} :: Look(k) ==> apply(x, f) == Some(y)
  }

  lemma {:induction false} FoldPrefix<X, T>(items: seq<T>, n: nat, field: T -> Field, with: seq<T> -> X, apply: (X, Field) -> Option<X>)
    requires n <= |items|
    requires forall k :: 0 <= k < |items| ==> Steps(apply, with(items[..k]), field(items[k]), with(items[..k] + [items[k]]))
    ensures Fold(Mapped(items[..n], field), with([]), apply) == Some(with(items[..n]))
  {
    if n == 0 {
      assert items[..0] == [];
      assert Mapped(items[..0], field) == [];
    } else {
      FoldPrefix(items, n - 1, field, with, apply);
      assert Look(0);
      assert items[..n] == items[..n - 1] + [items[n - 1]];
      FoldOne(field(items[n - 1]), with(items[..n - 1]), apply);
      FoldThen(Mapped(items[..n - 1], field), [field(items[n - 1])], with([]), with(items[..n - 1]), with(items[..n]), apply);
      assert Mapped(items[..n], field) == Mapped(items[..n - 1], field) + [field(items[n - 1])];
    }
  }

  /** A repeated field: each occurrence adds its item. */
  lemma FoldList<X, T>(items: seq<T>, field: T -> Field, with: seq<T> -> X, apply: (X, Field) -> Option<X>)
    requires forall k :: 0 <= k < |items| ==> Steps(apply, with(items[..k]), field(items[k]), with(items[..k] + [items[k]]))
    ensures Fold(Mapped(items, field), with([]), apply) == Some(with(items))
  {
    FoldPrefix(items, |items|, field, with, apply);
    assert items[..|items|] == items;
  }

  lemma WritableConcat(a: seq<Field>, b: seq<Field>)
    requires AllWritable(a) && AllWritable(b)
    ensures AllWritable(a + b)
  {
  }

  lemma StrWritable(n: nat, s: seq<byte>)
    requires 1 <= n < 16 && |s| < U64_LIMIT
    ensures AllWritable(Str(n, s))
  {
  }

  lemma NumWritable(n: nat, v: nat)
    requires 1 <= n < 16 && v < U64_LIMIT
    ensures AllWritable(Num(n, v)) && AllWritable(Flag(n, true))
  {
  }

  /** Decoding goes field by field. */
  lemma DecodeStep<X>(b: seq<byte>, x: X, apply: (X, Field) -> Option<X>)
    requires b != []
    ensures match ReadField(b)
            case None => Decode(b, x, apply).None?
            case Some(next) =>
              match apply(x, next.0)
              case None => Decode(b, x, apply).None?
              case Some(y) => Decode(b, x, apply) == Decode(next.1, y, apply)
  {
    var next := ReadField(b);
    if next.Some? && ReadFields(next.value.1).Some? {
      var more := ReadFields(next.value.1).value;
      assert ([next.value.0] + more)[1..] == more;
    }
  }
}
