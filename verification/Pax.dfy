/** When the walk over pax records answers, and what it then answers. */
module Pax {
  import opened Bits
  import opened Results
  import opened Widths
  import opened TarSpec

  /** A record with a sum that cannot overflow. */
  function PlainAt(records: seq<byte>, cursor: nat): (r: Result<Record, Error>)
    ensures r.Ok? ==> 2 <= r.value.length <= |records|
    ensures r != Err(Overflow)
  {
    FirstRecord(records)
  }

  /** A record the walk comes to: its cursor and the bytes from there on. */
  datatype Visit = Visit(cursor: nat, records: seq<byte>)

  /** All of them, in order; a refused record is the last. */
  function Visited(first: FirstFunction, one: RecordFunction, records: seq<byte>, cursor: nat, ov: Overrides): (v: seq<Visit>)
    requires Advances(first)
    decreases |records|
  {
    if records == [] then []
    else
      [Visit(cursor, records)] +
      match first(records, cursor)
      case Err(_) => []
      case Ok(record) =>
        match one(record.text, ov)
        case Err(_) => []
        case Ok(next) => Visited(first, one, records[record.length..], cursor + record.length, next)
  }

  /** None of these records makes a sum that is too wide. */
  predicate AllFit(wide: (seq<byte>, nat) -> bool, visits: seq<Visit>) {
    forall i :: 0 <= i < |visits| ==> !wide(visits[i].records, visits[i].cursor)
  }

  lemma {:induction false} FitFromHere(wide: (seq<byte>, nat) -> bool, first: Visit, more: seq<Visit>)
    ensures AllFit(wide, [first] + more) <==> !wide(first.records, first.cursor) && AllFit(wide, more)
  {
    var all := [first] + more;
    assert all[0] == first;
    forall i | 0 <= i < |more|
      ensures all[i + 1] == more[i]
    {
    }
  }

  /** `bounded` is `plain` except where the sum is too wide, and nothing else overflows. */
  ghost predicate Bounds(bounded: FirstFunction, plain: FirstFunction, wide: (seq<byte>, nat) -> bool, one: RecordFunction) {
    && (forall records, cursor :: bounded(records, cursor) == if wide(records, cursor) then Err(Overflow) else plain(records, cursor))
    && (forall records, cursor :: plain(records, cursor) != Err(Overflow))
    && (forall text, ov :: one(text, ov) != Err(Overflow))
  }

  lemma {:induction false} WalkAnswersIff(bounded: FirstFunction, plain: FirstFunction, wide: (seq<byte>, nat) -> bool, one: RecordFunction,
                                          records: seq<byte>, cursor: nat, ov: Overrides)
    requires Advances(bounded) && Advances(plain) && Bounds(bounded, plain, wide, one)
    ensures var fits := AllFit(wide, Visited(plain, one, records, cursor, ov));
            && (Walk(bounded, one, records, cursor, ov) != Err(Overflow) <==> fits)
            && (fits ==> Walk(bounded, one, records, cursor, ov) == Walk(plain, one, records, cursor, ov))
    decreases |records|
  {
    if records == [] {
    } else {
      var visit, record := Visit(cursor, records), plain(records, cursor);
      FitFromHere(wide, visit, []);
      assert [visit] + [] == [visit];
      if record.Ok? {
        var next := one(record.value.text, ov);
        if next.Ok? {
          var more, at := records[record.value.length..], cursor + record.value.length;
          WalkAnswersIff(bounded, plain, wide, one, more, at, next.value);
          FitFromHere(wide, visit, Visited(plain, one, more, at, next.value));
        }
      }
    }
  }

  lemma CodeBounds()
    ensures Advances(RecordAt) && Advances(PlainAt) && Bounds(RecordAt, PlainAt, SumOverflows, ApplyRecord)
  {
  }

  /**
   * The walk answers exactly when every record it comes to is refused by its
   * length alone or ends at a machine word, and then as if sums could not
   * overflow.
   */
  lemma AnswersIff(body: seq<byte>, ov: Overrides)
    ensures Advances(PlainAt)
    ensures var fits := AllFit(SumOverflows, Visited(PlainAt, ApplyRecord, body, 0, ov));
            && (ApplyPax(body, ov) != Err(Overflow) <==> fits)
            && (fits ==> ApplyPax(body, ov) == Walk(PlainAt, ApplyRecord, body, 0, ov))
  {
    CodeBounds();
    WalkAnswersIff(RecordAt, PlainAt, SumOverflows, ApplyRecord, body, 0, ov);
  }

  // ----- A body on which it stops

  /** `6 a=b` and a newline. */
  const GOOD: seq<byte> := [0x36, 0x20, 0x61, 0x3d, 0x62, 0x0a]
  /** `18446744073709551615`. */
  const LARGEST: seq<byte> := [
    0x31, 0x38, 0x34, 0x34, 0x36, 0x37, 0x34, 0x34, 0x30, 0x37,
    0x33, 0x37, 0x30, 0x39, 0x35, 0x35, 0x31, 0x36, 0x31, 0x35]

  lemma Append(text: seq<byte>, k: nat)
    requires k < |text| && AreDigits(text, 10)
    ensures ValueOf(text[..k + 1], 10) == 10 * ValueOf(text[..k], 10) + Digit(text[k])
  {
    assert text[..k + 1][..k] == text[..k];
  }

  /** The digits `a` to `e` stand at `k`. */
  predicate Five(text: seq<byte>, k: nat, a: nat, b: nat, c: nat, d: nat, e: nat) {
    && k + 5 <= |text| && Digit(text[k]) == a && Digit(text[k + 1]) == b && Digit(text[k + 2]) == c
    && Digit(text[k + 3]) == d && Digit(text[k + 4]) == e
  }

  lemma FiveMore(text: seq<byte>, k: nat, a: nat, b: nat, c: nat, d: nat, e: nat)
    requires AreDigits(text, 10) && Five(text, k, a, b, c, d, e)
    ensures ValueOf(text[..k + 5], 10) == 100000 * ValueOf(text[..k], 10) + (10000 * a + 1000 * b + 100 * c + 10 * d + e)
  {
    Append(text, k);
    Append(text, k + 1);
    Append(text, k + 2);
    Append(text, k + 3);
    Append(text, k + 4);
  }

  lemma TwentyDigits(text: seq<byte>)
    requires |text| == 20 && AreDigits(text, 10)
    requires Five(text, 0, 1, 8, 4, 4, 6) && Five(text, 5, 7, 4, 4, 0, 7)
    requires Five(text, 10, 3, 7, 0, 9, 5) && Five(text, 15, 5, 1, 6, 1, 5)
    ensures ValueOf(text, 10) == U64_LIMIT - 1
  {
    assert text[..0] == [];
    FiveMore(text, 0, 1, 8, 4, 4, 6);
    FiveMore(text, 5, 7, 4, 4, 0, 7);
    FiveMore(text, 10, 3, 7, 0, 9, 5);
    FiveMore(text, 15, 5, 1, 6, 1, 5);
    assert text[..20] == text;
  }

  lemma LargestValue()
    ensures AreDigits(LARGEST, 10) && ValueOf(LARGEST, 10) == U64_LIMIT - 1
  {
    var text := LARGEST;
    assert Five(text, 0, 1, 8, 4, 4, 6) && Five(text, 5, 7, 4, 4, 0, 7);
    assert Five(text, 10, 3, 7, 0, 9, 5) && Five(text, 15, 5, 1, 6, 1, 5);
    TwentyDigits(text);
  }

  lemma {:induction false} UntilStops(text: seq<byte>, stop: byte -> bool, more: seq<byte>)
    requires (forall i :: 0 <= i < |text| ==> !stop(text[i])) && more != [] && stop(more[0])
    ensures Until(text + more, stop) == text
  {
    if text == [] {
      assert text + more == more;
    } else {
      assert (text + more)[1..] == text[1..] + more;
      UntilStops(text[1..], stop, more);
    }
  }

  lemma LengthIs(digits: seq<byte>, more: seq<byte>, n: nat)
    requires 0x20 !in digits && ParseRadix(digits, 10) == Some(n)
    ensures FirstLength(digits + ([0x20] + more)) == Some(Length(|digits|, n))
  {
    UntilStops(digits, (x: byte) => x == 0x20, [0x20] + more);
  }

  /** Behind any good record, any length that reaches past the last machine word stops the process. */
  lemma StopsBehind(first: seq<byte>, text: seq<byte>, digits: seq<byte>, n: nat, more: seq<byte>, ov: Overrides, next: Overrides)
    requires var body := first + (digits + ([0x20] + more));
             first != [] && RecordAt(body, 0) == Ok(Record(text, |first|)) && ApplyRecord(text, ov) == Ok(next)
    requires 0x20 !in digits && ParseRadix(digits, 10) == Some(n) && n >= |digits| + 2 && |first| + n >= U64_LIMIT
    ensures ApplyPax(first + (digits + ([0x20] + more)), ov) == Err(Overflow)
  {
    var rest := digits + ([0x20] + more);
    var body := first + rest;
    RecordsAdvance();
    LengthIs(digits, more, n);
    assert RecordAt(rest, |first|) == Err(Overflow);
    Second(RecordAt, ApplyRecord, first, rest, text, ov, next);
  }

  lemma Second(at: FirstFunction, one: RecordFunction, first: seq<byte>, rest: seq<byte>, text: seq<byte>, ov: Overrides, next: Overrides)
    requires Advances(at) && first != [] && rest != []
    requires at(first + rest, 0) == Ok(Record(text, |first|)) && one(text, ov) == Ok(next) && at(rest, |first|).Err?
    ensures Walk(at, one, first + rest, 0, ov) == Err(at(rest, |first|).error)
  {
    assert (first + rest)[|first|..] == rest;
  }

  lemma GoodRecord(rest: seq<byte>)
    ensures RecordAt(GOOD + rest, 0) == Ok(Record([0x61, 0x3d, 0x62], 6))
  {
    var digits, more := [0x36], [0x61, 0x3d, 0x62, 0x0a] + rest;
    assert GOOD + rest == digits + ([0x20] + more);
    assert digits[..0] == [];
    assert ValueOf(digits, 10) == 6;
    assert ParseRadix(digits, 10) == Some(6);
    LengthIs(digits, more, 6);
    assert (GOOD + rest)[2..5] == [0x61, 0x3d, 0x62];
  }

  lemma GoodApplies(ov: Overrides)
    ensures ApplyRecord([0x61, 0x3d, 0x62], ov) == Ok(ov)
  {
    UntilStops([0x61], (x: byte) => x == 0x3d, [0x3d, 0x62]);
    assert [0x61] + [0x3d, 0x62] == [0x61, 0x3d, 0x62];
  }

  /** A good record, then the largest length there is. */
  lemma WalkStops(ov: Overrides)
    ensures ApplyPax(GOOD + (LARGEST + ([0x20] + [])), ov) == Err(Overflow)
  {
    LargestValue();
    GoodRecord(LARGEST + ([0x20] + []));
    GoodApplies(ov);
    StopsBehind(GOOD, [0x61, 0x3d, 0x62], LARGEST, U64_LIMIT - 1, [], ov, ov);
  }
}
