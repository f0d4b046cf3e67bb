/**
 * Finds `key=value` build facts inside a member that arrives in chunks.
 *
 * Whatever the chunks are, a recorded fact is a fact of the whole member, and a
 * key with a fact whose text up to the deciding byte fits the retained tail is
 * recorded.
 */
module Scanner {
  import opened Bits
  import opened Results
  import opened Seal
  import opened Chunks
  import opened Strings
  import opened Text

  const MAX_VALUE_LEN: nat := 256
  const EQUALS: byte := 0x3d
  const QUOTE: byte := 0x22

  // ----- Values

  predicate IsTerminator(b: byte) {
    b == 10 || b == 13 || b == 0 || b == 32 || b == 9
  }

  predicate IsQuote(b: byte) {
    b == QUOTE
  }

  /** `position`: where the first byte with the property stands, or the length. */
  function Position(b: seq<byte>, stop: byte -> bool): (i: nat)
    ensures i <= |b|
    ensures forall j :: 0 <= j < i ==> !stop(b[j])
    ensures i < |b| ==> stop(b[i])
  {
    if b == [] || stop(b[0]) then 0 else 1 + Position(b[1..], stop)
  }

  /** `value_after`, on the bytes from the value on. */
  function Value(rest: seq<byte>, atEnd: bool): (r: Option<seq<byte>>) {
    var bounded := if |rest| <= MAX_VALUE_LEN + 2 then rest else rest[..MAX_VALUE_LEN + 2];
    if bounded != [] && bounded[0] == QUOTE then
      var close := Position(bounded[1..], IsQuote);
      if close == |bounded| - 1 then None else Some(bounded[1..1 + close])
    else
      var index := Position(bounded, IsTerminator);
      if index < |bounded| || atEnd then Some(bounded[..index]) else None
  }

  /** What ends a value: a closing quote, a terminator, or the end of the bytes. */
  predicate Ends(rest: seq<byte>, value: seq<byte>) {
    if rest != [] && rest[0] == QUOTE then
      && |value| + 2 <= |rest| && rest[1..1 + |value|] == value && rest[1 + |value|] == QUOTE
      && QUOTE !in value
    else
      && value <= rest && (forall i :: 0 <= i < |value| ==> !IsTerminator(value[i]))
      && (|value| == |rest| || IsTerminator(rest[|value|]))
  }

  predicate IsBlank(c: Code) {
    IsWhite(c)
  }

  /** The text a raw value stands for, when it is one the scanner will claim. */
  function Claim(value: seq<byte>): (r: Option<seq<Code>>) {
    if value == [] || |value| > MAX_VALUE_LEN then None
    else
      match Decode(value)
      case None => None
      case Some(all) =>
        var text := Trim(all, IsBlank);
        if text == [] || (exists i :: 0 <= i < |text| && IsControl(text[i])) then None else Some(text)
  }

  function Fact(rest: seq<byte>, atEnd: bool): (r: Option<seq<Code>>) {
    match Value(rest, atEnd)
    case None => None
    case Some(value) => Claim(value)
  }

  /** A value that is claimed is never a prefix of the real one. */
  lemma NeverTruncated(rest: seq<byte>, atEnd: bool)
    requires Fact(rest, atEnd).Some?
    ensures Ends(rest, Value(rest, atEnd).value)
    ensures 1 <= |Value(rest, atEnd).value| <= MAX_VALUE_LEN
  {
    var bounded := if |rest| <= MAX_VALUE_LEN + 2 then rest else rest[..MAX_VALUE_LEN + 2];
    var value := Value(rest, atEnd).value;
    if bounded[0] == QUOTE {
      var tail := bounded[1..];
      var close := Position(tail, IsQuote);
      assert |value| == close && value == bounded[1..1 + close];
      assert IsQuote(tail[close]) && tail[close] == bounded[1 + close] == rest[1 + close];
      assert forall i :: 0 <= i < close ==> value[i] == tail[i] && !IsQuote(tail[i]);
      assert rest[1..1 + close] == value;
    } else {
      var index := Position(bounded, IsTerminator);
      assert |value| == index && value == rest[..index];
      assert forall i :: 0 <= i < index ==> !IsTerminator(bounded[i]);
    }
  }

  /** Later bytes do not change a value that is already decided. */
  lemma Decided(rest: seq<byte>, more: seq<byte>, atEnd: bool)
    requires Value(rest, false).Some?
    ensures Value(rest + more, atEnd) == Value(rest, false)
  {
    var all := rest + more;
    var short := if |rest| <= MAX_VALUE_LEN + 2 then rest else rest[..MAX_VALUE_LEN + 2];
    var long := if |all| <= MAX_VALUE_LEN + 2 then all else all[..MAX_VALUE_LEN + 2];
    assert short <= long;
    if short[0] == QUOTE {
      assert short[1..] <= long[1..];
      PositionExtends(short[1..], long[1..], IsQuote);
      var close := Position(short[1..], IsQuote);
      assert long[1..1 + close] == short[1..1 + close];
    } else {
      PositionExtends(short, long, IsTerminator);
      var index := Position(short, IsTerminator);
      assert long[..index] == short[..index];
    }
  }

  lemma {:induction false} PositionExtends(a: seq<byte>, b: seq<byte>, stop: byte -> bool)
    requires a <= b && Position(a, stop) < |a|
    ensures Position(b, stop) == Position(a, stop)
  {
    assert b[0] == a[0];
    if stop(a[0]) {
    } else {
      PositionExtends(a[1..], b[1..], stop);
    }
  }

  // ----- Occurrences

  predicate Occurs(w: seq<byte>, needle: seq<byte>, p: nat) {
    p + |needle| <= |w| && w[p..p + |needle|] == needle
  }

  function Needle(key: seq<byte>): (n: seq<byte>) {
    key + [EQUALS]
  }

  /** The fact an occurrence at `p` yields. */
  function FactAt(w: seq<byte>, key: seq<byte>, p: nat, atEnd: bool): (r: Option<seq<Code>>) {
    if Occurs(w, Needle(key), p) then Fact(w[p + |key| + 1..], atEnd) else None
  }

  /** `find`: the first occurrence, skipping on the needle's first byte. */
  method Find(haystack: seq<byte>, needle: seq<byte>) returns (r: Option<nat>)
    requires needle != []
    ensures match r
            case None => forall p: nat :: !Occurs(haystack, needle, p)
            case Some(i) => Occurs(haystack, needle, i) && forall p: nat :: p < i ==> !Occurs(haystack, needle, p)
  {
    if |haystack| < |needle| {
      return None;
    }
    var last := |haystack| - |needle|;
    var index := 0;
    while index <= last
      invariant 0 <= index <= last + 1
      invariant forall p: nat :: p < index ==> !Occurs(haystack, needle, p)
    {
      var offset := Position(haystack[index..last + 1], (b: byte) => b == needle[0]);
      forall p: nat | index <= p < index + offset
        ensures !Occurs(haystack, needle, p)
      {
        assert haystack[index..last + 1][p - index] == haystack[p];
        OtherFirstByte(haystack, needle, p);
      }
      if index + offset == last + 1 {
        return None;
      }
      var candidate := index + offset;
      if haystack[candidate..candidate + |needle|] == needle {
        return Some(candidate);
      }
      index := candidate + 1;
    }
    return None;
  }

  lemma OtherFirstByte(w: seq<byte>, needle: seq<byte>, p: nat)
    requires needle != [] && p < |w| && w[p] != needle[0]
    ensures !Occurs(w, needle, p)
  {
    if p + |needle| <= |w| {
      assert w[p..p + |needle|][0] == w[p];
    }
  }

  /** Occurrences of one key never overlap, because the only equals sign is at the end. */
  lemma NoOverlap(w: seq<byte>, key: seq<byte>, p: nat, q: nat)
    requires EQUALS !in key && Occurs(w, Needle(key), p) && p < q < p + |key| + 1
    ensures !Occurs(w, Needle(key), q)
  {
    var n := |key| + 1;
    var i := p + |key| - q;
    assert w[p + |key|] == EQUALS by {
      assert w[p..p + n][|key|] == w[p + |key|];
    }
    assert Needle(key)[i] == key[i] != EQUALS;
    if q + n <= |w| {
      assert w[q..q + n][i] == w[q + i];
    }
  }

  lemma ShiftOccurs(w: seq<byte>, lo: nat, needle: seq<byte>, p: nat)
    requires lo <= |w|
    ensures Occurs(w[lo..], needle, p) <==> Occurs(w, needle, lo + p)
  {
    if p + |needle| <= |w| - lo {
      assert w[lo..][p..p + |needle|] == w[lo + p..lo + p + |needle|];
    }
  }

  lemma ShiftFact(w: seq<byte>, lo: nat, key: seq<byte>, p: nat, atEnd: bool)
    requires lo <= |w|
    ensures FactAt(w[lo..], key, p, atEnd) == FactAt(w, key, lo + p, atEnd)
  {
    ShiftOccurs(w, lo, Needle(key), p);
    if Occurs(w, Needle(key), lo + p) {
      assert w[lo..][p + |key| + 1..] == w[lo + p + |key| + 1..];
    }
  }

  /** A fact that is decided stays the fact when more bytes arrive. */
  lemma FactStays(w: seq<byte>, more: seq<byte>, key: seq<byte>, p: nat, atEnd: bool)
    requires FactAt(w, key, p, false).Some?
    ensures FactAt(w + more, key, p, atEnd) == FactAt(w, key, p, false)
  {
    var n := |key| + 1;
    assert (w + more)[p..p + n] == w[p..p + n];
    Decided(w[p + n..], more, atEnd);
    assert (w + more)[p + n..] == w[p + n..] + more;
  }

  // ----- The scanner

  function MaxLength(keys: seq<seq<byte>>): (n: nat)
    ensures forall i :: 0 <= i < |keys| ==> |keys[i]| <= n
  {
    if keys == [] then 0
    else
      var rest := MaxLength(keys[1..]);
      if |keys[0]| > rest then |keys[0]| else rest
  }

  /** The bytes kept between pushes: the longest key and the longest value, the equals sign not counted. */
  function Keep(keys: seq<seq<byte>>): (n: nat)
    ensures forall i :: 0 <= i < |keys| ==> MAX_VALUE_LEN + |keys[i]| <= n
  {
    MAX_VALUE_LEN + MaxLength(keys)
  }

  type Facts = map<seq<byte>, seq<Code>>

  type FactsAt = nat -> Option<seq<Code>>

  ghost predicate IsFactAt(at: FactsAt, w: seq<byte>, key: seq<byte>, atEnd: bool) {
    forall p: nat {:trigger FactAt(w, key, p, atEnd)} :: at(p) == FactAt(w, key, p, atEnd)
  }

  /** `r` is the fact of the first occurrence below `limit` that has one. */
  ghost predicate IsFirst(at: FactsAt, limit: nat, r: Option<seq<Code>>) {
    match r
    case None => forall q: nat :: q < limit ==> at(q).None?
    case Some(_) => exists p: nat :: at(p) == r && forall q: nat :: q < p ==> at(q).None?
  }

  lemma NoFact(at: FactsAt, w: seq<byte>, key: seq<byte>, atEnd: bool, q: nat)
    requires IsFactAt(at, w, key, atEnd) && !Occurs(w, Needle(key), q)
    ensures at(q).None?
  {
    assert at(q) == FactAt(w, key, q, atEnd);
  }

  /** Between the start and the next occurrence, and inside that occurrence, nothing else occurs. */
  lemma OnlyThere(w: seq<byte>, key: seq<byte>, from: nat, offset: nat, q: nat)
    requires from <= |w| && EQUALS !in key && Occurs(w[from..], Needle(key), offset)
    requires forall r: nat :: r < offset ==> !Occurs(w[from..], Needle(key), r)
    requires from <= q < from + offset + |key| + 1 && q != from + offset
    ensures !Occurs(w, Needle(key), q)
  {
    ShiftOccurs(w, from, Needle(key), offset);
    if q < from + offset {
      ShiftOccurs(w, from, Needle(key), q - from);
    } else {
      NoOverlap(w, key, from + offset, q);
    }
  }

  /** Up to the next occurrence there is nothing, and at it the fact that stands there. */
  lemma NextOccurrence(at: FactsAt, w: seq<byte>, key: seq<byte>, atEnd: bool, from: nat, offset: nat)
    requires IsFactAt(at, w, key, atEnd) && from <= |w| && EQUALS !in key
    requires Occurs(w[from..], Needle(key), offset)
    requires forall q: nat :: q < offset ==> !Occurs(w[from..], Needle(key), q)
    ensures from + offset + |key| + 1 <= |w|
    ensures at(from + offset) == Fact(w[from + offset + |key| + 1..], atEnd)
    ensures forall q: nat :: from <= q < from + offset + |key| + 1 && q != from + offset ==> at(q).None?
  {
    ShiftOccurs(w, from, Needle(key), offset);
    assert at(from + offset) == FactAt(w, key, from + offset, atEnd);
    NothingBeside(at, w, key, atEnd, from, offset);
  }

  lemma NothingBeside(at: FactsAt, w: seq<byte>, key: seq<byte>, atEnd: bool, from: nat, offset: nat)
    requires IsFactAt(at, w, key, atEnd) && from <= |w| && EQUALS !in key
    requires Occurs(w[from..], Needle(key), offset)
    requires forall q: nat :: q < offset ==> !Occurs(w[from..], Needle(key), q)
    ensures forall q: nat :: from <= q < from + offset + |key| + 1 && q != from + offset ==> at(q).None?
  {
    forall q: nat | from <= q < from + offset + |key| + 1 && q != from + offset
      ensures at(q).None?
    {
      OnlyThere(w, key, from, offset, q);
      NoFact(at, w, key, atEnd, q);
    }
  }

  lemma NoMore(at: FactsAt, w: seq<byte>, key: seq<byte>, atEnd: bool, from: nat)
    requires IsFactAt(at, w, key, atEnd) && from <= |w|
    requires forall q: nat :: !Occurs(w[from..], Needle(key), q)
    ensures forall q: nat :: from <= q ==> at(q).None?
  {
    forall q: nat | from <= q
      ensures at(q).None?
    {
      assert at(q) == FactAt(w, key, q, atEnd);
      ShiftOccurs(w, from, Needle(key), q - from);
    }
  }

  lemma FirstGrows(at: FactsAt, from: nat, p: nat, start: nat, r: Option<seq<Code>>)
    requires IsFirst(at, from, r) && from <= p < start
    requires forall q: nat :: from <= q < start && q != p ==> at(q).None?
    ensures IsFirst(at, start, if r.Some? then r else at(p))
  {
  }

  lemma Advances(at: FactsAt, w: seq<byte>, key: seq<byte>, atEnd: bool, from: nat, offset: nat, r: Option<seq<Code>>)
    requires IsFactAt(at, w, key, atEnd) && from <= |w| && EQUALS !in key && IsFirst(at, from, r)
    requires Occurs(w[from..], Needle(key), offset)
    requires forall q: nat :: q < offset ==> !Occurs(w[from..], Needle(key), q)
    ensures var start := from + offset + |key| + 1;
            start <= |w| && IsFirst(at, start, if r.Some? then r else Fact(w[start..], atEnd))
  {
    NextOccurrence(at, w, key, atEnd, from, offset);
    FirstGrows(at, from, from + offset, from + offset + |key| + 1, r);
  }

  /** All occurrences of one key in a window; a value already known stays. */
  method FirstFact(window: seq<byte>, key: seq<byte>, atEnd: bool, ghost at: FactsAt) returns (r: Option<seq<Code>>)
    requires EQUALS !in key && IsFactAt(at, window, key, atEnd)
    ensures r.Some? ==> IsFirst(at, 0, r)
    ensures r.None? ==> forall q: nat :: at(q).None?
  {
    var from := 0;
    r := None;
    while true
      invariant 0 <= from <= |window| && IsFirst(at, from, r)
      decreases |window| - from
    {
      var offset := Find(window[from..], Needle(key));
      if offset.None? {
        NoMore(at, window, key, atEnd, from);
        return;
      }
      var start := from + offset.value + |key| + 1;
      Advances(at, window, key, atEnd, from, offset.value, r);
      var fact := Fact(window[start..], atEnd);
      if r.None? {
        r := fact;
      }
      from := start;
    }
  }

  // ----- What a scan does

  type FactFunction = (seq<byte>, seq<byte>, nat, bool) -> Option<seq<Code>>

  /** `fact` is `FactAt` under another name, which the proofs below need not see into. */
  ghost predicate IsFact(fact: FactFunction) {
    forall w, key, p, atEnd {:trigger FactAt(w, key, p, atEnd)} :: fact(w, key, p, atEnd) == FactAt(w, key, p, atEnd)
  }

  lemma Stays(fact: FactFunction, w: seq<byte>, more: seq<byte>, key: seq<byte>, p: nat, atEnd: bool)
    requires IsFact(fact) && fact(w, key, p, false).Some?
    ensures fact(w + more, key, p, atEnd) == fact(w, key, p, false)
  {
    assert fact(w, key, p, false) == FactAt(w, key, p, false);
    FactStays(w, more, key, p, atEnd);
    assert fact(w + more, key, p, atEnd) == FactAt(w + more, key, p, atEnd);
  }

  lemma StaysAtEnd(fact: FactFunction, w: seq<byte>, key: seq<byte>, p: nat)
    requires IsFact(fact) && fact(w, key, p, false).Some?
    ensures fact(w, key, p, true) == fact(w, key, p, false)
  {
    Stays(fact, w, [], key, p, true);
    assert w + [] == w;
  }

  lemma Shifted(fact: FactFunction, w: seq<byte>, lo: nat, key: seq<byte>, p: nat, atEnd: bool)
    requires IsFact(fact) && lo <= |w|
    ensures fact(w[lo..], key, p, atEnd) == fact(w, key, lo + p, atEnd)
  {
    ShiftFact(w, lo, key, p, atEnd);
    assert fact(w[lo..], key, p, atEnd) == FactAt(w[lo..], key, p, atEnd);
    assert fact(w, key, lo + p, atEnd) == FactAt(w, key, lo + p, atEnd);
  }

  /** One key of one scan: the first occurrence that yields a fact, unless the key is already known. */
  ghost predicate ScannedKey(fact: FactFunction, before: Facts, after: Facts, key: seq<byte>, w: seq<byte>, atEnd: bool) {
    if key in before then key in after && after[key] == before[key]
    else if key in after then
      exists p: nat :: fact(w, key, p, atEnd) == Some(after[key]) && forall q: nat :: q < p ==> fact(w, key, q, atEnd).None?
    else forall p: nat :: fact(w, key, p, atEnd).None?
  }

  ghost predicate Extends(facts: Facts, after: Facts) {
    forall k :: k in facts ==> k in after && after[k] == facts[k]
  }

  /** A scan of a window for all keys. */
  ghost predicate Scans(fact: FactFunction, keys: seq<seq<byte>>, facts: Facts, after: Facts, window: seq<byte>, atEnd: bool) {
    && Extends(facts, after) && after.Keys <= (set k | k in keys)
    && forall k :: k in keys ==> ScannedKey(fact, facts, after, k, window, atEnd)
  }

  /** Some occurrence at or behind `lo` yields this fact. */
  ghost predicate Yields(fact: FactFunction, w: seq<byte>, key: seq<byte>, text: seq<Code>, lo: nat, atEnd: bool) {
    exists p: nat :: lo <= p && fact(w, key, p, atEnd) == Some(text)
  }

  /** Every recorded fact is a fact of the bytes. */
  ghost predicate Genuine(fact: FactFunction, facts: Facts, w: seq<byte>, atEnd: bool) {
    forall k :: k in facts ==> Yields(fact, w, k, facts[k], 0, atEnd)
  }

  /** The key at `p` yields a fact decided by the byte before `e`, all within the tail and one byte. */
  ghost predicate Reaches(fact: FactFunction, keys: seq<seq<byte>>, w: seq<byte>, key: seq<byte>, p: nat, e: nat) {
    e <= |w| && e <= p + Keep(keys) + 1 && fact(w[..e], key, p, false).Some?
  }

  ghost predicate Caught(fact: FactFunction, keys: seq<seq<byte>>, facts: Facts, w: seq<byte>) {
    forall k, p: nat, e: nat :: k in keys && Reaches(fact, keys, w, k, p, e) ==> k in facts
  }

  /** The same for a value that the end of the member decides. */
  ghost predicate CaughtAtEnd(fact: FactFunction, keys: seq<seq<byte>>, facts: Facts, w: seq<byte>) {
    forall k, p: nat :: k in keys && |w| <= p + Keep(keys) && fact(w, k, p, true).Some? ==> k in facts
  }

  lemma NewFact(fact: FactFunction, before: Facts, after: Facts, key: seq<byte>, w: seq<byte>, lo: nat, atEnd: bool)
    requires IsFact(fact) && lo <= |w| && ScannedKey(fact, before, after, key, w[lo..], atEnd) && key in after && key !in before
    ensures Yields(fact, w, key, after[key], lo, atEnd)
  {
    var p: nat :| fact(w[lo..], key, p, atEnd) == Some(after[key]);
    Shifted(fact, w, lo, key, p, atEnd);
    assert fact(w, key, lo + p, atEnd) == Some(after[key]);
  }

  lemma NotMissed(fact: FactFunction, before: Facts, after: Facts, key: seq<byte>, w: seq<byte>, lo: nat, atEnd: bool, p: nat)
    requires IsFact(fact) && lo <= p && lo <= |w| && ScannedKey(fact, before, after, key, w[lo..], atEnd)
    requires fact(w, key, p, atEnd).Some?
    ensures key in after
  {
    Shifted(fact, w, lo, key, p - lo, atEnd);
  }

  lemma YieldsStays(fact: FactFunction, w: seq<byte>, more: seq<byte>, key: seq<byte>, text: seq<Code>, atEnd: bool)
    requires IsFact(fact) && Yields(fact, w, key, text, 0, false)
    ensures Yields(fact, w + more, key, text, 0, atEnd)
  {
    var p: nat :| fact(w, key, p, false) == Some(text);
    Stays(fact, w, more, key, p, atEnd);
  }

  /** A fact decided by one of the new bytes starts inside the window. */
  lemma InWindow(fact: FactFunction, keys: seq<seq<byte>>, w: seq<byte>, chunk: seq<byte>, key: seq<byte>, p: nat, e: nat)
    requires IsFact(fact) && Reaches(fact, keys, w + chunk, key, p, e)
    ensures Reaches(fact, keys, w, key, p, e)
            || (|w| - |Suffix(w, Keep(keys))| <= p && fact(w + chunk, key, p, false).Some?)
  {
    var all := w + chunk;
    if e <= |w| {
      assert all[..e] == w[..e];
    } else {
      Stays(fact, all[..e], all[e..], key, p, false);
      assert all[..e] + all[e..] == all;
    }
  }

  // ----- Which fact is recorded

  /** Until byte `e` is there, no occurrence behind `p` is decided. */
  ghost predicate NoneEarlier(fact: FactFunction, w: seq<byte>, key: seq<byte>, p: nat, e: nat) {
    forall q: nat, f: nat :: p < q && f < e && f <= |w| ==> fact(w[..f], key, q, false).None?
  }

  ghost predicate NoneBefore(fact: FactFunction, w: seq<byte>, key: seq<byte>, p: nat, atEnd: bool) {
    forall q: nat :: q < p ==> fact(w, key, q, atEnd).None?
  }

  /** The occurrence at `p` is within reach, no earlier one has a fact, and no later one is decided before byte `e`. */
  ghost predicate Earliest(fact: FactFunction, keys: seq<seq<byte>>, w: seq<byte>, key: seq<byte>, p: nat, e: nat) {
    Reaches(fact, keys, w, key, p, e) && NoneBefore(fact, w, key, p, false) && NoneEarlier(fact, w, key, p, e)
  }

  /** For such occurrences the recorded fact is theirs. */
  ghost predicate Led(fact: FactFunction, keys: seq<seq<byte>>, facts: Facts, w: seq<byte>) {
    forall k, p: nat, e: nat :: k in keys && Earliest(fact, keys, w, k, p, e) ==> k in facts && Some(facts[k]) == fact(w, k, p, false)
  }

  lemma EarliestBefore(fact: FactFunction, keys: seq<seq<byte>>, w: seq<byte>, chunk: seq<byte>, key: seq<byte>, p: nat, e: nat)
    requires IsFact(fact) && Earliest(fact, keys, w + chunk, key, p, e) && e <= |w|
    ensures Earliest(fact, keys, w, key, p, e)
  {
    var all := w + chunk;
    assert all[..e] == w[..e];
    forall q: nat | q < p
      ensures fact(w, key, q, false).None?
    {
      if fact(w, key, q, false).Some? {
        Stays(fact, w, chunk, key, q, false);
      }
    }
    forall q: nat, f: nat | p < q && f < e && f <= |w|
      ensures fact(w[..f], key, q, false).None?
    {
      assert all[..f] == w[..f];
    }
  }

  /** A fact recorded before byte `e` came is that of `p`. */
  lemma RecordedIsEarliest(fact: FactFunction, w: seq<byte>, chunk: seq<byte>, key: seq<byte>, p: nat, e: nat, text: seq<Code>, atEnd: bool)
    requires IsFact(fact) && NoneBefore(fact, w + chunk, key, p, atEnd) && NoneEarlier(fact, w + chunk, key, p, e)
    requires |w| < e && Yields(fact, w, key, text, 0, false)
    ensures fact(w + chunk, key, p, atEnd) == Some(text)
  {
    var all := w + chunk;
    var q: nat :| fact(w, key, q, false) == Some(text);
    Stays(fact, w, chunk, key, q, atEnd);
    assert all[..|w|] == w;
    assert fact(all[..|w|], key, q, false).Some?;
    assert q == p;
  }

  lemma FirstInWindow(fact: FactFunction, before: Facts, after: Facts, key: seq<byte>, w: seq<byte>, lo: nat, atEnd: bool, p: nat)
    requires IsFact(fact) && lo <= p && lo <= |w| && ScannedKey(fact, before, after, key, w[lo..], atEnd) && key !in before
    requires fact(w, key, p, atEnd).Some? && NoneBefore(fact, w, key, p, atEnd)
    ensures key in after && fact(w, key, p, atEnd) == Some(after[key])
  {
    NotMissed(fact, before, after, key, w, lo, atEnd, p);
    var r: nat :| fact(w[lo..], key, r, atEnd) == Some(after[key]) && forall q: nat :: q < r ==> fact(w[lo..], key, q, atEnd).None?;
    Shifted(fact, w, lo, key, r, atEnd);
    Shifted(fact, w, lo, key, p - lo, atEnd);
  }

  lemma LedOne(fact: FactFunction, keys: seq<seq<byte>>, facts: Facts, after: Facts, w: seq<byte>, chunk: seq<byte>,
               key: seq<byte>, p: nat, e: nat)
    requires IsFact(fact) && Genuine(fact, facts, w, false) && Led(fact, keys, facts, w) && key in keys
    requires Earliest(fact, keys, w + chunk, key, p, e)
    requires ScannedKey(fact, facts, after, key, (w + chunk)[|w| - |Suffix(w, Keep(keys))|..], false)
    ensures key in after && Some(after[key]) == fact(w + chunk, key, p, false)
  {
    if e <= |w| {
      EarliestBefore(fact, keys, w, chunk, key, p, e);
      assert fact(w, key, p, false) == Some(facts[key]);
      Stays(fact, w, chunk, key, p, false);
    } else if key in facts {
      RecordedIsEarliest(fact, w, chunk, key, p, e, facts[key], false);
    } else {
      InWindow(fact, keys, w, chunk, key, p, e);
      FirstInWindow(fact, facts, after, key, w + chunk, |w| - |Suffix(w, Keep(keys))|, false, p);
    }
  }

  /** The occurrence at `p` has the first fact; the byte before `e`, or the end, decides it within reach; and no later
      occurrence is decided before. */
  ghost predicate Leads(fact: FactFunction, keys: seq<seq<byte>>, w: seq<byte>, key: seq<byte>, p: nat, e: nat) {
    && fact(w, key, p, true).Some? && NoneBefore(fact, w, key, p, true)
    && e <= p + Keep(keys) + 1 && e <= |w| + 1 && (e <= |w| ==> fact(w[..e], key, p, false).Some?)
    && NoneEarlier(fact, w, key, p, e)
  }

  ghost predicate LedAtEnd(fact: FactFunction, keys: seq<seq<byte>>, facts: Facts, w: seq<byte>) {
    forall k, p: nat, e: nat :: k in keys && Leads(fact, keys, w, k, p, e) ==> k in facts && Some(facts[k]) == fact(w, k, p, true)
  }

  lemma LeadsIsEarliest(fact: FactFunction, keys: seq<seq<byte>>, w: seq<byte>, key: seq<byte>, p: nat, e: nat)
    requires IsFact(fact) && Leads(fact, keys, w, key, p, e) && e <= |w|
    ensures Earliest(fact, keys, w, key, p, e)
  {
    forall q: nat | q < p
      ensures fact(w, key, q, false).None?
    {
      if fact(w, key, q, false).Some? {
        StaysAtEnd(fact, w, key, q);
      }
    }
  }

  lemma LedEnd(fact: FactFunction, keys: seq<seq<byte>>, facts: Facts, after: Facts, w: seq<byte>, key: seq<byte>, p: nat, e: nat)
    requires IsFact(fact) && Genuine(fact, facts, w, false) && Led(fact, keys, facts, w) && key in keys && Leads(fact, keys, w, key, p, e)
    requires ScannedKey(fact, facts, after, key, w[|w| - |Suffix(w, Keep(keys))|..], true)
    ensures key in after && Some(after[key]) == fact(w, key, p, true)
  {
    if e <= |w| {
      LeadsIsEarliest(fact, keys, w, key, p, e);
      assert fact(w, key, p, false) == Some(facts[key]);
      StaysAtEnd(fact, w, key, p);
    } else if key in facts {
      assert w + [] == w;
      RecordedIsEarliest(fact, w, [], key, p, e, facts[key], true);
    } else {
      FirstInWindow(fact, facts, after, key, w, |w| - |Suffix(w, Keep(keys))|, true, p);
    }
  }

  // ----- What the scanner keeps

  /** Recorded facts are genuine, none within reach is missed, and where one occurrence leads it is the one recorded. */
  ghost predicate Sound(fact: FactFunction, keys: seq<seq<byte>>, facts: Facts, w: seq<byte>) {
    forall n: nat {:trigger Look(n)} :: Look(n) ==>
      Genuine(fact, facts, w, false) && Caught(fact, keys, facts, w) && Led(fact, keys, facts, w)
  }

  /** What the scanner promises about a member, however it was cut. */
  ghost predicate DescribesBy(fact: FactFunction, keys: seq<seq<byte>>, facts: Facts, member: seq<byte>) {
    && facts.Keys <= (set k | k in keys)
    && Genuine(fact, facts, member, true) && Caught(fact, keys, facts, member) && CaughtAtEnd(fact, keys, facts, member)
    && LedAtEnd(fact, keys, facts, member)
  }

  lemma NothingIsSound(fact: FactFunction, keys: seq<seq<byte>>)
    requires IsFact(fact)
    ensures Sound(fact, keys, map[], [])
  {
    forall k, p: nat, e: nat
      ensures !Reaches(fact, keys, [], k, p, e)
    {
      if e == 0 {
        assert fact([][..e], k, p, false) == FactAt([][..e], k, p, false);
      }
    }
  }

  /** Where the window of the next scan stands, and what is kept of it. */
  lemma WindowOf(w: seq<byte>, chunk: seq<byte>, n: nat)
    ensures (w + chunk)[|w| - |Suffix(w, n)|..] == Suffix(w, n) + chunk
    ensures Suffix(Suffix(w, n) + chunk, n) == Suffix(w + chunk, n)
  {
  }

  lemma FactsAreNew(fact: FactFunction, keys: seq<seq<byte>>, facts: Facts, after: Facts, w: seq<byte>, lo: nat, atEnd: bool)
    requires IsFact(fact) && lo <= |w| && Scans(fact, keys, facts, after, w[lo..], atEnd)
    ensures forall k :: k in after && k !in facts ==> Yields(fact, w, k, after[k], lo, atEnd)
  {
    forall k | k in after && k !in facts
      ensures Yields(fact, w, k, after[k], lo, atEnd)
    {
      NewFact(fact, facts, after, k, w, lo, atEnd);
    }
  }

  lemma GenuineGrows(fact: FactFunction, keys: seq<seq<byte>>, facts: Facts, after: Facts, w: seq<byte>, chunk: seq<byte>, lo: nat, atEnd: bool)
    requires IsFact(fact) && Genuine(fact, facts, w, false) && lo <= |w + chunk| && Scans(fact, keys, facts, after, (w + chunk)[lo..], atEnd)
    ensures Genuine(fact, after, w + chunk, atEnd)
  {
    FactsAreNew(fact, keys, facts, after, w + chunk, lo, atEnd);
    forall k | k in facts
      ensures Yields(fact, w + chunk, k, facts[k], 0, atEnd)
    {
      YieldsStays(fact, w, chunk, k, facts[k], atEnd);
    }
  }

  lemma CaughtGrows(fact: FactFunction, keys: seq<seq<byte>>, facts: Facts, after: Facts, w: seq<byte>, chunk: seq<byte>, lo: nat)
    requires IsFact(fact) && Caught(fact, keys, facts, w) && lo == |w| - |Suffix(w, Keep(keys))|
    requires Scans(fact, keys, facts, after, (w + chunk)[lo..], false)
    ensures Caught(fact, keys, after, w + chunk)
  {
    forall k, p: nat, e: nat | k in keys && Reaches(fact, keys, w + chunk, k, p, e)
      ensures k in after
    {
      InWindow(fact, keys, w, chunk, k, p, e);
      if !Reaches(fact, keys, w, k, p, e) {
        NotMissed(fact, facts, after, k, w + chunk, lo, false, p);
      }
    }
  }

  lemma LedGrows(fact: FactFunction, keys: seq<seq<byte>>, facts: Facts, after: Facts, w: seq<byte>, chunk: seq<byte>, lo: nat)
    requires IsFact(fact) && Genuine(fact, facts, w, false) && Led(fact, keys, facts, w) && lo == |w| - |Suffix(w, Keep(keys))|
    requires Scans(fact, keys, facts, after, (w + chunk)[lo..], false)
    ensures Led(fact, keys, after, w + chunk)
  {
    forall k, p: nat, e: nat | k in keys && Earliest(fact, keys, w + chunk, k, p, e)
      ensures k in after && Some(after[k]) == fact(w + chunk, k, p, false)
    {
      LedOne(fact, keys, facts, after, w, chunk, k, p, e);
    }
  }

  lemma SoundGrows(fact: FactFunction, keys: seq<seq<byte>>, facts: Facts, after: Facts, w: seq<byte>, chunk: seq<byte>, lo: nat)
    requires IsFact(fact) && Sound(fact, keys, facts, w) && lo == |w| - |Suffix(w, Keep(keys))|
    requires Scans(fact, keys, facts, after, (w + chunk)[lo..], false)
    ensures Sound(fact, keys, after, w + chunk)
  {
    assert Look(0);
    GenuineGrows(fact, keys, facts, after, w, chunk, lo, false);
    CaughtGrows(fact, keys, facts, after, w, chunk, lo);
    LedGrows(fact, keys, facts, after, w, chunk, lo);
  }

  lemma CaughtEnds(fact: FactFunction, keys: seq<seq<byte>>, facts: Facts, after: Facts, w: seq<byte>, lo: nat)
    requires IsFact(fact) && Caught(fact, keys, facts, w) && lo == |w| - |Suffix(w, Keep(keys))|
    requires Scans(fact, keys, facts, after, w[lo..], true)
    ensures Caught(fact, keys, after, w) && CaughtAtEnd(fact, keys, after, w)
  {
    forall k, p: nat | k in keys && |w| <= p + Keep(keys) && fact(w, k, p, true).Some?
      ensures k in after
    {
      NotMissed(fact, facts, after, k, w, lo, true, p);
    }
  }

  lemma LedEnds(fact: FactFunction, keys: seq<seq<byte>>, facts: Facts, after: Facts, w: seq<byte>, lo: nat)
    requires IsFact(fact) && Genuine(fact, facts, w, false) && Led(fact, keys, facts, w) && lo == |w| - |Suffix(w, Keep(keys))|
    requires Scans(fact, keys, facts, after, w[lo..], true)
    ensures LedAtEnd(fact, keys, after, w)
  {
    forall k, p: nat, e: nat | k in keys && Leads(fact, keys, w, k, p, e)
      ensures k in after && Some(after[k]) == fact(w, k, p, true)
    {
      LedEnd(fact, keys, facts, after, w, k, p, e);
    }
  }

  lemma SoundEnds(fact: FactFunction, keys: seq<seq<byte>>, facts: Facts, after: Facts, w: seq<byte>, lo: nat)
    requires IsFact(fact) && Sound(fact, keys, facts, w) && lo == |w| - |Suffix(w, Keep(keys))|
    requires Scans(fact, keys, facts, after, w[lo..], true)
    ensures DescribesBy(fact, keys, after, w)
  {
    assert Look(0);
    assert w + [] == w;
    GenuineGrows(fact, keys, facts, after, w, [], lo, true);
    CaughtEnds(fact, keys, facts, after, w, lo);
    LedEnds(fact, keys, facts, after, w, lo);
  }

  class BuildFactScanner {
    const keys: seq<seq<byte>>
    var tail: seq<byte>
    var found: Facts
    /** Everything pushed so far. */
    ghost var member: seq<byte>
    ghost const fact: FactFunction

    ghost predicate KeysOk() {
      && (forall i :: 0 <= i < |keys| ==> EQUALS !in keys[i])
      && (forall i, j :: 0 <= i < j < |keys| ==> keys[i] != keys[j])
    }

    ghost predicate Valid()
      reads this
    {
      && IsFact(fact) && KeysOk() && found.Keys <= (set k | k in keys)
      && tail == Suffix(member, Keep(keys))
      && Sound(fact, keys, found, member)
    }

    constructor (names: seq<seq<byte>>)
      requires forall i :: 0 <= i < |names| ==> EQUALS !in names[i]
      requires forall i, j :: 0 <= i < j < |names| ==> names[i] != names[j]
      ensures Valid() && keys == names && member == [] && found == map[] && fact == FactAt
    {
      keys := names;
      tail, found, member := [], map[], [];
      fact := FactAt;
      NothingIsSound(FactAt, names);
    }

    /** `entry(key).or_insert_with`, for the first fact of one key. */
    method ScanKey(key: seq<byte>, window: seq<byte>, atEnd: bool)
      requires EQUALS !in key && IsFact(fact)
      modifies this`found
      ensures ScannedKey(fact, old(found), found, key, window, atEnd)
      ensures found.Keys <= old(found).Keys + {key}
      ensures Extends(old(found), found)
    {
      ghost var all := fact;
      ghost var at := (p: nat) => all(window, key, p, atEnd);
      var first := FirstFact(window, key, atEnd, at);
      assert forall p: nat :: at(p) == fact(window, key, p, atEnd);
      if first.Some? && key !in found {
        found := found[key := first.value];
      }
    }

    method Scan(window: seq<byte>, atEnd: bool)
      requires IsFact(fact) && KeysOk() && found.Keys <= (set k | k in keys)
      modifies this`found
      ensures Scans(fact, keys, old(found), found, window, atEnd)
    {
      for i := 0 to |keys|
        invariant found.Keys <= (set k | k in keys) && Extends(old(found), found)
        invariant forall j :: 0 <= j < i ==> ScannedKey(fact, old(found), found, keys[j], window, atEnd)
        invariant forall j :: i <= j < |keys| ==> (keys[j] in found <==> keys[j] in old(found))
      {
        ghost var before := found;
        ScanKey(keys[i], window, atEnd);
        forall j | 0 <= j < |keys| && j != i
          ensures keys[j] in found <==> keys[j] in before
        {
          assert keys[j] != keys[i];
        }
      }
    }

    /** New facts come from the retained tail and the chunk; none within reach is missed. */
    method Push(chunk: seq<byte>)
      requires Valid()
      modifies this
      ensures Valid() && member == old(member) + chunk
      ensures Scans(fact, keys, old(found), found, old(tail) + chunk, false)
      ensures forall k :: k in found && k !in old(found) ==>
                            Yields(fact, member, k, found[k], |old(member)| - |old(tail)|, false)
    {
      var window := tail + chunk;
      ghost var lo := |member| - |tail|;
      Scan(window, false);
      WindowOf(member, chunk, Keep(keys));
      SoundGrows(fact, keys, old(found), found, member, chunk, lo);
      FactsAreNew(fact, keys, old(found), found, member + chunk, lo, false);
      member := member + chunk;
      tail := Suffix(window, Keep(keys));
    }

    method Finish() returns (facts: Facts)
      requires Valid()
      modifies this
      ensures member == old(member) && DescribesBy(fact, keys, facts, member)
      ensures Scans(fact, keys, old(found), facts, old(tail), true)
      ensures forall k :: k in facts && k !in old(found) ==> Yields(fact, member, k, facts[k], |member| - |old(tail)|, true)
    {
      var rest := tail;
      ghost var lo := |member| - |rest|;
      tail := [];
      Scan(rest, true);
      assert member[lo..] == rest;
      SoundEnds(fact, keys, old(found), found, member, lo);
      FactsAreNew(fact, keys, old(found), found, member, lo, true);
      return found;
    }
  }

  function Suffix(b: seq<byte>, n: nat): (r: seq<byte>)
    ensures |r| == if |b| <= n then |b| else n
  {
    if |b| <= n then b else b[|b| - n..]
  }

  // ----- Independence of the chunking

  ghost predicate Describes(keys: seq<seq<byte>>, facts: Facts, member: seq<byte>) {
    DescribesBy(FactAt, keys, facts, member)
  }

  /** These facts are recorded after these chunks. */
  ghost predicate Pushed(fact: FactFunction, keys: seq<seq<byte>>, chunks: seq<seq<byte>>, facts: Facts) {
    if chunks == [] then facts == map[]
    else
      var front, last := chunks[..|chunks| - 1], chunks[|chunks| - 1];
      exists before: Facts :: Pushed(fact, keys, front, before)
                              && Scans(fact, keys, before, facts, Suffix(Flatten(front), Keep(keys)) + last, false)
  }

  /** This is what the scanner returns for a member in these chunks. */
  ghost predicate OutcomeBy(fact: FactFunction, keys: seq<seq<byte>>, chunks: seq<seq<byte>>, facts: Facts) {
    exists before: Facts :: Pushed(fact, keys, chunks, before)
                            && Scans(fact, keys, before, facts, Suffix(Flatten(chunks), Keep(keys)), true)
  }

  ghost predicate Outcome(keys: seq<seq<byte>>, chunks: seq<seq<byte>>, facts: Facts) {
    OutcomeBy(FactAt, keys, chunks, facts)
  }

  method ScanMember(keys: seq<seq<byte>>, chunks: seq<seq<byte>>) returns (facts: Facts)
    requires forall i :: 0 <= i < |keys| ==> EQUALS !in keys[i]
    requires forall i, j :: 0 <= i < j < |keys| ==> keys[i] != keys[j]
    ensures Describes(keys, facts, Flatten(chunks)) && Outcome(keys, chunks, facts)
  {
    var scanner := new BuildFactScanner(keys);
    assert chunks[..0] == [];
    for i := 0 to |chunks|
      invariant scanner.Valid() && scanner.keys == keys && scanner.fact == FactAt && scanner.member == Flatten(chunks[..i])
      invariant Pushed(scanner.fact, keys, chunks[..i], scanner.found)
    {
      assert chunks[..i + 1][..i] == chunks[..i];
      ghost var before := scanner.found;
      scanner.Push(chunks[i]);
      assert Pushed(scanner.fact, keys, chunks[..i], before);
    }
    assert chunks[..|chunks|] == chunks;
    facts := scanner.Finish();
  }

  /** The bytes of a value and the one that ends it decide the value. */
  lemma EndDecides(rest: seq<byte>, value: seq<byte>, n: nat)
    requires Value(rest, true) == Some(value) && |value| <= MAX_VALUE_LEN
    requires n == |value| + (if rest != [] && rest[0] == QUOTE then 2 else 1) && n <= |rest|
    ensures Value(rest[..n], false) == Some(value)
  {
    var short := rest[..n];
    var bounded := if |rest| <= MAX_VALUE_LEN + 2 then rest else rest[..MAX_VALUE_LEN + 2];
    assert short <= bounded;
    if rest[0] == QUOTE {
      assert IsQuote(short[1..][|value|]);
      assert short[1..] <= bounded[1..];
      PositionExtends(short[1..], bounded[1..], IsQuote);
      assert short[1..1 + |value|] == bounded[1..1 + |value|];
    } else {
      assert IsTerminator(short[|value|]);
      PositionExtends(short, bounded, IsTerminator);
      assert short[..|value|] == bounded[..|value|];
    }
  }

  /** The bytes from the key to the byte before the deciding one. */
  function Span(key: seq<byte>, rest: seq<byte>, value: seq<byte>): (n: nat) {
    |key| + 1 + |value| + (if rest != [] && rest[0] == QUOTE then 1 else 0)
  }

  /** Where the byte that decides the fact at `p` stands. */
  ghost function DecidedAt(member: seq<byte>, key: seq<byte>, p: nat): (e: nat)
    requires FactAt(member, key, p, true).Some?
  {
    var rest := member[p + |key| + 1..];
    p + Span(key, rest, Value(rest, true).value)
  }

  lemma FactOfPrefix(w: seq<byte>, key: seq<byte>, p: nat, e: nat)
    requires Occurs(w, Needle(key), p) && p + |key| + 1 <= e <= |w|
    ensures FactAt(w[..e], key, p, false) == Fact(w[p + |key| + 1..e], false)
  {
    var start := p + |key| + 1;
    assert w[..e][start..] == w[start..e];
    assert w[..e][p..start] == w[p..start];
  }

  lemma ValueOfPrefix(rest: seq<byte>, n: nat)
    requires Fact(rest, true).Some?
    requires n == |Value(rest, true).value| + (if rest != [] && rest[0] == QUOTE then 2 else 1)
    ensures n <= |rest| + 1 && (n <= |rest| ==> Fact(rest[..n], false).Some?)
  {
    NeverTruncated(rest, true);
    if n <= |rest| {
      EndDecides(rest, Value(rest, true).value, n);
    }
  }

  /** The byte that decides a fact is in the member, or the member ends there. */
  lemma DecidingByte(w: seq<byte>, key: seq<byte>, p: nat)
    requires FactAt(w, key, p, true).Some?
    ensures var e := DecidedAt(w, key, p) + 1;
            e <= |w| + 1 && (e <= |w| ==> FactAt(w[..e], key, p, false).Some?)
  {
    var start := p + |key| + 1;
    var rest := w[start..];
    var n := Span(key, rest, Value(rest, true).value) - |key|;
    ValueOfPrefix(rest, n);
    if start + n <= |w| {
      FactOfPrefix(w, key, p, start + n);
      assert w[start..start + n] == rest[..n];
    }
  }

  /** A decided value's last byte is there. */
  lemma DecidedInside(rest: seq<byte>)
    requires Value(rest, false).Some?
    ensures |Value(rest, false).value| + (if rest != [] && rest[0] == QUOTE then 2 else 1) <= |rest|
  {
  }

  lemma DecidedBefore(member: seq<byte>, key: seq<byte>, q: nat, f: nat)
    requires f <= |member| && FactAt(member[..f], key, q, false).Some?
    ensures FactAt(member, key, q, true).Some? && DecidedAt(member, key, q) < f
  {
    var start := q + |key| + 1;
    var short := member[..f];
    FactStays(short, member[f..], key, q, true);
    assert short + member[f..] == member;
    DecidedInside(short[start..]);
    Decided(short[start..], member[f..], true);
    assert short[start..] + member[f..] == member[start..];
  }

  /** No occurrence behind `p` is decided before the one at `p` is. */
  ghost predicate DecidedFirst(member: seq<byte>, key: seq<byte>, p: nat)
    requires FactAt(member, key, p, true).Some?
  {
    forall q: nat :: p < q && FactAt(member, key, q, true).Some? ==> DecidedAt(member, key, p) <= DecidedAt(member, key, q)
  }

  /**
   * The first fact of a key, when its text up to the deciding byte fits the
   * tail and no later occurrence is decided before it, is the one recorded
   * under every chunking.
   */
  lemma EveryChunking(keys: seq<seq<byte>>, facts: Facts, member: seq<byte>, key: seq<byte>, p: nat)
    requires Describes(keys, facts, member) && key in keys
    requires FactAt(member, key, p, true).Some? && forall q: nat :: q < p ==> FactAt(member, key, q, true).None?
    requires DecidedAt(member, key, p) <= p + Keep(keys) && DecidedFirst(member, key, p)
    ensures key in facts && Some(facts[key]) == FactAt(member, key, p, true)
  {
    var e := DecidedAt(member, key, p) + 1;
    DecidingByte(member, key, p);
    forall q: nat, f: nat | p < q && f < e && f <= |member|
      ensures FactAt(member[..f], key, q, false).None?
    {
      if FactAt(member[..f], key, q, false).Some? {
        DecidedBefore(member, key, q, f);
      }
    }
    assert Leads(FactAt, keys, member, key, p, e);
  }

  /** Without the byte that ends it, a value is not decided. */
  lemma NotYetDecided(rest: seq<byte>, value: seq<byte>, n: nat)
    requires Value(rest, true) == Some(value) && Ends(rest, value)
    requires n == |value| + (if rest != [] && rest[0] == QUOTE then 1 else 0)
    ensures n <= |rest| && Value(rest[..n], false).None?
  {
    var short := rest[..n];
    var bounded := if |short| <= MAX_VALUE_LEN + 2 then short else short[..MAX_VALUE_LEN + 2];
    if rest != [] && rest[0] == QUOTE {
      assert short[1..] == value;
      assert forall i :: 0 <= i < |bounded[1..]| ==> bounded[1..][i] == value[i] && value[i] in value;
    } else {
      assert short == value;
    }
  }

  lemma PrefixOccurs(w: seq<byte>, c: nat, needle: seq<byte>, q: nat)
    requires c <= |w| && Occurs(w[..c], needle, q)
    ensures Occurs(w, needle, q)
  {
    assert w[..c][q..q + |needle|] == w[q..q + |needle|];
  }

  lemma NothingAt(member: seq<byte>, key: seq<byte>, p: nat, c: nat)
    requires FactAt(member, key, p, true).Some?
    requires var rest := member[p + |key| + 1..]; c == p + Span(key, rest, Value(rest, true).value)
    ensures c <= |member| && FactAt(member[..c], key, p, false).None?
  {
    var start := p + |key| + 1;
    var rest := member[start..];
    NeverTruncated(rest, true);
    NotYetDecided(rest, Value(rest, true).value, c - start);
    assert member[..c][start..] == rest[..c - start];
  }

  /** Before the deciding byte is there, the only occurrence yields nothing. */
  lemma NothingYet(member: seq<byte>, key: seq<byte>, p: nat, c: nat)
    requires FactAt(member, key, p, true).Some?
    requires forall q: nat :: Occurs(member, Needle(key), q) ==> q == p
    requires var rest := member[p + |key| + 1..]; c == p + Span(key, rest, Value(rest, true).value)
    ensures c <= |member| && forall q: nat :: FactAt(member[..c], key, q, false).None?
  {
    NothingAt(member, key, p, c);
    forall q: nat
      ensures FactAt(member[..c], key, q, false).None?
    {
      if q != p && Occurs(member[..c], Needle(key), q) {
        PrefixOccurs(member, c, Needle(key), q);
      }
    }
  }

  lemma NotYielded(fact: FactFunction, w: seq<byte>, key: seq<byte>, lo: nat, atEnd: bool)
    requires IsFact(fact) && forall q: nat :: lo <= q ==> FactAt(w, key, q, atEnd).None?
    ensures forall text :: !Yields(fact, w, key, text, lo, atEnd)
  {
    forall q: nat | lo <= q
      ensures fact(w, key, q, atEnd).None?
    {
      assert fact(w, key, q, atEnd) == FactAt(w, key, q, atEnd);
    }
  }

  /**
   * The bound is exact.  When the text of a key's only occurrence up to the
   * deciding byte is longer than the tail, a chunk that ends right there makes
   * the scanner miss it: the tail no longer holds the first byte of the key.
   */
  method MissesWhenCutThere(keys: seq<seq<byte>>, member: seq<byte>, key: seq<byte>, ghost p: nat, c: nat)
    returns (facts: Facts)
    requires forall i :: 0 <= i < |keys| ==> EQUALS !in keys[i]
    requires forall i, j :: 0 <= i < j < |keys| ==> keys[i] != keys[j]
    requires key in keys && FactAt(member, key, p, true).Some?
    requires forall q: nat :: Occurs(member, Needle(key), q) ==> q == p
    requires c == DecidedAt(member, key, p) > p + Keep(keys)
    ensures Describes(keys, facts, member) && key !in facts
  {
    NothingYet(member, key, p, c);
    var scanner := new BuildFactScanner(keys);
    scanner.Push(member[..c]);
    assert scanner.member == member[..c];
    NotYielded(scanner.fact, member[..c], key, 0, false);
    assert key !in scanner.found;
    ghost var lo := c - |scanner.tail|;
    scanner.Push(member[c..]);
    assert scanner.member == member;
    NotYielded(scanner.fact, member, key, lo, false);
    assert key !in scanner.found;
    lo := |member| - |scanner.tail|;
    facts := scanner.Finish();
    NotYielded(scanner.fact, member, key, lo, true);
  }

  /** Before the byte that decides the first fact there is a fact only of later occurrences. */
  lemma OnlyLater(fact: FactFunction, member: seq<byte>, key: seq<byte>, p: nat, c: nat, text: seq<Code>)
    requires IsFact(fact) && FactAt(member, key, p, true).Some? && forall q: nat :: q < p ==> FactAt(member, key, q, true).None?
    requires c <= |member| && c <= DecidedAt(member, key, p) && Yields(fact, member[..c], key, text, 0, false)
    ensures exists r: nat :: p < r && FactAt(member, key, r, true) == Some(text)
  {
    var r: nat :| fact(member[..c], key, r, false) == Some(text);
    assert FactAt(member[..c], key, r, false) == Some(text);
    DecidedBefore(member, key, r, c);
    FactStays(member[..c], member[c..], key, r, true);
    assert member[..c] + member[c..] == member;
    assert p < r;
  }

  lemma FirstOfWhole(fact: FactFunction, keys: seq<seq<byte>>, facts: Facts, member: seq<byte>, key: seq<byte>, p: nat)
    requires IsFact(fact) && key in keys && Scans(fact, keys, map[], facts, member, false)
    requires FactAt(member, key, p, true).Some? && forall q: nat :: q < p ==> FactAt(member, key, q, true).None?
    requires DecidedAt(member, key, p) < |member|
    ensures key in facts && Some(facts[key]) == FactAt(member, key, p, true)
  {
    DecidingByte(member, key, p);
    var e := DecidedAt(member, key, p) + 1;
    FactStays(member[..e], member[e..], key, p, false);
    FactStays(member[..e], member[e..], key, p, true);
    assert member[..e] + member[e..] == member;
    assert fact(member, key, p, false) == FactAt(member, key, p, false);
    forall q: nat | q < p
      ensures fact(member, key, q, false).None?
    {
      assert fact(member, key, q, true) == FactAt(member, key, q, true);
      if fact(member, key, q, false).Some? {
        StaysAtEnd(fact, member, key, q);
      }
    }
    assert member[0..] == member;
    FirstInWindow(fact, map[], facts, key, member, 0, false, p);
  }

  /**
   * The other condition is needed too.  When a later occurrence is decided
   * before the first fact is, a cut behind the byte that decides it gives the
   * fact of some later occurrence.  The member in one chunk gives the first
   * fact when a byte decides that, and a later one when only the end does.
   */
  method LaterDecidedFirst(keys: seq<seq<byte>>, member: seq<byte>, key: seq<byte>, ghost p: nat, ghost q: nat, c: nat)
    returns (whole: Facts, cut: Facts)
    requires forall i :: 0 <= i < |keys| ==> EQUALS !in keys[i]
    requires forall i, j :: 0 <= i < j < |keys| ==> keys[i] != keys[j]
    requires key in keys && FactAt(member, key, p, true).Some? && forall r: nat :: r < p ==> FactAt(member, key, r, true).None?
    requires DecidedAt(member, key, p) <= p + Keep(keys)
    requires p < q && FactAt(member, key, q, true).Some? && c == DecidedAt(member, key, q) + 1 <= DecidedAt(member, key, p)
    ensures Describes(keys, whole, member) && Describes(keys, cut, member) && key in whole && key in cut
    ensures if DecidedAt(member, key, p) < |member| then Some(whole[key]) == FactAt(member, key, p, true)
            else exists r: nat :: p < r && FactAt(member, key, r, true) == Some(whole[key])
    ensures exists r: nat :: p < r && FactAt(member, key, r, true) == Some(cut[key])
  {
    IsItself();
    DecidingByte(member, key, p);
    ghost var early;
    whole, early := ScanCut(keys, member, |member|);
    assert member[..|member|] == member;
    if DecidedAt(member, key, p) < |member| {
      FirstOfWhole(FactAt, keys, early, member, key, p);
    } else {
      LaterIsCaught(FactAt, keys, early, member, key, p, q, |member|);
    }
    cut, early := ScanCut(keys, member, c);
    LaterIsCaught(FactAt, keys, early, member, key, p, q, c);
  }

  lemma IsItself()
    ensures IsFact(FactAt)
  {
  }

  /** The member in two chunks, and what the first one gave. */
  method ScanCut(keys: seq<seq<byte>>, member: seq<byte>, c: nat) returns (facts: Facts, ghost early: Facts)
    requires forall i :: 0 <= i < |keys| ==> EQUALS !in keys[i]
    requires forall i, j :: 0 <= i < j < |keys| ==> keys[i] != keys[j]
    requires c <= |member|
    ensures Describes(keys, facts, member) && Extends(early, facts)
    ensures Sound(FactAt, keys, early, member[..c]) && Scans(FactAt, keys, map[], early, member[..c], false)
  {
    var scanner := new BuildFactScanner(keys);
    assert [] + member[..c] == member[..c];
    scanner.Push(member[..c]);
    early := scanner.found;
    assert member[..c] + member[c..] == member;
    scanner.Push(member[c..]);
    facts := scanner.Finish();
  }

  lemma LaterIsCaught(fact: FactFunction, keys: seq<seq<byte>>, facts: Facts, member: seq<byte>, key: seq<byte>, p: nat, q: nat, c: nat)
    requires IsFact(fact) && key in keys && c <= |member| && Sound(fact, keys, facts, member[..c])
    requires FactAt(member, key, p, true).Some? && forall r: nat :: r < p ==> FactAt(member, key, r, true).None?
    requires p < q && FactAt(member, key, q, true).Some?
    requires DecidedAt(member, key, q) < c <= DecidedAt(member, key, p) <= p + Keep(keys)
    ensures key in facts && exists r: nat :: p < r && FactAt(member, key, r, true) == Some(facts[key])
  {
    DecidingByte(member, key, q);
    var e := DecidedAt(member, key, q) + 1;
    assert member[..c] == member[..e] + member[e..c];
    FactStays(member[..e], member[e..c], key, q, false);
    CaughtIn(fact, keys, facts, member[..c], key, q, c);
    OnlyLater(fact, member, key, p, c, facts[key]);
  }

  lemma CaughtIn(fact: FactFunction, keys: seq<seq<byte>>, facts: Facts, w: seq<byte>, key: seq<byte>, q: nat, e: nat)
    requires IsFact(fact) && Sound(fact, keys, facts, w) && key in keys && e == |w| <= q + Keep(keys) + 1
    requires FactAt(w, key, q, false).Some?
    ensures key in facts && Yields(fact, w, key, facts[key], 0, false)
  {
    assert Look(0);
    assert w[..e] == w;
    assert fact(w[..e], key, q, false) == FactAt(w[..e], key, q, false);
    assert Reaches(fact, keys, w, key, q, e);
  }

  // ----- A key that is repeated inside its own value

  predicate PlainKey(key: seq<byte>) {
    1 <= |key| <= 100 && forall i :: 0 <= i < |key| ==> 0x21 <= key[i] <= 0x7e && key[i] != EQUALS && key[i] != QUOTE
  }

  /** `a KEY=b c`. */
  function Quoted(key: seq<byte>): (r: seq<byte>) {
    [0x61, 0x20] + key + [EQUALS, 0x62, 0x20, 0x63]
  }

  /** `KEY="a KEY=b c"`. */
  function Repeated(key: seq<byte>): (r: seq<byte>) {
    key + [EQUALS] + ([QUOTE] + Quoted(key) + [QUOTE])
  }

  lemma {:induction false} PositionIs(text: seq<byte>, more: seq<byte>, stop: byte -> bool)
    requires (forall i :: 0 <= i < |text| ==> !stop(text[i])) && more != [] && stop(more[0])
    ensures Position(text + more, stop) == |text|
  {
    if text == [] {
      assert text + more == more;
    } else {
      assert (text + more)[1..] == text[1..] + more;
      PositionIs(text[1..], more, stop);
    }
  }

  /** Printable ASCII text that neither starts nor ends with a blank is claimed as it is. */
  lemma ClaimsText(value: seq<byte>)
    requires 1 <= |value| <= MAX_VALUE_LEN && (forall i :: 0 <= i < |value| ==> 0x20 <= value[i] <= 0x7e)
    requires value[0] != 0x20 && value[|value| - 1] != 0x20
    ensures Claim(value).Some? && |Claim(value).value| == |value|
  {
    AsciiDecodes(value);
    var all := Decode(value).value;
    NothingToTrim(all, IsBlank);
  }

  lemma QuotedIsFact(key: seq<byte>)
    requires PlainKey(key)
    ensures var rest := [QUOTE] + Quoted(key) + [QUOTE];
            Value(rest, true) == Some(Quoted(key)) && Claim(Quoted(key)).Some? && |Claim(Quoted(key)).value| == |key| + 6
  {
    var inner := Quoted(key);
    var rest := [QUOTE] + inner + [QUOTE];
    assert rest[1..] == inner + [QUOTE];
    PositionIs(inner, [QUOTE], IsQuote);
    assert rest[1..1 + |inner|] == inner;
    ClaimsText(inner);
  }

  lemma BareIsFact()
    ensures var rest: seq<byte> := [0x62, 0x20, 0x63, QUOTE];
            Value(rest, true) == Some([0x62]) && Claim([0x62]).Some? && |Claim([0x62]).value| == 1
  {
    var rest: seq<byte> := [0x62, 0x20, 0x63, QUOTE];
    PositionIs([0x62], [0x20, 0x63, QUOTE], IsTerminator);
    assert [0x62] + [0x20, 0x63, QUOTE] == rest;
    assert rest[..1] == [0x62];
    ClaimsText([0x62]);
  }

  lemma RepeatedParts(key: seq<byte>)
    ensures var w := Repeated(key);
            && |w| == 2 * |key| + 9 && w[..|key| + 1] == Needle(key) && w[|key| + 1..] == [QUOTE] + Quoted(key) + [QUOTE]
            && w[|key| + 4..2 * |key| + 5] == Needle(key) && w[2 * |key| + 5..] == [0x62, 0x20, 0x63, QUOTE]
  {
  }

  /** The key occurs twice, and nowhere else. */
  lemma OnlyTwice(key: seq<byte>, r: nat)
    requires PlainKey(key) && Occurs(Repeated(key), Needle(key), r)
    ensures r == 0 || r == |key| + 4
  {
    var w := Repeated(key);
    assert w[r..r + |key| + 1][|key|] == w[r + |key|];
    assert Needle(key)[|key|] == EQUALS;
  }

  lemma FirstOfTwo(key: seq<byte>)
    requires PlainKey(key)
    ensures var w := Repeated(key);
            && FactAt(w, key, 0, true) == Claim(Quoted(key)) && FactAt(w, key, 0, true).Some?
            && DecidedAt(w, key, 0) == 2 * |key| + 8
  {
    RepeatedParts(key);
    QuotedIsFact(key);
  }

  lemma SecondOfTwo(key: seq<byte>)
    requires PlainKey(key)
    ensures var w, q := Repeated(key), |key| + 4;
            && FactAt(w, key, q, true) == Claim([0x62]) && FactAt(w, key, q, true).Some?
            && DecidedAt(w, key, q) == 2 * |key| + 6
  {
    RepeatedParts(key);
    BareIsFact();
  }

  /** For every key of the parser's kind, the value recorded for `KEY="a KEY=b c"` depends on where the chunk ends. */
  method RepeatedKey(keys: seq<seq<byte>>, key: seq<byte>) returns (whole: Facts, cut: Facts)
    requires forall i :: 0 <= i < |keys| ==> EQUALS !in keys[i]
    requires forall i, j :: 0 <= i < j < |keys| ==> keys[i] != keys[j]
    requires key in keys && PlainKey(key)
    ensures Describes(keys, whole, Repeated(key)) && Describes(keys, cut, Repeated(key))
    ensures key in whole && key in cut && whole[key] != cut[key]
  {
    FirstOfTwo(key);
    SecondOfTwo(key);
    RepeatedParts(key);
    whole, cut := LaterDecidedFirst(keys, Repeated(key), key, 0, |key| + 4, 2 * |key| + 7);
    QuotedIsFact(key);
    BareIsFact();
    ghost var r: nat :| 0 < r && FactAt(Repeated(key), key, r, true) == Some(cut[key]);
    OnlyTwice(key, r);
  }

  function BuildFactKeys(): (keys: seq<seq<byte>>) {
    [Ascii("const.ohos.fullname"), Ascii("const.product.model"), Ascii("const.product.name")]
  }

  /** The keys of the parser, and the 275 bytes it keeps. */
  lemma BuildFactKeysFit()
    ensures forall i :: 0 <= i < |BuildFactKeys()| ==> EQUALS !in BuildFactKeys()[i]
    ensures forall i, j :: 0 <= i < j < |BuildFactKeys()| ==> BuildFactKeys()[i] != BuildFactKeys()[j]
    ensures Keep(BuildFactKeys()) == 275
  {
    var keys := BuildFactKeys();
    assert keys[0][6] != keys[1][6] && keys[0][6] != keys[2][6] && |keys[1]| != |keys[2]|;
    var two, one := [keys[1], keys[2]], [keys[2]];
    assert keys[1..] == two && two[1..] == one;
    assert MaxLength(one) == 18;
    assert MaxLength(keys[1..]) == 19;
  }
}
