/** When what the scanner finds does not depend on how the member was cut. */
module ScannerChunking {
  import opened Bits
  import opened Results
  import opened Seal
  import opened Chunks
  import opened Text
  import opened Scanner

  /** Every way to cut the member gives this text for the key. */
  ghost predicate AlwaysGives(keys: seq<seq<byte>>, member: seq<byte>, key: seq<byte>, text: seq<Code>) {
    forall chunks, facts :: Flatten(chunks) == member && Outcome(keys, chunks, facts) ==> key in facts && facts[key] == text
  }

  /** Of what is decided in the first `c` bytes, the occurrence at `r` comes first. */
  ghost predicate FirstDecided(fact: FactFunction, member: seq<byte>, key: seq<byte>, c: nat, r: nat)
    requires c <= |member|
  {
    fact(member[..c], key, r, false).Some? && NoneBefore(fact, member[..c], key, r, false)
  }

  /** Whatever is decided first before byte `d` is there has this text. */
  ghost predicate NoneAhead(fact: FactFunction, member: seq<byte>, key: seq<byte>, d: nat, text: seq<Code>) {
    forall c: nat, r: nat :: c <= d && c <= |member| && FirstDecided(fact, member, key, c, r) ==> fact(member[..c], key, r, false) == Some(text)
  }

  /** The first fact of the member stands at `p`, its text is within reach, and byte `d` or the end decides it. */
  ghost predicate Leading(fact: FactFunction, keys: seq<seq<byte>>, member: seq<byte>, key: seq<byte>, p: nat, d: nat, text: seq<Code>) {
    && fact(member, key, p, true) == Some(text) && NoneBefore(fact, member, key, p, true)
    && d <= p + Keep(keys) && d <= |member| && (d < |member| ==> fact(member[..d + 1], key, p, false).Some?)
  }

  // ----- A condition that suffices

  lemma PrefixNoneBefore(fact: FactFunction, member: seq<byte>, key: seq<byte>, p: nat, c: nat)
    requires IsFact(fact) && c <= |member| && NoneBefore(fact, member, key, p, true)
    ensures NoneBefore(fact, member[..c], key, p, false)
  {
    assert member[..c] + member[c..] == member;
    forall q: nat | q < p
      ensures fact(member[..c], key, q, false).None?
    {
      if fact(member[..c], key, q, false).Some? {
        Stays(fact, member[..c], member[c..], key, q, true);
      }
    }
  }

  /** Once byte `d` is there, the fact at `p` is decided. */
  lemma LeaderDecided(fact: FactFunction, keys: seq<seq<byte>>, member: seq<byte>, key: seq<byte>, p: nat, d: nat, text: seq<Code>, c: nat)
    requires IsFact(fact) && Leading(fact, keys, member, key, p, d, text) && d < c <= |member|
    ensures fact(member[..c], key, p, false) == Some(text)
  {
    assert member[..d + 1] + member[d + 1..c] == member[..c];
    Stays(fact, member[..d + 1], member[d + 1..c], key, p, false);
    assert member[..c] + member[c..] == member;
    Stays(fact, member[..c], member[c..], key, p, true);
  }

  /** A new fact of a window that reaches back to `p` is the first one decided. */
  lemma NewIsFirst(fact: FactFunction, before: Facts, after: Facts, key: seq<byte>, w: seq<byte>, lo: nat, p: nat) returns (r: nat)
    requires IsFact(fact) && lo <= p && lo <= |w| && ScannedKey(fact, before, after, key, w[lo..], false)
    requires key in after && key !in before && NoneBefore(fact, w, key, p, false)
    ensures fact(w, key, r, false) == Some(after[key]) && NoneBefore(fact, w, key, r, false)
  {
    var i: nat :| fact(w[lo..], key, i, false) == Some(after[key]) && forall q: nat :: q < i ==> fact(w[lo..], key, q, false).None?;
    r := lo + i;
    Shifted(fact, w, lo, key, i, false);
    forall q: nat | q < r
      ensures fact(w, key, q, false).None?
    {
      if lo <= q {
        Shifted(fact, w, lo, key, q - lo, false);
      }
    }
  }

  /** After a part of the member: nothing else is recorded, and the leader is once its last byte was there. */
  ghost predicate OnCourse(facts: Facts, key: seq<byte>, text: seq<Code>, c: nat, d: nat) {
    (key in facts ==> facts[key] == text) && (c > d ==> key in facts)
  }

  lemma StaysOnCourse(fact: FactFunction, keys: seq<seq<byte>>, member: seq<byte>, key: seq<byte>, p: nat, d: nat, text: seq<Code>,
                      before: Facts, after: Facts, b: nat, c: nat)
    requires IsFact(fact) && Leading(fact, keys, member, key, p, d, text) && NoneAhead(fact, member, key, d, text)
    requires b <= c <= |member| && OnCourse(before, key, text, b, d)
    requires ScannedKey(fact, before, after, key, member[..c][b - |Suffix(member[..b], Keep(keys))|..], false)
    ensures OnCourse(after, key, text, c, d)
  {
    var w, lo := member[..c], b - |Suffix(member[..b], Keep(keys))|;
    PrefixNoneBefore(fact, member, key, p, c);
    if key in before {
    } else if c > d {
      LeaderDecided(fact, keys, member, key, p, d, text, c);
      FirstInWindow(fact, before, after, key, w, lo, false, p);
    } else if key in after {
      var r := NewIsFirst(fact, before, after, key, w, lo, p);
      assert FirstDecided(fact, member, key, c, r);
    }
  }

  lemma CutAt(w: seq<byte>, chunk: seq<byte>, member: seq<byte>, keep: nat)
    requires w + chunk <= member
    ensures var c := |w + chunk|;
            && member[..|w|] == w
            && Suffix(w, keep) + chunk == member[..c][|w| - |Suffix(member[..|w|], keep)|..]
  {
    assert member[..|w|] == w && member[..|w + chunk|] == w + chunk;
    WindowOf(w, chunk, keep);
  }

  lemma {:induction false} PushedOnCourse(fact: FactFunction, keys: seq<seq<byte>>, member: seq<byte>, key: seq<byte>, p: nat, d: nat,
                                          text: seq<Code>, chunks: seq<seq<byte>>, facts: Facts)
    requires IsFact(fact) && key in keys && Leading(fact, keys, member, key, p, d, text) && NoneAhead(fact, member, key, d, text)
    requires Flatten(chunks) <= member && Pushed(fact, keys, chunks, facts)
    ensures OnCourse(facts, key, text, |Flatten(chunks)|, d)
    decreases |chunks|
  {
    if chunks == [] {
    } else {
      var front, last := chunks[..|chunks| - 1], chunks[|chunks| - 1];
      var before: Facts :| Pushed(fact, keys, front, before)
                           && Scans(fact, keys, before, facts, Suffix(Flatten(front), Keep(keys)) + last, false);
      PushedOnCourse(fact, keys, member, key, p, d, text, front, before);
      ChunkOnCourse(fact, keys, member, key, p, d, text, Flatten(front), last, before, facts);
    }
  }

  lemma ChunkOnCourse(fact: FactFunction, keys: seq<seq<byte>>, member: seq<byte>, key: seq<byte>, p: nat, d: nat, text: seq<Code>,
                      w: seq<byte>, chunk: seq<byte>, before: Facts, after: Facts)
    requires IsFact(fact) && Leading(fact, keys, member, key, p, d, text) && NoneAhead(fact, member, key, d, text)
    requires w + chunk <= member && OnCourse(before, key, text, |w|, d)
    requires ScannedKey(fact, before, after, key, Suffix(w, Keep(keys)) + chunk, false)
    ensures OnCourse(after, key, text, |w + chunk|, d)
  {
    CutAt(w, chunk, member, Keep(keys));
    StaysOnCourse(fact, keys, member, key, p, d, text, before, after, |w|, |w + chunk|);
  }

  lemma OutcomeOnCourse(fact: FactFunction, keys: seq<seq<byte>>, member: seq<byte>, key: seq<byte>, p: nat, d: nat, text: seq<Code>,
                        chunks: seq<seq<byte>>, facts: Facts)
    requires IsFact(fact) && key in keys && Leading(fact, keys, member, key, p, d, text) && NoneAhead(fact, member, key, d, text)
    requires Flatten(chunks) == member && OutcomeBy(fact, keys, chunks, facts)
    ensures key in facts && facts[key] == text
  {
    var before: Facts :| Pushed(fact, keys, chunks, before)
                         && Scans(fact, keys, before, facts, Suffix(Flatten(chunks), Keep(keys)), true);
    PushedOnCourse(fact, keys, member, key, p, d, text, chunks, before);
    var lo := |member| - |Suffix(member, Keep(keys))|;
    assert member[lo..] == Suffix(member, Keep(keys));
    if key !in before {
      FirstInWindow(fact, before, facts, key, member, lo, true, p);
    }
  }

  // ----- And is needed

  lemma {:induction false} FirstHas(fact: FactFunction, window: seq<byte>, key: seq<byte>, atEnd: bool, p: nat) returns (r: nat)
    requires fact(window, key, p, atEnd).Some?
    ensures fact(window, key, r, atEnd).Some? && NoneBefore(fact, window, key, r, atEnd)
    decreases p
  {
    if q: nat :| q < p && fact(window, key, q, atEnd).Some? {
      r := FirstHas(fact, window, key, atEnd, q);
    } else {
      r := p;
    }
  }

  /** What a scan records for a key. */
  ghost predicate Records(fact: FactFunction, before: Facts, window: seq<byte>, key: seq<byte>, atEnd: bool, text: Option<seq<Code>>) {
    if key in before then text == Some(before[key])
    else if text.Some? then
      exists p: nat :: fact(window, key, p, atEnd) == text && forall q: nat :: q < p ==> fact(window, key, q, atEnd).None?
    else forall p: nat :: fact(window, key, p, atEnd).None?
  }

  lemma RecordExists(fact: FactFunction, before: Facts, window: seq<byte>, key: seq<byte>, atEnd: bool)
    ensures exists text :: Records(fact, before, window, key, atEnd, text)
  {
    if key in before {
      assert Records(fact, before, window, key, atEnd, Some(before[key]));
    } else if p: nat :| fact(window, key, p, atEnd).Some? {
      var r := FirstHas(fact, window, key, atEnd, p);
      assert Records(fact, before, window, key, atEnd, fact(window, key, r, atEnd));
    } else {
      assert Records(fact, before, window, key, atEnd, None);
    }
  }

  /** Every scan has a result: one key after the other. */
  lemma {:induction false} ScanExists(fact: FactFunction, keys: seq<seq<byte>>, before: Facts, window: seq<byte>, atEnd: bool)
    returns (after: Facts)
    requires before.Keys <= (set k | k in keys)
    ensures Scans(fact, keys, before, after, window, atEnd)
  {
    after := before;
    var i := 0;
    while i < |keys|
      invariant 0 <= i <= |keys| && Extends(before, after) && after.Keys <= (set k | k in keys)
      invariant forall j :: 0 <= j < i ==> ScannedKey(fact, before, after, keys[j], window, atEnd)
      invariant forall k :: k in after && k !in before ==> k in keys[..i]
    {
      var key := keys[i];
      RecordExists(fact, before, window, key, atEnd);
      var text :| Records(fact, before, window, key, atEnd, text);
      var last := after;
      if key !in after && text.Some? {
        after := after[key := text.value];
      }
      forall j | 0 <= j <= i
        ensures ScannedKey(fact, before, after, keys[j], window, atEnd)
      {
        if keys[j] != key {
          assert ScannedKey(fact, before, last, keys[j], window, atEnd);
        } else if key in last && key !in before {
          var m :| 0 <= m < i && keys[m] == key;
          assert ScannedKey(fact, before, last, keys[m], window, atEnd);
        }
      }
      i := i + 1;
    }
  }

  /** The facts after the first `c` bytes and after the whole member. */
  lemma CutOutcome(fact: FactFunction, keys: seq<seq<byte>>, member: seq<byte>, c: nat) returns (early: Facts, more: Facts, facts: Facts)
    requires c <= |member|
    ensures Scans(fact, keys, map[], early, member[..c], false)
    ensures Scans(fact, keys, early, more, member[c - |Suffix(member[..c], Keep(keys))|..], false)
    ensures Scans(fact, keys, more, facts, Suffix(member, Keep(keys)), true)
    ensures Flatten([member[..c], member[c..]]) == member && OutcomeBy(fact, keys, [member[..c], member[c..]], facts)
  {
    var one, two := [member[..c]], [member[..c], member[c..]];
    var nothing: seq<seq<byte>> := [];
    assert one[..0] == nothing && two[..1] == one;
    assert Flatten(one) == member[..c] && Flatten(two) == member;
    early := ScanExists(fact, keys, map[], member[..c], false);
    assert Suffix([], Keep(keys)) + member[..c] == member[..c];
    assert Pushed(fact, keys, nothing, map[]);
    assert Pushed(fact, keys, one, early);
    WindowOf(member[..c], member[c..], Keep(keys));
    assert member[..c] + member[c..] == member;
    more := ScanExists(fact, keys, early, member[c - |Suffix(member[..c], Keep(keys))|..], false);
    assert Pushed(fact, keys, two, more);
    facts := ScanExists(fact, keys, more, Suffix(member, Keep(keys)), true);
  }

  lemma AheadIsRecorded(fact: FactFunction, keys: seq<seq<byte>>, member: seq<byte>, key: seq<byte>, c: nat, r: nat)
    returns (chunks: seq<seq<byte>>, facts: Facts)
    requires IsFact(fact) && key in keys && c <= |member| && FirstDecided(fact, member, key, c, r)
    ensures Flatten(chunks) == member && OutcomeBy(fact, keys, chunks, facts)
    ensures key in facts && Some(facts[key]) == fact(member[..c], key, r, false)
  {
    var early, more;
    early, more, facts := CutOutcome(fact, keys, member, c);
    chunks := [member[..c], member[c..]];
    assert member[..c][0..] == member[..c];
    FirstInWindow(fact, map[], early, key, member[..c], 0, false, r);
  }

  // ----- Exactly when

  lemma IsLeading(keys: seq<seq<byte>>, member: seq<byte>, key: seq<byte>, p: nat)
    requires FactAt(member, key, p, true).Some? && forall q: nat :: q < p ==> FactAt(member, key, q, true).None?
    requires DecidedAt(member, key, p) <= p + Keep(keys)
    ensures Leading(FactAt, keys, member, key, p, DecidedAt(member, key, p), FactAt(member, key, p, true).value)
  {
    DecidingByte(member, key, p);
  }

  /**
   * The first fact of a key whose text up to the deciding byte fits the tail is
   * recorded under every chunking exactly when, before that byte is there,
   * whatever is decided first has the same text.
   */
  lemma ChunkingIff(keys: seq<seq<byte>>, member: seq<byte>, key: seq<byte>, p: nat)
    requires key in keys && FactAt(member, key, p, true).Some? && forall q: nat :: q < p ==> FactAt(member, key, q, true).None?
    requires DecidedAt(member, key, p) <= p + Keep(keys)
    ensures AlwaysGives(keys, member, key, FactAt(member, key, p, true).value)
            <==> NoneAhead(FactAt, member, key, DecidedAt(member, key, p), FactAt(member, key, p, true).value)
  {
    var d, text := DecidedAt(member, key, p), FactAt(member, key, p, true).value;
    IsItself();
    IsLeading(keys, member, key, p);
    if NoneAhead(FactAt, member, key, d, text) {
      forall chunks, facts | Flatten(chunks) == member && Outcome(keys, chunks, facts)
        ensures key in facts && facts[key] == text
      {
        OutcomeOnCourse(FactAt, keys, member, key, p, d, text, chunks, facts);
      }
    } else {
      var c: nat, r: nat :| c <= d && c <= |member| && FirstDecided(FactAt, member, key, c, r) && FactAt(member[..c], key, r, false) != Some(text);
      var chunks, facts := AheadIsRecorded(FactAt, keys, member, key, c, r);
      assert Outcome(keys, chunks, facts);
    }
  }

  lemma OnlyThatOne(member: seq<byte>, key: seq<byte>, p: nat, c: nat, r: nat)
    requires c <= |member| && FactAt(member[..c], key, r, false).Some? && forall q: nat :: Occurs(member, Needle(key), q) ==> q == p
    ensures FactAt(member[..c], key, r, false) == FactAt(member, key, p, true)
  {
    PrefixOccurs(member, c, Needle(key), r);
    FactStays(member[..c], member[c..], key, r, true);
    assert member[..c] + member[c..] == member;
  }

  lemma OnlyOneAhead(fact: FactFunction, member: seq<byte>, key: seq<byte>, p: nat, d: nat)
    requires IsFact(fact) && fact(member, key, p, true).Some? && forall q: nat :: Occurs(member, Needle(key), q) ==> q == p
    ensures NoneAhead(fact, member, key, d, fact(member, key, p, true).value)
  {
    assert fact(member, key, p, true) == FactAt(member, key, p, true);
    forall c: nat, r: nat | c <= d && c <= |member| && FirstDecided(fact, member, key, c, r)
      ensures fact(member[..c], key, r, false) == fact(member, key, p, true)
    {
      assert fact(member[..c], key, r, false) == FactAt(member[..c], key, r, false);
      OnlyThatOne(member, key, p, c, r);
    }
  }

  lemma NothingBehind(member: seq<byte>, key: seq<byte>, p: nat, lo: nat, atEnd: bool)
    requires p < lo && forall q: nat :: Occurs(member, Needle(key), q) ==> q == p
    ensures forall q: nat :: lo <= q ==> FactAt(member, key, q, atEnd).None?
  {
  }

  /** Nothing new is recorded from a window without a fact. */
  lemma NotRecorded(fact: FactFunction, keys: seq<seq<byte>>, before: Facts, after: Facts, w: seq<byte>, lo: nat, key: seq<byte>, atEnd: bool)
    requires IsFact(fact) && lo <= |w| && Scans(fact, keys, before, after, w[lo..], atEnd) && key !in before
    requires forall q: nat :: lo <= q ==> FactAt(w, key, q, atEnd).None?
    ensures key !in after
  {
    if key in after {
      NewFact(fact, before, after, key, w, lo, atEnd);
      NotYielded(fact, w, key, lo, atEnd);
    }
  }

  /** Three scans that all begin behind the only occurrence, or end before it is decided. */
  lemma NeverRecorded(fact: FactFunction, keys: seq<seq<byte>>, member: seq<byte>, key: seq<byte>, p: nat, c: nat,
                      early: Facts, more: Facts, facts: Facts)
    requires IsFact(fact) && forall q: nat :: Occurs(member, Needle(key), q) ==> q == p
    requires p + Keep(keys) < c <= |member| && forall q: nat :: FactAt(member[..c], key, q, false).None?
    requires Scans(fact, keys, map[], early, member[..c], false)
    requires Scans(fact, keys, early, more, member[c - |Suffix(member[..c], Keep(keys))|..], false)
    requires Scans(fact, keys, more, facts, Suffix(member, Keep(keys)), true)
    ensures key !in facts
  {
    var lo, last := c - |Suffix(member[..c], Keep(keys))|, |member| - |Suffix(member, Keep(keys))|;
    assert member[..c][0..] == member[..c] && member[last..] == Suffix(member, Keep(keys));
    NotRecorded(fact, keys, map[], early, member[..c], 0, key, false);
    NothingBehind(member, key, p, lo, false);
    NotRecorded(fact, keys, early, more, member, lo, key, false);
    NothingBehind(member, key, p, last, true);
    NotRecorded(fact, keys, more, facts, member, last, key, true);
  }

  lemma Missed(keys: seq<seq<byte>>, member: seq<byte>, key: seq<byte>, p: nat, c: nat) returns (chunks: seq<seq<byte>>, facts: Facts)
    requires key in keys && FactAt(member, key, p, true).Some? && forall q: nat :: Occurs(member, Needle(key), q) ==> q == p
    requires c == DecidedAt(member, key, p) > p + Keep(keys)
    ensures Flatten(chunks) == member && Outcome(keys, chunks, facts) && key !in facts
  {
    IsItself();
    NothingYet(member, key, p, c);
    var early, more;
    early, more, facts := CutOutcome(FactAt, keys, member, c);
    chunks := [member[..c], member[c..]];
    NeverRecorded(FactAt, keys, member, key, p, c, early, more, facts);
  }

  /** A key that occurs once is found under every chunking exactly when its text up to the deciding byte fits the tail. */
  lemma UniqueIff(keys: seq<seq<byte>>, member: seq<byte>, key: seq<byte>, p: nat)
    requires key in keys && FactAt(member, key, p, true).Some? && forall q: nat :: Occurs(member, Needle(key), q) ==> q == p
    ensures AlwaysGives(keys, member, key, FactAt(member, key, p, true).value) <==> DecidedAt(member, key, p) <= p + Keep(keys)
  {
    var d := DecidedAt(member, key, p);
    if d <= p + Keep(keys) {
      IsItself();
      OnlyOneAhead(FactAt, member, key, p, d);
      ChunkingIff(keys, member, key, p);
    } else {
      var chunks, facts := Missed(keys, member, key, p, d);
    }
  }

  // ----- A value that only the end decides

  lemma {:induction false} PushedSound(fact: FactFunction, keys: seq<seq<byte>>, chunks: seq<seq<byte>>, facts: Facts)
    requires IsFact(fact) && Pushed(fact, keys, chunks, facts)
    ensures Sound(fact, keys, facts, Flatten(chunks))
    decreases |chunks|
  {
    if chunks == [] {
      NothingIsSound(fact, keys);
    } else {
      var front, last := chunks[..|chunks| - 1], chunks[|chunks| - 1];
      var before: Facts :| Pushed(fact, keys, front, before)
                           && Scans(fact, keys, before, facts, Suffix(Flatten(front), Keep(keys)) + last, false);
      PushedSound(fact, keys, front, before);
      ChunkSound(fact, keys, before, facts, Flatten(front), last);
    }
  }

  lemma ChunkSound(fact: FactFunction, keys: seq<seq<byte>>, before: Facts, after: Facts, w: seq<byte>, chunk: seq<byte>)
    requires IsFact(fact) && Sound(fact, keys, before, w) && Scans(fact, keys, before, after, Suffix(w, Keep(keys)) + chunk, false)
    ensures Sound(fact, keys, after, w + chunk)
  {
    WindowOf(w, chunk, Keep(keys));
    SoundGrows(fact, keys, before, after, w, chunk, |w| - |Suffix(w, Keep(keys))|);
  }

  /** When only the end of the member decides the first fact and a byte decides a later one, no chunking gives the first. */
  lemma NeverTheFirst(keys: seq<seq<byte>>, member: seq<byte>, key: seq<byte>, p: nat, q: nat, chunks: seq<seq<byte>>, facts: Facts)
    requires key in keys && FactAt(member, key, p, true).Some? && forall r: nat :: r < p ==> FactAt(member, key, r, true).None?
    requires DecidedAt(member, key, p) == |member| <= p + Keep(keys)
    requires p < q && FactAt(member, key, q, true).Some? && DecidedAt(member, key, q) < |member|
    requires Flatten(chunks) == member && Outcome(keys, chunks, facts)
    ensures key in facts && exists r: nat :: p < r && FactAt(member, key, r, true) == Some(facts[key])
  {
    IsItself();
    var before: Facts :| Pushed(FactAt, keys, chunks, before)
                         && Scans(FactAt, keys, before, facts, Suffix(Flatten(chunks), Keep(keys)), true);
    PushedSound(FactAt, keys, chunks, before);
    assert member[..|member|] == member;
    LaterIsCaught(FactAt, keys, before, member, key, p, q, |member|);
  }

  /** `xKEY="a"y`. */
  function Bare(key: seq<byte>): (r: seq<byte>) {
    [0x78] + key + [EQUALS, QUOTE, 0x61, QUOTE, 0x79]
  }

  /** `KEY=xKEY="a"y`: the outer value ends with the member. */
  function EndDecided(key: seq<byte>): (r: seq<byte>) {
    key + [EQUALS] + Bare(key)
  }

  lemma EndDecidedParts(key: seq<byte>)
    ensures var w := EndDecided(key);
            && |w| == 2 * |key| + 7 && w[..|key| + 1] == Needle(key) && w[|key| + 1..] == Bare(key)
            && w[|key| + 2..2 * |key| + 3] == Needle(key) && w[2 * |key| + 3..] == [QUOTE, 0x61, QUOTE, 0x79]
  {
  }

  lemma {:induction false} NoStop(text: seq<byte>, stop: byte -> bool)
    requires forall i :: 0 <= i < |text| ==> !stop(text[i])
    ensures Position(text, stop) == |text|
  {
    if text == [] {
    } else {
      NoStop(text[1..], stop);
    }
  }

  lemma BareIsWhole(key: seq<byte>)
    requires PlainKey(key)
    ensures Value(Bare(key), true) == Some(Bare(key)) && Claim(Bare(key)).Some? && |Claim(Bare(key)).value| == |key| + 6
  {
    NoStop(Bare(key), IsTerminator);
    assert Bare(key)[..|Bare(key)|] == Bare(key);
    ClaimsText(Bare(key));
  }

  lemma QuotedA()
    ensures var rest: seq<byte> := [QUOTE, 0x61, QUOTE, 0x79];
            Value(rest, true) == Some([0x61]) && Claim([0x61]).Some? && |Claim([0x61]).value| == 1
  {
    var rest: seq<byte> := [QUOTE, 0x61, QUOTE, 0x79];
    assert rest[1..] == [0x61] + [QUOTE, 0x79];
    PositionIs([0x61], [QUOTE, 0x79], IsQuote);
    assert rest[1..2] == [0x61];
    ClaimsText([0x61]);
  }

  lemma OuterFact(key: seq<byte>)
    requires PlainKey(key)
    ensures var w := EndDecided(key);
            FactAt(w, key, 0, true) == Claim(Bare(key)) && FactAt(w, key, 0, true).Some? && DecidedAt(w, key, 0) == |w|
  {
    EndDecidedParts(key);
    BareIsWhole(key);
  }

  lemma InnerFact(key: seq<byte>)
    requires PlainKey(key)
    ensures var w, q := EndDecided(key), |key| + 2;
            FactAt(w, key, q, true) == Claim([0x61]) && FactAt(w, key, q, true).Some? && DecidedAt(w, key, q) == |w| - 2
  {
    EndDecidedParts(key);
    QuotedA();
  }

  /** The key occurs twice, and nowhere else. */
  lemma OnlyThoseTwo(key: seq<byte>, r: nat)
    requires PlainKey(key) && Occurs(EndDecided(key), Needle(key), r)
    ensures r == 0 || r == |key| + 2
  {
    var w := EndDecided(key);
    assert w[r..r + |key| + 1][|key|] == w[r + |key|];
    assert Needle(key)[|key|] == EQUALS;
  }

  /** For every key of the parser's kind, `KEY=xKEY="a"y` gives `a` under every chunking, although the first fact is another. */
  lemma EndDecidedGivesInner(keys: seq<seq<byte>>, key: seq<byte>)
    requires key in keys && PlainKey(key)
    ensures Claim([0x61]).Some? && AlwaysGives(keys, EndDecided(key), key, Claim([0x61]).value)
    ensures FactAt(EndDecided(key), key, 0, true).Some? && FactAt(EndDecided(key), key, 0, true) != Claim([0x61])
  {
    var w := EndDecided(key);
    OuterFact(key);
    InnerFact(key);
    EndDecidedParts(key);
    BareIsWhole(key);
    QuotedA();
    forall chunks, facts | Flatten(chunks) == w && Outcome(keys, chunks, facts)
      ensures key in facts && facts[key] == Claim([0x61]).value
    {
      NeverTheFirst(keys, w, key, 0, |key| + 2, chunks, facts);
      var r: nat :| 0 < r && FactAt(w, key, r, true) == Some(facts[key]);
      OnlyThoseTwo(key, r);
    }
  }
}
