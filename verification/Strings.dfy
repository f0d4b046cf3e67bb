/** Trimming, splitting and joining, for text held as characters, code points or bytes alike. */
module Strings {

  /** `char::is_whitespace`, on the number of the character. */
  predicate IsWhite(c: int) {
    || 9 <= c <= 13 || c == 0x20 || c == 0x85 || c == 0xa0 || c == 0x1680 || 0x2000 <= c <= 0x200a
    || c == 0x2028 || c == 0x2029 || c == 0x202f || c == 0x205f || c == 0x3000
  }

  function TrimStart<T>(s: seq<T>, white: T -> bool): (r: seq<T>) {
    if s != [] && white(s[0]) then TrimStart(s[1..], white) else s
  }

  function TrimEnd<T>(s: seq<T>, white: T -> bool): (r: seq<T>) {
    if s != [] && white(s[|s| - 1]) then TrimEnd(s[..|s| - 1], white) else s
  }

  /** `str::trim`. */
  function Trim<T>(s: seq<T>, white: T -> bool): (r: seq<T>) {
    TrimEnd(TrimStart(s, white), white)
  }

  lemma NothingToTrim<T>(s: seq<T>, white: T -> bool)
    requires s != [] ==> !white(s[0]) && !white(s[|s| - 1])
    ensures Trim(s, white) == s
  {
  }

  /** `str::split`. */
  function Split<T(==)>(s: seq<T>, c: T): (parts: seq<seq<T>>)
    ensures parts != []
    ensures forall i :: 0 <= i < |parts| ==> c !in parts[i]
  {
    if s == [] then [[]]
    else
      var rest := Split(s[1..], c);
      if s[0] == c then [[]] + rest else [[s[0]] + rest[0]] + rest[1..]
  }

  /** `join`. */
  function Join<T>(parts: seq<seq<T>>, c: T): (s: seq<T>)
    requires parts != []
  {
    if |parts| == 1 then parts[0] else parts[0] + [c] + Join(parts[1..], c)
  }

  lemma {:induction false} JoinSplit<T>(s: seq<T>, c: T)
    ensures Join(Split(s, c), c) == s
  {
    if s == [] {
    } else {
      var rest := Split(s[1..], c);
      JoinSplit(s[1..], c);
      assert s == [s[0]] + s[1..];
      if s[0] == c {
        assert Split(s, c)[1..] == rest;
      } else {
        JoinHead(s[0], rest, c);
      }
    }
  }

  lemma JoinHead<T>(head: T, rest: seq<seq<T>>, c: T)
    requires rest != []
    ensures Join([[head] + rest[0]] + rest[1..], c) == [head] + Join(rest, c)
  {
    if |rest| > 1 {
      assert ([[head] + rest[0]] + rest[1..])[1..] == rest[1..];
    }
  }

  lemma {:induction false} SplitJoin<T>(parts: seq<seq<T>>, c: T)
    requires parts != [] && forall i :: 0 <= i < |parts| ==> c !in parts[i]
    ensures Split(Join(parts, c), c) == parts
    decreases |parts|
  {
    if |parts| == 1 {
      SplitPlain(parts[0], c);
    } else {
      SplitJoin(parts[1..], c);
      SplitAfter(parts[0], Join(parts[1..], c), c);
    }
  }

  lemma {:induction false} SplitPlain<T>(s: seq<T>, c: T)
    requires c !in s
    ensures Split(s, c) == [s]
  {
    if s == [] {
    } else {
      SplitPlain(s[1..], c);
      assert s == [s[0]] + s[1..];
    }
  }

  lemma {:induction false} SplitAfter<T>(s: seq<T>, rest: seq<T>, c: T)
    requires c !in s
    ensures Split(s + [c] + rest, c) == [s] + Split(rest, c)
  {
    var all := s + [c] + rest;
    if s == [] {
      assert all[1..] == rest;
    } else {
      SplitAfter(s[1..], rest, c);
      assert all[1..] == s[1..] + [c] + rest;
      assert [s[0]] + s[1..] == s;
    }
  }

  lemma {:induction false} JoinElements<T>(parts: seq<seq<T>>, c: T, x: T)
    requires parts != [] && x in Join(parts, c)
    ensures x == c || exists i :: 0 <= i < |parts| && x in parts[i]
  {
    if |parts| == 1 {
      assert x in parts[0];
    } else if x !in parts[0] && x != c {
      JoinElements(parts[1..], c, x);
      var i :| 0 <= i < |parts[1..]| && x in parts[1..][i];
      assert x in parts[i + 1];
    }
  }

  lemma {:induction false} SplitElements<T>(s: seq<T>, c: T, part: seq<T>, x: T)
    requires part in Split(s, c) && x in part
    ensures x in s
  {
    if s == [] {
    } else {
      var rest := Split(s[1..], c);
      if part in rest {
        SplitElements(s[1..], c, part, x);
      } else if s[0] != c && x != s[0] {
        assert x in rest[0];
        SplitElements(s[1..], c, rest[0], x);
      }
    }
  }
}
