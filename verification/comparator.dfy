/** Comparators as ranks, and the bytewise one (util/comparator.cc). */
module Comparators {
  import opened Bytestrings

  /** The place of a key in a comparator's order; keys of one rank are the same key. */
  type Order = Bytes -> real

  /** Slice::compare below zero. */
  predicate LexLess(a: Bytes, b: Bytes) {
    if b == [] then false
    else if a == [] then true
    else if a[0] != b[0] then a[0] < b[0]
    else LexLess(a[1..], b[1..])
  }

  /** The bytewise order as ranks: digits to base 257, zero for the end of the string. */
  function Bytewise(s: Bytes): (r: real)
    ensures 0.0 <= r < 1.0
  {
    if s == [] then 0.0 else (s[0] as real + 1.0 + Bytewise(s[1..])) / 257.0
  }

  lemma DigitsFirst(a: byte, x: real, b: byte, y: real)
    requires 0.0 <= x < 1.0 && 0.0 <= y < 1.0
    ensures (a as real + 1.0 + x) / 257.0 < (b as real + 1.0 + y) / 257.0 <==> a < b || (a == b && x < y)
    ensures (a as real + 1.0 + x) / 257.0 == (b as real + 1.0 + y) / 257.0 <==> a == b && x == y
  {
  }

  lemma BytewiseUnfolds(s: Bytes)
    requires s != []
    ensures Bytewise(s) == (s[0] as real + 1.0 + Bytewise(s[1..])) / 257.0 > 0.0
  {
  }

  /** Ranks order strings just as comparing them byte by byte does. */
  lemma {:induction false} BytewiseIsLexicographic(a: Bytes, b: Bytes)
    ensures Bytewise(a) < Bytewise(b) <==> LexLess(a, b)
    ensures Bytewise(a) == Bytewise(b) <==> a == b
  {
    hide Bytewise;
    if a != [] { BytewiseUnfolds(a); }
    if b != [] { BytewiseUnfolds(b); }
    EmptyIsLowest();
    if a != [] && b != [] {
      BytewiseIsLexicographic(a[1..], b[1..]);
      DigitsFirst(a[0], Bytewise(a[1..]), b[0], Bytewise(b[1..]));
      SameString(a, b);
    }
  }

  lemma EmptyIsLowest()
    ensures Bytewise([]) == 0.0
  {
  }

  lemma SameString(a: Bytes, b: Bytes)
    requires a != [] && b != []
    ensures a == b <==> a[0] == b[0] && a[1..] == b[1..]
  {
    assert a == [a[0]] + a[1..] && b == [b[0]] + b[1..];
  }

  lemma {:induction false} LexAfterPrefix(p: Bytes, a: Bytes, b: Bytes)
    ensures LexLess(p + a, p + b) <==> LexLess(a, b)
  {
    if p == [] {
      assert p + a == a && p + b == b;
    } else {
      assert (p + a)[1..] == p[1..] + a && (p + b)[1..] == p[1..] + b;
      LexAfterPrefix(p[1..], a, b);
    }
  }

  /** What a comparator promises about separators. Nothing is said of start >= limit beyond leaving start alone. */
  ghost predicate Separates(order: Order, sep: (Bytes, Bytes) -> Bytes) {
    forall a, b {:trigger sep(a, b)} ::
      && (order(a) < order(b) ==> order(a) <= order(sep(a, b)) < order(b))
      && (order(a) >= order(b) ==> sep(a, b) == a)
  }

  ghost predicate Succeeds(order: Order, succ: Bytes -> Bytes) {
    forall a :: order(a) <= order(succ(a))
  }

  function Separator(start: Bytes, limit: Bytes): Bytes {
    var d := CommonPrefix(start, limit);
    if d < |start| && d < |limit| && start[d] < 0xff && start[d] + 1 < limit[d] then start[..d] + [start[d] + 1] else start
  }

  method FindShortestSeparator(start: Bytes, limit: Bytes) returns (r: Bytes)
    ensures r == Separator(start, limit)
  {
    var minLength := if |start| < |limit| then |start| else |limit|;
    var d := 0;
    assert start[0..] == start && limit[0..] == limit;
    while d < minLength && start[d] == limit[d]
      invariant d <= minLength && CommonPrefix(start, limit) == d + CommonPrefix(start[d..], limit[d..])
    {
      assert start[d..][1..] == start[d + 1..] && limit[d..][1..] == limit[d + 1..];
      d := d + 1;
    }
    r := start;
    if d >= minLength {
      return;
    }
    if start[d] < 0xff && start[d] + 1 < limit[d] {
      r := r[..d] + [r[d] + 1];
    }
  }

  lemma {:induction false} CommonPrefixIsCommon(a: Bytes, b: Bytes)
    ensures var d := CommonPrefix(a, b); d <= |a| && d <= |b| && a[..d] == b[..d]
    ensures var d := CommonPrefix(a, b); d < |a| && d < |b| ==> a[d] != b[d]
  {
    if a != [] && b != [] && a[0] == b[0] {
      CommonPrefixIsCommon(a[1..], b[1..]);
      var d := CommonPrefix(a[1..], b[1..]);
      assert a[..d + 1] == [a[0]] + a[1..][..d] && b[..d + 1] == [b[0]] + b[1..][..d];
    }
  }

  lemma {:induction false} CommonPrefixIs(a: Bytes, b: Bytes, d: nat)
    requires d < |a| && d < |b| && a[..d] == b[..d] && a[d] != b[d]
    ensures CommonPrefix(a, b) == d
  {
    if d > 0 {
      assert a[0] == a[..d][0] == b[..d][0] == b[0];
      assert a[1..][..d - 1] == a[..d][1..] && b[1..][..d - 1] == b[..d][1..];
      CommonPrefixIs(a[1..], b[1..], d - 1);
    }
  }

  /** Where the strings first differ with room between them, the separator ends there, one above start. */
  lemma SeparatorIsShort(start: Bytes, limit: Bytes, d: nat)
    requires d < |start| && d < |limit| && start[..d] == limit[..d] && start[d] != limit[d]
    ensures start[d] < 0xff && start[d] + 1 < limit[d] ==> Separator(start, limit) == start[..d] + [start[d] + 1]
    ensures start[d] < 0xff && start[d] + 1 < limit[d] ==> |Separator(start, limit)| == d + 1
    ensures !(start[d] < 0xff && start[d] + 1 < limit[d]) ==> Separator(start, limit) == start
  {
    CommonPrefixIs(start, limit, d);
    hide CommonPrefix;
  }

  /** The separator lies in [start, limit) and is never longer than start; when start is not below limit it is start. */
  lemma SeparatorLies(start: Bytes, limit: Bytes)
    ensures LexLess(start, limit) ==> !LexLess(Separator(start, limit), start) && LexLess(Separator(start, limit), limit)
    ensures !LexLess(start, limit) ==> Separator(start, limit) == start
    ensures |Separator(start, limit)| <= |start|
  {
    hide CommonPrefix;
    CommonPrefixIsCommon(start, limit);
    var d := CommonPrefix(start, limit);
    var p, a, b := start[..d], start[d..], limit[d..];
    assert start == p + a && limit == p + b;
    LexAfterPrefix(p, a, b);
    if a != [] && b != [] && a[0] < 0xff && a[0] + 1 < b[0] {
      assert Separator(start, limit) == p + [a[0] + 1];
      LexAfterPrefix(p, [a[0] + 1], a);
      LexAfterPrefix(p, [a[0] + 1], b);
    } else {
      LexIrreflexive(start);
    }
  }

  lemma {:induction false} LexIrreflexive(a: Bytes)
    ensures !LexLess(a, a)
  {
    if a != [] { LexIrreflexive(a[1..]); }
  }

  lemma BytewiseSeparates()
    ensures Separates(Bytewise, Separator)
  {
    hide Separator, Bytewise, LexLess;
    forall a, b
      ensures Bytewise(a) < Bytewise(b) ==> Bytewise(a) <= Bytewise(Separator(a, b)) < Bytewise(b)
      ensures Bytewise(a) >= Bytewise(b) ==> Separator(a, b) == a
    {
      BytewiseIsLexicographic(a, b);
      BytewiseIsLexicographic(Separator(a, b), a);
      BytewiseIsLexicographic(Separator(a, b), b);
      SeparatorLies(a, b);
    }
  }

  function Successor(key: Bytes): Bytes {
    if key == [] then [] else if key[0] != 0xff then [key[0] + 1] else [0xff] + Successor(key[1..])
  }

  /** A run of 0xff is left alone; otherwise everything after the first other byte is cut. */
  method FindShortSuccessor(key: Bytes) returns (r: Bytes)
    ensures r == Successor(key)
  {
    hide Successor;
    r := key;
    assert key[0..] == key && key[..0] + Successor(key) == Successor(key);
    for i := 0 to |key|
      invariant r == key && Successor(key) == key[..i] + Successor(key[i..])
    {
      SuccessorStep(key, i);
      if key[i] != 0xff {
        return key[..i] + [key[i] + 1];
      }
    }
    assert key[|key|..] == [];
    SuccessorUnfolds([]);
  }

  /** The successor ends at the first byte that can be raised; without one it is the key. */
  lemma {:induction false} SuccessorIsShort(key: Bytes, i: nat)
    requires i <= |key| && forall k :: 0 <= k < i ==> key[k] == 0xff
    ensures i < |key| && key[i] != 0xff ==> Successor(key) == key[..i] + [key[i] + 1] && |Successor(key)| == i + 1
    ensures i == |key| ==> Successor(key) == key
  {
    if i > 0 {
      SuccessorIsShort(key[1..], i - 1);
      assert key == [key[0]] + key[1..] && (i < |key| ==> key[1..][i - 1] == key[i]);
      assert key[..i] == [0xff] + key[1..][..i - 1];
    }
  }

  lemma SuccessorStep(key: Bytes, i: nat)
    requires i < |key| && Successor(key) == key[..i] + Successor(key[i..])
    ensures key[i] != 0xff ==> Successor(key) == key[..i] + [key[i] + 1]
    ensures key[i] == 0xff ==> Successor(key) == key[..i + 1] + Successor(key[i + 1..])
  {
    hide Successor;
    SuccessorUnfolds(key[i..]);
    DropOne(key, i);
    Regroup(key[..i], [0xff], Successor(key[i + 1..]));
  }

  lemma DropOne(s: Bytes, i: nat)
    requires i < |s|
    ensures s[i..] != [] && s[i..][0] == s[i] && s[i..][1..] == s[i + 1..] && s[..i + 1] == s[..i] + [s[i]]
  {
  }

  lemma Regroup(a: Bytes, b: Bytes, c: Bytes)
    ensures a + (b + c) == (a + b) + c
  {
  }

  lemma SuccessorUnfolds(key: Bytes)
    ensures key == [] ==> Successor(key) == []
    ensures key != [] ==> Successor(key) == if key[0] != 0xff then [key[0] + 1] else [0xff] + Successor(key[1..])
  {
  }

  lemma {:induction false} SuccessorLies(key: Bytes)
    ensures !LexLess(Successor(key), key)
  {
    if key != [] && key[0] == 0xff {
      SuccessorLies(key[1..]);
      assert ([0xff] + Successor(key[1..]))[1..] == Successor(key[1..]);
    }
  }

  lemma BytewiseSucceeds()
    ensures Succeeds(Bytewise, Successor)
  {
    hide Successor, Bytewise, LexLess;
    forall a ensures Bytewise(a) <= Bytewise(Successor(a)) {
      BytewiseIsLexicographic(Successor(a), a);
      SuccessorLies(a);
    }
  }
}
