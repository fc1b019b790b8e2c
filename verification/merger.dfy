/** The merging iterator: a cursor on the sorted union of its children (merger.cc). */
module Mergers {
  import opened Bytestrings

  /** A key is its rank in the comparator's order. */
  datatype Item = Item(key: real, val: Bytes)

  ghost predicate Rising(s: seq<Item>) {
    forall i, j :: 0 <= i < j < |s| ==> s[i].key < s[j].key
  }

  /** Each child is sorted, and no key occurs in two children. */
  ghost predicate ChildrenOk(lists: seq<seq<Item>>) {
    && (forall c :: 0 <= c < |lists| ==> Rising(lists[c]))
    && forall c, d, i, j | 0 <= c < d < |lists| && 0 <= i < |lists[c]| && 0 <= j < |lists[d]| :: lists[c][i].key != lists[d][j].key
  }

  ghost predicate InSome(lists: seq<seq<Item>>, x: Item) {
    exists c :: 0 <= c < |lists| && x in lists[c]
  }

  /** u is the sorted union of the children. */
  ghost predicate IsUnion(lists: seq<seq<Item>>, u: seq<Item>) {
    Rising(u) && forall x :: x in u <==> InSome(lists, x)
  }

  function Merge(a: seq<Item>, b: seq<Item>): seq<Item> {
    if a == [] then b
    else if b == [] then a
    else if a[0].key < b[0].key then [a[0]] + Merge(a[1..], b)
    else [b[0]] + Merge(a, b[1..])
  }

  function Union(lists: seq<seq<Item>>): seq<Item> {
    if lists == [] then [] else Merge(Union(lists[..|lists| - 1]), lists[|lists| - 1])
  }

  lemma {:induction false} MergeHas(a: seq<Item>, b: seq<Item>, x: Item)
    ensures x in Merge(a, b) <==> x in a || x in b
  {
    if a != [] && b != [] {
      if a[0].key < b[0].key {
        MergeHas(a[1..], b, x);
        assert a == [a[0]] + a[1..];
      } else {
        MergeHas(a, b[1..], x);
        assert b == [b[0]] + b[1..];
      }
    }
  }

  ghost predicate NoneShared(a: seq<Item>, b: seq<Item>) {
    forall i, j :: 0 <= i < |a| && 0 <= j < |b| ==> a[i].key != b[j].key
  }

  lemma {:induction false} MergeIsRising(a: seq<Item>, b: seq<Item>)
    requires Rising(a) && Rising(b) && NoneShared(a, b)
    ensures Rising(Merge(a, b))
  {
    if a != [] && b != [] {
      var left := a[0].key < b[0].key;
      var first, r := if left then a[0] else b[0], if left then Merge(a[1..], b) else Merge(a, b[1..]);
      if left { MergeIsRising(a[1..], b); } else { MergeIsRising(a, b[1..]); }
      forall j | 0 <= j < |r| ensures first.key < r[j].key {
        if left { MergeHas(a[1..], b, r[j]); AfterFirst(a, b, r[j]); } else { MergeHas(a, b[1..], r[j]); AfterFirst(b, a, r[j]); }
      }
    }
  }

  lemma AfterFirst(a: seq<Item>, b: seq<Item>, x: Item)
    requires Rising(a) && Rising(b) && a != [] && b != [] && a[0].key < b[0].key && (x in a[1..] || x in b)
    ensures a[0].key < x.key
  {
    if x in a[1..] {
      var k :| 0 <= k < |a[1..]| && a[1..][k] == x;
      assert a[k + 1] == x;
    } else {
      var k :| 0 <= k < |b| && b[k] == x;
      assert k == 0 || b[0].key < b[k].key;
    }
  }

  /** Every valid set of children has a sorted union. */
  lemma {:induction false} UnionExists(lists: seq<seq<Item>>)
    requires ChildrenOk(lists)
    ensures IsUnion(lists, Union(lists))
  {
    if lists != [] {
      var init, last := lists[..|lists| - 1], lists[|lists| - 1];
      UnionExists(init);
      var u := Union(init);
      forall i, j | 0 <= i < |u| && 0 <= j < |last| ensures u[i].key != last[j].key {
        assert u[i] in u && InSome(init, u[i]);
        var c :| 0 <= c < |init| && u[i] in init[c];
        var k :| 0 <= k < |init[c]| && init[c][k] == u[i];
        assert lists[c][k].key != lists[|lists| - 1][j].key;
      }
      MergeIsRising(u, last);
      forall x ensures x in Union(lists) <==> InSome(lists, x) {
        MergeHas(u, last, x);
        if c :| 0 <= c < |init| && x in init[c] { assert x in lists[c]; }
        if c :| 0 <= c < |lists| && x in lists[c] { assert c < |init| ==> x in init[c]; }
      }
    }
  }

  // ---- Positions ----

  /** The key belongs to the first n items of the union. */
  predicate Below(u: seq<Item>, n: nat, key: real)
    requires n <= |u|
  {
    n < |u| ==> key < u[n].key
  }

  /** A child stands at its first item that is not among the first n of the union. */
  ghost predicate ChildAt(u: seq<Item>, list: seq<Item>, p: int, n: nat)
    requires n <= |u|
  {
    0 <= p <= |list| && forall j :: 0 <= j < |list| ==> (j < p <==> Below(u, n, list[j].key))
  }

  /** Moving forward: every child stands there. */
  ghost predicate Front(lists: seq<seq<Item>>, u: seq<Item>, pos: seq<int>, n: nat) {
    |pos| == |lists| && n <= |u| && forall c :: 0 <= c < |lists| ==> ChildAt(u, lists[c], pos[c], n)
  }

  /** Moving backward: every child stands just before that item. */
  ghost predicate Back(lists: seq<seq<Item>>, u: seq<Item>, pos: seq<int>, n: nat) {
    |pos| == |lists| && n <= |u| && forall c :: 0 <= c < |lists| ==> ChildAt(u, lists[c], pos[c] + 1, n)
  }

  predicate On(lists: seq<seq<Item>>, pos: seq<int>, c: nat)
    requires |pos| == |lists|
  {
    c < |lists| && 0 <= pos[c] < |lists[c]|
  }

  function KeyOf(lists: seq<seq<Item>>, pos: seq<int>, c: nat): real
    requires |pos| == |lists| && On(lists, pos, c)
  {
    lists[c][pos[c]].key
  }

  /** FindSmallest: the first of the valid children with the least key. */
  ghost predicate IsSmallest(lists: seq<seq<Item>>, pos: seq<int>, r: Option<nat>)
    requires |pos| == |lists|
  {
    match r
    case None => forall d :: 0 <= d < |lists| ==> !On(lists, pos, d)
    case Some(c) => On(lists, pos, c) && forall d :: 0 <= d < |lists| && On(lists, pos, d) ==> KeyOf(lists, pos, c) <= KeyOf(lists, pos, d)
  }

  ghost predicate IsLargest(lists: seq<seq<Item>>, pos: seq<int>, r: Option<nat>)
    requires |pos| == |lists|
  {
    match r
    case None => forall d :: 0 <= d < |lists| ==> !On(lists, pos, d)
    case Some(c) => On(lists, pos, c) && forall d :: 0 <= d < |lists| && On(lists, pos, d) ==> KeyOf(lists, pos, c) >= KeyOf(lists, pos, d)
  }

  /** The item of the union in its child. */
  lemma UnionItem(lists: seq<seq<Item>>, u: seq<Item>, n: nat) returns (c: nat, j: nat)
    requires IsUnion(lists, u) && n < |u|
    ensures c < |lists| && j < |lists[c]| && lists[c][j] == u[n]
  {
    assert u[n] in u && InSome(lists, u[n]);
    c :| 0 <= c < |lists| && u[n] in lists[c];
    j :| 0 <= j < |lists[c]| && lists[c][j] == u[n];
  }

  lemma ItemInUnion(lists: seq<seq<Item>>, u: seq<Item>, c: nat, j: nat) returns (n: nat)
    requires IsUnion(lists, u) && c < |lists| && j < |lists[c]|
    ensures n < |u| && u[n] == lists[c][j]
  {
    assert lists[c][j] in lists[c] && InSome(lists, lists[c][j]);
    n :| 0 <= n < |u| && u[n] == lists[c][j];
  }

  lemma KeysOrder(u: seq<Item>, m: nat, n: nat)
    requires Rising(u) && m < |u| && n < |u|
    ensures u[m].key < u[n].key <==> m < n
    ensures u[m].key == u[n].key <==> m == n
  {
    if m < n { assert u[m].key < u[n].key; }
    if n < m { assert u[n].key < u[m].key; }
  }

  /** The child that holds item n of the union stands on it. */
  lemma HolderStands(lists: seq<seq<Item>>, u: seq<Item>, pos: seq<int>, n: nat) returns (c: nat)
    requires ChildrenOk(lists) && IsUnion(lists, u) && Front(lists, u, pos, n) && n < |u|
    ensures On(lists, pos, c) && lists[c][pos[c]] == u[n]
  {
    var j;
    c, j := UnionItem(lists, u, n);
    assert ChildAt(u, lists[c], pos[c], n);
    assert !Below(u, n, lists[c][j].key);
    if pos[c] < j {
      assert lists[c][pos[c]].key < lists[c][j].key;
      assert Below(u, n, lists[c][pos[c]].key);
    }
  }

  /** The smallest of the children's items is the next item of the union. */
  lemma SmallestIsNext(lists: seq<seq<Item>>, u: seq<Item>, pos: seq<int>, n: nat, r: Option<nat>)
    requires ChildrenOk(lists) && IsUnion(lists, u) && Front(lists, u, pos, n) && IsSmallest(lists, pos, r)
    ensures r.Some? <==> n < |u|
    ensures r.Some? ==> n < |u| && lists[r.value][pos[r.value]] == u[n]
  {
    if r.Some? {
      assert ChildAt(u, lists[r.value], pos[r.value], n);
      assert !Below(u, n, lists[r.value][pos[r.value]].key);
      var c := HolderStands(lists, u, pos, n);
      var m := ItemInUnion(lists, u, r.value, pos[r.value]);
      KeysOrder(u, m, n);
    } else if n < |u| {
      var c := HolderStands(lists, u, pos, n);
      assert false;
    }
  }

  /** The child that holds item n - 1 stands on it when all stand before item n. */
  lemma HolderStandsBefore(lists: seq<seq<Item>>, u: seq<Item>, pos: seq<int>, n: nat) returns (c: nat)
    requires ChildrenOk(lists) && IsUnion(lists, u) && Back(lists, u, pos, n) && n > 0
    ensures On(lists, pos, c) && lists[c][pos[c]] == u[n - 1]
  {
    var j;
    c, j := UnionItem(lists, u, n - 1);
    assert ChildAt(u, lists[c], pos[c] + 1, n);
    if n < |u| { KeysOrder(u, n - 1, n); }
    assert Below(u, n, lists[c][j].key) && j < pos[c] + 1;
    assert Below(u, n, lists[c][pos[c]].key);
    var m := ItemInUnion(lists, u, c, pos[c]);
    if n < |u| { KeysOrder(u, m, n); }
    KeysOrder(u, m, n - 1);
    assert j == pos[c] || lists[c][j].key < lists[c][pos[c]].key;
  }

  lemma LargestIsPrevious(lists: seq<seq<Item>>, u: seq<Item>, pos: seq<int>, n: nat, r: Option<nat>)
    requires ChildrenOk(lists) && IsUnion(lists, u) && Back(lists, u, pos, n) && IsLargest(lists, pos, r)
    ensures r.Some? <==> n > 0
    ensures r.Some? ==> n > 0 && lists[r.value][pos[r.value]] == u[n - 1]
  {
    if r.Some? {
      assert ChildAt(u, lists[r.value], pos[r.value] + 1, n);
      assert Below(u, n, lists[r.value][pos[r.value]].key);
      var m := ItemInUnion(lists, u, r.value, pos[r.value]);
      if n < |u| { KeysOrder(u, m, n); }
      var c := HolderStandsBefore(lists, u, pos, n);
      KeysOrder(u, m, n - 1);
    } else if n > 0 {
      var c := HolderStandsBefore(lists, u, pos, n);
      assert false;
    }
  }

  /** A key occurs in one place only. */
  lemma OnlyHolder(lists: seq<seq<Item>>, c: nat, i: nat, d: nat, j: nat)
    requires ChildrenOk(lists) && c < |lists| && d < |lists| && i < |lists[c]| && j < |lists[d]|
    ensures lists[c][i].key == lists[d][j].key ==> c == d && i == j
  {
    if c < d { assert lists[c][i].key != lists[d][j].key; }
    else if d < c { assert lists[d][j].key != lists[c][i].key; }
    else if i < j { assert lists[c][i].key < lists[c][j].key; }
    else if j < i { assert lists[c][j].key < lists[c][i].key; }
  }

  /** Below n and below n + 1 differ at item n alone. */
  lemma BelowNext(lists: seq<seq<Item>>, u: seq<Item>, n: nat, c: nat, j: nat)
    requires IsUnion(lists, u) && n < |u| && c < |lists| && j < |lists[c]|
    ensures Below(u, n + 1, lists[c][j].key) <==> Below(u, n, lists[c][j].key) || lists[c][j].key == u[n].key
    ensures lists[c][j].key == u[n].key ==> !Below(u, n, lists[c][j].key)
  {
    var m := ItemInUnion(lists, u, c, j);
    KeysOrder(u, m, n);
    if n + 1 < |u| { KeysOrder(u, m, n + 1); }
  }

  /** Once the child that stands on item n moves on, all children stand before item n + 1. */
  lemma FrontAdvances(lists: seq<seq<Item>>, u: seq<Item>, pos: seq<int>, n: nat, c: nat)
    requires ChildrenOk(lists) && IsUnion(lists, u) && Front(lists, u, pos, n) && n < |u|
    requires On(lists, pos, c) && lists[c][pos[c]] == u[n]
    ensures Front(lists, u, pos[c := pos[c] + 1], n + 1)
  {
    forall d | 0 <= d < |lists| ensures ChildAt(u, lists[d], pos[c := pos[c] + 1][d], n + 1) {
      assert ChildAt(u, lists[d], pos[d], n);
      forall j | 0 <= j < |lists[d]| ensures j < pos[c := pos[c] + 1][d] <==> Below(u, n + 1, lists[d][j].key) {
        BelowNext(lists, u, n, d, j);
        OnlyHolder(lists, c, pos[c], d, j);
      }
    }
  }

  /** Once the child that stands on item n moves back, all children stand behind item n. */
  lemma BackRetreats(lists: seq<seq<Item>>, u: seq<Item>, pos: seq<int>, n: nat, c: nat)
    requires ChildrenOk(lists) && IsUnion(lists, u) && Back(lists, u, pos, n + 1) && n < |u|
    requires On(lists, pos, c) && lists[c][pos[c]] == u[n]
    ensures Back(lists, u, pos[c := pos[c] - 1], n)
  {
    forall d | 0 <= d < |lists| ensures ChildAt(u, lists[d], pos[c := pos[c] - 1][d] + 1, n) {
      assert ChildAt(u, lists[d], pos[d] + 1, n + 1);
      forall j | 0 <= j < |lists[d]| ensures j < pos[c := pos[c] - 1][d] + 1 <==> Below(u, n, lists[d][j].key) {
        BelowNext(lists, u, n, d, j);
        OnlyHolder(lists, c, pos[c], d, j);
      }
    }
  }

  // ---- Child iterators ----

  /** Seek: the first item at or after the target. */
  function SeekTo(list: seq<Item>, target: real): (p: nat)
    ensures p <= |list| && (forall j :: 0 <= j < p ==> list[j].key < target) && (p < |list| ==> list[p].key >= target)
  {
    if list != [] && list[0].key < target then
      var p := SeekTo(list[1..], target);
      assert forall j :: 0 < j <= p ==> list[j] == list[1..][j - 1];
      p + 1
    else 0
  }

  /** n counts the items of the union before the target. */
  ghost predicate Counts(u: seq<Item>, target: real, n: nat) {
    n <= |u| && forall i :: 0 <= i < |u| ==> (i < n <==> u[i].key < target)
  }

  lemma {:induction false} CountExists(u: seq<Item>, target: real) returns (n: nat)
    requires Rising(u)
    ensures Counts(u, target, n)
  {
    n := SeekTo(u, target);
    forall i | n <= i < |u| ensures u[i].key >= target { if i > n { assert u[n].key < u[i].key; } }
  }

  /** Seeking a child to a target that n items of the union precede. */
  lemma SeekIsFront(lists: seq<seq<Item>>, u: seq<Item>, c: nat, target: real, n: nat)
    requires ChildrenOk(lists) && IsUnion(lists, u) && c < |lists| && Counts(u, target, n)
    ensures ChildAt(u, lists[c], SeekTo(lists[c], target), n)
  {
    var p := SeekTo(lists[c], target);
    forall j | 0 <= j < |lists[c]| ensures j < p <==> Below(u, n, lists[c][j].key) {
      var m := ItemInUnion(lists, u, c, j);
      if n < |u| { KeysOrder(u, m, n); }
      if j > p { assert lists[c][p].key < lists[c][j].key; }
    }
  }

  lemma CountsAt(u: seq<Item>, n: nat)
    requires Rising(u) && n < |u|
    ensures Counts(u, u[n].key, n)
  {
    forall i | 0 <= i < |u| ensures i < n <==> u[i].key < u[n].key { KeysOrder(u, i, n); }
  }

  /** A child that has no item n stands alike before item n and before item n + 1. */
  lemma ChildSkips(lists: seq<seq<Item>>, u: seq<Item>, d: nat, p: int, n: nat, c: nat, i: nat)
    requires ChildrenOk(lists) && IsUnion(lists, u) && n < |u| && d < |lists| && c < |lists| && c != d
    requires i < |lists[c]| && lists[c][i] == u[n] && ChildAt(u, lists[d], p, n)
    ensures ChildAt(u, lists[d], p, n + 1) && (p < |lists[d]| ==> lists[d][p].key != u[n].key)
  {
    forall j | 0 <= j < |lists[d]| ensures Below(u, n + 1, lists[d][j].key) <==> Below(u, n, lists[d][j].key) {
      BelowNext(lists, u, n, d, j);
      OnlyHolder(lists, c, i, d, j);
    }
    if p < |lists[d]| { OnlyHolder(lists, c, i, d, p); }
  }

  class MergingIterator {
    const lists: seq<seq<Item>>
    ghost const union: seq<Item>
    var pos: seq<int>
    var current: Option<nat>
    var forward: bool
    ghost var at: nat

    ghost predicate Ok()
      reads this
    {
      ChildrenOk(lists) && IsUnion(lists, union) && |pos| == |lists|
    }

    /** When valid, it stands on item `at` of the union. */
    ghost predicate Inv()
      reads this
    {
      && Ok()
      && (current.Some? ==> at < |union| && On(lists, pos, current.value) && lists[current.value][pos[current.value]] == union[at])
      && (current.Some? && forward ==> Front(lists, union, pos, at))
      && (current.Some? && !forward ==> Back(lists, union, pos, at + 1))
    }

    constructor (lists: seq<seq<Item>>)
      requires ChildrenOk(lists)
      ensures Inv() && current.None? && this.lists == lists
    {
      this.lists, union := lists, Union(lists);
      pos, current, forward, at := seq(|lists|, _ => 0), None, true, 0;
      new;
      UnionExists(lists);
    }

    method Current() returns (x: Item)
      requires Inv() && current.Some?
      ensures at < |union| && x == union[at]
    {
      x := lists[current.value][pos[current.value]];
    }

    method FindSmallest(ghost n: nat)
      requires Ok() && forward && Front(lists, union, pos, n)
      modifies this`current, this`at
      ensures Inv() && current.Some? == (n < |union|) && (current.Some? ==> at == n)
    {
      var smallest: Option<nat> := None;
      for i := 0 to |lists|
        invariant smallest.Some? ==> On(lists, pos, smallest.value)
        invariant forall d :: 0 <= d < i && On(lists, pos, d) ==> smallest.Some? && KeyOf(lists, pos, smallest.value) <= KeyOf(lists, pos, d)
      {
        if On(lists, pos, i) {
          if smallest.None? {
            smallest := Some(i);
          } else if KeyOf(lists, pos, i) < KeyOf(lists, pos, smallest.value) {
            smallest := Some(i);
          }
        }
      }
      SmallestIsNext(lists, union, pos, n, smallest);
      current, at := smallest, n;
    }

    method FindLargest(ghost n: nat)
      requires Ok() && !forward && Back(lists, union, pos, n)
      modifies this`current, this`at
      ensures Inv() && current.Some? == (n > 0) && (current.Some? ==> at == n - 1)
    {
      var largest: Option<nat> := None;
      for i := |lists| downto 0
        invariant largest.Some? ==> On(lists, pos, largest.value)
        invariant forall d :: i <= d < |lists| && On(lists, pos, d) ==> largest.Some? && KeyOf(lists, pos, largest.value) >= KeyOf(lists, pos, d)
      {
        if On(lists, pos, i) {
          if largest.None? {
            largest := Some(i);
          } else if KeyOf(lists, pos, i) > KeyOf(lists, pos, largest.value) {
            largest := Some(i);
          }
        }
      }
      LargestIsPrevious(lists, union, pos, n, largest);
      current, at := largest, if n > 0 then n - 1 else 0;
    }

    /** Seek every child; n counts the items before the target. */
    method SeekChildren(target: real, ghost n: nat)
      requires Ok() && Counts(union, target, n)
      modifies this`pos
      ensures Ok() && Front(lists, union, pos, n)
    {
      for i := 0 to |lists|
        invariant Ok() && forall c :: 0 <= c < i ==> ChildAt(union, lists[c], pos[c], n)
      {
        SeekIsFront(lists, union, i, target, n);
        pos := pos[i := SeekTo(lists[i], target)];
      }
    }

    method SeekToFirst()
      requires Ok()
      modifies this
      ensures Inv() && current.Some? == (|union| > 0) && (current.Some? ==> at == 0)
    {
      for i := 0 to |lists|
        invariant Ok() && forall c :: 0 <= c < i ==> pos[c] == 0
      {
        pos := pos[i := 0];
      }
      StartIsFront(lists, union, pos);
      forward := true;
      FindSmallest(0);
    }

    method SeekToLast()
      requires Ok()
      modifies this
      ensures Inv() && current.Some? == (|union| > 0) && (current.Some? ==> at == |union| - 1)
    {
      for i := 0 to |lists|
        invariant Ok() && forall c :: 0 <= c < i ==> pos[c] == |lists[c]| - 1
      {
        pos := pos[i := |lists[i]| - 1];
      }
      forward := false;
      FindLargest(|union|);
    }

    method Seek(target: real)
      requires Ok()
      modifies this
      ensures Inv() && (current.Some? ==> Counts(union, target, at))
      ensures current.None? ==> Counts(union, target, |union|)
    {
      ghost var n := CountExists(union, target);
      SeekChildren(target, n);
      forward := true;
      FindSmallest(n);
    }

    /** Turning round to forward: the other children seek past the current key. */
    method TurnForward()
      requires Inv() && current.Some? && !forward
      modifies this`pos
      ensures Ok() && current == old(current) && pos[current.value] == old(pos)[current.value] && Front(lists, union, pos, at)
    {
      hide ChildAt, IsUnion, ChildrenOk, Counts;
      var c := current.value;
      var x := Current();
      RisingUnion(lists, union);
      CountsAt(union, at);
      ghost var j := pos[c];
      CurrentIsFront(lists, union, pos, c, at);
      for i := 0 to |lists|
        invariant Ok() && current == old(current) && On(lists, pos, c) && pos[c] == j
        invariant ChildAt(union, lists[c], pos[c], at)
        invariant forall d :: 0 <= d < i ==> ChildAt(union, lists[d], pos[d], at)
        invariant forall d :: i <= d < |lists| ==> pos[d] == old(pos)[d]
      {
        if i != c {
          SeekIsFront(lists, union, i, x.key, at);
          var p := SeekTo(lists[i], x.key);
          ChildSkips(lists, union, i, p, at, c, j);
          if p < |lists[i]| && lists[i][p].key == x.key {
            assert false;
          }
          pos := pos[i := p];
        }
      }
    }

    method Next()
      requires Inv() && current.Some?
      modifies this
      ensures Inv() && current.Some? == (old(at) + 1 < |union|) && (current.Some? ==> at == old(at) + 1)
    {
      ghost var n := at;
      if !forward {
        TurnForward();
        forward := true;
      }
      var c := current.value;
      FrontAdvances(lists, union, pos, n, c);
      pos := pos[c := pos[c] + 1];
      FindSmallest(n + 1);
    }

    /** Turning round to backward: the other children step back from the first item past the current key. */
    method TurnBackward()
      requires Inv() && current.Some? && forward
      modifies this`pos
      ensures Ok() && current == old(current) && pos[current.value] == old(pos)[current.value] && Back(lists, union, pos, at + 1)
    {
      hide ChildAt, IsUnion, ChildrenOk, Counts;
      var c := current.value;
      var x := Current();
      RisingUnion(lists, union);
      CountsAt(union, at);
      ghost var j := pos[c];
      CurrentIsBack(lists, union, pos, c, at);
      for i := 0 to |lists|
        invariant Ok() && current == old(current) && On(lists, pos, c) && pos[c] == j
        invariant ChildAt(union, lists[c], pos[c] + 1, at + 1)
        invariant forall d :: 0 <= d < i ==> ChildAt(union, lists[d], pos[d] + 1, at + 1)
        invariant forall d :: i <= d < |lists| ==> pos[d] == old(pos)[d]
      {
        if i != c {
          SeekIsFront(lists, union, i, x.key, at);
          var p := SeekTo(lists[i], x.key);
          ChildSkips(lists, union, i, p, at, c, j);
          pos := pos[i := if p < |lists[i]| then p - 1 else |lists[i]| - 1];
        }
      }
    }

    method Prev()
      requires Inv() && current.Some?
      modifies this
      ensures Inv() && current.Some? == (old(at) > 0) && (current.Some? ==> at == old(at) - 1)
    {
      ghost var n := at;
      if forward {
        TurnBackward();
        forward := false;
      }
      var c := current.value;
      BackRetreats(lists, union, pos, n, c);
      pos := pos[c := pos[c] - 1];
      FindLargest(n);
    }
  }

  lemma RisingUnion(lists: seq<seq<Item>>, u: seq<Item>)
    requires IsUnion(lists, u)
    ensures Rising(u)
  {
  }

  lemma StartIsFront(lists: seq<seq<Item>>, u: seq<Item>, pos: seq<int>)
    requires IsUnion(lists, u) && |pos| == |lists| && forall c :: 0 <= c < |lists| ==> pos[c] == 0
    ensures Front(lists, u, pos, 0)
  {
    forall c | 0 <= c < |lists| ensures ChildAt(u, lists[c], 0, 0) {
      forall j | 0 <= j < |lists[c]| ensures !Below(u, 0, lists[c][j].key) {
        var m := ItemInUnion(lists, u, c, j);
        KeysOrder(u, 0, m);
      }
    }
  }

  /** The current child stands on the current item, so it stands at it for both directions. */
  lemma CurrentIsFront(lists: seq<seq<Item>>, u: seq<Item>, pos: seq<int>, c: nat, n: nat)
    requires ChildrenOk(lists) && IsUnion(lists, u) && |pos| == |lists| && n < |u| && On(lists, pos, c) && lists[c][pos[c]] == u[n]
    ensures ChildAt(u, lists[c], pos[c], n)
  {
    forall j | 0 <= j < |lists[c]| ensures j < pos[c] <==> lists[c][j].key < u[n].key {
      if j < pos[c] { assert lists[c][j].key < lists[c][pos[c]].key; }
      if j > pos[c] { assert lists[c][pos[c]].key < lists[c][j].key; }
    }
  }

  lemma CurrentIsBack(lists: seq<seq<Item>>, u: seq<Item>, pos: seq<int>, c: nat, n: nat)
    requires ChildrenOk(lists) && IsUnion(lists, u) && |pos| == |lists| && n < |u| && On(lists, pos, c) && lists[c][pos[c]] == u[n]
    ensures ChildAt(u, lists[c], pos[c] + 1, n + 1)
  {
    CurrentIsFront(lists, u, pos, c, n);
    forall j | 0 <= j < |lists[c]| ensures j < pos[c] + 1 <==> Below(u, n + 1, lists[c][j].key) {
      BelowNext(lists, u, n, c, j);
      OnlyHolder(lists, c, pos[c], c, j);
    }
  }
}
