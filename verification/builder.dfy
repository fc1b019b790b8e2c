/** VersionSet::Builder: many edits, one saved version (version_set.cc). */
module Builders {
  import opened Bytestrings
  import opened VersionEdits

  /** The place of an internal key in the comparator's order. */
  type Rank = Bytes -> real

  /** BySmallestKey. */
  predicate BySmallest(rank: Rank, f: Meta, g: Meta) {
    rank(f.smallest) < rank(g.smallest) || (rank(f.smallest) == rank(g.smallest) && f.number < g.number)
  }

  ghost predicate SortedFiles(rank: Rank, s: seq<Meta>) {
    forall i, j :: 0 <= i < j < |s| ==> BySmallest(rank, s[i], s[j])
  }

  function Files(s: seq<Meta>): set<Meta> {
    set f | f in s
  }

  function Numbers(s: seq<Meta>): set<nat> {
    set f | f in s :: f.number
  }

  /** std::set::insert on the added files: an equivalent file that is there stays. */
  function InsertFile(rank: Rank, s: seq<Meta>, f: Meta): seq<Meta> {
    if s == [] || BySmallest(rank, f, s[0]) then [f] + s
    else if BySmallest(rank, s[0], f) then [s[0]] + InsertFile(rank, s[1..], f)
    else s
  }

  function InsertAll(rank: Rank, s: seq<Meta>, fs: seq<Meta>): seq<Meta> {
    if fs == [] then s else InsertFile(rank, InsertAll(rank, s, fs[..|fs| - 1]), fs[|fs| - 1])
  }

  /** One level of an edit: the numbers it deletes and the files it adds, in order. */
  function DeletedAt(ds: seq<(nat, nat)>, level: nat): set<nat> {
    set d | d in ds && d.0 == level :: d.1
  }

  function AddedAt(fs: seq<(nat, Meta)>, level: nat): seq<Meta> {
    if fs == [] then [] else AddedAt(fs[..|fs| - 1], level) + if fs[|fs| - 1].0 == level then [fs[|fs| - 1].1] else []
  }

  datatype LevelState = LevelState(deleted: set<nat>, added: seq<Meta>)

  const UNTOUCHED: LevelState := LevelState({}, [])

  /** Deletions first; a file that is added is no longer deleted. */
  function ApplyAt(rank: Rank, st: LevelState, e: Edit, level: nat): LevelState {
    var fs := AddedAt(e.added, level);
    LevelState((st.deleted + DeletedAt(e.deleted, level)) - Numbers(fs), InsertAll(rank, st.added, fs))
  }

  function Merge(rank: Rank, base: seq<Meta>, added: seq<Meta>): seq<Meta> {
    if added == [] then base
    else if base != [] && !BySmallest(rank, added[0], base[0]) then [base[0]] + Merge(rank, base[1..], added)
    else [added[0]] + Merge(rank, base, added[1..])
  }

  /** MaybeAddFile on each file in turn. */
  function Keep(s: seq<Meta>, deleted: set<nat>): seq<Meta> {
    if s == [] then [] else (if s[0].number in deleted then [] else [s[0]]) + Keep(s[1..], deleted)
  }

  function Saved(rank: Rank, base: seq<Meta>, st: LevelState): seq<Meta> {
    Keep(Merge(rank, base, st.added), st.deleted)
  }

  type Levels = s: seq<seq<Meta>> | |s| == NUM_LEVELS witness seq(NUM_LEVELS, _ => [])

  const NO_FILES: Levels := [[], [], [], [], [], [], []]

  /** compact_pointer_ after an edit; an empty string is no pointer. */
  function PointersAfter(cp: seq<Bytes>, ps: seq<(nat, Bytes)>): (r: seq<Bytes>)
    requires |cp| == NUM_LEVELS
    ensures |r| == NUM_LEVELS
  {
    if ps == [] then cp
    else
      var init, p := PointersAfter(cp, ps[..|ps| - 1]), ps[|ps| - 1];
      if p.0 < NUM_LEVELS then init[p.0 := p.1] else init
  }

  /** Each level has the last pointer the list gives for it, and its old one if the list gives none. */
  ghost predicate PointersMoved(cp: seq<Bytes>, ps: seq<(nat, Bytes)>, r: seq<Bytes>) {
    && |r| == |cp| == NUM_LEVELS
    && (forall l :: 0 <= l < NUM_LEVELS && (forall i :: 0 <= i < |ps| ==> ps[i].0 != l) ==> r[l] == cp[l])
    && forall i :: 0 <= i < |ps| && ps[i].0 < NUM_LEVELS && LastOfLevel(ps, i) ==> r[ps[i].0] == ps[i].1
  }

  predicate LastOfLevel(ps: seq<(nat, Bytes)>, i: nat)
    requires i < |ps|
  {
    forall j :: i < j < |ps| ==> ps[j].0 != ps[i].0
  }

  lemma {:induction false} PointersAfterMoves(cp: seq<Bytes>, ps: seq<(nat, Bytes)>)
    requires |cp| == NUM_LEVELS
    ensures PointersMoved(cp, ps, PointersAfter(cp, ps))
  {
    if ps != [] {
      var init, n := ps[..|ps| - 1], |ps| - 1;
      PointersAfterMoves(cp, init);
      forall i | 0 <= i < n && LastOfLevel(ps, i) ensures LastOfLevel(init, i) && ps[i].0 != ps[n].0 {}
      forall l | 0 <= l < NUM_LEVELS && forall i :: 0 <= i < |ps| ==> ps[i].0 != l ensures PointersAfter(cp, ps)[l] == cp[l] {
        assert forall i :: 0 <= i < |init| ==> init[i].0 != l;
      }
    }
  }

  /** The numbers an edit deletes are marked, those it adds are not, and its files are taken in. */
  ghost predicate TakenIn(st: LevelState, e: Edit, level: nat, r: LevelState) {
    && (forall n :: n in r.deleted <==> (n in st.deleted || (level, n) in e.deleted) && !AddsNumber(e, level, n))
    && (forall f :: f in r.added ==> f in st.added || (level, f) in e.added)
    && (forall f :: f in st.added ==> f in r.added)
  }

  ghost predicate AddsNumber(e: Edit, level: nat, n: nat) {
    exists f :: (level, f) in e.added && f.number == n
  }

  lemma DeletedAtHas(ds: seq<(nat, nat)>, level: nat, n: nat)
    ensures n in DeletedAt(ds, level) <==> (level, n) in ds
  {
  }

  lemma {:induction false} AddedAtHas(fs: seq<(nat, Meta)>, level: nat, f: Meta)
    ensures f in AddedAt(fs, level) <==> (level, f) in fs
  {
    if fs != [] {
      AddedAtHas(fs[..|fs| - 1], level, f);
      assert fs == fs[..|fs| - 1] + [fs[|fs| - 1]];
    }
  }

  lemma {:induction false} InsertFileHas(rank: Rank, s: seq<Meta>, f: Meta, g: Meta)
    ensures g in InsertFile(rank, s, f) ==> g in s || g == f
    ensures g in s ==> g in InsertFile(rank, s, f)
  {
    if s != [] {
      InsertFileHas(rank, s[1..], f, g);
      assert s == [s[0]] + s[1..];
    }
  }

  lemma {:induction false} InsertAllHas(rank: Rank, s: seq<Meta>, fs: seq<Meta>, g: Meta)
    ensures g in InsertAll(rank, s, fs) ==> g in s || g in fs
    ensures g in s ==> g in InsertAll(rank, s, fs)
  {
    hide InsertFile;
    if fs != [] {
      InsertAllHas(rank, s, fs[..|fs| - 1], g);
      InsertFileHas(rank, InsertAll(rank, s, fs[..|fs| - 1]), fs[|fs| - 1], g);
    }
  }

  lemma ApplyTakesIn(rank: Rank, st: LevelState, e: Edit, level: nat)
    ensures TakenIn(st, e, level, ApplyAt(rank, st, e, level))
  {
    hide DeletedAt, AddedAt, InsertAll;
    var fs, r := AddedAt(e.added, level), ApplyAt(rank, st, e, level);
    forall n ensures n in r.deleted <==> (n in st.deleted || (level, n) in e.deleted) && !AddsNumber(e, level, n) {
      DeletedAtHas(e.deleted, level, n);
      forall f ensures f in fs <==> (level, f) in e.added { AddedAtHas(e.added, level, f); }
    }
    forall f
      ensures f in r.added ==> f in st.added || (level, f) in e.added
      ensures f in st.added ==> f in r.added
    {
      AddedAtHas(e.added, level, f);
      InsertAllHas(rank, st.added, fs, f);
    }
  }

  predicate LevelsInRange(e: Edit) {
    && (forall i :: 0 <= i < |e.deleted| ==> e.deleted[i].0 < NUM_LEVELS)
    && forall i :: 0 <= i < |e.added| ==> e.added[i].0 < NUM_LEVELS
  }

  class Builder {
    const rank: Rank
    const base: Levels
    var compactPointer: seq<Bytes>
    var levels: seq<LevelState>

    ghost predicate Valid()
      reads this
    {
      |levels| == NUM_LEVELS && |compactPointer| == NUM_LEVELS
    }

    constructor (rank: Rank, base: Levels, compactPointer: seq<Bytes>)
      requires |compactPointer| == NUM_LEVELS
      ensures Valid() && this.rank == rank && this.base == base && this.compactPointer == compactPointer
      ensures levels == seq(NUM_LEVELS, _ => UNTOUCHED)
    {
      this.rank, this.base, this.compactPointer := rank, base, compactPointer;
      levels := seq(NUM_LEVELS, _ => UNTOUCHED);
    }

    /** Apply all of an edit to the current state. */
    method Apply(e: Edit)
      requires Valid() && LevelsInRange(e)
      modifies this
      ensures Valid() && compactPointer == PointersAfter(old(compactPointer), e.pointers)
      ensures forall l :: 0 <= l < NUM_LEVELS ==> levels[l] == ApplyAt(rank, old(levels)[l], e, l)
      ensures forall l :: 0 <= l < NUM_LEVELS ==> TakenIn(old(levels)[l], e, l, levels[l])
      ensures PointersMoved(old(compactPointer), e.pointers, compactPointer)
    {
      hide TakenIn, PointersMoved;
      ghost var was := levels;
      PointersAfterMoves(compactPointer, e.pointers);
      ApplyPointers(e.pointers);
      Delete(e);
      Add(e);
      forall l | 0 <= l < NUM_LEVELS ensures TakenIn(was[l], e, l, levels[l]) { ApplyTakesIn(rank, was[l], e, l); }
    }

    method ApplyPointers(ps: seq<(nat, Bytes)>)
      requires Valid()
      modifies this`compactPointer
      ensures Valid() && compactPointer == PointersAfter(old(compactPointer), ps)
    {
      for i := 0 to |ps|
        invariant Valid() && compactPointer == PointersAfter(old(compactPointer), ps[..i])
      {
        assert ps[..i + 1][..i] == ps[..i];
        if ps[i].0 < NUM_LEVELS {
          compactPointer := compactPointer[ps[i].0 := ps[i].1];
        }
      }
      assert ps[..|ps|] == ps;
    }

    method Delete(e: Edit)
      requires Valid() && LevelsInRange(e)
      modifies this`levels
      ensures Valid()
      ensures forall l :: 0 <= l < NUM_LEVELS ==>
        levels[l] == LevelState(old(levels)[l].deleted + DeletedAt(e.deleted, l), old(levels)[l].added)
    {
      for i := 0 to |e.deleted|
        invariant Valid()
        invariant forall l :: 0 <= l < NUM_LEVELS ==>
          levels[l] == LevelState(old(levels)[l].deleted + DeletedAt(e.deleted[..i], l), old(levels)[l].added)
      {
        var level, number := e.deleted[i].0, e.deleted[i].1;
        levels := levels[level := levels[level].(deleted := levels[level].deleted + {number})];
        assert e.deleted[..i + 1] == e.deleted[..i] + [e.deleted[i]];
      }
      assert e.deleted[..|e.deleted|] == e.deleted;
    }

    method Add(e: Edit)
      requires Valid() && LevelsInRange(e)
      modifies this`levels
      ensures Valid() && AllAdded(rank, old(levels), e.added, levels)
    {
      hide AllAdded, InsertFile;
      NoneAdded(rank, levels);
      assert e.added[..0] == [];
      for i := 0 to |e.added|
        invariant Valid() && AllAdded(rank, old(levels), e.added[..i], levels)
      {
        var level, f := e.added[i].0, e.added[i].1;
        OneAdded(rank, old(levels), e.added, i, levels);
        levels := levels[level := LevelState(levels[level].deleted - {f.number}, InsertFile(rank, levels[level].added, f))];
      }
      assert e.added[..|e.added|] == e.added;
    }

    /** Save the current state: per level, added files merged with the base files, deleted ones dropped. */
    method SaveTo() returns (v: Levels)
      requires Valid() && forall l :: 0 <= l < NUM_LEVELS ==> SortedFiles(rank, base[l])
      ensures forall l :: 0 <= l < NUM_LEVELS ==> v[l] == Saved(rank, base[l], levels[l])
    {
      v := NO_FILES;
      for level := 0 to NUM_LEVELS
        invariant forall l :: 0 <= l < level ==> v[l] == Saved(rank, base[l], levels[l])
      {
        var files := SaveLevel(rank, base[level], levels[level]);
        v := v[level := files];
      }
    }
  }

  ghost predicate AddedTo(rank: Rank, a: LevelState, fs: seq<Meta>, b: LevelState) {
    b == LevelState(a.deleted - Numbers(fs), InsertAll(rank, a.added, fs))
  }

  ghost predicate AllAdded(rank: Rank, a: seq<LevelState>, added: seq<(nat, Meta)>, b: seq<LevelState>) {
    |a| == |b| == NUM_LEVELS && forall l :: 0 <= l < NUM_LEVELS ==> AddedTo(rank, a[l], AddedAt(added, l), b[l])
  }

  lemma NoneAdded(rank: Rank, a: seq<LevelState>)
    requires |a| == NUM_LEVELS
    ensures AllAdded(rank, a, [], a)
  {
    forall l | 0 <= l < NUM_LEVELS ensures AddedTo(rank, a[l], [], a[l]) {
      assert a[l].deleted - Numbers([]) == a[l].deleted;
    }
  }

  lemma OneAdded(rank: Rank, a: seq<LevelState>, added: seq<(nat, Meta)>, i: nat, b: seq<LevelState>)
    requires i < |added| && added[i].0 < NUM_LEVELS && AllAdded(rank, a, added[..i], b)
    ensures var level, f := added[i].0, added[i].1;
            AllAdded(rank, a, added[..i + 1], b[level := LevelState(b[level].deleted - {f.number}, InsertFile(rank, b[level].added, f))])
  {
    hide AddedTo, AddedAt, InsertFile;
    forall l | 0 <= l < NUM_LEVELS ensures AddedTo(rank, a[l], AddedAt(added[..i + 1], l), if added[i].0 == l
              then LevelState(b[l].deleted - {added[i].1.number}, InsertFile(rank, b[l].added, added[i].1)) else b[l])
    {
      AddOne(rank, a[l], added, i, b[l], l);
    }
  }

  lemma AddOne(rank: Rank, a: LevelState, added: seq<(nat, Meta)>, i: nat, b: LevelState, l: nat)
    requires i < |added| && AddedTo(rank, a, AddedAt(added[..i], l), b)
    ensures AddedTo(rank, a, AddedAt(added[..i + 1], l), if added[i].0 == l
              then LevelState(b.deleted - {added[i].1.number}, InsertFile(rank, b.added, added[i].1)) else b)
  {
    assert added[..i + 1][..i] == added[..i];
    var fs, f := AddedAt(added[..i], l), added[i].1;
    if added[i].0 == l {
      assert AddedAt(added[..i + 1], l) == fs + [f] && (fs + [f])[..|fs|] == fs;
      NumbersOfAppend(fs, f);
      assert a.deleted - Numbers(fs) - {f.number} == a.deleted - Numbers(fs + [f]);
    } else {
      assert AddedAt(added[..i + 1], l) == fs + [];
      assert fs + [] == fs;
    }
  }

  lemma NumbersOfAppend(fs: seq<Meta>, f: Meta)
    ensures Numbers(fs + [f]) == Numbers(fs) + {f.number}
  {
    forall n ensures n in Numbers(fs + [f]) <==> n in Numbers(fs) + {f.number} {
      if n == f.number { assert f in fs + [f]; }
      if g :| g in fs && g.number == n { assert g in fs + [f]; }
    }
  }

  /** std::upper_bound from position i on. */
  method UpperBound(rank: Rank, files: seq<Meta>, i: nat, f: Meta) returns (b: nat)
    requires SortedFiles(rank, files) && i <= |files|
    ensures i <= b <= |files|
    ensures forall k :: i <= k < b ==> !BySmallest(rank, f, files[k])
    ensures forall k :: b <= k < |files| ==> BySmallest(rank, f, files[k])
  {
    var left, right := i, |files|;
    while left < right
      invariant i <= left <= right <= |files|
      invariant forall k :: i <= k < left ==> !BySmallest(rank, f, files[k])
      invariant forall k :: right <= k < |files| ==> BySmallest(rank, f, files[k])
    {
      var mid := (left + right) / 2;
      if BySmallest(rank, f, files[mid]) {
        forall k | mid < k < |files| ensures BySmallest(rank, f, files[k]) { assert BySmallest(rank, files[mid], files[k]); }
        right := mid;
      } else {
        forall k | i <= k < mid ensures !BySmallest(rank, f, files[k]) { assert BySmallest(rank, files[k], files[mid]); }
        left := mid + 1;
      }
    }
    b := left;
  }

  method MaybeAddFile(files: seq<Meta>, deleted: set<nat>, f: Meta) returns (r: seq<Meta>)
    ensures r == files + Keep([f], deleted)
  {
    r := files;
    if f.number !in deleted {
      r := r + [f];
    }
  }

  method SaveLevel(rank: Rank, base: seq<Meta>, st: LevelState) returns (files: seq<Meta>)
    requires SortedFiles(rank, base)
    ensures files == Saved(rank, base, st)
  {
    hide SortedFiles, Keep, Merge;
    files := [];
    var i := 0;
    ghost var all := Saved(rank, base, st);
    assert base[0..] == base && st.added[0..] == st.added && [] + all == all;
    for j := 0 to |st.added|
      invariant i <= |base| && files + Keep(Merge(rank, base[i..], st.added[j..]), st.deleted) == all
    {
      var bpos := UpperBound(rank, base, i, st.added[j]);
      while i < bpos
        invariant i <= bpos <= |base| && files + Keep(Merge(rank, base[i..], st.added[j..]), st.deleted) == all
      {
        MergeTakesBase(rank, base[i..], st.added[j..], st.deleted);
        assert base[i..][1..] == base[i + 1..];
        files := MaybeAddFile(files, st.deleted, base[i]);
        i := i + 1;
      }
      MergeTakesAdded(rank, base[i..], st.added[j..], st.deleted);
      assert st.added[j..][1..] == st.added[j + 1..];
      files := MaybeAddFile(files, st.deleted, st.added[j]);
    }
    MergeRest(rank, base[i..]);
    assert st.added[|st.added|..] == [];
    while i < |base|
      invariant i <= |base| && files + Keep(base[i..], st.deleted) == all
    {
      KeepFirst(base[i..], st.deleted);
      assert base[i..][1..] == base[i + 1..];
      files := MaybeAddFile(files, st.deleted, base[i]);
      i := i + 1;
    }
    assert base[i..] == [];
    KeepNone(st.deleted);
  }

  lemma {:induction false} KeepFirst(s: seq<Meta>, deleted: set<nat>)
    requires s != []
    ensures Keep(s, deleted) == Keep([s[0]], deleted) + Keep(s[1..], deleted)
  {
    KeepOne(s[0], deleted);
  }

  lemma {:induction false} KeepOne(f: Meta, deleted: set<nat>)
    ensures Keep([f], deleted) == if f.number in deleted then [] else [f]
  {
    assert [f][1..] == [];
  }

  lemma KeepNone(deleted: set<nat>)
    ensures Keep([], deleted) == []
  {
  }

  lemma MergeRest(rank: Rank, base: seq<Meta>)
    ensures Merge(rank, base, []) == base
  {
  }

  lemma {:induction false} KeepCons(f: Meta, s: seq<Meta>, deleted: set<nat>)
    ensures Keep([f] + s, deleted) == Keep([f], deleted) + Keep(s, deleted)
  {
    hide Keep;
    KeepFirst([f] + s, deleted);
    assert ([f] + s)[1..] == s;
  }

  lemma {:induction false} MergeTakesBase(rank: Rank, base: seq<Meta>, added: seq<Meta>, deleted: set<nat>)
    requires base != [] && added != [] && !BySmallest(rank, added[0], base[0])
    ensures Keep(Merge(rank, base, added), deleted) == Keep([base[0]], deleted) + Keep(Merge(rank, base[1..], added), deleted)
  {
    hide Keep;
    KeepCons(base[0], Merge(rank, base[1..], added), deleted);
  }

  lemma {:induction false} MergeTakesAdded(rank: Rank, base: seq<Meta>, added: seq<Meta>, deleted: set<nat>)
    requires added != [] && (base != [] ==> BySmallest(rank, added[0], base[0]))
    ensures Keep(Merge(rank, base, added), deleted) == Keep([added[0]], deleted) + Keep(Merge(rank, base, added[1..]), deleted)
  {
    hide Keep;
    KeepCons(added[0], Merge(rank, base, added[1..]), deleted);
  }
}
