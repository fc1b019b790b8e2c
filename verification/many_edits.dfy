/** Applying many edits and saving once gives what saving after each edit gives (version_set.cc, Builder). */
module ManyEdits {
  import opened Bytestrings
  import opened VersionEdits
  import opened Builders

  /** What a builder has gathered for a level after some edits. */
  function StateAt(rank: Rank, edits: seq<Edit>, level: nat): LevelState {
    if edits == [] then UNTOUCHED
    else ApplyAt(rank, StateAt(rank, edits[..|edits| - 1], level), edits[|edits| - 1], level)
  }

  /** One builder, all edits, one save. */
  function SaveOnce(rank: Rank, v: Levels, edits: seq<Edit>): Levels {
    seq(NUM_LEVELS, l requires 0 <= l < NUM_LEVELS => Saved(rank, v[l], StateAt(rank, edits, l)))
  }

  /** A new builder and a save for one edit, as LogAndApply does. */
  function SaveOne(rank: Rank, v: Levels, e: Edit): Levels {
    seq(NUM_LEVELS, l requires 0 <= l < NUM_LEVELS => Saved(rank, v[l], ApplyAt(rank, UNTOUCHED, e, l)))
  }

  function SaveEach(rank: Rank, v: Levels, edits: seq<Edit>): Levels {
    if edits == [] then v else SaveOne(rank, SaveEach(rank, v, edits[..|edits| - 1]), edits[|edits| - 1])
  }

  /** The file numbers a level has held so far. */
  function Held(v: Levels, edits: seq<Edit>, level: nat): set<nat>
    requires level < NUM_LEVELS
  {
    if edits == [] then Numbers(v[level])
    else Held(v, edits[..|edits| - 1], level) + Numbers(AddedAt(edits[|edits| - 1].added, level))
  }

  ghost predicate NewTo(held: set<nat>, fs: seq<Meta>) {
    && (forall f :: f in fs ==> f.number !in held)
    && forall i, j :: 0 <= i < j < |fs| ==> fs[i].number != fs[j].number
  }

  ghost predicate AddsNew(v: Levels, edits: seq<Edit>, e: Edit) {
    forall l :: 0 <= l < NUM_LEVELS ==> NewTo(Held(v, edits, l), AddedAt(e.added, l))
  }

  /** No edit adds to a level a file number that the level has held. */
  ghost predicate NeverReadded(v: Levels, edits: seq<Edit>) {
    edits == [] ||
    (NeverReadded(v, edits[..|edits| - 1]) && AddsNew(v, edits[..|edits| - 1], edits[|edits| - 1]))
  }

  ghost predicate DistinctNumbers(s: set<Meta>) {
    forall f, g :: f in s && g in s && f.number == g.number ==> f == g
  }

  ghost predicate LevelsOk(rank: Rank, v: Levels) {
    forall l :: 0 <= l < NUM_LEVELS ==> SortedFiles(rank, v[l]) && DistinctNumbers(Files(v[l]))
  }

  // ---- Sorted file lists ----

  lemma {:induction false} InsertKeepsSorted(rank: Rank, s: seq<Meta>, f: Meta)
    requires SortedFiles(rank, s) && forall g :: g in s ==> g.number != f.number
    ensures SortedFiles(rank, InsertFile(rank, s, f)) && Files(InsertFile(rank, s, f)) == Files(s) + {f}
  {
    if s != [] {
      assert s == [s[0]] + s[1..];
      if BySmallest(rank, f, s[0]) {
        forall j | 0 < j < |s| ensures BySmallest(rank, f, s[j]) { assert BySmallest(rank, s[0], s[j]); }
      } else {
        InsertKeepsSorted(rank, s[1..], f);
        var r := InsertFile(rank, s[1..], f);
        forall j | 0 <= j < |r| ensures BySmallest(rank, s[0], r[j]) {
          assert r[j] in Files(r);
          if r[j] != f { var k :| 0 <= k < |s[1..]| && s[1..][k] == r[j]; assert s[k + 1] == r[j]; }
        }
      }
    }
  }

  lemma {:induction false} InsertAllKeepsSorted(rank: Rank, s: seq<Meta>, fs: seq<Meta>)
    requires SortedFiles(rank, s) && NewTo(Numbers(s), fs)
    ensures SortedFiles(rank, InsertAll(rank, s, fs)) && Files(InsertAll(rank, s, fs)) == Files(s) + Files(fs)
  {
    if fs != [] {
      var init, f := fs[..|fs| - 1], fs[|fs| - 1];
      InsertAllKeepsSorted(rank, s, init);
      assert fs == init + [f];
      forall g | g in InsertAll(rank, s, init) ensures g.number != f.number {
        assert g in Files(s) + Files(init);
      }
      InsertKeepsSorted(rank, InsertAll(rank, s, init), f);
    }
  }

  lemma {:induction false} MergeIsSorted(rank: Rank, a: seq<Meta>, b: seq<Meta>)
    requires SortedFiles(rank, a) && SortedFiles(rank, b) && forall f, g :: f in a && g in b ==> f.number != g.number
    ensures SortedFiles(rank, Merge(rank, a, b)) && Files(Merge(rank, a, b)) == Files(a) + Files(b)
  {
    hide BySmallest;
    if b == [] {
    } else if a != [] && !BySmallest(rank, b[0], a[0]) {
      TailIsSorted(rank, a);
      MergeIsSorted(rank, a[1..], b);
      FirstIsLeast(rank, a, b);
      Prepend(rank, a, b, Merge(rank, a[1..], b));
    } else {
      TailIsSorted(rank, b);
      MergeIsSorted(rank, a, b[1..]);
      if a != [] { Asymmetric(rank, b[0], a[0]); }
      FirstIsLeast(rank, b, a);
      Prepend(rank, b, a, Merge(rank, a, b[1..]));
    }
  }

  lemma Asymmetric(rank: Rank, f: Meta, g: Meta)
    requires BySmallest(rank, f, g)
    ensures !BySmallest(rank, g, f)
  {
  }

  lemma TailIsSorted(rank: Rank, s: seq<Meta>)
    requires s != [] && SortedFiles(rank, s)
    ensures SortedFiles(rank, s[1..]) && forall f :: f in s[1..] ==> f in s
  {
  }

  lemma Prepend(rank: Rank, a: seq<Meta>, b: seq<Meta>, rest: seq<Meta>)
    requires a != [] && SortedFiles(rank, rest) && Files(rest) == Files(a[1..]) + Files(b)
    requires forall j :: 0 < j < |a| ==> BySmallest(rank, a[0], a[j])
    requires forall j :: 0 <= j < |b| ==> BySmallest(rank, a[0], b[j])
    ensures SortedFiles(rank, [a[0]] + rest) && Files([a[0]] + rest) == Files(a) + Files(b)
  {
    hide BySmallest;
    assert a == [a[0]] + a[1..];
    forall j | 0 <= j < |rest| ensures BySmallest(rank, a[0], rest[j]) {
      assert rest[j] in Files(rest);
      StaysLater(rank, a, b, rest[j]);
    }
    forall f ensures f in Files([a[0]] + rest) <==> f in Files(a) + Files(b) {
      assert f in Files(rest) <==> f in Files(a[1..]) + Files(b);
    }
  }

  lemma FirstIsLeast(rank: Rank, a: seq<Meta>, b: seq<Meta>)
    requires a != [] && SortedFiles(rank, a) && SortedFiles(rank, b) && (b != [] ==> !BySmallest(rank, b[0], a[0]))
    requires forall f, g :: f in a && g in b ==> f.number != g.number
    ensures forall j :: 0 < j < |a| ==> BySmallest(rank, a[0], a[j])
    ensures forall j :: 0 <= j < |b| ==> BySmallest(rank, a[0], b[j])
  {
    if b != [] {
      assert a[0] in a && b[0] in b;
      forall j | 0 <= j < |b| ensures BySmallest(rank, a[0], b[j]) { assert j > 0 ==> BySmallest(rank, b[0], b[j]); }
    }
  }

  lemma StaysLater(rank: Rank, a: seq<Meta>, b: seq<Meta>, f: Meta)
    requires a != [] && (forall j :: 0 < j < |a| ==> BySmallest(rank, a[0], a[j]))
    requires (forall j :: 0 <= j < |b| ==> BySmallest(rank, a[0], b[j])) && f in Files(a[1..]) + Files(b)
    ensures BySmallest(rank, a[0], f)
  {
    if f in a[1..] {
      var k :| 0 <= k < |a[1..]| && a[1..][k] == f;
      assert a[k + 1] == f;
    }
  }

  lemma {:induction false} KeepIsSorted(rank: Rank, s: seq<Meta>, deleted: set<nat>)
    requires SortedFiles(rank, s)
    ensures SortedFiles(rank, Keep(s, deleted))
    ensures Files(Keep(s, deleted)) == set f | f in Files(s) && f.number !in deleted
  {
    hide BySmallest;
    if s != [] {
      KeepIsSorted(rank, s[1..], deleted);
      var r := Keep(s[1..], deleted);
      assert s == [s[0]] + s[1..];
      forall j | 0 <= j < |r| ensures BySmallest(rank, s[0], r[j]) {
        assert r[j] in Files(r);
        var k :| 0 <= k < |s[1..]| && s[1..][k] == r[j];
        assert s[k + 1] == r[j];
      }
      forall f ensures f in Keep(s, deleted) <==> f in s && f.number !in deleted {
        assert f in Files(r) <==> f in s[1..] && f.number !in deleted;
      }
    }
  }

  lemma {:induction false} SortedIsUnique(rank: Rank, s: seq<Meta>, t: seq<Meta>)
    requires SortedFiles(rank, s) && SortedFiles(rank, t) && Files(s) == Files(t)
    ensures s == t
  {
    if s == [] {
      HasFile(t);
      assert Files(s) == {};
    } else {
      assert s[0] in Files(t);
      SameFirst(rank, s, t);
      TailFiles(rank, s);
      TailFiles(rank, t);
      SortedIsUnique(rank, s[1..], t[1..]);
      assert s == [s[0]] + s[1..] && t == [t[0]] + t[1..];
    }
  }

  lemma HasFile(t: seq<Meta>)
    ensures t == [] || t[0] in Files(t)
  {
  }

  lemma SameFirst(rank: Rank, s: seq<Meta>, t: seq<Meta>)
    requires s != [] && t != [] && SortedFiles(rank, s) && SortedFiles(rank, t) && Files(s) == Files(t)
    ensures s[0] == t[0]
  {
    assert s[0] in Files(t) && t[0] in Files(s);
    var i :| 0 <= i < |s| && s[i] == t[0];
    var j :| 0 <= j < |t| && t[j] == s[0];
  }

  lemma TailFiles(rank: Rank, s: seq<Meta>)
    requires s != [] && SortedFiles(rank, s)
    ensures Files(s[1..]) == Files(s) - {s[0]}
  {
    assert s == [s[0]] + s[1..];
    forall k | 1 <= k < |s| ensures s[k] != s[0] { assert BySmallest(rank, s[0], s[k]); }
  }

  // ---- One level ----

  /** The builder's state st over `base`, and the list v that saving after each edit has led to. */
  ghost predicate Agree(rank: Rank, base: seq<Meta>, st: LevelState, v: seq<Meta>, held: set<nat>) {
    && SortedFiles(rank, base) && SortedFiles(rank, st.added) && SortedFiles(rank, v)
    && DistinctNumbers(Files(base) + Files(st.added)) && (forall f, g :: f in base && g in st.added ==> f.number != g.number)
    && Files(v) == (set f | f in Files(base) + Files(st.added) && f.number !in st.deleted)
    && (forall f :: f in Files(base) + Files(st.added) ==> f.number in held)
  }

  lemma AgreeMeansSaved(rank: Rank, base: seq<Meta>, st: LevelState, v: seq<Meta>, held: set<nat>)
    requires Agree(rank, base, st, v, held)
    ensures v == Saved(rank, base, st)
  {
    MergeIsSorted(rank, base, st.added);
    KeepIsSorted(rank, Merge(rank, base, st.added), st.deleted);
    SortedIsUnique(rank, v, Saved(rank, base, st));
  }

  /** Saving one edit over v drops the deleted files and takes in the added ones. */
  lemma OneEditSaved(rank: Rank, v: seq<Meta>, e: Edit, level: nat, held: set<nat>)
    requires SortedFiles(rank, v) && (forall f :: f in v ==> f.number in held) && NewTo(held, AddedAt(e.added, level))
    ensures var r := Saved(rank, v, ApplyAt(rank, UNTOUCHED, e, level));
            && SortedFiles(rank, r)
            && Files(r) == (set f | f in Files(v) && f.number !in DeletedAt(e.deleted, level)) + Files(AddedAt(e.added, level))
  {
    var fs, st := AddedAt(e.added, level), ApplyAt(rank, UNTOUCHED, e, level);
    InsertAllKeepsSorted(rank, [], fs);
    forall f, g | f in v && g in st.added ensures f.number != g.number { assert g in Files(fs); }
    MergeIsSorted(rank, v, st.added);
    KeepIsSorted(rank, Merge(rank, v, st.added), st.deleted);
    forall f | f in Files(fs) ensures f.number !in st.deleted { assert f in fs; }
    forall f | f in Files(v) ensures f.number in st.deleted <==> f.number in DeletedAt(e.deleted, level) { NotAdded(fs, f, held); }
  }

  lemma NotAdded(fs: seq<Meta>, f: Meta, held: set<nat>)
    requires f.number in held && NewTo(held, fs)
    ensures f.number !in Numbers(fs)
  {
  }

  lemma AgreeStep(rank: Rank, base: seq<Meta>, st: LevelState, v: seq<Meta>, held: set<nat>, e: Edit, level: nat)
    requires Agree(rank, base, st, v, held) && NewTo(held, AddedAt(e.added, level))
    ensures Agree(rank, base, ApplyAt(rank, st, e, level), Saved(rank, v, ApplyAt(rank, UNTOUCHED, e, level)),
                  held + Numbers(AddedAt(e.added, level)))
  {
    hide SortedFiles, Saved;
    var fs, st' := AddedAt(e.added, level), ApplyAt(rank, st, e, level);
    forall f | f in v ensures f.number in held { assert f in Files(v); }
    OneEditSaved(rank, v, e, level, held);
    NewToAdded(st.added, fs, held);
    InsertAllKeepsSorted(rank, st.added, fs);
    assert Files(st'.added) == Files(st.added) + Files(fs);
    forall f, g | f in base && g in st'.added ensures f.number != g.number {
      assert g in Files(st'.added) && f in Files(base);
    }
    DistinctGrows(Files(base) + Files(st.added), fs, held);
    assert Files(base) + Files(st'.added) == Files(base) + Files(st.added) + Files(fs);
    forall f ensures f in Files(Saved(rank, v, ApplyAt(rank, UNTOUCHED, e, level))) <==>
                     f in Files(base) + Files(st'.added) && f.number !in st'.deleted
    {
      if f in Files(base) + Files(st.added) { NotAdded(fs, f, held); }
      if f in Files(fs) { assert f.number in Numbers(fs); }
    }
    forall f | f in Files(base) + Files(st'.added) ensures f.number in held + Numbers(fs) {
      if f in Files(fs) { assert f.number in Numbers(fs); }
    }
  }

  lemma NewToAdded(added: seq<Meta>, fs: seq<Meta>, held: set<nat>)
    requires NewTo(held, fs) && forall f :: f in Files(added) ==> f.number in held
    ensures NewTo(Numbers(added), fs)
  {
    forall n | n in Numbers(added) ensures n in held { var f :| f in added && f.number == n; assert f in Files(added); }
  }

  lemma DistinctGrows(s: set<Meta>, fs: seq<Meta>, held: set<nat>)
    requires DistinctNumbers(s) && NewTo(held, fs) && forall f :: f in s ==> f.number in held
    ensures DistinctNumbers(s + Files(fs))
  {
    forall f, g | f in s + Files(fs) && g in s + Files(fs) && f.number == g.number ensures f == g {
      if f in Files(fs) && g in Files(fs) {
        var i :| 0 <= i < |fs| && fs[i] == f;
        var j :| 0 <= j < |fs| && fs[j] == g;
      }
    }
  }

  lemma {:induction false} LevelsAgree(rank: Rank, v: Levels, edits: seq<Edit>, l: nat)
    requires l < NUM_LEVELS && LevelsOk(rank, v) && NeverReadded(v, edits)
    ensures Agree(rank, v[l], StateAt(rank, edits, l), SaveEach(rank, v, edits)[l], Held(v, edits, l))
  {
    hide Agree, NewTo, ApplyAt, Saved;
    if edits == [] {
      StartAgrees(rank, v[l]);
    } else {
      var init, e := edits[..|edits| - 1], edits[|edits| - 1];
      LevelsAgree(rank, v, init, l);
      AgreeStep(rank, v[l], StateAt(rank, init, l), SaveEach(rank, v, init)[l], Held(v, init, l), e, l);
    }
  }

  lemma StartAgrees(rank: Rank, base: seq<Meta>)
    requires SortedFiles(rank, base) && DistinctNumbers(Files(base))
    ensures Agree(rank, base, UNTOUCHED, base, Numbers(base))
  {
    assert Files(base) + Files([]) == Files(base);
    forall f | f in Files(base) ensures f.number in Numbers(base) { assert f in base; }
  }

  /** If no level is given back a number it has held, one save after all edits equals a save after each. */
  lemma OnceIsEach(rank: Rank, v: Levels, edits: seq<Edit>)
    requires LevelsOk(rank, v) && NeverReadded(v, edits)
    ensures SaveOnce(rank, v, edits) == SaveEach(rank, v, edits)
  {
    hide SaveEach, StateAt, Saved, LevelsOk, NeverReadded;
    forall l | 0 <= l < NUM_LEVELS ensures SaveOnce(rank, v, edits)[l] == SaveEach(rank, v, edits)[l] {
      LevelsAgree(rank, v, edits, l);
      AgreeMeansSaved(rank, v[l], StateAt(rank, edits, l), SaveEach(rank, v, edits)[l], Held(v, edits, l));
    }
  }

  /** The saved levels stay sorted, with one file to a number. */
  lemma SavedLevelsAreOk(rank: Rank, v: Levels, edits: seq<Edit>)
    requires LevelsOk(rank, v) && NeverReadded(v, edits)
    ensures LevelsOk(rank, SaveEach(rank, v, edits))
    ensures forall l, f :: 0 <= l < NUM_LEVELS && f in SaveEach(rank, v, edits)[l] ==> f.number in Held(v, edits, l)
  {
    forall l | 0 <= l < NUM_LEVELS
      ensures SortedFiles(rank, SaveEach(rank, v, edits)[l]) && DistinctNumbers(Files(SaveEach(rank, v, edits)[l]))
      ensures forall f :: f in SaveEach(rank, v, edits)[l] ==> f.number in Held(v, edits, l)
    {
      hide SaveEach, StateAt, Saved, LevelsOk, NeverReadded;
      LevelsAgree(rank, v, edits, l);
      AgreeIsOk(rank, v[l], StateAt(rank, edits, l), SaveEach(rank, v, edits)[l], Held(v, edits, l));
    }
  }

  lemma AgreeIsOk(rank: Rank, base: seq<Meta>, st: LevelState, v: seq<Meta>, held: set<nat>)
    requires Agree(rank, base, st, v, held)
    ensures SortedFiles(rank, v) && DistinctNumbers(Files(v)) && forall f :: f in v ==> f.number in held
  {
    forall f | f in v ensures f.number in held { assert f in Files(v); }
  }

  /** On every level the edit's deleted files leave and its added files come, and no other file does. */
  ghost predicate Replaced(v: Levels, e: Edit, r: Levels) {
    forall l, f | 0 <= l < NUM_LEVELS ::
      f in r[l] <==> (l, f) in e.added || (f in v[l] && (l, f.number) !in e.deleted)
  }

  /** Saving an edit over a version that was saved before replaces the files the edit names. */
  lemma SavingReplaces(rank: Rank, edits: seq<Edit>, v: Levels, e: Edit)
    requires NeverReadded(NO_FILES, edits) && v == SaveEach(rank, NO_FILES, edits) && AddsNew(NO_FILES, edits, e)
    ensures Replaced(v, e, SaveOne(rank, v, e))
  {
    NoFilesAreOk(rank);
    SavedLevelsAreOk(rank, NO_FILES, edits);
    hide SaveEach, Saved, ApplyAt, NeverReadded, Held, NewTo, SortedFiles, DistinctNumbers;
    forall l, f | 0 <= l < NUM_LEVELS
      ensures f in SaveOne(rank, v, e)[l] <==> (l, f) in e.added || (f in v[l] && (l, f.number) !in e.deleted)
    {
      LevelReplaced(rank, v[l], e, l, Held(NO_FILES, edits, l), f);
    }
  }

  lemma LevelReplaced(rank: Rank, v: seq<Meta>, e: Edit, level: nat, held: set<nat>, f: Meta)
    requires SortedFiles(rank, v) && (forall g :: g in v ==> g.number in held) && NewTo(held, AddedAt(e.added, level))
    ensures f in Saved(rank, v, ApplyAt(rank, UNTOUCHED, e, level)) <==>
            (level, f) in e.added || (f in v && (level, f.number) !in e.deleted)
  {
    hide Saved, ApplyAt, NewTo, SortedFiles, DeletedAt, AddedAt;
    OneEditSaved(rank, v, e, level, held);
    DeletedAtHas(e.deleted, level, f.number);
    AddedAtHas(e.added, level, f);
    assert f in Saved(rank, v, ApplyAt(rank, UNTOUCHED, e, level)) <==> f in Files(Saved(rank, v, ApplyAt(rank, UNTOUCHED, e, level)));
  }

  lemma NoFilesAreOk(rank: Rank)
    ensures LevelsOk(rank, NO_FILES)
  {
  }
}
