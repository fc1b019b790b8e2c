/** Closing the inputs of a compaction under shared user keys (version_set.cc, AddBoundaryInputs and SetupOtherInputs). */
module CompactionInputs {
  import opened Bytestrings
  import opened Format
  import opened Versions
  import opened Inputs

  method FindLargestKey(files: seq<File>) returns (found: bool, largest: IKey)
    ensures found <==> files != []
    ensures found ==> (exists f :: f in files && f.largest == largest) && forall f :: f in files ==> AtMost(f.largest, largest)
  {
    if files == [] {
      return false, IKey(0.0, 0, Deletion);
    }
    found, largest := true, files[0].largest;
    for i := 1 to |files|
      invariant exists k :: 0 <= k < i && files[k].largest == largest
      invariant forall k :: 0 <= k < i ==> AtMost(files[k].largest, largest)
    {
      if Less(largest, files[i].largest) {
        largest := files[i].largest;
      }
    }
  }

  /** f starts past `largest` with the same user key. */
  predicate Boundary(f: File, largest: IKey) {
    Less(largest, f.smallest) && f.smallest.user == largest.user
  }

  method FindSmallestBoundaryFile(levelFiles: seq<File>, largest: IKey) returns (r: Option<File>)
    ensures r.None? ==> forall f :: f in levelFiles ==> !Boundary(f, largest)
    ensures r.Some? ==> r.value in levelFiles && Boundary(r.value, largest)
    ensures r.Some? ==> forall f :: f in levelFiles && Boundary(f, largest) ==> AtMost(r.value.smallest, f.smallest)
  {
    r := None;
    for i := 0 to |levelFiles|
      invariant r.None? ==> forall k :: 0 <= k < i ==> !Boundary(levelFiles[k], largest)
      invariant r.Some? ==> r.value in levelFiles && Boundary(r.value, largest)
      invariant r.Some? ==>
        forall k :: 0 <= k < i && Boundary(levelFiles[k], largest) ==> AtMost(r.value.smallest, levelFiles[k].smallest)
    {
      var f := levelFiles[i];
      if Less(largest, f.smallest) && f.smallest.user == largest.user {
        if r.None? || Less(f.smallest, r.value.smallest) {
          r := Some(f);
        }
      }
    }
  }

  ghost function StartsAfter(files: seq<File>, key: IKey): set<int> {
    set k | 0 <= k < |files| && Less(key, files[k].smallest)
  }

  /** `largest` is the largest key of the files. */
  ghost predicate IsLargest(files: seq<File>, largest: IKey) {
    && (exists f :: f in files && f.largest == largest)
    && forall f :: f in files ==> AtMost(f.largest, largest)
  }

  /** Files of the level that start after `from` and no later than `to` are all among the chosen ones. */
  ghost predicate NoneSkipped(levelFiles: seq<File>, chosen: seq<File>, from: IKey, to: IKey) {
    forall f :: f in levelFiles && Less(from, f.smallest) && AtMost(f.smallest, to) ==> f in chosen
  }

  /** What AddBoundaryInputs leaves behind on a disjoint level. */
  ghost predicate Extended(levelFiles: seq<File>, base: seq<File>, chosen: seq<File>, before: IKey, largest: IKey) {
    && base <= chosen && (forall f :: f in chosen ==> f in levelFiles)
    && IsLargest(base, before) && IsLargest(chosen, largest)
    && (forall f :: f in levelFiles ==> !Boundary(f, largest))
    && (forall f :: f in chosen ==> f in base || Less(before, f.smallest))
    && NoneSkipped(levelFiles, chosen, before, largest)
  }

  /** File i starts in the user key that an earlier one ends in. */
  ghost predicate LinkedTo(files: seq<File>, i: nat)
    requires i < |files|
  {
    exists j :: 0 <= j < i && files[j].largest.user == files[i].smallest.user
  }

  /** Every file after the base is linked to one before it. */
  ghost predicate Chained(base: seq<File>, chosen: seq<File>) {
    base <= chosen && forall i :: |base| <= i < |chosen| ==> LinkedTo(chosen, i)
  }

  lemma ChainGrows(base: seq<File>, chosen: seq<File>, largest: IKey, f: File)
    requires Chained(base, chosen) && IsLargest(chosen, largest) && f.smallest.user == largest.user
    ensures Chained(base, chosen + [f])
  {
    var all := chosen + [f];
    forall i | |base| <= i < |all| ensures LinkedTo(all, i) {
      if i < |chosen| {
        assert LinkedTo(chosen, i);
        var j :| 0 <= j < i && chosen[j].largest.user == chosen[i].smallest.user;
        assert all[j].largest.user == all[i].smallest.user;
      } else {
        var g :| g in chosen && g.largest == largest;
        var j :| 0 <= j < |chosen| && chosen[j] == g;
        assert all[j].largest.user == all[i].smallest.user;
      }
    }
  }

  /** AddBoundaryInputs: follows boundary files until none is left; `before` is the largest key it starts from. */
  method AddBoundaryInputs(levelFiles: seq<File>, files: seq<File>) returns (r: seq<File>, before: IKey, largest: IKey)
    requires forall f :: f in levelFiles ==> FileOk(f)
    ensures files <= r
    ensures files == [] ==> r == []
    ensures forall f :: f in r ==> f in files || f in levelFiles
    ensures files != [] ==> IsLargest(files, before) && IsLargest(r, largest)
    ensures files != [] ==> forall f :: f in levelFiles ==> !Boundary(f, largest)
    ensures files != [] ==> forall f :: f in r ==> f in files || Less(before, f.smallest)
    ensures files != [] && LevelOk(levelFiles) && (forall f :: f in files ==> f in levelFiles) ==>
      Extended(levelFiles, files, r, before, largest)
    ensures (forall f :: f in levelFiles ==> !Boundary(f, before)) ==> r == files
    ensures Chained(files, r)
  {
    hide LinkedTo;
    r := files;
    var found;
    found, largest := FindLargestKey(files);
    before := largest;
    if !found {
      return;
    }
    var searching := true;
    while searching
      invariant files <= r && Chained(files, r)
      invariant forall f :: f in r ==> f in files || (f in levelFiles && Less(before, f.smallest))
      invariant IsLargest(r, largest) && AtMost(before, largest)
      invariant !searching ==> forall f :: f in levelFiles ==> !Boundary(f, largest)
      invariant LevelOk(levelFiles) ==> NoneSkipped(levelFiles, r, before, largest)
      invariant (forall f :: f in levelFiles ==> !Boundary(f, before)) ==> r == files && largest == before
      decreases StartsAfter(levelFiles, largest), searching
    {
      var next := FindSmallestBoundaryFile(levelFiles, largest);
      if next.Some? {
        BoundaryStep(levelFiles, r, before, largest, next.value);
        ChainGrows(files, r, largest, next.value);
        r := r + [next.value];
        largest := next.value.largest;
      } else {
        searching := false;
      }
    }
  }

  lemma BoundaryStep(levelFiles: seq<File>, r: seq<File>, before: IKey, largest: IKey, next: File)
    requires forall f :: f in levelFiles ==> FileOk(f)
    requires next in levelFiles && Boundary(next, largest) && IsLargest(r, largest) && AtMost(before, largest)
    requires forall f :: f in levelFiles && Boundary(f, largest) ==> AtMost(next.smallest, f.smallest)
    ensures IsLargest(r + [next], next.largest) && Less(before, next.smallest) && AtMost(before, next.largest)
    ensures StartsAfter(levelFiles, next.largest) < StartsAfter(levelFiles, largest)
    ensures LevelOk(levelFiles) && NoneSkipped(levelFiles, r, before, largest) ==>
      NoneSkipped(levelFiles, r + [next], before, next.largest)
  {
    EndsAreEntries(next);
    var i :| 0 <= i < |levelFiles| && levelFiles[i] == next;
    assert i in StartsAfter(levelFiles, largest) && i !in StartsAfter(levelFiles, next.largest);
    assert next in r + [next];
    if LevelOk(levelFiles) && NoneSkipped(levelFiles, r, before, largest) {
      forall f | f in levelFiles && Less(before, f.smallest) && AtMost(f.smallest, next.largest)
        ensures f in r + [next]
      {
        var j :| 0 <= j < |levelFiles| && levelFiles[j] == f;
        if Less(largest, f.smallest) && j < i {
          EndsAreEntries(f);
        }
      }
    }
  }

  /** An unchosen file of the level holds only newer data for the user keys it shares with chosen files. */
  ghost predicate OlderChosen(levelFiles: seq<File>, chosen: seq<File>) {
    forall f, g, x, y | f in levelFiles && f !in chosen && g in chosen && x in f.entries && y in g.entries &&
      x.k.user == y.k.user :: x.k.sn > y.k.sn
  }

  /** Unchosen files of the level share no user key with the given ones. */
  ghost predicate NoShared(levelFiles: seq<File>, chosen: seq<File>, files: seq<File>) {
    forall f, g, x, y | f in levelFiles && f !in chosen && g in files && x in f.entries && y in g.entries ::
      x.k.user != y.k.user
  }

  /** No unchosen file of the level lies between two chosen ones. */
  ghost predicate Convex(levelFiles: seq<File>, chosen: seq<File>) {
    forall f, g, h | f in levelFiles && g in chosen && h in chosen && Less(g.largest, f.smallest) && Less(f.largest, h.smallest) ::
      f in chosen
  }

  lemma PickedIsConvex(files: seq<File>, lo: Option<UserKey>, hi: Option<UserKey>)
    requires forall f :: f in files ==> FileOk(f)
    ensures Convex(files, Picked(files, lo, hi))
  {
    var chosen := Picked(files, lo, hi);
    forall f, g, h | f in files && g in chosen && h in chosen && Less(g.largest, f.smallest) && Less(f.largest, h.smallest)
      ensures f in chosen
    {
      PickedHas(files, lo, hi, f);
      PickedHas(files, lo, hi, g);
      PickedHas(files, lo, hi, h);
      EndsAreEntries(f);
    }
  }

  /** On a sorted disjoint level, boundary files are what separates a convex choice from a safe one. */
  lemma BoundaryMakesOlderChosen(levelFiles: seq<File>, base: seq<File>, chosen: seq<File>, before: IKey, largest: IKey)
    requires LevelOk(levelFiles) && Convex(levelFiles, base) && Distinct(LevelEntries(levelFiles))
    requires Extended(levelFiles, base, chosen, before, largest)
    ensures OlderChosen(levelFiles, chosen)
  {
    forall f, g, x, y | f in levelFiles && f !in chosen && g in chosen && x in f.entries && y in g.entries &&
        x.k.user == y.k.user
      ensures x.k.sn > y.k.sn
    {
      hide *;
      ChosenIsOlder(levelFiles, base, chosen, before, largest, f, g, x, y);
    }
  }

  lemma ChosenIsOlder(levelFiles: seq<File>, base: seq<File>, chosen: seq<File>, before: IKey, largest: IKey,
                      f: File, g: File, x: Entry, y: Entry)
    requires LevelOk(levelFiles) && Convex(levelFiles, base) && Distinct(LevelEntries(levelFiles))
    requires Extended(levelFiles, base, chosen, before, largest)
    requires f in levelFiles && f !in chosen && g in chosen && x in f.entries && y in g.entries && x.k.user == y.k.user
    ensures x.k.sn > y.k.sn
  {
    assert g in levelFiles;
    var i :| 0 <= i < |levelFiles| && levelFiles[i] == f;
    var j :| 0 <= j < |levelFiles| && levelFiles[j] == g;
    if i > j {
      hide LevelOk, Convex, NoneSkipped, IsLargest, Distinct;
      SharedAtTheSeam(levelFiles, j, i, y, x);
      SeamIsBoundary(levelFiles, base, chosen, before, largest, i, j);
    } else {
      hide *;
      NewerBefore(levelFiles, i, j, x, y);
    }
  }

  lemma NewerBefore(files: seq<File>, i: nat, j: nat, x: Entry, y: Entry)
    requires LevelOk(files) && i < j < |files|
    requires x in files[i].entries && y in files[j].entries && x.k.user == y.k.user
    requires Distinct(LevelEntries(files))
    ensures x.k.sn > y.k.sn
  {
    AcrossFiles(files, i, j, x, y);
    assert files[i] in files && files[j] in files;
    assert x in LevelEntries(files) && y in LevelEntries(files);
  }

  /** Two files of a disjoint level that share a user key meet in it. */
  lemma SharedAtTheSeam(files: seq<File>, j: nat, i: nat, y: Entry, x: Entry)
    requires LevelOk(files) && j < i < |files|
    requires x in files[i].entries && y in files[j].entries && x.k.user == y.k.user
    ensures Less(files[j].largest, files[i].smallest) && files[i].smallest.user == files[j].largest.user
  {
    assert files[i] in files && files[j] in files;
    EntryInRange(files[i], x);
    EntryInRange(files[j], y);
  }

  /** A file that continues a chosen one is chosen too, once no boundary file is left. */
  lemma SeamIsBoundary(levelFiles: seq<File>, base: seq<File>, chosen: seq<File>, before: IKey, largest: IKey, i: nat, j: nat)
    requires LevelOk(levelFiles) && Convex(levelFiles, base) && base <= chosen
    requires j < i < |levelFiles| && levelFiles[j] in chosen
    requires Less(levelFiles[j].largest, levelFiles[i].smallest) && levelFiles[i].smallest.user == levelFiles[j].largest.user
    requires IsLargest(base, before) && IsLargest(chosen, largest)
    requires !Boundary(levelFiles[i], largest)
    requires levelFiles[j] in base || Less(before, levelFiles[j].smallest)
    requires NoneSkipped(levelFiles, chosen, before, largest)
    requires forall f :: f in base ==> f in levelFiles
    ensures levelFiles[i] in chosen
  {
    var f, g := levelFiles[i], levelFiles[j];
    assert f in levelFiles && g in levelFiles;
    assert AtMost(g.largest, largest);
    assert AtMost(f.smallest, largest);
    if !Less(before, f.smallest) {
      assert AtMost(g.smallest, g.largest) by { hide *; EndsAreEntries(g); }
      assert g in base;
      var h :| h in base && h.largest == before;
      StartsWithin(levelFiles, i, h, before);
    }
  }

  lemma StartsWithin(files: seq<File>, i: nat, h: File, before: IKey)
    requires LevelOk(files) && i < |files| && h in files && h.largest == before && AtMost(files[i].smallest, before)
    ensures files[i] == h || Less(files[i].largest, h.smallest)
  {
    var k :| 0 <= k < |files| && files[k] == h;
  }

  /** On level zero a settled choice has no boundary files. */
  lemma SettledHasNoBoundary(files: seq<File>, lo: Option<UserKey>, hi: Option<UserKey>, largest: IKey)
    requires forall f :: f in files ==> FileOk(f)
    requires Settled(files, lo, hi) && IsLargest(Picked(files, lo, hi), largest)
    ensures forall f :: f in files ==> !Boundary(f, largest)
  {
    var chosen := Picked(files, lo, hi);
    var h :| h in chosen && h.largest == largest;
    PickedHas(files, lo, hi, h);
    EndsAreEntries(h);
    forall f | f in files ensures !Boundary(f, largest) {
      PickedHas(files, lo, hi, f);
      EndsAreEntries(f);
    }
  }

  /** Files outside a range share no user key with files inside it. */
  lemma OutsideSharesNothing(f: File, g: File, lo: Option<UserKey>, hi: Option<UserKey>, x: Entry, y: Entry)
    requires FileOk(f) && FileOk(g) && !Overlaps(f, lo, hi) && Inside(g, lo, hi) && x in f.entries && y in g.entries
    ensures x.k.user != y.k.user
  {
    EntryInRange(f, x);
    EntryInRange(g, y);
  }

  lemma SettledSharesNothing(files: seq<File>, lo: Option<UserKey>, hi: Option<UserKey>)
    requires forall f :: f in files ==> FileOk(f)
    requires Settled(files, lo, hi)
    ensures NoShared(files, Picked(files, lo, hi), Picked(files, lo, hi))
  {
    var chosen := Picked(files, lo, hi);
    forall f, g, x, y | f in files && f !in chosen && g in chosen && x in f.entries && y in g.entries
      ensures x.k.user != y.k.user
    {
      PickedHas(files, lo, hi, f);
      PickedHas(files, lo, hi, g);
      OutsideSharesNothing(f, g, lo, hi, x, y);
    }
  }
}
