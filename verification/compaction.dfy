/** One compaction: its inputs, and the pointers that decide whether deeper levels still hold a key (version_set.cc). */
module Compactions {
  import opened Bytestrings
  import opened Format
  import opened Versions
  import opened Inputs
  import opened CompactionInputs
  import opened Gaps
  import opened Stops

  ghost predicate Among(a: seq<File>, b: seq<File>) {
    forall f :: f in a ==> f in b
  }

  ghost predicate IsSmallest(files: seq<File>, smallest: IKey) {
    && (exists f :: f in files && f.smallest == smallest)
    && forall f :: f in files ==> AtMost(smallest, f.smallest)
  }

  /** VersionSet::GetRange. */
  method GetRange(files: seq<File>) returns (smallest: IKey, largest: IKey)
    requires files != []
    ensures IsSmallest(files, smallest) && IsLargest(files, largest)
  {
    smallest, largest := files[0].smallest, files[0].largest;
    assert files[..1] == [files[0]];
    OneFileRange(files[0]);
    hide IsSmallest, IsLargest;
    for i := 1 to |files|
      invariant IsSmallest(files[..i], smallest) && IsLargest(files[..i], largest)
    {
      ghost var s, l := smallest, largest;
      if Less(files[i].smallest, smallest) { smallest := files[i].smallest; }
      if Less(largest, files[i].largest) { largest := files[i].largest; }
      GrowRange(files[..i], files[i], s, l);
      assert files[..i + 1] == files[..i] + [files[i]];
    }
    assert files[..|files|] == files;
  }

  lemma OneFileRange(f: File)
    ensures IsSmallest([f], f.smallest) && IsLargest([f], f.largest)
  {
    assert f in [f];
  }

  lemma GrowRange(files: seq<File>, f: File, s: IKey, l: IKey)
    requires IsSmallest(files, s) && IsLargest(files, l)
    ensures IsSmallest(files + [f], if Less(f.smallest, s) then f.smallest else s)
    ensures IsLargest(files + [f], if Less(l, f.largest) then f.largest else l)
  {
    var g :| g in files && g.smallest == s;
    var h :| h in files && h.largest == l;
    assert g in files + [f] && h in files + [f] && f in files + [f];
  }

  /** The files a compaction of a level starts from: a settled choice on level zero, an unbroken run above it. */
  ghost predicate BaseOk(files: seq<File>, levelZero: bool, base: seq<File>) {
    && base != [] && Among(base, files)
    && (if levelZero then exists lo, hi :: Settled(files, lo, hi) && base == Picked(files, lo, hi) else Convex(files, base))
  }

  ghost predicate RunOk(files: seq<File>, levelZero: bool) {
    && (forall f :: f in files ==> FileOk(f))
    && (!levelZero ==> LevelOk(files) && Distinct(LevelEntries(files)))
  }

  /** The start with the boundary files that follow it: each continues the user key an earlier one ends in, and none is left. */
  ghost predicate ClosedStart(files: seq<File>, base: seq<File>, start: seq<File>) {
    && Chained(base, start) && Among(start, files)
    && forall key, f :: IsLargest(start, key) && f in files ==> !Boundary(f, key)
  }

  lemma IsClosedStart(files: seq<File>, base: seq<File>, start: seq<File>, largest: IKey)
    requires Chained(base, start) && Among(start, files) && IsLargest(start, largest)
    requires forall f :: f in files ==> !Boundary(f, largest)
    ensures ClosedStart(files, base, start)
  {
    hide Chained, Boundary;
    forall key | IsLargest(start, key) ensures key == largest { LargestIsUnique(start, key, largest); }
  }

  lemma LargestIsUnique(files: seq<File>, a: IKey, b: IKey)
    requires IsLargest(files, a) && IsLargest(files, b)
    ensures a == b
  {
    var f :| f in files && f.largest == a;
    var g :| g in files && g.largest == b;
    LessIsTotalOrder(a, b, a);
  }

  lemma SmallestIsUnique(files: seq<File>, a: IKey, b: IKey)
    requires IsSmallest(files, a) && IsSmallest(files, b)
    ensures a == b
  {
    var f :| f in files && f.smallest == a;
    var g :| g in files && g.smallest == b;
    LessIsTotalOrder(a, b, a);
  }

  lemma {:induction false} RangeExists(files: seq<File>) returns (lo: IKey, hi: IKey)
    requires files != []
    ensures IsSmallest(files, lo) && IsLargest(files, hi)
  {
    hide IsSmallest, IsLargest;
    var init, last := files[..|files| - 1], files[|files| - 1];
    assert files == init + [last];
    if init == [] {
      OneFileRange(last);
      lo, hi := last.smallest, last.largest;
    } else {
      lo, hi := RangeExists(init);
      GrowRange(init, last, lo, hi);
      lo, hi := if Less(last.smallest, lo) then last.smallest else lo, if Less(hi, last.largest) then last.largest else hi;
    }
  }

  /** The files of the next level that overlap the range of the given ones. */
  ghost predicate BelowOf(v: Version, level: nat, files: seq<File>, r: seq<File>)
    requires level + 1 < |v|
  {
    exists lo, hi :: IsSmallest(files, lo) && IsLargest(files, hi) && r == Picked(v[level + 1], Some(lo.user), Some(hi.user))
  }

  /** The files of the level that overlap the range of all inputs, with what they need to be a sound start. */
  ghost predicate GrownTo(v: Version, level: nat, all: seq<File>, grown: seq<File>)
    requires level < |v|
  {
    exists lo, hi, from, to ::
      && IsSmallest(all, lo) && IsLargest(all, hi) && Overlapping(v[level], level == 0, lo, hi, from, to)
      && ClosedStart(v[level], Picked(v[level], from, to), grown)
  }

  /** The range GetOverlappingInputs ends with. */
  ghost predicate Overlapping(files: seq<File>, levelZero: bool, lo: IKey, hi: IKey, from: Option<UserKey>, to: Option<UserKey>) {
    if levelZero then Settled(files, from, to) && Needed(files, Some(lo.user), Some(hi.user), from, to)
                      && Within(Some(lo.user), Some(hi.user), from, to)
    else from == Some(lo.user) && to == Some(hi.user)
  }

  /** AddBoundaryInputs on a sound start leaves no older data of a chosen user key behind in the level. */
  method CloseLevel(files: seq<File>, levelZero: bool, base: seq<File>) returns (chosen: seq<File>)
    requires RunOk(files, levelZero) && BaseOk(files, levelZero, base)
    ensures chosen != [] && Among(base, chosen) && Among(chosen, files)
    ensures OlderChosen(files, chosen) && ClosedStart(files, base, chosen)
  {
    hide Convex, LevelOk, Distinct, IsLargest, OlderChosen, Picked, Boundary, Settled, Extended, LinkedTo, ClosedStart;
    var before, largest;
    chosen, before, largest := AddBoundaryInputs(files, base);
    IsClosedStart(files, base, chosen, largest);
    if levelZero {
      ZeroIsClosed(files, base, before);
    } else {
      BoundaryMakesOlderChosen(files, base, chosen, before, largest);
    }
  }

  lemma ZeroIsClosed(files: seq<File>, base: seq<File>, before: IKey)
    requires RunOk(files, true) && BaseOk(files, true, base) && IsLargest(base, before)
    ensures forall f :: f in files ==> !Boundary(f, before)
    ensures OlderChosen(files, base)
  {
    var lo, hi :| Settled(files, lo, hi) && base == Picked(files, lo, hi);
    SettledHasNoBoundary(files, lo, hi, before);
    SettledSharesNothing(files, lo, hi);
  }

  /** An unchosen file of the next level lies wholly before or wholly after everything that is compacted. */
  ghost predicate Apart(files: seq<File>, chosen: seq<File>, inputs: seq<File>) {
    forall f | f in files && f !in chosen ::
      (forall g, y | g in inputs && y in g.entries :: Less(f.largest, y.k)) ||
      (forall g, y | g in inputs && y in g.entries :: Less(y.k, f.smallest))
  }

  /** What the merge relies on: chosen files, closed under shared user keys towards older data. */
  ghost predicate Closed(v: Version, level: nat, inputs0: seq<File>, inputs1: seq<File>)
    requires |v| == NUM_LEVELS && level + 1 < NUM_LEVELS
  {
    && inputs0 != [] && Among(inputs0, v[level])
    && Among(inputs1, v[level + 1])
    && OlderChosen(v[level], inputs0)
    && NoShared(v[level + 1], inputs1, inputs0)
    && Apart(v[level + 1], inputs1, inputs0 + inputs1)
  }

  /** Which side of the compacted range an unchosen file of the next level lies on. */
  lemma UnchosenSide(files: seq<File>, lo: IKey, hi: IKey, f: File, g: File, y: Entry)
    requires LevelOk(files) && f in files && f !in Picked(files, Some(lo.user), Some(hi.user))
    requires g in Picked(files, Some(lo.user), Some(hi.user)) && y in g.entries
    ensures f.largest.user < lo.user || f.smallest.user > hi.user
    ensures f.largest.user < lo.user ==> Less(f.largest, y.k)
    ensures f.smallest.user > hi.user ==> Less(y.k, f.smallest)
  {
    PickedHas(files, Some(lo.user), Some(hi.user), f);
    PickedHas(files, Some(lo.user), Some(hi.user), g);
    var i :| 0 <= i < |files| && files[i] == f;
    var j :| 0 <= j < |files| && files[j] == g;
    EndsAreEntries(f);
    EntryInRange(g, y);
    if i < j { assert Less(f.largest, g.smallest); } else if j < i { assert Less(g.largest, f.smallest); }
  }

  lemma WithinRange(files: seq<File>, lo: IKey, hi: IKey, g: File, y: Entry)
    requires IsSmallest(files, lo) && IsLargest(files, hi) && g in files && FileOk(g) && y in g.entries
    ensures lo.user <= y.k.user <= hi.user
  {
    EntryInRange(g, y);
  }

  lemma NextLevelIsClosed(files: seq<File>, inputs0: seq<File>, lo: IKey, hi: IKey)
    requires LevelOk(files) && (forall f :: f in inputs0 ==> FileOk(f))
    requires IsSmallest(inputs0, lo) && IsLargest(inputs0, hi)
    ensures forall f :: f in Picked(files, Some(lo.user), Some(hi.user)) ==> f in files
    ensures NoShared(files, Picked(files, Some(lo.user), Some(hi.user)), inputs0)
    ensures Apart(files, Picked(files, Some(lo.user), Some(hi.user)), inputs0 + Picked(files, Some(lo.user), Some(hi.user)))
  {
    hide *;
    PickedOnly(files, lo, hi);
    UnchosenShareNothing(files, inputs0, lo, hi);
    UnchosenAreApart(files, inputs0, lo, hi);
  }

  lemma PickedOnly(files: seq<File>, lo: IKey, hi: IKey)
    ensures forall f :: f in Picked(files, Some(lo.user), Some(hi.user)) ==> f in files
  {
    forall f | f in Picked(files, Some(lo.user), Some(hi.user)) ensures f in files { PickedHas(files, Some(lo.user), Some(hi.user), f); }
  }

  lemma UnchosenShareNothing(files: seq<File>, inputs0: seq<File>, lo: IKey, hi: IKey)
    requires LevelOk(files) && (forall f :: f in inputs0 ==> FileOk(f))
    requires IsSmallest(inputs0, lo) && IsLargest(inputs0, hi)
    ensures NoShared(files, Picked(files, Some(lo.user), Some(hi.user)), inputs0)
  {
    hide IsSmallest, IsLargest, Picked, LevelOk, FileOk;
    var chosen := Picked(files, Some(lo.user), Some(hi.user));
    forall f, g, x, y | f in files && f !in chosen && g in inputs0 && x in f.entries && y in g.entries
      ensures x.k.user != y.k.user
    {
      hide *;
      UnchosenSharesNothing(files, inputs0, lo, hi, f, g, x, y);
    }
  }

  lemma UnchosenAreApart(files: seq<File>, inputs0: seq<File>, lo: IKey, hi: IKey)
    requires LevelOk(files) && (forall f :: f in inputs0 ==> FileOk(f))
    requires IsSmallest(inputs0, lo) && IsLargest(inputs0, hi)
    ensures Apart(files, Picked(files, Some(lo.user), Some(hi.user)), inputs0 + Picked(files, Some(lo.user), Some(hi.user)))
  {
    hide IsSmallest, IsLargest, Picked, LevelOk, FileOk;
    var chosen := Picked(files, Some(lo.user), Some(hi.user));
    forall f | f in files && f !in chosen
      ensures (forall g, y | g in inputs0 + chosen && y in g.entries :: Less(f.largest, y.k)) ||
              (forall g, y | g in inputs0 + chosen && y in g.entries :: Less(y.k, f.smallest))
    {
      hide *;
      UnchosenIsApart(files, inputs0, lo, hi, f);
    }
  }

  lemma UnchosenSharesNothing(files: seq<File>, inputs0: seq<File>, lo: IKey, hi: IKey, f: File, g: File, x: Entry, y: Entry)
    requires LevelOk(files) && f in files && f !in Picked(files, Some(lo.user), Some(hi.user)) && x in f.entries
    requires IsSmallest(inputs0, lo) && IsLargest(inputs0, hi) && g in inputs0 && FileOk(g) && y in g.entries
    ensures x.k.user != y.k.user
  {
    PickedHas(files, Some(lo.user), Some(hi.user), f);
    EntryInRange(f, x);
    WithinRange(inputs0, lo, hi, g, y);
  }

  lemma UnchosenIsApart(files: seq<File>, inputs0: seq<File>, lo: IKey, hi: IKey, f: File)
    requires LevelOk(files) && (forall f :: f in inputs0 ==> FileOk(f))
    requires IsSmallest(inputs0, lo) && IsLargest(inputs0, hi)
    requires f in files && f !in Picked(files, Some(lo.user), Some(hi.user))
    ensures (forall g, y | g in inputs0 + Picked(files, Some(lo.user), Some(hi.user)) && y in g.entries :: Less(f.largest, y.k)) ||
            (forall g, y | g in inputs0 + Picked(files, Some(lo.user), Some(hi.user)) && y in g.entries :: Less(y.k, f.smallest))
  {
    var chosen := Picked(files, Some(lo.user), Some(hi.user));
    PickedHas(files, Some(lo.user), Some(hi.user), f);
    forall g, y | g in inputs0 + chosen && y in g.entries
      ensures f.largest.user < lo.user ==> Less(f.largest, y.k)
      ensures f.smallest.user > hi.user ==> Less(y.k, f.smallest)
    {
      hide Picked, LevelOk;
      if g in chosen {
        UnchosenSide(files, lo, hi, f, g, y);
      } else {
        WithinRange(inputs0, lo, hi, g, y);
      }
    }
  }

  lemma ClosedFromParts(v: Version, level: nat, inputs0: seq<File>, lo: IKey, hi: IKey)
    requires VersionOk(v) && level + 1 < NUM_LEVELS && RunOk(v[level], level == 0)
    requires inputs0 != [] && Among(inputs0, v[level]) && OlderChosen(v[level], inputs0)
    requires IsSmallest(inputs0, lo) && IsLargest(inputs0, hi)
    ensures Closed(v, level, inputs0, Picked(v[level + 1], Some(lo.user), Some(hi.user)))
  {
    hide Picked, LevelZeroOk, OlderChosen, NoShared, Apart, IsLargest, IsSmallest, FileOk, Distinct;
    NextLevelIsClosed(v[level + 1], inputs0, lo, hi);
  }

  /** GetOverlappingInputs on a level above zero, by the user keys of two internal keys. */
  method Below(v: Version, l: nat, start: IKey, limit: IKey) returns (r: seq<File>)
    requires |v| == NUM_LEVELS && l < NUM_LEVELS
    ensures r == Picked(v[l], Some(start.user), Some(limit.user))
  {
    var lo, hi;
    r, lo, hi := GetOverlappingInputs(v[l], false, Some(start.user), Some(limit.user));
  }

  /** The attempt to take more files of the level without taking more of the next one; `below` is what they overlap there. */
  method Expand(v: Version, level: nat, inputs0: seq<File>, inputs1: seq<File>, allStart: IKey, allLimit: IKey, limit: nat)
      returns (expanded0: seq<File>, expanded1: seq<File>, newStart: IKey, newLimit: IKey, ok: bool, ghost below: seq<File>)
    requires VersionOk(v) && level + 1 < NUM_LEVELS && RunOk(v[level], level == 0)
    requires inputs0 != [] && Among(inputs0, v[level])
    requires IsSmallest(inputs0 + inputs1, allStart) && IsLargest(inputs0 + inputs1, allLimit)
    ensures GrownTo(v, level, inputs0 + inputs1, expanded0) && BelowOf(v, level, expanded0, below)
    ensures ok <==> |expanded0| > |inputs0| && TotalFileSize(inputs1) + TotalFileSize(expanded0) < limit && |below| == |inputs1|
    ensures ok ==> OlderChosen(v[level], expanded0) && Among(expanded0, v[level]) && expanded0 != []
    ensures ok ==> IsSmallest(expanded0, newStart) && IsLargest(expanded0, newLimit)
    ensures ok ==> expanded1 == below == Picked(v[level + 1], Some(newStart.user), Some(newLimit.user))
    ensures ok ==> Among(inputs0, expanded0)
    ensures ok && Gapless(inputs0 + inputs1) && (forall f :: f in inputs1 ==> FileOk(f)) ==>
              Gapless(inputs0 + inputs1 + expanded0)
  {
    hide Gapless, Chained, Picked, LevelOk, LevelZeroOk, Convex, Distinct, OlderChosen, IsLargest, IsSmallest, Settled, Needed, Within, BaseOk;
    hide GrownTo, BelowOf, TotalFileSize;
    var lo, hi;
    expanded0, lo, hi := GetOverlappingInputs(v[level], level == 0, Some(allStart.user), Some(allLimit.user));
    InputsOverlap(v[level], level == 0, inputs0, inputs1, allStart, allLimit, lo, hi);
    ghost var picked := expanded0;
    expanded0 := CloseLevel(v[level], level == 0, expanded0);
    IsGrownTo(v, level, inputs0 + inputs1, allStart, allLimit, lo, hi, picked, expanded0);
    ghost var first, last := RangeExists(expanded0);
    below := Picked(v[level + 1], Some(first.user), Some(last.user));
    IsBelowOf(v, level, expanded0, first, last);
    ok, expanded1, newStart, newLimit := false, [], allStart, allLimit;
    if |expanded0| > |inputs0| && TotalFileSize(inputs1) + TotalFileSize(expanded0) < limit {
      if Gapless(inputs0 + inputs1) && forall f :: f in inputs1 ==> FileOk(f) {
        ExpansionIsGapless(v[level], level == 0, inputs0, inputs1, allStart, allLimit, lo, hi, picked, expanded0);
      }
      newStart, newLimit := GetRange(expanded0);
      SmallestIsUnique(expanded0, first, newStart);
      LargestIsUnique(expanded0, last, newLimit);
      expanded1 := Below(v, level + 1, newStart, newLimit);
      ok := |expanded1| == |inputs1|;
    }
  }

  lemma IsGrownTo(v: Version, level: nat, all: seq<File>, lo: IKey, hi: IKey, from: Option<UserKey>, to: Option<UserKey>,
                  picked: seq<File>, grown: seq<File>)
    requires level < |v| && IsSmallest(all, lo) && IsLargest(all, hi)
    requires level == 0 ==> Settled(v[0], from, to) && Needed(v[0], Some(lo.user), Some(hi.user), from, to)
    requires Within(Some(lo.user), Some(hi.user), from, to) && (level > 0 ==> from == Some(lo.user) && to == Some(hi.user))
    requires picked == Picked(v[level], from, to) && ClosedStart(v[level], picked, grown)
    ensures GrownTo(v, level, all, grown)
  {
    hide Settled, Needed, Within, IsSmallest, IsLargest, ClosedStart, Picked;
    assert Overlapping(v[level], level == 0, lo, hi, from, to);
  }

  lemma IsBelowOf(v: Version, level: nat, files: seq<File>, lo: IKey, hi: IKey)
    requires level + 1 < |v| && IsSmallest(files, lo) && IsLargest(files, hi)
    ensures BelowOf(v, level, files, Picked(v[level + 1], Some(lo.user), Some(hi.user)))
  {
    hide IsSmallest, IsLargest, Picked;
  }

  lemma SpansRange(files: seq<File>, start: IKey, limit: IKey)
    requires files != [] && IsSmallest(files, start) && IsLargest(files, limit) && forall f :: f in files ==> FileOk(f)
    ensures Spans(files, start.user, limit.user) && start.user <= limit.user
  {
    hide FileOk;
    forall f | f in files ensures f.smallest.user <= f.largest.user { EndsAreEntries(f); }
    assert files[0] in files;
  }

  /** What the expansion takes leaves no gap with the inputs it starts from. */
  lemma ExpansionIsGapless(files: seq<File>, levelZero: bool, inputs0: seq<File>, inputs1: seq<File>, allStart: IKey, allLimit: IKey,
                           lo: Option<UserKey>, hi: Option<UserKey>, picked: seq<File>, expanded0: seq<File>)
    requires RunOk(files, levelZero) && inputs0 != [] && Among(inputs0, files) && (forall f :: f in inputs1 ==> FileOk(f))
    requires IsSmallest(inputs0 + inputs1, allStart) && IsLargest(inputs0 + inputs1, allLimit)
    requires lo.Some? && hi.Some? && Within(Some(allStart.user), Some(allLimit.user), lo, hi)
    requires !levelZero ==> lo == Some(allStart.user) && hi == Some(allLimit.user)
    requires levelZero ==> Settled(files, lo, hi) && Needed(files, Some(allStart.user), Some(allLimit.user), lo, hi)
    requires picked == Picked(files, lo, hi) && Chained(picked, expanded0) && Among(expanded0, files)
    requires Gapless(inputs0 + inputs1)
    ensures Gapless(inputs0 + inputs1 + expanded0)
  {
    hide Gapless, IsSmallest, IsLargest, Picked, Settled, Needed, FileOk, LevelOk, Distinct, Chained, Spans;
    var all := inputs0 + inputs1;
    SpansRange(all, allStart, allLimit);
    if levelZero {
      ClosureIsGapless(files, all, allStart.user, allLimit.user, lo, hi);
    } else {
      PickedMeets(files, allStart.user, allLimit.user);
      MeetingKeepsGapless(all, picked, allStart.user, allLimit.user);
    }
    ChainKeepsGapless(all, picked, expanded0);
  }

  lemma PickedMeets(files: seq<File>, lo: UserKey, hi: UserKey)
    ensures forall f :: f in Picked(files, Some(lo), Some(hi)) ==> f in files && f.smallest.user <= hi && lo <= f.largest.user
  {
    hide Picked;
    forall f | f in Picked(files, Some(lo), Some(hi)) ensures f in files && f.smallest.user <= hi && lo <= f.largest.user {
      PickedHas(files, Some(lo), Some(hi), f);
    }
  }

  lemma FilesAreOk(v: Version, l: nat)
    requires VersionOk(v) && 1 <= l < NUM_LEVELS
    ensures forall f :: f in v[l] ==> FileOk(f)
  {
    assert LevelOk(v[l]);
  }

  /** A wider range that picks as many files of the next level picks the same ones. */
  lemma GrownBelowIsSame(files: seq<File>, in0: seq<File>, in1: seq<File>, r0: seq<File>, r1: seq<File>,
                         smallest: IKey, largest: IKey, lo: IKey, hi: IKey)
    requires Among(in0, r0) && |r1| == |in1|
    requires IsSmallest(in0, smallest) && IsLargest(in0, largest) && IsSmallest(r0, lo) && IsLargest(r0, hi)
    requires in1 == Picked(files, Some(smallest.user), Some(largest.user)) && r1 == Picked(files, Some(lo.user), Some(hi.user))
    ensures r1 == in1
  {
    hide Picked;
    var f :| f in in0 && f.smallest == smallest;
    var g :| g in in0 && g.largest == largest;
    assert f in r0 && g in r0 && AtMost(lo, smallest) && AtMost(largest, hi);
    WiderPicksMore(files, Some(smallest.user), Some(largest.user), Some(lo.user), Some(hi.user));
  }

  /** The grown choice has no gap: on the next level it is the same files. */
  lemma GrownIsGapless(files: seq<File>, in0: seq<File>, in1: seq<File>, r0: seq<File>, r1: seq<File>,
                       smallest: IKey, largest: IKey, lo: IKey, hi: IKey)
    requires Gapless(in0 + in1 + r0) && Among(in0, r0) && |r1| == |in1|
    requires IsSmallest(in0, smallest) && IsLargest(in0, largest) && IsSmallest(r0, lo) && IsLargest(r0, hi)
    requires in1 == Picked(files, Some(smallest.user), Some(largest.user)) && r1 == Picked(files, Some(lo.user), Some(hi.user))
    ensures Gapless(r0 + r1)
  {
    hide Gapless, Picked;
    GrownBelowIsSame(files, in0, in1, r0, r1, smallest, largest, lo, hi);
    GaplessBySet(in0 + in1 + r0, r0 + r1);
  }

  /**
   * What the inputs are made of: the closed start and what it overlaps on the next level, or all that can be taken along
   * for the same files there. The larger choice is taken when it is larger, costs no further file, and stays under the limit.
   */
  ghost predicate Decided(v: Version, level: nat, start: seq<File>, below: seq<File>, grown: seq<File>, grownBelow: seq<File>,
                          limit: nat, in0: seq<File>, in1: seq<File>)
    requires level + 1 < |v|
  {
    && BelowOf(v, level, start, below)
    && (below != [] ==> GrownTo(v, level, start + below, grown) && BelowOf(v, level, grown, grownBelow))
    && if below != [] && |grown| > |start| && |grownBelow| == |below| && TotalFileSize(below) + TotalFileSize(grown) < limit
       then in0 == grown && in1 == grownBelow else in0 == start && in1 == below
  }

  lemma LargerIsTaken(v: Version, level: nat, start: seq<File>, below: seq<File>, grown: seq<File>, grownBelow: seq<File>,
                      limit: nat, in0: seq<File>, in1: seq<File>)
    requires level + 1 < |v| && Decided(v, level, start, below, grown, grownBelow, limit, in0, in1)
    ensures below != [] && |grown| > |start| && |grownBelow| == |below| && TotalFileSize(below) + TotalFileSize(grown) < limit ==>
              in0 == grown && in1 == grownBelow
  {
  }

  /** Keeps the choice, or takes the grown one when it brings in no further file of the next level. */
  method Grow(v: Version, level: nat, in0: seq<File>, in1: seq<File>, smallest: IKey, largest: IKey, limit: nat)
      returns (r0: seq<File>, r1: seq<File>, lo: IKey, hi: IKey, ghost grown: seq<File>, ghost grownBelow: seq<File>)
    requires VersionOk(v) && level + 1 < NUM_LEVELS && RunOk(v[level], level == 0)
    requires ChoiceOk(v, level, in0, smallest, largest) && in1 == Picked(v[level + 1], Some(smallest.user), Some(largest.user))
    ensures ChoiceOk(v, level, r0, lo, hi) && Among(in0, r0)
    ensures r1 == Picked(v[level + 1], Some(lo.user), Some(hi.user)) && |r1| == |in1|
    ensures Decided(v, level, in0, in1, grown, grownBelow, limit, r0, r1)
    ensures r0 != in0 ==> TotalFileSize(r1) + TotalFileSize(r0) < limit
    ensures Gapless(in0 + in1) ==> Gapless(r0 + r1)
  {
    hide Gapless, Picked, IsSmallest, IsLargest, OlderChosen, RunOk, LevelOk, LevelZeroOk, GrownTo, BelowOf, TotalFileSize;
    r0, r1, lo, hi, grown, grownBelow := in0, in1, smallest, largest, [], [];
    IsBelowOf(v, level, in0, smallest, largest);
    if in1 != [] {
      var allStart, allLimit := GetRange(in0 + in1);
      var expanded0, expanded1, newStart, newLimit, ok, below := Expand(v, level, in0, in1, allStart, allLimit, limit);
      grown, grownBelow := expanded0, below;
      PickedMeets(v[level + 1], smallest.user, largest.user);
      FilesAreOk(v, level + 1);
      if ok {
        GrownBelowIsSame(v[level + 1], in0, in1, expanded0, expanded1, smallest, largest, newStart, newLimit);
        if Gapless(in0 + in1) {
          GrownIsGapless(v[level + 1], in0, in1, expanded0, expanded1, smallest, largest, newStart, newLimit);
        }
        r0, r1, lo, hi := expanded0, expanded1, newStart, newLimit;
      }
    }
  }

  /** Files of the level that leave no older data behind, with the range they span. */
  ghost predicate ChoiceOk(v: Version, level: nat, in0: seq<File>, smallest: IKey, largest: IKey)
    requires level < |v|
  {
    in0 != [] && Among(in0, v[level]) && OlderChosen(v[level], in0) && IsSmallest(in0, smallest) && IsLargest(in0, largest)
  }

  /** What SetupOtherInputs promises: sound inputs that hold the start, and all of the next level in their range. */
  ghost predicate SetUp(v: Version, level: nat, base: seq<File>, in0: seq<File>, in1: seq<File>, largest: IKey)
    requires |v| == NUM_LEVELS && level + 1 < NUM_LEVELS
  {
    && Closed(v, level, in0, in1) && Among(base, in0) && IsLargest(in0, largest)
    && exists lo :: IsSmallest(in0, lo) && in1 == Picked(v[level + 1], Some(lo.user), Some(largest.user))
  }

  lemma FirstChoiceIsGapless(v: Version, level: nat, base: seq<File>, in0: seq<File>, smallest: IKey, largest: IKey)
    requires VersionOk(v) && level + 1 < NUM_LEVELS && RunOk(v[level], level == 0)
    requires Gapless(base) && Chained(base, in0) && Among(in0, v[level]) && in0 != []
    requires IsSmallest(in0, smallest) && IsLargest(in0, largest)
    ensures Gapless(in0 + Picked(v[level + 1], Some(smallest.user), Some(largest.user)))
  {
    hide Gapless, Chained, IsSmallest, IsLargest, Picked, FileOk, LevelOk, LevelZeroOk, Distinct, Spans;
    assert [] + base == base && [] + in0 == in0;
    ChainKeepsGapless([], base, in0);
    SpansRange(in0, smallest, largest);
    PickedMeets(v[level + 1], smallest.user, largest.user);
    MeetingKeepsGapless(in0, Picked(v[level + 1], Some(smallest.user), Some(largest.user)), smallest.user, largest.user);
  }

  /** The file ends after the place where the last compaction of its level ended. */
  predicate Due(f: File, pointer: Option<IKey>) {
    pointer.None? || Less(pointer.value, f.largest)
  }

  /** The first file after the pointer, or again the first of the level. */
  ghost predicate IsNext(files: seq<File>, pointer: Option<IKey>, i: nat) {
    && i < |files|
    && if exists f :: f in files && Due(f, pointer) then Due(files[i], pointer) && forall k :: 0 <= k < i ==> !Due(files[k], pointer)
       else i == 0
  }

  /** The loop of PickCompaction. */
  method NextFile(files: seq<File>, pointer: Option<IKey>) returns (i: nat)
    requires files != []
    ensures IsNext(files, pointer, i)
  {
    for k := 0 to |files|
      invariant forall m :: 0 <= m < k ==> !Due(files[m], pointer)
    {
      if Due(files[k], pointer) {
        return k;
      }
    }
    i := 0;
  }

  /** On a level that stays as it is, the files come one after the other, and then from the start again. */
  lemma FilesTakeTurns(files: seq<File>, i: nat, j: nat)
    requires LevelOk(files) && i < |files| && IsNext(files, Some(files[i].largest), j)
    ensures j == if i + 1 < |files| then i + 1 else 0
  {
    hide LevelOk, Less;
    forall k | 0 <= k <= i ensures !Due(files[k], Some(files[i].largest)) { EndsInOrder(files, k, i); }
    if i + 1 < |files| { NextIsDue(files, i); }
  }

  lemma EndsInOrder(files: seq<File>, i: nat, j: nat)
    requires LevelOk(files) && i <= j < |files|
    ensures AtMost(files[i].largest, files[j].largest)
  {
    LessIsTotalOrder(files[i].largest, files[j].largest, files[j].largest);
    if i < j {
      assert files[j] in files;
      EndsAreEntries(files[j]);
      assert Less(files[i].largest, files[j].smallest);
    }
  }

  lemma NextIsDue(files: seq<File>, i: nat)
    requires LevelOk(files) && i + 1 < |files|
    ensures files[i + 1] in files && Due(files[i + 1], Some(files[i].largest))
  {
    EndsAreEntries(files[i + 1]);
    assert Less(files[i].largest, files[i + 1].smallest);
  }

  /** What a settled range around the file overlaps. */
  ghost predicate OnlyNeeded(files: seq<File>, f: File, base: seq<File>) {
    forall g, lo, hi | g in base && lo <= f.smallest.user && f.largest.user <= hi && Settled(files, Some(lo), Some(hi)) ::
      Overlaps(g, Some(lo), Some(hi))
  }

  /**
   * Where PickCompaction starts from: the file that is due, and on level 0 all it has to take along but no more. The
   * files leave no gap.
   */
  method PickInputs(v: Version, level: nat, f: File) returns (base: seq<File>)
    requires VersionOk(v) && level + 1 < NUM_LEVELS && RunOk(v[level], level == 0) && f in v[level]
    ensures BaseOk(v[level], level == 0, base) && f in base && Gapless(base)
    ensures level > 0 ==> base == [f]
    ensures level == 0 ==> OnlyNeeded(v[0], f, base)
  {
    hide Picked, LevelOk, LevelZeroOk, Distinct, Gapless, Needed, OnlyNeeded;
    base := [f];
    EndsAreEntries(f);
    OneFileIsGapless(f);
    if level == 0 {
      var lo, hi;
      base, lo, hi := GetOverlappingInputs(v[0], true, Some(f.smallest.user), Some(f.largest.user));
      PickedHas(v[0], lo, hi, f);
      forall g | g in base ensures g in v[0] { PickedHas(v[0], lo, hi, g); }
      assert f in [f];
      ClosureIsGapless(v[0], [f], f.smallest.user, f.largest.user, lo, hi);
      GaplessBySet([f] + base, base);
      NeededOnly(v[0], f, lo, hi);
    }
  }

  lemma NeededOnly(files: seq<File>, f: File, lo: Option<UserKey>, hi: Option<UserKey>)
    requires Needed(files, Some(f.smallest.user), Some(f.largest.user), lo, hi)
    ensures OnlyNeeded(files, f, Picked(files, lo, hi))
  {
    hide Needed, Picked, Settled;
    forall g, lo2, hi2 | g in Picked(files, lo, hi) && lo2 <= f.smallest.user && f.largest.user <= hi2 && Settled(files, Some(lo2), Some(hi2))
      ensures Overlaps(g, Some(lo2), Some(hi2))
    {
      LevelZeroInputsAreLeast(files, Some(f.smallest.user), Some(f.largest.user), lo, hi, Some(lo2), Some(hi2), g);
      PickedHas(files, Some(lo2), Some(hi2), g);
    }
  }

  /** SetupOtherInputs: closes the inputs of the level, takes what overlaps below, and grows the choice when that is free. */
  method ChooseInputs(v: Version, level: nat, base: seq<File>, limit: nat)
      returns (in0: seq<File>, in1: seq<File>, grandparents: seq<File>, largest: IKey,
               ghost start: seq<File>, ghost below: seq<File>, ghost grown: seq<File>, ghost grownBelow: seq<File>)
    requires VersionOk(v) && level + 1 < NUM_LEVELS
    requires RunOk(v[level], level == 0) && BaseOk(v[level], level == 0, base)
    ensures SetUp(v, level, base, in0, in1, largest)
    ensures ClosedStart(v[level], base, start) && Decided(v, level, start, below, grown, grownBelow, limit, in0, in1)
    ensures in0 != start ==> TotalFileSize(in1) + TotalFileSize(in0) < limit
    ensures below != [] && |grown| > |start| && |grownBelow| == |below| && TotalFileSize(below) + TotalFileSize(grown) < limit ==>
              in0 == grown && in1 == grownBelow
    ensures GrandparentsOf(v, level, in0 + in1, grandparents)
    ensures Gapless(base) ==> Gapless(in0 + in1)
  {
    hide Gapless, Chained, Picked, IsSmallest, IsLargest, OlderChosen, RunOk, LevelOk, LevelZeroOk, BaseOk, Closed, Decided, TotalFileSize;
    var smallest;
    in0 := CloseLevel(v[level], level == 0, base);
    smallest, largest := GetRange(in0);
    in1 := Below(v, level + 1, smallest, largest);
    start, below := in0, in1;
    if Gapless(base) { FirstChoiceIsGapless(v, level, base, in0, smallest, largest); }
    in0, in1, smallest, largest, grown, grownBelow := Grow(v, level, in0, in1, smallest, largest, limit);
    LargerIsTaken(v, level, start, below, grown, grownBelow, limit, in0, in1);
    ClosedFromParts(v, level, in0, smallest, largest);
    grandparents := Grandparents(v, level, in0 + in1);
  }

  /** The files two levels down that overlap the range of the inputs. */
  ghost predicate GrandparentsOf(v: Version, level: nat, all: seq<File>, r: seq<File>)
    requires |v| == NUM_LEVELS
  {
    if level + 2 >= NUM_LEVELS then r == []
    else exists lo, hi :: IsSmallest(all, lo) && IsLargest(all, hi) && r == Picked(v[level + 2], Some(lo.user), Some(hi.user))
  }

  method Grandparents(v: Version, level: nat, all: seq<File>) returns (r: seq<File>)
    requires |v| == NUM_LEVELS && all != []
    ensures GrandparentsOf(v, level, all, r)
  {
    r := [];
    if level + 2 < NUM_LEVELS {
      var allStart, allLimit := GetRange(all);
      r := Below(v, level + 2, allStart, allLimit);
    }
  }

  lemma {:induction false} PickedIsOk(files: seq<File>, lo: Option<UserKey>, hi: Option<UserKey>)
    requires LevelOk(files)
    ensures LevelOk(Picked(files, lo, hi))
  {
    if files != [] {
      var init, last := files[..|files| - 1], files[|files| - 1];
      assert files == init + [last];
      PickedIsOk(init, lo, hi);
      forall f | f in Picked(init, lo, hi) ensures Less(f.largest, last.smallest) { PickedHas(init, lo, hi, f); }
    }
  }

  lemma GrandparentsAreOk(v: Version, level: nat, all: seq<File>, r: seq<File>)
    requires VersionOk(v) && GrandparentsOf(v, level, all, r)
    ensures LevelOk(r)
  {
    hide Picked, IsSmallest, IsLargest;
    if level + 2 < NUM_LEVELS {
      var lo, hi :| IsSmallest(all, lo) && IsLargest(all, hi) && r == Picked(v[level + 2], Some(lo.user), Some(hi.user));
      PickedIsOk(v[level + 2], Some(lo.user), Some(hi.user));
    }
  }

  lemma OneFileGrandparents(v: Version, level: nat, f: File, r: seq<File>)
    requires |v| == NUM_LEVELS && GrandparentsOf(v, level, [f], r)
    ensures r == if level + 2 < NUM_LEVELS then Picked(v[level + 2], Some(f.smallest.user), Some(f.largest.user)) else []
  {
    assert f in [f];
  }

  lemma EndedBefore(gs: seq<File>, last: IKey, key: IKey)
    requires LevelOk(gs) && AtMost(last, key)
    ensures forall k :: 0 <= k < Behind(gs, last) ==> Less(gs[k].largest, key)
  {
    BehindMeans(gs, last);
  }

  lemma NothingBetween(gs: seq<File>, key: IKey)
    ensures BytesBetween(gs, key, key) == 0
  {
    assert gs[Behind(gs, key)..Behind(gs, key)] == [];
  }

  class Compaction {
    const v: Version
    const level: nat
    var inputs0: seq<File>
    var inputs1: seq<File>
    var grandparents: seq<File>
    var pointer: Option<IKey>
    var levelPtrs: array<nat>
    var grandparentIndex: nat
    var seenKey: bool
    var overlappedBytes: nat

    constructor (v: Version, level: nat, base: seq<File>)
      ensures this.v == v && this.level == level && inputs0 == base && inputs1 == [] && grandparents == []
      ensures ScanAt(None, None)
      ensures fresh(levelPtrs) && levelPtrs.Length == NUM_LEVELS && forall l :: 0 <= l < NUM_LEVELS ==> levelPtrs[l] == 0
    {
      this.v, this.level, inputs0, inputs1, grandparents, pointer := v, level, base, [], [], None;
      grandparentIndex, seenKey, overlappedBytes := 0, false, 0;
      levelPtrs := new nat[NUM_LEVELS](_ => 0);
    }

    ghost predicate Ready()
      requires level + 1 < |v| == NUM_LEVELS
      reads this
    {
      VersionOk(v) && RunOk(v[level], level == 0) && BaseOk(v[level], level == 0, inputs0)
    }

    /** SetupOtherInputs. */
    method SetupOtherInputs(limit: nat)
        returns (ghost start: seq<File>, ghost below: seq<File>, ghost grown: seq<File>, ghost grownBelow: seq<File>)
      requires level + 1 < |v| == NUM_LEVELS && Ready()
      modifies this
      ensures inputs0 != start ==> TotalFileSize(inputs1) + TotalFileSize(inputs0) < limit
      ensures below != [] && |grown| > |start| && |grownBelow| == |below| && TotalFileSize(below) + TotalFileSize(grown) < limit ==>
                inputs0 == grown && inputs1 == grownBelow
      ensures GrandparentsOf(v, level, inputs0 + inputs1, grandparents)
      ensures levelPtrs == old(levelPtrs)
      ensures Gapless(old(inputs0)) ==> Gapless(inputs0 + inputs1)
      ensures LevelOk(grandparents) && (old(ScanAt(None, None)) ==> ScanAt(None, None))
      ensures ClosedStart(v[level], old(inputs0), start) && Decided(v, level, start, below, grown, grownBelow, limit, inputs0, inputs1)
      ensures pointer.Some? && SetUp(v, level, old(inputs0), inputs0, inputs1, pointer.value)
    {
      hide VersionOk, RunOk, BaseOk, SetUp, Gapless, Decided, GrandparentsOf, ClosedStart, TotalFileSize;
      var largest;
      inputs0, inputs1, grandparents, largest, start, below, grown, grownBelow := ChooseInputs(v, level, inputs0, limit);
      pointer := Some(largest);
      GrandparentsAreOk(v, level, inputs0 + inputs1, grandparents);
    }

    /** A lone file may go one level down as it is if little two levels down overlaps it. */
    method IsTrivialMove(limit: nat) returns (move: bool)
      requires |v| == NUM_LEVELS && GrandparentsOf(v, level, inputs0 + inputs1, grandparents)
      ensures move <==> exists f :: inputs0 == [f] && inputs1 == [] && (level + 2 < NUM_LEVELS ==>
                TotalFileSize(Picked(v[level + 2], Some(f.smallest.user), Some(f.largest.user))) <= limit)
    {
      hide Picked;
      move := |inputs0| == 1 && |inputs1| == 0 && TotalFileSize(grandparents) <= limit;
      if |inputs0| == 1 && |inputs1| == 0 {
        assert inputs0 == [inputs0[0]] && inputs0 + inputs1 == [inputs0[0]];
        OneFileGrandparents(v, level, inputs0[0], grandparents);
      }
    }

    /** The last key asked about was `last`, and the last one that stopped, or the first of all, was `start`. */
    ghost predicate ScanAt(start: Option<IKey>, last: Option<IKey>)
      reads `grandparents, `grandparentIndex, `seenKey, `overlappedBytes
    {
      && seenKey == last.Some? == start.Some?
      && (!seenKey ==> grandparentIndex == 0 && overlappedBytes == 0)
      && (seenKey ==> AtMost(start.value, last.value) && grandparentIndex == Behind(grandparents, last.value)
                      && overlappedBytes == BytesBetween(grandparents, start.value, last.value))
    }

    /** For keys asked in ascending order: stop when more than `limit` bytes of grandparents were passed since the last stop. */
    method ShouldStopBefore(key: IKey, limit: nat, ghost start: Option<IKey>, ghost last: Option<IKey>) returns (stop: bool)
      requires LevelOk(grandparents) && ScanAt(start, last) && (last.Some? ==> AtMost(last.value, key))
      modifies `grandparentIndex, `seenKey, `overlappedBytes
      ensures stop <==> start.Some? && BytesBetween(grandparents, start.value, key) > limit
      ensures ScanAt(if start.None? || stop then Some(key) else start, Some(key))
    {
      hide LevelOk, Behind, TotalFileSize;
      ghost var from := if start.Some? then Behind(grandparents, start.value) else 0;
      if last.Some? {
        LessIsTotalOrder(start.value, last.value, key);
        BehindGrows(grandparents, start.value, last.value);
        EndedBefore(grandparents, last.value, key);
      }
      while grandparentIndex < |grandparents| && Less(grandparents[grandparentIndex].largest, key)
        invariant from <= grandparentIndex <= |grandparents|
        invariant seenKey == last.Some? && grandparents == old(grandparents)
        invariant forall k :: 0 <= k < grandparentIndex ==> Less(grandparents[k].largest, key)
        invariant overlappedBytes == if seenKey then TotalFileSize(grandparents[from..grandparentIndex]) else 0
      {
        if seenKey {
          SizeOfNext(grandparents, from, grandparentIndex);
          overlappedBytes := overlappedBytes + grandparents[grandparentIndex].size;
        }
        grandparentIndex := grandparentIndex + 1;
      }
      seenKey := true;
      BehindIs(grandparents, key, grandparentIndex);
      LessIsTotalOrder(key, key, key);
      NothingBetween(grandparents, key);
      if overlappedBytes > limit {
        overlappedBytes := 0;
        stop := true;
      } else {
        stop := false;
      }
    }

    /** Every pointer has only passed files that end before `last`. */
    ghost predicate PointersBehind(last: Option<UserKey>)
      reads `levelPtrs, levelPtrs
    {
      && |v| == NUM_LEVELS && levelPtrs.Length == NUM_LEVELS
      && forall l :: 0 <= l < NUM_LEVELS ==> Passed(v[l], levelPtrs[l], last)
    }

    /** IsBaseLevelForKey: for keys asked in ascending order, the advancing pointers answer as a full scan would. */
    method IsBaseLevelForKey(user: UserKey, ghost last: Option<UserKey>) returns (base: bool)
      requires VersionOk(v) && PointersBehind(last) && (last.Some? ==> last.value <= user)
      modifies levelPtrs
      ensures PointersBehind(Some(user))
      ensures base <==> Deepest(v, level, user)
    {
      var l := level + 2;
      assert forall i :: 0 <= i < NUM_LEVELS ==> Passed(v[i], levelPtrs[i], Some(user));
      while l < NUM_LEVELS
        invariant level + 2 <= l
        invariant PointersBehind(Some(user))
        invariant forall i :: level + 2 <= i < l && i < NUM_LEVELS ==> NoneHolds(v[i], user)
      {
        var ptr, holds := Advance(v[l], levelPtrs[l], user);
        levelPtrs[l] := ptr;
        if holds {
          return false;
        }
        l := l + 1;
      }
      base := true;
    }
  }

  ghost predicate Passed(files: seq<File>, ptr: nat, last: Option<UserKey>) {
    ptr <= |files| && forall i :: 0 <= i < ptr ==> last.Some? && files[i].largest.user < last.value
  }

  ghost predicate NoneHolds(files: seq<File>, user: UserKey) {
    forall f :: f in files ==> !(f.smallest.user <= user <= f.largest.user)
  }

  /** No level below the output level has a file whose range holds the user key. */
  ghost predicate Deepest(v: Version, level: nat, user: UserKey)
    requires |v| == NUM_LEVELS
  {
    forall l :: level + 2 <= l < NUM_LEVELS ==> NoneHolds(v[l], user)
  }

  /** The inner loop of IsBaseLevelForKey on one level. */
  method Advance(files: seq<File>, from: nat, user: UserKey) returns (ptr: nat, holds: bool)
    requires LevelOk(files) && Passed(files, from, Some(user))
    ensures Passed(files, ptr, Some(user)) && from <= ptr
    ensures holds <==> !NoneHolds(files, user)
  {
    ptr := from;
    while ptr < |files|
      invariant from <= ptr && Passed(files, ptr, Some(user))
    {
      if user <= files[ptr].largest.user {
        holds := user >= files[ptr].smallest.user;
        StopsRight(files, ptr, user);
        return;
      }
      ptr := ptr + 1;
    }
    holds := false;
  }

  lemma StopsRight(files: seq<File>, ptr: nat, user: UserKey)
    requires LevelOk(files) && Passed(files, ptr, Some(user)) && ptr < |files| && user <= files[ptr].largest.user
    ensures user >= files[ptr].smallest.user <==> !NoneHolds(files, user)
  {
    var f := files[ptr];
    assert f in files;
    forall g | g in files && g.smallest.user <= user <= g.largest.user
      ensures user >= f.smallest.user
    {
      var j :| 0 <= j < |files| && files[j] == g;
      if j > ptr { assert Less(f.largest, g.smallest); EndsAreEntries(f); }
    }
  }

  /** The wider range still picks every input, and what it picks is a sound start. */
  lemma InputsOverlap(files: seq<File>, levelZero: bool, inputs0: seq<File>, inputs1: seq<File>,
                      allStart: IKey, allLimit: IKey, lo: Option<UserKey>, hi: Option<UserKey>)
    requires RunOk(files, levelZero) && inputs0 != [] && Among(inputs0, files)
    requires IsSmallest(inputs0 + inputs1, allStart) && IsLargest(inputs0 + inputs1, allLimit)
    requires Within(Some(allStart.user), Some(allLimit.user), lo, hi)
    requires levelZero ==> Settled(files, lo, hi)
    ensures forall f :: f in inputs0 ==> f in Picked(files, lo, hi)
    ensures BaseOk(files, levelZero, Picked(files, lo, hi))
  {
    hide LevelOk, Distinct, Settled, Picked, Convex;
    forall f | f in inputs0 ensures f in Picked(files, lo, hi) {
      assert f in inputs0 + inputs1;
      EndsAreEntries(f);
      PickedHas(files, lo, hi, f);
    }
    assert inputs0[0] in Picked(files, lo, hi);
    forall f | f in Picked(files, lo, hi) ensures f in files { PickedHas(files, lo, hi, f); }
    if !levelZero { PickedIsConvex(files, lo, hi); }
  }
}
