/** Choosing the files a flush or a compaction touches (version_set.cc). */
module Inputs {
  import opened Bytestrings
  import opened Format
  import opened Versions

  function Picked(files: seq<File>, lo: Option<UserKey>, hi: Option<UserKey>): (r: seq<File>)
  {
    if files == [] then []
    else
      var last := files[|files| - 1];
      Picked(files[..|files| - 1], lo, hi) + if Overlaps(last, lo, hi) then [last] else []
  }

  lemma {:induction false} PickedHas(files: seq<File>, lo: Option<UserKey>, hi: Option<UserKey>, f: File)
    ensures f in Picked(files, lo, hi) <==> f in files && Overlaps(f, lo, hi)
  {
    if files != [] {
      PickedHas(files[..|files| - 1], lo, hi, f);
      assert files == files[..|files| - 1] + [files[|files| - 1]];
    }
  }

  /** A wider range picks no fewer files, and other files only if it picks more. */
  lemma {:induction false} WiderPicksMore(files: seq<File>, lo: Option<UserKey>, hi: Option<UserKey>,
                                          lo2: Option<UserKey>, hi2: Option<UserKey>)
    requires Within(lo, hi, lo2, hi2)
    ensures |Picked(files, lo, hi)| <= |Picked(files, lo2, hi2)|
    ensures |Picked(files, lo, hi)| == |Picked(files, lo2, hi2)| ==> Picked(files, lo, hi) == Picked(files, lo2, hi2)
  {
    if files != [] { WiderPicksMore(files[..|files| - 1], lo, hi, lo2, hi2); }
  }

  /** Range [lo, hi] lies inside range [lo2, hi2]; an absent end is unbounded. */
  predicate Within(lo: Option<UserKey>, hi: Option<UserKey>, lo2: Option<UserKey>, hi2: Option<UserKey>) {
    && (lo2.Some? ==> lo.Some? && lo2.value <= lo.value)
    && (hi2.Some? ==> hi.Some? && hi.value <= hi2.value)
  }

  predicate Inside(f: File, lo: Option<UserKey>, hi: Option<UserKey>) {
    && (lo.Some? ==> lo.value <= f.smallest.user)
    && (hi.Some? ==> f.largest.user <= hi.value)
  }

  /** Every file that overlaps the range lies inside it. */
  ghost predicate Settled(files: seq<File>, lo: Option<UserKey>, hi: Option<UserKey>) {
    forall f :: f in files && Overlaps(f, lo, hi) ==> Inside(f, lo, hi)
  }

  /** Any settled range that holds the requested one holds [lo, hi]. */
  ghost predicate Needed(files: seq<File>, begin: Option<UserKey>, end: Option<UserKey>, lo: Option<UserKey>, hi: Option<UserKey>) {
    forall lo2, hi2 :: Within(begin, end, lo2, hi2) && Settled(files, lo2, hi2) ==> Within(lo, hi, lo2, hi2)
  }

  ghost function StartsBelow(files: seq<File>, lo: Option<UserKey>): set<int> {
    set k | 0 <= k < |files| && lo.Some? && files[k].smallest.user < lo.value
  }

  ghost function EndsAbove(files: seq<File>, hi: Option<UserKey>): set<int> {
    set k | 0 <= k < |files| && hi.Some? && files[k].largest.user > hi.value
  }

  lemma WidenKeepsNeeded(files: seq<File>, begin: Option<UserKey>, end: Option<UserKey>,
                         lo: Option<UserKey>, hi: Option<UserKey>, f: File)
    requires Needed(files, begin, end, lo, hi) && f in files && Overlaps(f, lo, hi)
    ensures lo.Some? ==> f.smallest.user < lo.value ==> Needed(files, begin, end, Some(f.smallest.user), hi)
    ensures hi.Some? ==> f.largest.user > hi.value ==> Needed(files, begin, end, lo, Some(f.largest.user))
  {
    forall lo2, hi2 | Within(begin, end, lo2, hi2) && Settled(files, lo2, hi2)
      ensures Inside(f, lo2, hi2)
    {
      assert Within(lo, hi, lo2, hi2);
      assert Overlaps(f, lo2, hi2);
    }
  }

  /** Version::GetOverlappingInputs; `lo` and `hi` are the range the search ends with. */
  method GetOverlappingInputs(files: seq<File>, levelZero: bool, begin: Option<UserKey>, end: Option<UserKey>)
      returns (inputs: seq<File>, lo: Option<UserKey>, hi: Option<UserKey>)
    ensures inputs == Picked(files, lo, hi) && Within(begin, end, lo, hi)
    ensures lo.Some? == begin.Some? && hi.Some? == end.Some?
    ensures !levelZero ==> lo == begin && hi == end
    ensures levelZero ==> Settled(files, lo, hi) && Needed(files, begin, end, lo, hi)
  {
    lo, hi, inputs := begin, end, [];
    var i := 0;
    while i < |files|
      invariant 0 <= i <= |files|
      invariant inputs == Picked(files[..i], lo, hi)
      invariant Within(begin, end, lo, hi) && lo.Some? == begin.Some? && hi.Some? == end.Some?
      invariant !levelZero ==> lo == begin && hi == end
      invariant levelZero ==> Needed(files, begin, end, lo, hi)
      invariant levelZero ==> forall k :: 0 <= k < i && Overlaps(files[k], lo, hi) ==> Inside(files[k], lo, hi)
      decreases StartsBelow(files, lo), EndsAbove(files, hi), |files| - i
    {
      var f := files[i];
      assert files[..i + 1][..i] == files[..i];
      i := i + 1;
      if AfterFile(lo, f) {
      } else if BeforeFile(hi, f) {
      } else {
        inputs := inputs + [f];
        if levelZero {
          if lo.Some? && f.smallest.user < lo.value {
            WidenKeepsNeeded(files, begin, end, lo, hi, f);
            assert i - 1 in StartsBelow(files, lo) && i - 1 !in StartsBelow(files, Some(f.smallest.user));
            lo, inputs, i := Some(f.smallest.user), [], 0;
          } else if hi.Some? && f.largest.user > hi.value {
            WidenKeepsNeeded(files, begin, end, lo, hi, f);
            assert i - 1 in EndsAbove(files, hi) && i - 1 !in EndsAbove(files, Some(f.largest.user));
            hi, inputs, i := Some(f.largest.user), [], 0;
          }
        }
      }
    }
    assert files[..i] == files;
  }

  /** The level-0 answer is the least set of files that holds all files overlapping its own range and the requested one. */
  lemma LevelZeroInputsAreLeast(files: seq<File>, begin: Option<UserKey>, end: Option<UserKey>,
                                lo: Option<UserKey>, hi: Option<UserKey>,
                                lo2: Option<UserKey>, hi2: Option<UserKey>, f: File)
    requires Needed(files, begin, end, lo, hi)
    requires Within(begin, end, lo2, hi2) && Settled(files, lo2, hi2)
    requires f in Picked(files, lo, hi)
    ensures f in Picked(files, lo2, hi2)
  {
    PickedHas(files, lo, hi, f);
    PickedHas(files, lo2, hi2, f);
  }

  function TotalFileSize(files: seq<File>): nat {
    if files == [] then 0 else files[0].size + TotalFileSize(files[1..])
  }

  ghost predicate LevelOverlaps(v: Version, level: nat, lo: UserKey, hi: UserKey)
    requires level < |v|
  {
    exists f :: f in v[level] && Overlaps(f, Some(lo), Some(hi))
  }

  /** Pushing a run from `level` to the next one is allowed: nothing there overlaps, and little does one further down. */
  ghost predicate MayDescend(v: Version, level: nat, lo: UserKey, hi: UserKey, limit: nat)
    requires |v| == NUM_LEVELS && level < MAX_MEM_COMPACT_LEVEL
  {
    && !LevelOverlaps(v, level + 1, lo, hi)
    && TotalFileSize(Picked(v[level + 2], Some(lo), Some(hi))) <= limit
  }

  /** Version::PickLevelForMemTableOutput: the deepest level reached by allowed pushes. */
  method PickLevelForMemTableOutput(v: Version, lo: UserKey, hi: UserKey, limit: nat) returns (level: nat)
    requires VersionOk(v)
    ensures level <= MAX_MEM_COMPACT_LEVEL
    ensures level > 0 ==> !LevelOverlaps(v, 0, lo, hi)
    ensures forall l :: 0 <= l < level ==> MayDescend(v, l, lo, hi, limit)
    ensures level < MAX_MEM_COMPACT_LEVEL ==>
      (level == 0 && LevelOverlaps(v, 0, lo, hi)) || !MayDescend(v, level, lo, hi, limit)
    ensures forall l, f :: level > 0 && 0 <= l <= level && f in v[l] ==> !Overlaps(f, Some(lo), Some(hi))
    ensures forall l :: 2 <= l < level + 2 ==> TotalFileSize(Picked(v[l], Some(lo), Some(hi))) <= limit
    ensures level < MAX_MEM_COMPACT_LEVEL ==>
      || (level == 0 && exists f :: f in v[0] && Overlaps(f, Some(lo), Some(hi)))
      || (exists f :: f in v[level + 1] && Overlaps(f, Some(lo), Some(hi)))
      || TotalFileSize(Picked(v[level + 2], Some(lo), Some(hi))) > limit
  {
    hide Picked, TotalFileSize;
    level := 0;
    var overlap := SomeFileOverlapsRange(false, v[0], Some(lo), Some(hi));
    if !overlap {
      while level < MAX_MEM_COMPACT_LEVEL
        invariant level <= MAX_MEM_COMPACT_LEVEL
        invariant forall l :: 0 <= l < level ==> MayDescend(v, l, lo, hi, limit)
        invariant forall l, f :: 0 <= l <= level && f in v[l] ==> !Overlaps(f, Some(lo), Some(hi))
        invariant forall l :: 2 <= l < level + 2 ==> TotalFileSize(Picked(v[l], Some(lo), Some(hi))) <= limit
      {
        overlap := SomeFileOverlapsRange(true, v[level + 1], Some(lo), Some(hi));
        if overlap { break; }
        if level + 2 < NUM_LEVELS {
          var overlaps, _, _ := GetOverlappingInputs(v[level + 2], false, Some(lo), Some(hi));
          if TotalFileSize(overlaps) > limit { break; }
        }
        level := level + 1;
      }
    }
  }

  /** The outcome of PickLevelForMemTableOutput. */
  ghost predicate LevelAllowed(v: Version, level: nat, f: File, limit: nat)
    requires |v| == NUM_LEVELS
  {
    && level <= MAX_MEM_COMPACT_LEVEL
    && (level > 0 ==> !LevelOverlaps(v, 0, f.smallest.user, f.largest.user))
    && forall l :: 0 <= l < level ==> MayDescend(v, l, f.smallest.user, f.largest.user, limit)
  }

  /** A file placed at the chosen level shares no user key with any file at or above that level. */
  lemma ChosenLevelIsClear(v: Version, level: nat, lo: UserKey, hi: UserKey, limit: nat, l: nat, f: File, e: Entry)
    requires VersionOk(v) && level <= MAX_MEM_COMPACT_LEVEL
    requires level > 0 ==> !LevelOverlaps(v, 0, lo, hi)
    requires forall l :: 0 <= l < level ==> MayDescend(v, l, lo, hi, limit)
    requires level > 0 && l <= level && f in v[l] && e in f.entries
    ensures !(lo <= e.k.user <= hi)
    ensures lo <= hi ==> f.largest.user < lo || hi < f.smallest.user
  {
    assert !LevelOverlaps(v, l, lo, hi) by { if l > 0 { assert MayDescend(v, l - 1, lo, hi, limit); } }
    assert FileOk(f) by { if l > 0 { assert LevelOk(v[l]); } }
    EntryInRange(f, e);
  }
}
