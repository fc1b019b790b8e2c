/** A compaction under way, and the flushes that happen inside it (db_impl.cc, DoCompactionWork). */
module Jobs {
  import opened Bytestrings
  import opened Format
  import opened Versions
  import opened Inputs
  import opened CompactionInputs
  import opened Gaps
  import opened Compactions
  import opened Merge
  import opened Views
  import opened ViewSteps

  /** What a compaction takes hold of when it starts: the version it reads, its inputs, and the bound below which it may drop. */
  datatype Job = Job(base: Version, level: nat, in0: seq<File>, in1: seq<File>, smallest: nat)

  function InputsOf(j: Job): seq<File> {
    j.in0 + j.in1
  }

  /** The levels below the output level hold the inputs' user keys in v just where they do in the version that is read. */
  ghost predicate SameDepths(v: Version, j: Job)
    requires |v| == |j.base| == NUM_LEVELS
  {
    forall y :: y in LevelEntries(InputsOf(j)) ==> (Deepest(j.base, j.level, y.k.user) <==> Deepest(v, j.level, y.k.user))
  }

  /** The inputs are still there in v, and still closed. */
  ghost predicate JobOk(v: Version, j: Job) {
    && |v| == |j.base| == NUM_LEVELS && j.level + 1 < NUM_LEVELS
    && Closed(v, j.level, j.in0, j.in1) && NoShared(v[j.level + 1], j.in1, j.in1)
    && (forall g :: g in InputsOf(j) ==> FileOk(g))
    && SameDepths(v, j)
  }

  /** Some file at or above level `bottom` has x in its range. */
  ghost predicate HeldAbove(v: Version, bottom: nat, x: UserKey) {
    exists l: nat, g :: l <= bottom && l < |v| && g in v[l] && Holds(g, x)
  }

  /** x lies in one of the files or between two of them. */
  ghost predicate Spanned(files: seq<File>, x: UserKey) {
    exists p, q :: p in files && q in files && p.smallest.user <= x <= q.largest.user
  }

  /** Wherever the inputs leave a gap, another file at or above the output level fills it. */
  ghost predicate Guarded(v: Version, j: Job) {
    forall x :: Spanned(InputsOf(j), x) ==> HeldAbove(v, j.level + 1, x)
  }

  /** Inputs without a gap, as PickCompaction chooses them, need no other file. */
  lemma GaplessIsGuarded(v: Version, j: Job)
    requires |v| == NUM_LEVELS && j.level + 1 < NUM_LEVELS && Among(j.in0, v[j.level]) && Among(j.in1, v[j.level + 1])
    requires Gapless(InputsOf(j))
    ensures Guarded(v, j)
  {
    hide Gapless;
    forall x | Spanned(InputsOf(j), x) ensures HeldAbove(v, j.level + 1, x) {
      var p, q :| p in InputsOf(j) && q in InputsOf(j) && p.smallest.user <= x <= q.largest.user;
      Between(InputsOf(j), p, q, x);
      var g :| g in InputsOf(j) && Holds(g, x);
      assert g in v[if g in j.in0 then j.level else j.level + 1];
    }
  }

  /** PickCompaction for the file that is due: the compaction it makes is guarded. */
  method PickCompaction(v: Version, level: nat, f: File, limit: nat, smallest: nat) returns (j: Job)
    requires VersionOk(v) && level + 1 < NUM_LEVELS && RunOk(v[level], level == 0) && f in v[level]
    ensures j.base == v && j.level == level && j.smallest == smallest && f in j.in0
    ensures Closed(v, level, j.in0, j.in1) && Guarded(v, j)
  {
    hide LevelOk, LevelZeroOk, RunOk, BaseOk, Gapless, NoShared, OlderChosen, Apart, Guarded, Picked, IsLargest, IsSmallest;
    var base := PickInputs(v, level, f);
    var in0, in1, _, _, _, _, _, _ := ChooseInputs(v, level, base, limit);
    j := Job(v, level, in0, in1, smallest);
    GaplessIsGuarded(v, j);
  }

  /** A version with more files guards no less. */
  lemma MoreFilesGuard(v: Version, v2: Version, level: nat, f: File, j: Job)
    requires Guarded(v, j) && Placed(v, v2, level, f)
    ensures Guarded(v2, j)
  {
    hide BySmallest, Spanned;
    forall x | Spanned(InputsOf(j), x) ensures HeldAbove(v2, j.level + 1, x) {
      assert HeldAbove(v, j.level + 1, x);
      var l: nat, g :| l <= j.level + 1 && l < |v| && g in v[l] && Holds(g, x);
      assert g in v2[l];
    }
  }

  lemma JobStarts(v: Version, j: Job)
    requires Sound(v) && j.base == v && j.level + 1 < NUM_LEVELS
    requires Closed(v, j.level, j.in0, j.in1) && NoShared(v[j.level + 1], j.in1, j.in1)
    ensures JobOk(v, j)
  {
    hide Closed, NoShared, NumbersUnique, BySmallest, FileOk, Deepest;
    ClosedParts(v, j.level, j.in0, j.in1);
    assert LevelSound(v[j.level], j.level == 0) && LevelSound(v[j.level + 1], false);
  }

  /** The flushed entries are newer than all the version has of their user keys. */
  ghost predicate NewerThan(f: File, v: Version) {
    forall x, y | x in f.entries && y in VersionEntries(v) && x.k.user == y.k.user :: x.k.sn > y.k.sn
  }

  lemma InputIsInVersion(v: Version, j: Job, g: File, y: Entry)
    requires JobOk(v, j) && g in InputsOf(j) && y in g.entries
    ensures g in v[j.level] || g in v[j.level + 1]
    ensures y in VersionEntries(v) && y in LevelEntries(InputsOf(j))
  {
  }

  /** An input's entry is outside the range of a file placed below the inputs' level. */
  lemma EntryOutside(v: Version, level: nat, f: File, j: Job, g: File, y: Entry)
    requires |v| == NUM_LEVELS && j.level < level < NUM_LEVELS
    requires JobOk(v, j) && FileOk(f) && Clear(v, level, f) && g in InputsOf(j) && y in g.entries
    ensures RangesApart(g, f) && !(f.smallest.user <= y.k.user <= f.largest.user)
    ensures forall x :: x in f.entries ==> x.k.user != y.k.user
  {
    hide OlderChosen, Apart, NoShared, SameDepths, FileOk;
    assert RangesApart(g, f);
    EntryInRange(g, y);
    forall x | x in f.entries ensures x.k.user != y.k.user { EntryInRange(f, x); }
  }

  lemma NothingHolds(v: Version, level: nat, f: File)
    requires |v| == NUM_LEVELS && 0 < level < NUM_LEVELS && FileOk(f) && Clear(v, level, f)
    ensures f.smallest.user <= f.largest.user && !HeldAbove(v, level, f.smallest.user)
  {
    EndsAreEntries(f);
    forall l: nat, g | l <= level && l < |v| && g in v[l] ensures !Holds(g, f.smallest.user) {
      assert RangesApart(g, f);
    }
  }

  /** Where the inputs are guarded, a file placed on the output level lies wholly before or wholly after all of them. */
  lemma PlacedLiesApart(v: Version, f: File, j: Job)
    requires JobOk(v, j) && Guarded(v, j) && FileOk(f) && Clear(v, j.level + 1, f)
    ensures (forall g :: g in InputsOf(j) ==> g.largest.user < f.smallest.user)
         || (forall g :: g in InputsOf(j) ==> f.largest.user < g.smallest.user)
  {
    hide OlderChosen, Apart, NoShared, SameDepths, FileOk;
    NothingHolds(v, j.level + 1, f);
    hide HeldAbove;
    assert !Spanned(InputsOf(j), f.smallest.user);
    forall g | g in InputsOf(j) ensures g.smallest.user <= g.largest.user && RangesApart(g, f) { EndsAreEntries(g); }
  }

  lemma StillOlderChosen(v: Version, v2: Version, level: nat, f: File, j: Job)
    requires JobOk(v, j) && Placed(v, v2, level, f) && NewerThan(f, v)
    ensures OlderChosen(v2[j.level], j.in0)
  {
    hide NoShared, Apart, SameDepths, FileOk;
    forall h, g, x, y | h in v2[j.level] && h !in j.in0 && g in j.in0 && x in h.entries && y in g.entries && x.k.user == y.k.user
      ensures x.k.sn > y.k.sn
    {
      if h !in v[j.level] { InputIsInVersion(v, j, g, y); }
    }
  }

  lemma StillNoShared(v: Version, v2: Version, level: nat, f: File, j: Job, files: seq<File>)
    requires JobOk(v, j) && Placed(v, v2, level, f) && FileOk(f) && Clear(v, level, f)
    requires NoShared(v[j.level + 1], j.in1, files) && Among(files, InputsOf(j))
    ensures NoShared(v2[j.level + 1], j.in1, files)
  {
    hide Closed, SameDepths, FileOk, Clear;
    forall h, g, x, y | h in v2[j.level + 1] && h !in j.in1 && g in files && x in h.entries && y in g.entries
      ensures x.k.user != y.k.user
    {
      if h !in v[j.level + 1] { EntryOutside(v, level, f, j, g, y); }
    }
  }

  lemma StillApart(v: Version, v2: Version, level: nat, f: File, j: Job)
    requires JobOk(v, j) && Placed(v, v2, level, f) && FileOk(f) && Clear(v, level, f)
    requires level == j.level + 1 ==> Guarded(v, j)
    ensures Apart(v2[j.level + 1], j.in1, InputsOf(j))
  {
    hide NoShared, OlderChosen, SameDepths, FileOk, Clear, Guarded;
    forall h | h in v2[j.level + 1] && h !in j.in1
      ensures (forall g, y | g in InputsOf(j) && y in g.entries :: Less(h.largest, y.k)) ||
              (forall g, y | g in InputsOf(j) && y in g.entries :: Less(y.k, h.smallest))
    {
      if h !in v[j.level + 1] {
        PlacedLiesApart(v, f, j);
        forall g, y | g in InputsOf(j) && y in g.entries
          ensures g.largest.user < f.smallest.user ==> Less(y.k, f.smallest)
          ensures f.largest.user < g.smallest.user ==> Less(f.largest, y.k)
        {
          EntryInRange(g, y);
        }
      }
    }
  }

  lemma StillSameDepths(v: Version, v2: Version, level: nat, f: File, j: Job)
    requires JobOk(v, j) && Placed(v, v2, level, f) && FileOk(f) && Clear(v, level, f)
    ensures SameDepths(v2, j)
  {
    hide Closed, NoShared, FileOk, Clear;
    forall y | y in LevelEntries(InputsOf(j)) ensures Deepest(v, j.level, y.k.user) <==> Deepest(v2, j.level, y.k.user) {
      var g :| g in InputsOf(j) && y in g.entries;
      if level > j.level { EntryOutside(v, level, f, j, g, y); }
      DepthAlike(v, v2, level, f, j.level, y.k.user);
    }
  }

  lemma DepthAlike(v: Version, v2: Version, level: nat, f: File, top: nat, user: UserKey)
    requires Placed(v, v2, level, f) && (level > top ==> !(f.smallest.user <= user <= f.largest.user))
    ensures Deepest(v, top, user) <==> Deepest(v2, top, user)
  {
    hide BySmallest;
    forall l | top + 2 <= l < NUM_LEVELS ensures NoneHolds(v[l], user) <==> NoneHolds(v2[l], user) {
      forall g | g in v2[l] && g !in v[l] ensures !(g.smallest.user <= user <= g.largest.user) {}
      forall g | g in v[l] ensures g in v2[l] {}
    }
  }

  /** A flush at the level that is allowed does not disturb the compaction it happens in. */
  lemma PlacedKeepsJob(v: Version, v2: Version, level: nat, f: File, j: Job)
    requires JobOk(v, j) && Placed(v, v2, level, f) && FileOk(f) && Clear(v, level, f) && NewerThan(f, v)
    requires level == j.level + 1 ==> Guarded(v, j)
    ensures JobOk(v2, j)
  {
    hide OlderChosen, NoShared, Apart, Guarded, SameDepths, FileOk, Clear, NewerThan, BySmallest;
    StillOlderChosen(v, v2, level, f, j);
    StillNoShared(v, v2, level, f, j, j.in0);
    StillNoShared(v, v2, level, f, j, j.in1);
    StillApart(v, v2, level, f, j);
    StillSameDepths(v, v2, level, f, j);
  }

  /** The drop rules decide in the version that is read as they would in the current one. */
  lemma {:induction false} KeptAlike(a: Version, b: Version, input: seq<Entry>, n: nat, snapshot: nat, level: nat)
    requires |a| == |b| == NUM_LEVELS && n <= |input|
    requires forall y :: y in input ==> (Deepest(a, level, y.k.user) <==> Deepest(b, level, y.k.user))
    ensures Kept(input, n, snapshot, a, level) == Kept(input, n, snapshot, b, level)
  {
    hide Deepest;
    if n > 0 { KeptAlike(a, b, input, n - 1, snapshot, level); }
  }

  lemma MergedAlike(v: Version, j: Job, input: seq<Entry>, outs: seq<File>)
    requires JobOk(v, j) && Merged(j.base, j.level, j.in0, j.in1, input, j.smallest, outs)
    ensures Merged(v, j.level, j.in0, j.in1, input, j.smallest, outs)
  {
    hide Closed, NoShared, FileOk, Deepest, Sorted;
    forall y | y in input ensures Deepest(j.base, j.level, y.k.user) <==> Deepest(v, j.level, y.k.user) {
      assert y in Entries(input);
    }
    KeptAlike(j.base, v, input, |input|, j.smallest, j.level);
  }

  // ---- When a flush inside a compaction is harmless ----

  /** A flush of newer entries at a level the choice allows. */
  ghost predicate Flushed(v: Version, v2: Version, level: nat, f: File, limit: nat)
    requires |v| == NUM_LEVELS
  {
    FileOk(f) && Fresh(v, f.number) && NewerThan(f, v) && LevelAllowed(v, level, f, limit) && Placed(v, v2, level, f)
  }

  /** No flush disturbs the compaction's inputs. */
  ghost predicate Harmless(v: Version, j: Job)
    requires |v| == NUM_LEVELS
  {
    forall v2, level, f, limit :: Flushed(v, v2, level, f, limit) ==> JobOk(v2, j)
  }

  /** The level choice of a flush leaves a running compaction alone exactly when the gaps of its inputs are filled. */
  lemma HarmlessIffGuarded(v: Version, j: Job, number: nat, sn: nat)
    requires |v| == NUM_LEVELS && Sound(v) && JobOk(v, j) && Fresh(v, number) && OlderThan(v, sn) && sn <= MAX_SEQUENCE
    ensures Harmless(v, j) <==> Guarded(v, j) || j.level + 1 > MAX_MEM_COMPACT_LEVEL
  {
    hide FileOk, NewerThan, Placed, Clear, Sound, Fresh, Spanned, HeldAbove, JobOk, OlderThan;
    if Guarded(v, j) || j.level + 1 > MAX_MEM_COMPACT_LEVEL {
      forall v2, level, f, limit | Flushed(v, v2, level, f, limit) ensures JobOk(v2, j) {
        AllowedIsClear(v, level, f, limit);
        PlacedKeepsJob(v, v2, level, f, j);
      }
    } else {
      var x :| Spanned(InputsOf(j), x) && !HeldAbove(v, j.level + 1, x);
      var v2, f, limit := FilledGapBreaks(v, j, x, number, sn);
      assert Flushed(v, v2, j.level + 1, f, limit);
    }
  }

  ghost predicate OlderThan(v: Version, sn: nat) {
    forall y :: y in VersionEntries(v) ==> y.k.sn < sn
  }

  function OneKeyFile(x: UserKey, sn: nat, number: nat): File {
    var e := Entry(IKey(x, sn, Value), []);
    File(number, 1, e.k, e.k, [e])
  }

  /** A newer key in a gap may be flushed right between the inputs. */
  lemma FilledGapBreaks(v: Version, j: Job, x: UserKey, number: nat, sn: nat) returns (v2: Version, f: File, limit: nat)
    requires |v| == NUM_LEVELS && Sound(v) && JobOk(v, j) && Fresh(v, number) && OlderThan(v, sn) && sn <= MAX_SEQUENCE
    requires j.level + 1 <= MAX_MEM_COMPACT_LEVEL && Spanned(InputsOf(j), x) && !HeldAbove(v, j.level + 1, x)
    ensures Flushed(v, v2, j.level + 1, f, limit) && !JobOk(v2, j)
  {
    hide Sound, JobOk, Spanned, HeldAbove, LevelAllowed, OlderThan, Fresh, FileOk, NewerThan, Placed, Picked;
    f := OneKeyFile(x, sn, number);
    limit := TotalFileSize(Picked(v[2], Some(x), Some(x))) + TotalFileSize(Picked(v[3], Some(x), Some(x)));
    OneKeyIsNewer(v, x, sn, number);
    GapIsAllowed(v, j.level + 1, f, x, limit);
    v2 := FileCanBePlaced(v, j.level + 1, f);
    FillerIsBetween(v, v2, j, f, x);
  }

  lemma OneKeyIsNewer(v: Version, x: UserKey, sn: nat, number: nat)
    requires OlderThan(v, sn) && sn <= MAX_SEQUENCE
    ensures FileOk(OneKeyFile(x, sn, number)) && NewerThan(OneKeyFile(x, sn, number), v)
  {
    hide VersionEntries;
  }

  lemma GapIsAllowed(v: Version, level: nat, f: File, x: UserKey, limit: nat)
    requires |v| == NUM_LEVELS && 0 < level <= MAX_MEM_COMPACT_LEVEL && !HeldAbove(v, level, x)
    requires f.smallest.user == f.largest.user == x
    requires limit == TotalFileSize(Picked(v[2], Some(x), Some(x))) + TotalFileSize(Picked(v[3], Some(x), Some(x)))
    ensures LevelAllowed(v, level, f, limit)
  {
    hide Picked, TotalFileSize;
    forall l | 0 <= l <= level ensures !LevelOverlaps(v, l, x, x) {
      forall g | g in v[l] ensures !Overlaps(g, Some(x), Some(x)) { assert !Holds(g, x); }
    }
    hide LevelOverlaps;
    forall l | 0 <= l < level ensures MayDescend(v, l, x, x, limit) { assert l == 0 || l == 1; }
  }

  /** An input that does not hold x lies wholly to one side of it. */
  lemma InputOnOneSide(v: Version, j: Job, g: File, x: UserKey)
    requires JobOk(v, j) && g in InputsOf(j) && !HeldAbove(v, j.level + 1, x)
    ensures g.largest.user < x || x < g.smallest.user
  {
    hide NoShared, OlderChosen, Apart, SameDepths;
    EndsAreEntries(g);
    assert g in v[if g in j.in0 then j.level else j.level + 1];
    assert !Holds(g, x);
  }

  lemma FillerIsBetween(v: Version, v2: Version, j: Job, f: File, x: UserKey)
    requires JobOk(v, j) && Fresh(v, f.number) && Placed(v, v2, j.level + 1, f)
    requires f.smallest.user == f.largest.user == x && Spanned(InputsOf(j), x) && !HeldAbove(v, j.level + 1, x)
    ensures !JobOk(v2, j)
  {
    hide NoShared, OlderChosen, SameDepths, HeldAbove, BySmallest, Apart, FileOk;
    var p, q :| p in InputsOf(j) && q in InputsOf(j) && p.smallest.user <= x <= q.largest.user;
    InputOnOneSide(v, j, p, x);
    InputOnOneSide(v, j, q, x);
    EndsAreEntries(p);
    EndsAreEntries(q);
    assert f !in j.in1 by { assert forall g :: g in j.in1 ==> g in v[j.level + 1] && g.number < f.number; }
    assert f in v2[j.level + 1];
    BetweenIsNotApart(v2[j.level + 1], j.in1, InputsOf(j), f, p, q);
  }

  lemma BetweenIsNotApart(files: seq<File>, chosen: seq<File>, inputs: seq<File>, f: File, p: File, q: File)
    requires f in files && f !in chosen && p in inputs && q in inputs && FileOk(p) && FileOk(q)
    requires p.smallest.user < f.largest.user && f.smallest.user < q.largest.user
    ensures !Apart(files, chosen, inputs)
  {
    EndsAreEntries(p);
    EndsAreEntries(q);
    var a :| a in p.entries && a.k == p.smallest;
    var b :| b in q.entries && b.k == q.largest;
    hide FileOk;
    assert !Less(f.largest, a.k) && !Less(b.k, f.smallest);
  }

  /** Two files of level 1 with nothing between them: a compaction of the whole level takes both. */
  const FIRST: File := OneKeyFile(1.0, 1, 4)
  const SECOND: File := OneKeyFile(5.0, 2, 5)
  const FILLER: File := OneKeyFile(3.0, 9, 6)
  const JOINED: File := File(7, 2, FIRST.smallest, SECOND.largest, FIRST.entries + SECOND.entries)

  function GapVersion(level1: seq<File>, level2: seq<File>): (v: Version)
    ensures |v| == NUM_LEVELS
  {
    [[], level1, level2, [], [], [], []]
  }

  function GapJob(): Job {
    Job(GapVersion([FIRST, SECOND], []), 1, [FIRST, SECOND], [], 8)
  }

  /**
   * CompactRange picks the whole of level 1. While it runs, a memtable with one newer key goes to level 2, and the one
   * output then covers that key: level 2 is left with overlapping files.
   */
  lemma ManualCompactionLeavesGap()
    ensures Sound(GapVersion([FIRST, SECOND], [])) && [FIRST, SECOND] == Picked([FIRST, SECOND], None, None)
    ensures Picked([], Some(1.0), Some(5.0)) == []
    ensures JobOk(GapVersion([FIRST, SECOND], []), GapJob())
    ensures Flushed(GapVersion([FIRST, SECOND], []), GapVersion([FIRST, SECOND], [FILLER]), 2, FILLER, 0)
    ensures Merged(GapVersion([FIRST, SECOND], []), 1, [FIRST, SECOND], [], JOINED.entries, 8, [JOINED])
    ensures Compacted(GapVersion([FIRST, SECOND], [FILLER]), GapVersion([], [JOINED, FILLER]), 1, [FIRST, SECOND], [], [JOINED])
    ensures !Sound(GapVersion([], [JOINED, FILLER]))
  {
    hide *;
    GapIsSound();
    GapIsPicked();
    GapJobStarts();
    GapIsFlushed();
    GapIsMerged();
    GapIsCompacted();
    GapOverlaps();
  }

  lemma GapIsSound()
    ensures Sound(GapVersion([FIRST, SECOND], []))
  {
    var v := GapVersion([FIRST, SECOND], []);
    assert FileOk(FIRST) && FileOk(SECOND);
    hide FileOk;
    assert LevelSound([FIRST, SECOND], false) && LevelSound([], false) && LevelSound([], true);
    hide LevelSound;
    assert forall l :: 0 <= l < NUM_LEVELS ==> v[l] == if l == 1 then [FIRST, SECOND] else [];
  }

  lemma GapIsPicked()
    ensures [FIRST, SECOND] == Picked([FIRST, SECOND], None, None) && Picked([], Some(1.0), Some(5.0)) == []
  {
    assert [FIRST, SECOND][..1] == [FIRST] && [FIRST][..0] == [];
    assert Picked([FIRST], None, None) == [FIRST];
  }

  lemma GapJobStarts()
    ensures JobOk(GapVersion([FIRST, SECOND], []), GapJob())
  {
    hide FileOk, Sound;
    var v := GapVersion([FIRST, SECOND], []);
    GapIsSound();
    WholeLevelChosen([FIRST, SECOND]);
    JobStarts(v, GapJob());
  }

  lemma GapIsFlushed()
    ensures Flushed(GapVersion([FIRST, SECOND], []), GapVersion([FIRST, SECOND], [FILLER]), 2, FILLER, 0)
  {
    GapFillerIsAllowed();
    GapFillerIsPlaced();
    OneKeyIsNewer(GapVersion([FIRST, SECOND], []), 3.0, 9, 6) by {
      assert forall y :: y in FIRST.entries || y in SECOND.entries ==> y.k.sn < 9;
    }
  }

  lemma GapFillerIsAllowed()
    ensures LevelAllowed(GapVersion([FIRST, SECOND], []), 2, FILLER, 0)
  {
  }

  lemma GapFillerIsPlaced()
    ensures Placed(GapVersion([FIRST, SECOND], []), GapVersion([FIRST, SECOND], [FILLER]), 2, FILLER)
  {
  }

  lemma GapIsMerged()
    ensures Merged(GapVersion([FIRST, SECOND], []), 1, [FIRST, SECOND], [], JOINED.entries, 8, [JOINED])
  {
    var input, v := JOINED.entries, GapVersion([FIRST, SECOND], []);
    assert input == [FIRST.entries[0], SECOND.entries[0]];
    assert Kept(input, 1, 8, v, 1) == [input[0]] by { assert Kept(input, 0, 8, v, 1) == [] && !Dropped(input, 0, 8, v, 1); }
    assert !Dropped(input, 1, 8, v, 1);
    assert Kept(input, 2, 8, v, 1) == input;
    assert FIRST in [FIRST, SECOND] + [] && SECOND in [FIRST, SECOND] + [];
  }

  lemma GapIsCompacted()
    ensures Compacted(GapVersion([FIRST, SECOND], [FILLER]), GapVersion([], [JOINED, FILLER]), 1, [FIRST, SECOND], [], [JOINED])
  {
  }

  lemma GapOverlaps()
    ensures !Sound(GapVersion([], [JOINED, FILLER]))
  {
    var v := GapVersion([], [JOINED, FILLER]);
    assert JOINED in v[2] && FILLER in v[2] && !Disjoint(JOINED, FILLER);
    assert !LevelSound(v[2], false);
  }
}
