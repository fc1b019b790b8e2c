/** Each step of the store keeps the layer order (db_impl.cc: writes, memtable switch, flush, trivial move, compaction). */
module ViewSteps {
  import opened Bytestrings
  import opened Format
  import opened Versions
  import opened Inputs
  import opened CompactionInputs
  import opened Compactions
  import opened Merge
  import opened Views

  ghost predicate AllNewer(xs: set<Entry>, ys: set<Entry>) {
    forall x, y | x in xs && y in ys :: x.k.sn > y.k.sn
  }

  /** A write: entries newer than everything else join the memtable. */
  lemma WriteKeepsOrder(w: View, batch: set<Entry>)
    requires |w.v| == NUM_LEVELS && LayerOrder(w) && AllNewer(batch, All(w))
    ensures LayerOrder(w.(mem := w.mem + batch)) && All(w.(mem := w.mem + batch)) == All(w) + batch
  {
    var w' := w.(mem := w.mem + batch);
    forall p, q | Above(p, q) ensures Newer(At(w', p), At(w', q)) {
      assert Newer(At(w, p), At(w, q));
      forall x, y | x in At(w', p) && y in At(w', q) && x.k.user == y.k.user ensures x.k.sn > y.k.sn {
        PlaceOf(w, y);
      }
    }
  }

  /** The memtable switch. */
  lemma SwitchKeepsOrder(w: View)
    requires |w.v| == NUM_LEVELS && LayerOrder(w) && w.imm == {}
    ensures LayerOrder(View({}, w.mem, w.v)) && All(View({}, w.mem, w.v)) == All(w)
  {
    var w' := View({}, w.mem, w.v);
    forall p, q | Above(p, q) ensures Newer(At(w', p), At(w', q)) {
      if p == Imm { assert Newer(At(w, Mem), At(w, q)); } else if p != Mem { assert Newer(At(w, p), At(w, q)); }
    }
  }

  /** v2 is v with file f added to one level, every level in BySmallestKey order. */
  ghost predicate Placed(v: Version, v2: Version, level: nat, f: File) {
    && |v| == |v2| == NUM_LEVELS && level < NUM_LEVELS
    && (forall l :: 0 <= l < NUM_LEVELS ==> BySmallest(v2[l]))
    && forall l, g | 0 <= l < NUM_LEVELS :: g in v2[l] <==> g in v[l] || (l == level && g == f)
  }

  /** The flushed run overlaps no file at or above the level it goes to. */
  ghost predicate Clear(v: Version, level: nat, f: File)
    requires |v| == NUM_LEVELS && level < NUM_LEVELS
  {
    level > 0 ==> forall l, g | 0 <= l <= level && g in v[l] :: RangesApart(g, f)
  }

  predicate RangesApart(g: File, f: File) {
    g.largest.user < f.smallest.user || f.largest.user < g.smallest.user
  }

  ghost predicate Fresh(v: Version, number: nat) {
    forall l, g | 0 <= l < |v| && g in v[l] :: g.number < number
  }

  lemma AllowedIsClear(v: Version, level: nat, f: File, limit: nat)
    requires Sound(v) && FileOk(f) && LevelAllowed(v, level, f, limit)
    ensures level < NUM_LEVELS && Clear(v, level, f)
  {
    SoundIsOk(v);
    EndsAreEntries(f);
    forall l, g | level > 0 && 0 <= l <= level && g in v[l] ensures RangesApart(g, f) {
      assert LevelSound(v[l], l == 0);
      ChosenLevelIsClear(v, level, f.smallest.user, f.largest.user, limit, l, g, g.entries[0]);
    }
  }

  ghost function WithFile(files: seq<File>, f: File): seq<File> {
    if files == [] || OrderedBefore(files[|files| - 1], f) then files + [f]
    else WithFile(files[..|files| - 1], f) + [files[|files| - 1]]
  }

  lemma {:induction false} WithFileHas(files: seq<File>, f: File, g: File)
    ensures g in WithFile(files, f) <==> g in files || g == f
  {
    hide OrderedBefore;
    if files != [] && !OrderedBefore(files[|files| - 1], f) {
      WithFileHas(files[..|files| - 1], f, g);
      assert files == files[..|files| - 1] + [files[|files| - 1]];
    }
  }

  lemma OrderedSnoc(files: seq<File>, f: File)
    requires BySmallest(files) && (files == [] || OrderedBefore(files[|files| - 1], f))
    ensures BySmallest(files + [f])
  {
    forall i | 0 <= i < |files| ensures OrderedBefore(files[i], f) {
      if i < |files| - 1 { assert OrderedBefore(files[i], files[|files| - 1]); }
    }
  }

  lemma {:induction false} WithFileIsOrdered(files: seq<File>, f: File)
    requires BySmallest(files) && forall g :: g in files ==> g.number != f.number
    ensures BySmallest(WithFile(files, f))
  {
    if files == [] || OrderedBefore(files[|files| - 1], f) {
      OrderedSnoc(files, f);
    } else {
      var init, last := files[..|files| - 1], files[|files| - 1];
      assert last in files && forall g :: g in init ==> g in files;
      assert OrderedBefore(f, last);
      hide OrderedBefore;
      WithFileIsOrdered(init, f);
      LastPlaced(init, f, last);
      OrderedSnoc(WithFile(init, f), last);
    }
  }

  lemma LastPlaced(init: seq<File>, f: File, last: File)
    requires BySmallest(init + [last]) && OrderedBefore(f, last)
    ensures WithFile(init, f) != [] && OrderedBefore(WithFile(init, f)[|WithFile(init, f)| - 1], last)
  {
    hide OrderedBefore;
    var r, all := WithFile(init, f), init + [last];
    WithFileHas(init, f, f);
    var x := r[|r| - 1];
    WithFileHas(init, f, x);
    if x != f {
      var i :| 0 <= i < |init| && init[i] == x;
      assert OrderedBefore(all[i], all[|init|]);
    }
  }

  /** A file with a new number can be placed on any level. */
  lemma FileCanBePlaced(v: Version, level: nat, f: File) returns (v2: Version)
    requires Sound(v) && level < NUM_LEVELS && Fresh(v, f.number)
    ensures Placed(v, v2, level, f)
  {
    v2 := v[level := WithFile(v[level], f)];
    forall l | 0 <= l < NUM_LEVELS ensures BySmallest(v2[l]) && forall g :: g in v2[l] <==> g in v[l] || (l == level && g == f) {
      assert LevelSound(v[l], l == 0);
      hide Sound, OrderedBefore, WithFile, FileOk;
      if l == level {
        WithFileIsOrdered(v[level], f);
        forall g ensures g in v2[l] <==> g in v[l] || g == f { WithFileHas(v[l], f, g); }
      }
    }
  }

  lemma PlacedIsSound(v: Version, v2: Version, level: nat, f: File)
    requires Sound(v) && Placed(v, v2, level, f) && FileOk(f) && Clear(v, level, f) && Fresh(v, f.number)
    ensures Sound(v2)
  {
    forall l | 0 <= l < NUM_LEVELS ensures LevelSound(v2[l], l == 0) {
      assert LevelSound(v[l], l == 0);
      forall g, h | g in v2[l] && h in v2[l] && g != h && l != 0 ensures Disjoint(g, h) {
        if g == f { assert RangesApart(h, f); } else if h == f { assert RangesApart(g, f); }
      }
    }
    forall l, m, g, h | 0 <= l < |v2| && 0 <= m < |v2| && g in v2[l] && h in v2[m] && g.number == h.number
      ensures g == h && l == m
    {
    }
  }

  lemma PlacedAt(v: Version, v2: Version, level: nat, f: File, p: Place, e: Entry)
    requires |v| == NUM_LEVELS && Placed(v, v2, level, f) && Fresh(v, f.number) && p != Mem && p != Imm
    ensures e in VersionAt(v2, p) <==> e in VersionAt(v, p) || (p == FilePlace(level, f) && e in f.entries)
  {
    match p
    case Zero(n) =>
      if e in VersionAt(v2, p) { var g :| g in v2[0] && g.number == n && e in g.entries; }
      if e in VersionAt(v, p) { var g :| g in v[0] && g.number == n && e in g.entries; assert g in v2[0]; }
      if p == FilePlace(level, f) { assert f in v2[level]; }
    case Level(l) =>
      if 1 <= l < NUM_LEVELS {
        if e in VersionAt(v2, p) { var g :| g in v2[l] && e in g.entries; }
        if e in VersionAt(v, p) { var g :| g in v[l] && e in g.entries; assert g in v2[l]; }
        if p == FilePlace(level, f) { assert f in v2[level]; }
      }
  }

  /** Nothing in the version that is searched before the new file's place shares a user key with it. */
  lemma NothingSharedAbove(v: Version, level: nat, f: File, p: Place, x: Entry, y: Entry)
    requires Sound(v) && level < NUM_LEVELS && FileOk(f) && Clear(v, level, f) && Fresh(v, f.number)
    requires x in VersionAt(v, p) && y in f.entries && Above(p, FilePlace(level, f))
    ensures x.k.user != y.k.user
  {
    EntryInRange(f, y);
    match p
    case Zero(n) =>
      var g :| g in v[0] && g.number == n && x in g.entries;
      assert LevelSound(v[0], true);
      EntryInRange(g, x);
      if level > 0 { assert RangesApart(g, f); }
    case Level(l) =>
      var g :| g in v[l] && x in g.entries;
      assert LevelSound(v[l], false);
      EntryInRange(g, x);
      assert RangesApart(g, f);
  }

  /** A flush: the immutable memtable becomes one file at the chosen level. */
  lemma FlushKeepsOrder(w: View, v2: Version, level: nat, f: File)
    requires Sound(w.v) && LayerOrder(w) && FileOk(f) && FileEntries(f) == w.imm
    requires Placed(w.v, v2, level, f) && Clear(w.v, level, f) && Fresh(w.v, f.number)
    ensures LayerOrder(View(w.mem, {}, v2)) && All(View(w.mem, {}, v2)) == All(w)
  {
    var w' := View(w.mem, {}, v2);
    forall e ensures e in All(w') <==> e in All(w) { FlushEntry(w, v2, level, f, e); }
    forall p, q | Above(p, q) ensures Newer(At(w', p), At(w', q)) {
      forall x, y | x in At(w', p) && y in At(w', q) && x.k.user == y.k.user ensures x.k.sn > y.k.sn {
        FlushPair(w, v2, level, f, p, q, x, y);
      }
    }
  }

  lemma FlushEntry(w: View, v2: Version, level: nat, f: File, e: Entry)
    requires |w.v| == NUM_LEVELS && FileEntries(f) == w.imm && Placed(w.v, v2, level, f) && Fresh(w.v, f.number)
    ensures e in All(View(w.mem, {}, v2)) <==> e in All(w)
  {
    var w' := View(w.mem, {}, v2);
    PlaceOf(w, e);
    PlaceOf(w', e);
    if p :| e in At(w', p) && p != Mem && p != Imm { PlacedAt(w.v, v2, level, f, p, e); }
    if p :| e in At(w, p) && p != Mem && p != Imm { PlacedAt(w.v, v2, level, f, p, e); assert e in At(w', p); }
    if e in w.imm { assert e in f.entries; PlacedAt(w.v, v2, level, f, FilePlace(level, f), e); assert e in At(w', FilePlace(level, f)); }
    if e in w.mem { assert e in At(w', Mem); }
  }

  lemma FlushPair(w: View, v2: Version, level: nat, f: File, p: Place, q: Place, x: Entry, y: Entry)
    requires Sound(w.v) && LayerOrder(w) && FileOk(f) && FileEntries(f) == w.imm
    requires Placed(w.v, v2, level, f) && Clear(w.v, level, f) && Fresh(w.v, f.number)
    requires Above(p, q) && x in At(View(w.mem, {}, v2), p) && y in At(View(w.mem, {}, v2), q) && x.k.user == y.k.user
    ensures x.k.sn > y.k.sn
  {
    hide Sound, Placed, Clear, Fresh, VersionAt, LayerOrder, FileOk;
    assert |w.v| == NUM_LEVELS && |v2| == NUM_LEVELS && level < NUM_LEVELS by { hide *; PlacedSizes(w.v, v2, level, f); }
    PlacedAt(w.v, v2, level, f, q, y);
    if p != Mem { PlacedAt(w.v, v2, level, f, p, x); }
    if y in VersionAt(w.v, q) {
      if p == Mem || x in VersionAt(w.v, p) {
        Ordered(w, p, q, x, y);
      } else {
        Ordered(w, Imm, q, x, y);
      }
    } else if p == Mem {
      Ordered(w, Mem, Imm, x, y);
    } else {
      NothingSharedAbove(w.v, level, f, p, x, y);
    }
  }

  lemma PlacedSizes(v: Version, v2: Version, level: nat, f: File)
    requires Placed(v, v2, level, f)
    ensures |v| == NUM_LEVELS && |v2| == NUM_LEVELS && level < NUM_LEVELS
  {
  }

  lemma Ordered(w: View, p: Place, q: Place, x: Entry, y: Entry)
    requires |w.v| == NUM_LEVELS && LayerOrder(w) && Above(p, q) && x in At(w, p) && y in At(w, q) && x.k.user == y.k.user
    ensures x.k.sn > y.k.sn
  {
    assert Newer(At(w, p), At(w, q));
  }

  /** v2 is v after the inputs left `level` and the next one and the outputs joined the next one. */
  ghost predicate Compacted(v: Version, v2: Version, level: nat, in0: seq<File>, in1: seq<File>, outs: seq<File>) {
    && |v| == |v2| == NUM_LEVELS && level + 1 < NUM_LEVELS
    && (forall l :: 0 <= l < NUM_LEVELS ==> BySmallest(v2[l]))
    && forall l, g | 0 <= l < NUM_LEVELS ::
      g in v2[l] <==> (g in v[l] && Stays(g, l, level, in0, in1)) || (l == level + 1 && g in outs)
  }

  predicate Stays(g: File, l: nat, level: nat, in0: seq<File>, in1: seq<File>) {
    if l == level then g !in in0 else if l == level + 1 then g !in in1 else true
  }

  /** The outputs are sorted runs of input entries, apart from each other, under numbers no other file has. */
  ghost predicate OutputsOk(v: Version, level: nat, in0: seq<File>, in1: seq<File>, outs: seq<File>) {
    && (forall o :: o in outs ==> FileOk(o) && FileEntries(o) <= LevelEntries(in0 + in1))
    && (forall o, q | o in outs && q in outs :: o == q || (Disjoint(o, q) && o.number != q.number))
    && forall l, g, o | 0 <= l < |v| && g in v[l] && Stays(g, l, level, in0, in1) && o in outs :: o.number != g.number
  }

  lemma OutputIsApart(v: Version, level: nat, in0: seq<File>, in1: seq<File>, outs: seq<File>, f: File, o: File)
    requires Sound(v) && level + 1 < NUM_LEVELS && Apart(v[level + 1], in1, in0 + in1) && OutputsOk(v, level, in0, in1, outs)
    requires f in v[level + 1] && f !in in1 && o in outs
    ensures Disjoint(f, o)
  {
    var first, last := o.entries[0], o.entries[|o.entries| - 1];
    assert first in FileEntries(o) && last in FileEntries(o);
    var g :| g in in0 + in1 && first in g.entries;
    var h :| h in in0 + in1 && last in h.entries;
  }

  lemma CompactedIsSound(v: Version, v2: Version, level: nat, in0: seq<File>, in1: seq<File>, outs: seq<File>)
    requires Sound(v) && Compacted(v, v2, level, in0, in1, outs) && OutputsOk(v, level, in0, in1, outs)
    requires Apart(v[level + 1], in1, in0 + in1)
    ensures Sound(v2)
  {
    hide BySmallest, FileOk, Apart, NumbersUnique, LevelSound;
    forall l | 0 <= l < NUM_LEVELS ensures LevelSound(v2[l], l == 0) {
      CompactedLevelIsSound(v, v2, level, in0, in1, outs, l);
    }
    CompactedNumbers(v, v2, level, in0, in1, outs);
  }

  lemma CompactedLevelIsSound(v: Version, v2: Version, level: nat, in0: seq<File>, in1: seq<File>, outs: seq<File>, l: nat)
    requires Sound(v) && Compacted(v, v2, level, in0, in1, outs) && OutputsOk(v, level, in0, in1, outs)
    requires Apart(v[level + 1], in1, in0 + in1) && l < NUM_LEVELS
    ensures LevelSound(v2[l], l == 0)
  {
    hide BySmallest, FileOk, Apart;
    assert LevelSound(v[l], l == 0);
    forall g, h | g in v2[l] && h in v2[l] && g != h && l != 0 ensures Disjoint(g, h) {
      if l == level + 1 {
        if g in outs && !(g in v[l] && g !in in1) && !(h in outs) { OutputIsApart(v, level, in0, in1, outs, h, g); }
        if h in outs && !(h in v[l] && h !in in1) && !(g in outs) { OutputIsApart(v, level, in0, in1, outs, g, h); }
      }
    }
  }

  lemma CompactedNumbers(v: Version, v2: Version, level: nat, in0: seq<File>, in1: seq<File>, outs: seq<File>)
    requires Sound(v) && Compacted(v, v2, level, in0, in1, outs) && OutputsOk(v, level, in0, in1, outs)
    ensures NumbersUnique(v2)
  {
    hide BySmallest, FileOk, LevelSound, Disjoint, FileEntries, LevelEntries;
    forall l, m, g, h | 0 <= l < |v2| && 0 <= m < |v2| && g in v2[l] && h in v2[m] && g.number == h.number
      ensures g == h && l == m
    {
      assert (g in v[l] && Stays(g, l, level, in0, in1)) || (l == level + 1 && g in outs);
      assert (h in v[m] && Stays(h, m, level, in0, in1)) || (m == level + 1 && h in outs);
    }
  }

  /** Where an entry of the compacted version comes from: a file that stayed, or the inputs. */
  lemma CameFrom(v: Version, v2: Version, level: nat, in0: seq<File>, in1: seq<File>, outs: seq<File>, p: Place, e: Entry)
      returns (l: nat, f: File)
    requires Compacted(v, v2, level, in0, in1, outs) && OutputsOk(v, level, in0, in1, outs)
    requires e in VersionAt(v2, p)
    ensures l < NUM_LEVELS && f in v2[l] && e in f.entries && FilePlace(l, f) == p
    ensures (f in v[l] && Stays(f, l, level, in0, in1)) || (l == level + 1 && f in outs && e in LevelEntries(in0 + in1))
  {
    match p
    case Zero(n) => l := 0; f :| f in v2[0] && f.number == n && e in f.entries;
    case Level(m) => l := m; f :| f in v2[m] && e in f.entries;
    if f in outs { assert e in FileEntries(f); }
  }

  /** The entries a compaction does not read. */
  ghost function Rest(w: View, level: nat, in0: seq<File>, in1: seq<File>): set<Entry> {
    w.mem + w.imm + set l, f, e | 0 <= l < |w.v| && f in w.v[l] && Stays(f, l, level, in0, in1) && e in f.entries :: e
  }

  /** e is at place p of the view and not in a file the compaction reads. */
  ghost predicate StaysAt(w: View, p: Place, level: nat, in0: seq<File>, in1: seq<File>, e: Entry)
  {
    match p
    case Mem => e in w.mem
    case Imm => e in w.imm
    case _ => exists l: nat, f ::
      l < |w.v| && l < NUM_LEVELS && f in w.v[l] && Stays(f, l, level, in0, in1) && e in f.entries && p == FilePlace(l, f)
  }

  lemma StaysAtIsAt(w: View, p: Place, level: nat, in0: seq<File>, in1: seq<File>, e: Entry)
    requires |w.v| == NUM_LEVELS && StaysAt(w, p, level, in0, in1, e)
    ensures e in At(w, p)
  {
    if p != Mem && p != Imm {
      var l: nat, f :| l < |w.v| && l < NUM_LEVELS && f in w.v[l] && Stays(f, l, level, in0, in1) && e in f.entries && p == FilePlace(l, f);
      InFilePlace(w, l, f, e);
    }
  }

  /** The file and the place an input entry is read from. */
  lemma InputPlace(w: View, level: nat, in0: seq<File>, in1: seq<File>, y: Entry) returns (g: File)
    requires |w.v| == NUM_LEVELS && level + 1 < NUM_LEVELS && Among(in0, w.v[level]) && Among(in1, w.v[level + 1])
    requires y in LevelEntries(in0 + in1)
    ensures y in g.entries && (g in in0 || g in in1)
    ensures g in in0 ==> y in At(w, FilePlace(level, g))
    ensures g in in1 ==> y in At(w, Level(level + 1))
  {
    g :| g in in0 + in1 && y in g.entries;
    if g in in0 { InFilePlace(w, level, g, y); }
    if g in in1 { InFilePlace(w, level + 1, g, y); }
  }

  /** Data that stays and is searched before the output level is newer than the inputs it shares user keys with. */
  lemma StaysNewer(w: View, level: nat, in0: seq<File>, in1: seq<File>, p: Place, x: Entry, y: Entry)
    requires |w.v| == NUM_LEVELS && LayerOrder(w) && level + 1 < NUM_LEVELS
    requires Among(in0, w.v[level]) && Among(in1, w.v[level + 1]) && OlderChosen(w.v[level], in0)
    requires Above(p, Level(level + 1)) && StaysAt(w, p, level, in0, in1, x)
    requires y in LevelEntries(in0 + in1) && x.k.user == y.k.user
    ensures x.k.sn > y.k.sn
  {
    hide LayerOrder, Among, OlderChosen, LevelEntries, StaysAt, At;
    StaysAtIsAt(w, p, level, in0, in1, x);
    var g := InputPlace(w, level, in0, in1, y);
    if g in in1 {
      Ordered(w, p, Level(level + 1), x, y);
    } else if Above(p, FilePlace(level, g)) {
      Ordered(w, p, FilePlace(level, g), x, y);
    } else {
      SameLevelNewer(w, level, in0, in1, p, g, x, y);
    }
  }

  lemma SameLevelNewer(w: View, level: nat, in0: seq<File>, in1: seq<File>, p: Place, g: File, x: Entry, y: Entry)
    requires |w.v| == NUM_LEVELS && level + 1 < NUM_LEVELS && OlderChosen(w.v[level], in0)
    requires Above(p, Level(level + 1)) && !Above(p, FilePlace(level, g)) && StaysAt(w, p, level, in0, in1, x)
    requires g in in0 && y in g.entries && x.k.user == y.k.user
    ensures x.k.sn > y.k.sn
  {
    var l: nat, f :| l < |w.v| && l < NUM_LEVELS && f in w.v[l] && Stays(f, l, level, in0, in1) && x in f.entries && p == FilePlace(l, f);
    assert l == level;
  }

  /** Inputs are newer than anything below the output level. */
  lemma InputNewer(w: View, level: nat, in0: seq<File>, in1: seq<File>, q: Place, x: Entry, y: Entry)
    requires |w.v| == NUM_LEVELS && LayerOrder(w) && level + 1 < NUM_LEVELS
    requires Among(in0, w.v[level]) && Among(in1, w.v[level + 1])
    requires x in LevelEntries(in0 + in1) && Above(Level(level + 1), q) && y in At(w, q) && x.k.user == y.k.user
    ensures x.k.sn > y.k.sn
  {
    hide LayerOrder, Among, LevelEntries, At;
    var g := InputPlace(w, level, in0, in1, x);
    if g in in1 {
      Ordered(w, Level(level + 1), q, x, y);
    } else {
      Ordered(w, FilePlace(level, g), q, x, y);
    }
  }

  lemma WhereAfter(w: View, v2: Version, level: nat, in0: seq<File>, in1: seq<File>, outs: seq<File>, p: Place, e: Entry)
    requires |w.v| == NUM_LEVELS && Compacted(w.v, v2, level, in0, in1, outs) && OutputsOk(w.v, level, in0, in1, outs)
    requires e in At(w.(v := v2), p)
    ensures StaysAt(w, p, level, in0, in1, e) || (p == Level(level + 1) && e in LevelEntries(in0 + in1))
  {
    if p != Mem && p != Imm {
      var l, f := CameFrom(w.v, v2, level, in0, in1, outs, p, e);
    }
  }

  /** A compaction keeps the layer order. */
  lemma CompactionKeepsOrder(w: View, v2: Version, level: nat, in0: seq<File>, in1: seq<File>, outs: seq<File>)
    requires |w.v| == |v2| == NUM_LEVELS && LayerOrder(w) && level + 1 < NUM_LEVELS && Closed(w.v, level, in0, in1)
    requires Compacted(w.v, v2, level, in0, in1, outs) && OutputsOk(w.v, level, in0, in1, outs)
    ensures LayerOrder(w.(v := v2))
  {
    hide At, Closed, OlderChosen, Compacted, OutputsOk;
    forall p, q | Above(p, q) ensures Newer(At(w.(v := v2), p), At(w.(v := v2), q)) {
      forall x, y | x in At(w.(v := v2), p) && y in At(w.(v := v2), q) && x.k.user == y.k.user ensures x.k.sn > y.k.sn {
        ClosedParts(w.v, level, in0, in1);
        CompactionPair(w, v2, level, in0, in1, outs, p, q, x, y);
      }
    }
  }

  lemma ClosedParts(v: Version, level: nat, in0: seq<File>, in1: seq<File>)
    requires |v| == NUM_LEVELS && level + 1 < NUM_LEVELS && Closed(v, level, in0, in1)
    ensures Among(in0, v[level]) && Among(in1, v[level + 1]) && OlderChosen(v[level], in0)
  {
  }

  lemma CompactionPair(w: View, v2: Version, level: nat, in0: seq<File>, in1: seq<File>, outs: seq<File>,
                       p: Place, q: Place, x: Entry, y: Entry)
    requires |w.v| == |v2| == NUM_LEVELS && LayerOrder(w) && level + 1 < NUM_LEVELS
    requires Among(in0, w.v[level]) && Among(in1, w.v[level + 1]) && OlderChosen(w.v[level], in0)
    requires Compacted(w.v, v2, level, in0, in1, outs) && OutputsOk(w.v, level, in0, in1, outs)
    requires Above(p, q) && x in At(w.(v := v2), p) && y in At(w.(v := v2), q) && x.k.user == y.k.user
    ensures x.k.sn > y.k.sn
  {
    hide *;
    WhereAfter(w, v2, level, in0, in1, outs, p, x);
    WhereAfter(w, v2, level, in0, in1, outs, q, y);
    if StaysAt(w, p, level, in0, in1, x) {
      if StaysAt(w, q, level, in0, in1, y) {
        StaysAtIsAt(w, p, level, in0, in1, x);
        StaysAtIsAt(w, q, level, in0, in1, y);
        Ordered(w, p, q, x, y);
      } else {
        StaysNewer(w, level, in0, in1, p, x, y);
      }
    } else if StaysAt(w, q, level, in0, in1, y) {
      StaysAtIsAt(w, q, level, in0, in1, y);
      InputNewer(w, level, in0, in1, q, x, y);
    } else {
      AboveIsStrict(p);
    }
  }

  lemma AboveIsStrict(p: Place)
    ensures !Above(p, p)
  {
  }

  lemma ContentsBefore(w: View, level: nat, in0: seq<File>, in1: seq<File>, e: Entry)
    requires |w.v| == NUM_LEVELS && level + 1 < NUM_LEVELS && Among(in0, w.v[level]) && Among(in1, w.v[level + 1])
    ensures e in All(w) <==> e in Rest(w, level, in0, in1) || e in LevelEntries(in0 + in1)
  {
    if e in VersionEntries(w.v) {
      var l, f :| 0 <= l < |w.v| && f in w.v[l] && e in f.entries;
      if !Stays(f, l, level, in0, in1) { assert f in in0 + in1; }
    }
    if e in LevelEntries(in0 + in1) {
      var g := InputPlace(w, level, in0, in1, e);
      InFilePlace(w, if g in in0 then level else level + 1, g, e);
    }
  }

  lemma ContentsAfter(w: View, v2: Version, level: nat, in0: seq<File>, in1: seq<File>, outs: seq<File>, e: Entry)
    requires |w.v| == NUM_LEVELS && Compacted(w.v, v2, level, in0, in1, outs)
    ensures e in All(w.(v := v2)) <==> e in Rest(w, level, in0, in1) || e in LevelEntries(outs)
  {
    if e in VersionEntries(v2) {
      var l, f :| 0 <= l < |v2| && f in v2[l] && e in f.entries;
    }
    if e in LevelEntries(outs) {
      var f :| f in outs && e in f.entries;
      assert f in v2[level + 1];
    }
    if e in Rest(w, level, in0, in1) && e !in w.mem && e !in w.imm {
      var l, f :| 0 <= l < |w.v| && f in w.v[l] && Stays(f, l, level, in0, in1) && e in f.entries;
      assert f in v2[l];
    }
  }

  /** Where an entry the compaction does not read is kept. */
  lemma RestPlace(w: View, level: nat, in0: seq<File>, in1: seq<File>, x: Entry) returns (p: Place)
    requires |w.v| == NUM_LEVELS && x in Rest(w, level, in0, in1)
    ensures StaysAt(w, p, level, in0, in1, x)
  {
    if x in w.mem { p := Mem; }
    else if x in w.imm { p := Imm; }
    else {
      var l, f :| 0 <= l < |w.v| && f in w.v[l] && Stays(f, l, level, in0, in1) && x in f.entries;
      p := FilePlace(l, f);
    }
  }

  /** Data that stays is newer than the inputs, or some level below the output level holds its user key. */
  lemma RestNewerOrDeeper(w: View, level: nat, in0: seq<File>, in1: seq<File>, x: Entry, y: Entry)
    requires Sound(w.v) && LayerOrder(w) && level + 1 < NUM_LEVELS && Closed(w.v, level, in0, in1)
    requires NoShared(w.v[level + 1], in1, in1)
    requires x in Rest(w, level, in0, in1) && y in LevelEntries(in0 + in1) && x.k.user == y.k.user
    ensures x.k.sn > y.k.sn || !Deepest(w.v, level, y.k.user)
  {
    hide LayerOrder, OlderChosen, Apart, Rest, Deepest;
    var p := RestPlace(w, level, in0, in1, x);
    if Above(p, Level(level + 1)) {
      StaysNewer(w, level, in0, in1, p, x, y);
    } else {
      RestBelow(w, level, in0, in1, p, x, y);
    }
  }

  lemma RestBelow(w: View, level: nat, in0: seq<File>, in1: seq<File>, p: Place, x: Entry, y: Entry)
    requires Sound(w.v) && level + 1 < NUM_LEVELS && NoShared(w.v[level + 1], in1, in0) && NoShared(w.v[level + 1], in1, in1)
    requires StaysAt(w, p, level, in0, in1, x) && !Above(p, Level(level + 1))
    requires y in LevelEntries(in0 + in1) && x.k.user == y.k.user
    ensures !Deepest(w.v, level, y.k.user)
  {
    hide LevelSound, NumbersUnique, NoShared, Deepest;
    var l: nat, f :| l < |w.v| && l < NUM_LEVELS && f in w.v[l] && Stays(f, l, level, in0, in1) && x in f.entries && p == FilePlace(l, f);
    if l == level + 1 {
      LeftOutSharesNothing(w.v[level + 1], in0, in1, f, x, y);
    } else {
      DeeperHolds(w.v, level, l, f, x);
    }
  }

  lemma LeftOutSharesNothing(files: seq<File>, in0: seq<File>, in1: seq<File>, f: File, x: Entry, y: Entry)
    requires NoShared(files, in1, in0) && NoShared(files, in1, in1)
    requires f in files && f !in in1 && x in f.entries && y in LevelEntries(in0 + in1)
    ensures x.k.user != y.k.user
  {
    var g :| g in in0 + in1 && y in g.entries;
  }

  lemma DeeperHolds(v: Version, level: nat, l: nat, f: File, x: Entry)
    requires Sound(v) && level + 2 <= l < NUM_LEVELS && f in v[l] && x in f.entries
    ensures !Deepest(v, level, x.k.user)
  {
    assert LevelSound(v[l], false);
    EntryInRange(f, x);
    assert !NoneHolds(v[l], x.k.user);
  }

  /** The merged input and what the loop keeps of it, cut into output files. */
  ghost predicate Merged(v: Version, level: nat, in0: seq<File>, in1: seq<File>, input: seq<Entry>, snapshot: nat, outs: seq<File>)
    requires |v| == NUM_LEVELS
  {
    && Sorted(input) && Entries(input) == LevelEntries(in0 + in1)
    && LevelEntries(outs) == Entries(Kept(input, |input|, snapshot, v, level))
  }

  /** No reader at or above the oldest snapshot notices a compaction whose inputs are closed on both levels. */
  lemma CompactionKeepsReads(w: View, v2: Version, level: nat, in0: seq<File>, in1: seq<File>, outs: seq<File>,
                             input: seq<Entry>, snapshot: nat)
    requires Sound(w.v) && LayerOrder(w) && level + 1 < NUM_LEVELS && Closed(w.v, level, in0, in1) && Distinct(All(w))
    requires NoShared(w.v[level + 1], in1, in1)
    requires Compacted(w.v, v2, level, in0, in1, outs) && Merged(w.v, level, in0, in1, input, snapshot, outs)
    ensures SameReads(All(w), All(w.(v := v2)), snapshot) && All(w.(v := v2)) <= All(w)
  {
    var rest := Rest(w, level, in0, in1);
    ContentsAreMerged(w, v2, level, in0, in1, outs, input, snapshot);
    hide *;
    CompactionIsSafe(w, level, in0, in1, input);
    AfterIsPartOfBefore(rest, input, snapshot, w.v, level);
    ClosedInputsAreSafe(rest, input, snapshot, w.v, level);
    CompactionPreservesReads(rest, input, snapshot, w.v, level);
  }

  lemma ContentsAreMerged(w: View, v2: Version, level: nat, in0: seq<File>, in1: seq<File>, outs: seq<File>,
                          input: seq<Entry>, snapshot: nat)
    requires |w.v| == NUM_LEVELS && level + 1 < NUM_LEVELS && Closed(w.v, level, in0, in1)
    requires Compacted(w.v, v2, level, in0, in1, outs) && Merged(w.v, level, in0, in1, input, snapshot, outs)
    ensures All(w) == Before(Rest(w, level, in0, in1), input) && Sorted(input)
    ensures All(w.(v := v2)) == After(Rest(w, level, in0, in1), input, snapshot, w.v, level)
  {
    hide Compacted, Rest, All, OlderChosen, NoShared, Apart, Sorted, LevelEntries, Kept, Entries;
    forall e ensures e in All(w) <==> e in Before(Rest(w, level, in0, in1), input) {
      ContentsBefore(w, level, in0, in1, e);
    }
    forall e ensures e in All(w.(v := v2)) <==> e in After(Rest(w, level, in0, in1), input, snapshot, w.v, level) {
      ContentsAfter(w, v2, level, in0, in1, outs, e);
    }
  }

  lemma CompactionIsSafe(w: View, level: nat, in0: seq<File>, in1: seq<File>, input: seq<Entry>)
    requires Sound(w.v) && LayerOrder(w) && level + 1 < NUM_LEVELS && Closed(w.v, level, in0, in1)
    requires NoShared(w.v[level + 1], in1, in1) && Entries(input) == LevelEntries(in0 + in1)
    ensures |w.v| == NUM_LEVELS && NewerOrDeeper(Rest(w, level, in0, in1), input, w.v, level)
  {
    hide LayerOrder, Closed, NoShared, LevelEntries, Rest, Deepest;
    forall x, y | x in Rest(w, level, in0, in1) && y in input && x.k.user == y.k.user
      ensures x.k.sn > y.k.sn || !Deepest(w.v, level, y.k.user)
    {
      assert y in Entries(input);
      RestNewerOrDeeper(w, level, in0, in1, x, y);
    }
  }
}
