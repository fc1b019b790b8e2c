/** The layer order every step of the store keeps, and the reads it makes right (db_impl.cc Get, version_set.cc). */
module Views {
  import opened Bytestrings
  import opened Format
  import opened Versions
  import opened Inputs
  import opened CompactionInputs
  import opened Compactions
  import opened Merge

  /** What a reader holds on to: memtable, immutable memtable (empty if none), version. */
  datatype View = View(mem: set<Entry>, imm: set<Entry>, v: Version)

  ghost predicate OrderedBefore(f: File, g: File) {
    Less(f.smallest, g.smallest) || (f.smallest == g.smallest && f.number < g.number)
  }

  /** BySmallestKey order, the one every saved level is in. */
  ghost predicate BySmallest(files: seq<File>) {
    forall i, j :: 0 <= i < j < |files| ==> OrderedBefore(files[i], files[j])
  }

  predicate Disjoint(f: File, g: File) {
    Less(f.largest, g.smallest) || Less(g.largest, f.smallest)
  }

  ghost predicate LevelSound(files: seq<File>, zero: bool) {
    && BySmallest(files) && (forall f :: f in files ==> FileOk(f))
    && (!zero ==> forall f, g :: f in files && g in files && f != g ==> Disjoint(f, g))
  }

  /** A file number names one file, in one level. */
  ghost predicate NumbersUnique(v: Version) {
    forall l, m, f, g | 0 <= l < |v| && 0 <= m < |v| && f in v[l] && g in v[m] && f.number == g.number :: f == g && l == m
  }

  ghost predicate Sound(v: Version) {
    && |v| == NUM_LEVELS && NumbersUnique(v)
    && forall l :: 0 <= l < NUM_LEVELS ==> LevelSound(v[l], l == 0)
  }

  lemma SoundLevel(files: seq<File>)
    requires LevelSound(files, false)
    ensures LevelOk(files)
  {
    forall i, j | 0 <= i < j < |files| ensures Less(files[i].largest, files[j].smallest) {
      var f, g := files[i], files[j];
      assert OrderedBefore(f, g);
      assert f in files && g in files;
      EndsAreEntries(f);
      EndsAreEntries(g);
    }
  }

  lemma SoundIsOk(v: Version)
    requires Sound(v)
    ensures VersionOk(v)
  {
    forall l | 1 <= l < NUM_LEVELS ensures LevelOk(v[l]) { SoundLevel(v[l]); }
    assert LevelSound(v[0], true);
    forall i, j | 0 <= i < j < |v[0]| ensures v[0][i].number != v[0][j].number {
      assert OrderedBefore(v[0][i], v[0][j]);
      assert v[0][i] in v[0] && v[0][j] in v[0];
    }
  }

  ghost function VersionEntries(v: Version): set<Entry> {
    set l, f, e | 0 <= l < |v| && f in v[l] && e in f.entries :: e
  }

  ghost function All(w: View): set<Entry> {
    w.mem + w.imm + VersionEntries(w.v)
  }

  ghost function At(w: View, p: Place): set<Entry>
    requires |w.v| == NUM_LEVELS
  {
    match p
    case Mem => w.mem
    case Imm => w.imm
    case _ => VersionAt(w.v, p)
  }

  ghost predicate Newer(xs: set<Entry>, ys: set<Entry>) {
    forall x, y | x in xs && y in ys && x.k.user == y.k.user :: x.k.sn > y.k.sn
  }

  /** Entries of a place searched earlier are newer than entries of a place searched later, user key by user key. */
  ghost predicate LayerOrder(w: View)
    requires |w.v| == NUM_LEVELS
  {
    forall p, q | Above(p, q) :: Newer(At(w, p), At(w, q))
  }

  lemma PlaceOf(w: View, e: Entry)
    requires |w.v| == NUM_LEVELS
    ensures e in All(w) <==> exists p :: e in At(w, p)
  {
    if e in VersionEntries(w.v) {
      var l, f :| 0 <= l < |w.v| && f in w.v[l] && e in f.entries;
      assert e in At(w, FilePlace(l, f));
    }
    if e in w.mem { assert e in At(w, Mem); }
    if e in w.imm { assert e in At(w, Imm); }
    if p :| e in At(w, p) {
      match p
      case Mem =>
      case Imm =>
      case Zero(n) => var f :| f in w.v[0] && f.number == n && e in f.entries;
      case Level(l) => var f :| f in w.v[l] && e in f.entries;
    }
  }

  function FilePlace(l: nat, f: File): Place {
    if l == 0 then Zero(f.number) else Level(l)
  }

  lemma InFilePlace(w: View, l: nat, f: File, e: Entry)
    requires |w.v| == NUM_LEVELS && l < NUM_LEVELS && f in w.v[l] && e in f.entries
    ensures e in At(w, FilePlace(l, f)) && e in All(w)
  {
  }

  /** DBImpl::Get: memtable, then immutable memtable, then the version; a memtable lookup is a seek in its sorted run. */
  method Get(mem: seq<Entry>, imm: seq<Entry>, v: Version, user: UserKey, snapshot: nat) returns (r: Option<Entry>)
    requires Sorted(mem) && Sorted(imm) && VersionOk(v)
    requires LayerOrder(View(Entries(mem), Entries(imm), v))
    ensures Newest(All(View(Entries(mem), Entries(imm), v)), user, snapshot, r)
  {
    ghost var w := View(Entries(mem), Entries(imm), v);
    SeekHitIsNewest(mem, user, snapshot);
    r := SeekHit(mem, user, snapshot);
    if r.Some? {
      FirstHitIsNewest(w, user, snapshot, Mem, r);
      return;
    }
    SeekHitIsNewest(imm, user, snapshot);
    r := SeekHit(imm, user, snapshot);
    if r.Some? {
      FirstHitIsNewest(w, user, snapshot, Imm, r);
      return;
    }
    r := Versions.Get(v, user, snapshot);
    VersionHitIsNewest(w, user, snapshot, r);
  }

  /** Stopping at the first place that has a visible entry is as good as looking everywhere. */
  lemma FirstHitIsNewest(w: View, user: UserKey, snapshot: nat, p: Place, r: Option<Entry>)
    requires |w.v| == NUM_LEVELS && LayerOrder(w) && r.Some?
    requires Newest(At(w, p), user, snapshot, r)
    requires forall q :: Above(q, p) ==> Newest(At(w, q), user, snapshot, None)
    ensures Newest(All(w), user, snapshot, r)
  {
    PlaceOf(w, r.value);
    forall e | e in All(w) && Visible(e, user, snapshot) ensures e.k.sn <= r.value.k.sn {
      PlaceOf(w, e);
      var q :| e in At(w, q);
      AboveIsTotal(p, q);
      if Above(p, q) { assert Newer(At(w, p), At(w, q)); }
    }
  }

  lemma AboveIsTotal(p: Place, q: Place)
    ensures p == q || Above(p, q) || Above(q, p)
  {
  }

  lemma VersionHitIsNewest(w: View, user: UserKey, snapshot: nat, r: Option<Entry>)
    requires |w.v| == NUM_LEVELS && LayerOrder(w) && VersionHit(w.v, user, snapshot, r)
    requires Newest(w.mem, user, snapshot, None) && Newest(w.imm, user, snapshot, None)
    ensures Newest(All(w), user, snapshot, r)
  {
    if r.Some? {
      var p :| Newest(VersionAt(w.v, p), user, snapshot, r) && NothingAbove(w.v, p, user, snapshot);
      FirstHitIsNewest(w, user, snapshot, p, r);
    } else {
      forall e | e in All(w) ensures !Visible(e, user, snapshot) {
        PlaceOf(w, e);
        var q :| e in At(w, q);
        assert Newest(VersionAt(w.v, q), user, snapshot, None);
      }
    }
  }
}
