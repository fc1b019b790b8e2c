/** Table files, the levels that hold them, and reads through them (version_set.cc). */
module Versions {
  import opened Bytestrings
  import opened Format

  const NUM_LEVELS: nat := 7
  const MAX_MEM_COMPACT_LEVEL: nat := 2

  /** A table file: its metadata and the sorted run it stores. */
  datatype File = File(number: nat, size: nat, smallest: IKey, largest: IKey, entries: seq<Entry>)

  ghost predicate FileOk(f: File) {
    && |f.entries| > 0 && Sorted(f.entries)
    && f.smallest == f.entries[0].k && f.largest == f.entries[|f.entries| - 1].k
    && forall e :: e in f.entries ==> e.k.sn <= MAX_SEQUENCE
  }

  /** Files of a level above zero: sorted and disjoint. */
  ghost predicate LevelOk(files: seq<File>) {
    && (forall f :: f in files ==> FileOk(f))
    && forall i, j :: 0 <= i < j < |files| ==> Less(files[i].largest, files[j].smallest)
  }

  /** Files of level zero: they may overlap, but their numbers differ. */
  ghost predicate LevelZeroOk(files: seq<File>) {
    && (forall f :: f in files ==> FileOk(f))
    && forall i, j :: 0 <= i < j < |files| ==> files[i].number != files[j].number
  }

  type Version = seq<seq<File>>

  ghost predicate VersionOk(v: Version) {
    |v| == NUM_LEVELS && LevelZeroOk(v[0]) && forall level :: 1 <= level < NUM_LEVELS ==> LevelOk(v[level])
  }

  function FileEntries(f: File): set<Entry> {
    Entries(f.entries)
  }

  function LevelEntries(files: seq<File>): set<Entry> {
    set f, e | f in files && e in f.entries :: e
  }

  lemma EntryInRange(f: File, e: Entry)
    requires FileOk(f) && e in f.entries
    ensures AtMost(f.smallest, e.k) && AtMost(e.k, f.largest)
    ensures f.smallest.user <= e.k.user <= f.largest.user
  {
    var i :| 0 <= i < |f.entries| && f.entries[i] == e;
    assert i > 0 ==> Less(f.entries[0].k, f.entries[i].k);
    assert i < |f.entries| - 1 ==> Less(f.entries[i].k, f.entries[|f.entries| - 1].k);
  }

  lemma EndsAreEntries(f: File)
    requires FileOk(f)
    ensures exists e :: e in f.entries && e.k == f.smallest
    ensures exists e :: e in f.entries && e.k == f.largest
    ensures AtMost(f.smallest, f.largest) && f.smallest.user <= f.largest.user
  {
    assert f.entries[0] in f.entries && f.entries[|f.entries| - 1] in f.entries;
    EntryInRange(f, f.entries[0]);
  }

  lemma LargestAscend(files: seq<File>, i: nat, j: nat)
    requires LevelOk(files) && i <= j < |files|
    ensures AtMost(files[i].largest, files[j].largest) && AtMost(files[i].smallest, files[j].smallest)
  {
    assert files[i] in files && files[j] in files;
    EndsAreEntries(files[i]);
    EndsAreEntries(files[j]);
  }

  /** The earliest file whose largest key is at or after `key`, by binary search. */
  method FindFile(files: seq<File>, key: IKey) returns (index: nat)
    requires LevelOk(files)
    ensures index <= |files|
    ensures forall i :: 0 <= i < index ==> Less(files[i].largest, key)
    ensures forall i :: index <= i < |files| ==> AtMost(key, files[i].largest)
  {
    var left, right := 0, |files|;
    while left < right
      invariant 0 <= left <= right <= |files|
      invariant forall i :: 0 <= i < left ==> Less(files[i].largest, key)
      invariant forall i :: right <= i < |files| ==> AtMost(key, files[i].largest)
    {
      var mid := (left + right) / 2;
      if Less(files[mid].largest, key) {
        forall i | 0 <= i <= mid ensures Less(files[i].largest, key) { LargestAscend(files, i, mid); }
        left := mid + 1;
      } else {
        forall i | mid <= i < |files| ensures AtMost(key, files[i].largest) { LargestAscend(files, mid, i); }
        right := mid;
      }
    }
    index := right;
  }

  /** AfterFile: the key lies past every user key of f. An absent key lies before all keys. */
  predicate AfterFile(user: Option<UserKey>, f: File) {
    user.Some? && user.value > f.largest.user
  }

  /** BeforeFile: the key lies before every user key of f. An absent key lies after all keys. */
  predicate BeforeFile(user: Option<UserKey>, f: File) {
    user.Some? && user.value < f.smallest.user
  }

  predicate Overlaps(f: File, lo: Option<UserKey>, hi: Option<UserKey>) {
    !AfterFile(lo, f) && !BeforeFile(hi, f)
  }

  /** The binary search over disjoint files and the scan over all files decide the same overlap. */
  method SomeFileOverlapsRange(disjointSorted: bool, files: seq<File>, lo: Option<UserKey>, hi: Option<UserKey>)
      returns (overlap: bool)
    requires disjointSorted ==> LevelOk(files)
    ensures overlap <==> exists f :: f in files && Overlaps(f, lo, hi)
  {
    if !disjointSorted {
      for i := 0 to |files|
        invariant forall j :: 0 <= j < i ==> !Overlaps(files[j], lo, hi)
      {
        if AfterFile(lo, files[i]) || BeforeFile(hi, files[i]) {
        } else {
          assert files[i] in files;
          return true;
        }
      }
      return false;
    }
    var index := 0;
    if lo.Some? {
      index := FindFile(files, IKey(lo.value, MAX_SEQUENCE, Value));
      forall i | 0 <= i < |files| ensures AfterFile(lo, files[i]) <==> i < index {
        assert files[i] in files;
        EndsAreEntries(files[i]);
      }
    }
    if index >= |files| {
      return false;
    }
    forall i | index <= i < |files| ensures BeforeFile(hi, files[index]) ==> BeforeFile(hi, files[i]) {
      LargestAscend(files, index, i);
    }
    overlap := !BeforeFile(hi, files[index]);
    assert files[index] in files;
  }

  /** In a disjoint sorted level, entries in different files are ordered as the files are. */
  lemma AcrossFiles(files: seq<File>, i: nat, j: nat, x: Entry, y: Entry)
    requires LevelOk(files) && i < j < |files| && x in files[i].entries && y in files[j].entries
    ensures Less(files[i].largest, y.k) && Less(x.k, y.k)
  {
    assert files[i] in files && files[j] in files;
    EntryInRange(files[i], x);
    EntryInRange(files[j], y);
  }

  /** Entries of the files before the one FindFile picks lie before the target. */
  lemma BeforeIndex(files: seq<File>, index: nat, user: UserKey, snapshot: nat, e: Entry, i: nat)
    requires LevelOk(files) && i < index <= |files| && e in files[i].entries
    requires Less(files[i].largest, LookupKey(user, snapshot))
    ensures !Visible(e, user, snapshot)
  {
    assert files[i] in files;
    EntryInRange(files[i], e);
  }

  /** Searching the one file FindFile picks finds the level's newest visible entry. */
  lemma LevelHit(files: seq<File>, index: nat, user: UserKey, snapshot: nat)
    requires LevelOk(files) && index < |files|
    requires forall i :: 0 <= i < index ==> Less(files[i].largest, LookupKey(user, snapshot))
    requires AtMost(LookupKey(user, snapshot), files[index].largest)
    ensures Newest(LevelEntries(files), user, snapshot, SeekHit(files[index].entries, user, snapshot))
  {
    var f := files[index];
    assert f in files;
    var hit := SeekHit(f.entries, user, snapshot);
    SeekHitIsNewest(f.entries, user, snapshot);
    forall e | e in LevelEntries(files) && Visible(e, user, snapshot)
      ensures hit.Some? && e.k.sn <= hit.value.k.sn
    {
      var g :| g in files && e in g.entries;
      var i :| 0 <= i < |files| && files[i] == g;
      if i < index {
        BeforeIndex(files, index, user, snapshot, e, i);
      } else if i > index {
        var last := f.entries[|f.entries| - 1];
        AcrossFiles(files, index, i, last, e);
        assert Visible(last, user, snapshot);
        assert last in Entries(f.entries);
        AcrossFiles(files, index, i, hit.value, e);
      }
    }
  }

  lemma LevelMiss(files: seq<File>, index: nat, user: UserKey, snapshot: nat)
    requires LevelOk(files) && index <= |files|
    requires forall i :: 0 <= i < index ==> Less(files[i].largest, LookupKey(user, snapshot))
    requires index < |files| ==> user < files[index].smallest.user
    ensures Newest(LevelEntries(files), user, snapshot, None)
  {
    forall e | e in LevelEntries(files) ensures !Visible(e, user, snapshot) {
      var g :| g in files && e in g.entries;
      var i :| 0 <= i < |files| && files[i] == g;
      if i < index {
        BeforeIndex(files, index, user, snapshot, e, i);
      } else {
        LargestAscend(files, index, i);
        EntryInRange(g, e);
      }
    }
  }

  /** The files of one level above zero that Get looks into: none or one. */
  method CandidateAbove(files: seq<File>, user: UserKey, snapshot: nat) returns (picked: seq<File>)
    requires LevelOk(files)
    ensures |picked| <= 1 && forall f :: f in picked ==> f in files
    ensures |picked| == 0 ==> Newest(LevelEntries(files), user, snapshot, None)
    ensures |picked| == 1 ==>
      Newest(LevelEntries(files), user, snapshot, SeekHit(picked[0].entries, user, snapshot))
  {
    var index := FindFile(files, LookupKey(user, snapshot));
    if index >= |files| {
      picked := [];
      LevelMiss(files, index, user, snapshot);
    } else if user < files[index].smallest.user {
      picked := [];
      LevelMiss(files, index, user, snapshot);
    } else {
      picked := [files[index]];
      LevelHit(files, index, user, snapshot);
    }
  }

  ghost predicate NewestFirst(files: seq<File>) {
    forall i, j :: 0 <= i < j < |files| ==> files[i].number >= files[j].number
  }

  method InsertByNumber(sorted: seq<File>, f: File) returns (r: seq<File>)
    requires NewestFirst(sorted)
    ensures multiset(r) == multiset(sorted) + multiset{f} && NewestFirst(r)
  {
    hide NewestFirst;
    var j := 0;
    while j < |sorted| && sorted[j].number > f.number
      invariant 0 <= j <= |sorted| && forall k :: 0 <= k < j ==> sorted[k].number > f.number
    {
      j := j + 1;
    }
    assert sorted == sorted[..j] + sorted[j..];
    r := sorted[..j] + [f] + sorted[j..];
    SpliceKeepsOrder(sorted, j, f);
  }

  lemma SpliceKeepsOrder(sorted: seq<File>, j: nat, f: File)
    requires NewestFirst(sorted) && j <= |sorted|
    requires forall k :: 0 <= k < j ==> sorted[k].number > f.number
    requires j < |sorted| ==> sorted[j].number <= f.number
    ensures NewestFirst(sorted[..j] + [f] + sorted[j..])
  {
    var r := sorted[..j] + [f] + sorted[j..];
    assert forall k :: 0 <= k < |r| ==> r[k] == if k < j then sorted[k] else if k == j then f else sorted[k - 1];
  }

  /** std::sort with NewestFirst. */
  method SortNewestFirst(files: seq<File>) returns (sorted: seq<File>)
    ensures multiset(sorted) == multiset(files) && NewestFirst(sorted)
  {
    sorted := [];
    for i := 0 to |files|
      invariant multiset(sorted) == multiset(files[..i]) && NewestFirst(sorted)
    {
      sorted := InsertByNumber(sorted, files[i]);
      assert files[..i + 1] == files[..i] + [files[i]];
    }
    assert files[..|files|] == files;
  }

  /** The level-0 files whose range holds the user key, newest first. */
  method CandidatesAtZero(files: seq<File>, user: UserKey) returns (picked: seq<File>)
    ensures NewestFirst(picked)
    ensures forall f :: f in picked <==> f in files && f.smallest.user <= user <= f.largest.user
  {
    var tmp: seq<File> := [];
    for i := 0 to |files|
      invariant forall f :: f in tmp <==> f in files[..i] && f.smallest.user <= user <= f.largest.user
    {
      if user >= files[i].smallest.user && user <= files[i].largest.user {
        tmp := tmp + [files[i]];
      }
    }
    picked := SortNewestFirst(tmp);
    assert forall f :: f in picked <==> f in multiset(picked);
    assert forall f :: f in tmp <==> f in multiset(tmp);
  }

  /** Places a version keeps entries in. */
  datatype Place = Mem | Imm | Zero(number: nat) | Level(level: nat)

  /** Place p is searched before place q. */
  predicate Above(p: Place, q: Place) {
    match (p, q)
    case (Mem, Mem) => false
    case (Mem, _) => true
    case (Imm, Zero(_)) => true
    case (Imm, Level(_)) => true
    case (Zero(m), Zero(n)) => m > n
    case (Zero(_), Level(_)) => true
    case (Level(m), Level(n)) => m < n
    case _ => false
  }

  /** The entries a version keeps in place p. */
  ghost function VersionAt(v: Version, p: Place): set<Entry>
    requires |v| == NUM_LEVELS
  {
    match p
    case Zero(n) => set f, e | f in v[0] && f.number == n && e in f.entries :: e
    case Level(l) => if 1 <= l < NUM_LEVELS then LevelEntries(v[l]) else {}
    case _ => {}
  }

  ghost predicate NothingAbove(v: Version, p: Place, user: UserKey, snapshot: nat)
    requires |v| == NUM_LEVELS
  {
    forall q :: Above(q, p) ==> Newest(VersionAt(v, q), user, snapshot, None)
  }

  /** What the search through the files of a version stops at. */
  ghost predicate VersionHit(v: Version, user: UserKey, snapshot: nat, r: Option<Entry>)
    requires |v| == NUM_LEVELS
  {
    match r
    case None => forall p :: Newest(VersionAt(v, p), user, snapshot, None)
    case Some(_) => exists p :: Newest(VersionAt(v, p), user, snapshot, r) && NothingAbove(v, p, user, snapshot)
  }

  lemma ZeroPlaceIsOneFile(v: Version, f: File)
    requires VersionOk(v) && f in v[0]
    ensures VersionAt(v, Zero(f.number)) == FileEntries(f)
  {
    var i :| 0 <= i < |v[0]| && v[0][i] == f;
    forall g | g in v[0] && g.number == f.number ensures g == f {
      var j :| 0 <= j < |v[0]| && v[0][j] == g;
    }
  }

  /** The level-0 part of Version::Get. */
  method GetFromZero(v: Version, user: UserKey, snapshot: nat) returns (r: Option<Entry>)
    requires VersionOk(v)
    ensures r.Some? ==> exists p :: Newest(VersionAt(v, p), user, snapshot, r) && NothingAbove(v, p, user, snapshot)
    ensures r.None? ==> forall n :: Newest(VersionAt(v, Zero(n)), user, snapshot, None)
  {
    var picked := CandidatesAtZero(v[0], user);
    for i := 0 to |picked|
      invariant forall j :: 0 <= j < i ==> Newest(FileEntries(picked[j]), user, snapshot, None)
    {
      var hit := SeekHit(picked[i].entries, user, snapshot);
      assert picked[i] in v[0];
      SeekHitIsNewest(picked[i].entries, user, snapshot);
      if hit.Some? {
        ZeroPlaceIsOneFile(v, picked[i]);
        NewerFilesMiss(v, picked, i, user, snapshot);
        assert NothingAbove(v, Zero(picked[i].number), user, snapshot);
        return hit;
      }
    }
    r := None;
    forall n, e | e in VersionAt(v, Zero(n)) ensures !Visible(e, user, snapshot) {
      var f :| f in v[0] && f.number == n && e in f.entries;
      EntryInRange(f, e);
      if f in picked { var j :| 0 <= j < |picked| && picked[j] == f; assert e in FileEntries(f); }
    }
  }

  lemma NewerFilesMiss(v: Version, picked: seq<File>, i: nat, user: UserKey, snapshot: nat)
    requires VersionOk(v) && i < |picked| && NewestFirst(picked)
    requires forall f :: f in picked <==> f in v[0] && f.smallest.user <= user <= f.largest.user
    requires forall j :: 0 <= j < i ==> Newest(FileEntries(picked[j]), user, snapshot, None)
    ensures NothingAbove(v, Zero(picked[i].number), user, snapshot)
  {
    forall q, e | Above(q, Zero(picked[i].number)) && e in VersionAt(v, q) ensures !Visible(e, user, snapshot) {
      var f :| f in v[0] && f.number == q.number && e in f.entries;
      EntryInRange(f, e);
      if f in picked {
        var j :| 0 <= j < |picked| && picked[j] == f;
        assert e in FileEntries(picked[j]);
      }
    }
  }

  /** Version::Get: level by level, stopping at the first file that has an entry for the user key. */
  method Get(v: Version, user: UserKey, snapshot: nat) returns (r: Option<Entry>)
    requires VersionOk(v)
    ensures VersionHit(v, user, snapshot, r)
  {
    r := GetFromZero(v, user, snapshot);
    if r.Some? {
      return;
    }
    var level := 1;
    while level < NUM_LEVELS
      invariant 1 <= level <= NUM_LEVELS
      invariant forall p :: Above(p, Level(level)) ==> Newest(VersionAt(v, p), user, snapshot, None)
    {
      var picked := CandidateAbove(v[level], user, snapshot);
      assert VersionAt(v, Level(level)) == LevelEntries(v[level]);
      if |picked| == 1 {
        r := SeekHit(picked[0].entries, user, snapshot);
        if r.Some? {
          assert NothingAbove(v, Level(level), user, snapshot);
          return;
        }
      }
      assert forall p :: Above(p, Level(level + 1)) ==> Above(p, Level(level)) || p == Level(level);
      level := level + 1;
    }
    assert forall p :: VersionAt(v, p) == {} || Above(p, Level(NUM_LEVELS));
    r := None;
  }
}
