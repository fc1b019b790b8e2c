/** The manifest: WriteSnapshot, LogAndApply, and the recovery that undoes them (version_set.cc). */
module VersionSets {
  import opened Bytestrings
  import opened Coding
  import opened VersionEdits
  import opened Builders
  import opened ManyEdits

  const UNPOINTED: seq<Bytes> := [[], [], [], [], [], [], []]

  function Record(e: Edit): Bytes {
    ItemsBytes(Items(e))
  }

  // ---- What a manifest means ----

  datatype Counter = LogNumber | PrevLogNumber | NextFile | LastSequence

  function Get(c: Counter, e: Edit): Option<nat> {
    match c
    case LogNumber => e.logNumber
    case PrevLogNumber => e.prevLogNumber
    case NextFile => e.nextFile
    case LastSequence => e.lastSeq
  }

  /** The last value the edits give to a counter. */
  function Last(c: Counter, edits: seq<Edit>): Option<nat> {
    if edits == [] then None
    else if Get(c, edits[|edits| - 1]).Some? then Get(c, edits[|edits| - 1])
    else Last(c, edits[..|edits| - 1])
  }

  function PointersOf(edits: seq<Edit>): (r: seq<Bytes>)
    ensures |r| == NUM_LEVELS
  {
    if edits == [] then UNPOINTED else PointersAfter(PointersOf(edits[..|edits| - 1]), edits[|edits| - 1].pointers)
  }

  /** The edits of a manifest's records, each decoded into a fresh edit; None if one is corrupt. */
  function DecodeAll(records: seq<Bytes>): (r: Option<seq<Edit>>)
    ensures r.Some? ==> |r.value| == |records|
  {
    if records == [] then Some([])
    else
      var init, last := DecodeAll(records[..|records| - 1]), DecodeLoop(records[|records| - 1], NO_EDIT);
      if init.None? || last.None? then None else Some(init.value + [last.value])
  }

  predicate SameComparator(edits: seq<Edit>, name: Bytes) {
    forall e :: e in edits && e.comparator.Some? ==> e.comparator.value == name
  }

  /** What Recover installs. */
  datatype Recovered = Recovered(v: Levels, pointers: seq<Bytes>, logNumber: nat, prevLogNumber: nat, nextFile: nat, lastSeq: nat)

  function OrZero(n: Option<nat>): nat {
    if n.Some? then n.value else 0
  }

  function RecoverSpec(rank: Rank, name: Bytes, records: seq<Bytes>): Option<Recovered> {
    match DecodeAll(records)
    case None => None
    case Some(edits) =>
      if !SameComparator(edits, name) || Last(NextFile, edits).None? || Last(LogNumber, edits).None? || Last(LastSequence, edits).None?
      then None
      else Some(Recovered(SaveOnce(rank, NO_FILES, edits), PointersOf(edits), OrZero(Last(LogNumber, edits)),
                          OrZero(Last(PrevLogNumber, edits)), OrZero(Last(NextFile, edits)) + 1, OrZero(Last(LastSequence, edits))))
  }

  /** n is the value of the last edit that has one. */
  ghost predicate IsLast(c: Counter, edits: seq<Edit>, n: nat) {
    exists i :: 0 <= i < |edits| && Get(c, edits[i]) == Some(n) && forall j :: i < j < |edits| ==> Get(c, edits[j]) == None
  }

  lemma LastGrows(c: Counter, init: seq<Edit>, e: Edit, n: nat)
    ensures Get(c, e) == Some(n) ==> IsLast(c, init + [e], n)
    ensures Get(c, e) == None && IsLast(c, init, n) ==> IsLast(c, init + [e], n)
  {
    hide Get;
    var all := init + [e];
    if Get(c, e) == Some(n) { assert all[|init|] == e; }
    if Get(c, e) == None && IsLast(c, init, n) {
      var i :| 0 <= i < |init| && Get(c, init[i]) == Some(n) && forall j :: i < j < |init| ==> Get(c, init[j]) == None;
      assert all[i] == init[i];
      forall j | i < j < |all| ensures Get(c, all[j]) == None { if j < |init| { assert all[j] == init[j]; } }
    }
  }

  lemma {:induction false} LastMeans(c: Counter, edits: seq<Edit>)
    ensures Last(c, edits).Some? ==> IsLast(c, edits, Last(c, edits).value)
    ensures Last(c, edits).None? ==> forall i :: 0 <= i < |edits| ==> Get(c, edits[i]) == None
  {
    hide Get, IsLast;
    if edits != [] {
      var init, e := edits[..|edits| - 1], edits[|edits| - 1];
      LastMeans(c, init);
      assert edits == init + [e];
      if Last(c, edits).Some? { LastGrows(c, init, e, Last(c, edits).value); }
    }
  }

  ghost predicate DecodeTo(records: seq<Bytes>, edits: seq<Edit>) {
    |edits| == |records| && forall i :: 0 <= i < |records| ==> DecodeLoop(records[i], NO_EDIT) == Some(edits[i])
  }

  lemma {:induction false} DecodeAllMeans(records: seq<Bytes>, edits: seq<Edit>)
    ensures DecodeAll(records) == Some(edits) <==> DecodeTo(records, edits)
  {
    hide DecodeLoop;
    if records != [] {
      var n := |records| - 1;
      if |edits| == n + 1 {
        DecodeAllMeans(records[..n], edits[..n]);
        assert edits == edits[..n] + [edits[n]];
      }
      if DecodeAll(records) == Some(edits) { DecodeAllMeans(records[..n], DecodeAll(records[..n]).value); }
    }
  }

  /**
   * Recovery succeeds exactly when every record decodes, none names another comparator, and a next file, a log number and
   * a last sequence number are recorded; the last ones recorded count, and the next file number is passed over.
   */
  lemma RecoveryNeeds(rank: Rank, name: Bytes, records: seq<Bytes>, edits: seq<Edit>)
    ensures RecoverSpec(rank, name, records).Some? ==> exists es :: DecodeTo(records, es)
    ensures DecodeTo(records, edits) ==>
      && (RecoverSpec(rank, name, records).Some? <==>
            && (forall i :: 0 <= i < |edits| ==> edits[i].comparator == None || edits[i].comparator == Some(name))
            && (exists i :: 0 <= i < |edits| && edits[i].nextFile.Some?)
            && (exists i :: 0 <= i < |edits| && edits[i].logNumber.Some?)
            && (exists i :: 0 <= i < |edits| && edits[i].lastSeq.Some?))
      && (RecoverSpec(rank, name, records).Some? ==>
            var r := RecoverSpec(rank, name, records).value;
            && IsLast(LogNumber, edits, r.logNumber) && IsLast(LastSequence, edits, r.lastSeq)
            && r.nextFile > 0 && IsLast(NextFile, edits, r.nextFile - 1))
  {
    hide DecodeLoop, SaveOnce, PointersOf, Last, DecodeAll;
    if DecodeAll(records).Some? { DecodeAllMeans(records, DecodeAll(records).value); }
    if DecodeTo(records, edits) {
      DecodeAllMeans(records, edits);
      hide DecodeTo;
      LastMeans(NextFile, edits);
      LastMeans(LogNumber, edits);
      LastMeans(LastSequence, edits);
      SameMeans(edits, name);
    }
  }

  lemma SameMeans(edits: seq<Edit>, name: Bytes)
    ensures SameComparator(edits, name) <==>
            forall i :: 0 <= i < |edits| ==> edits[i].comparator == None || edits[i].comparator == Some(name)
  {
  }

  // ---- WriteSnapshot ----

  function PointerList(cp: seq<Bytes>, n: nat): seq<(nat, Bytes)>
    requires n <= |cp|
  {
    if n == 0 then [] else PointerList(cp, n - 1) + if cp[n - 1] != [] then [(n - 1, cp[n - 1])] else []
  }

  function Tagged(level: nat, fs: seq<Meta>): seq<(nat, Meta)> {
    if fs == [] then [] else Tagged(level, fs[..|fs| - 1]) + [(level, fs[|fs| - 1])]
  }

  function FileList(v: Levels, n: nat): seq<(nat, Meta)>
    requires n <= NUM_LEVELS
  {
    if n == 0 then [] else FileList(v, n - 1) + Tagged(n - 1, v[n - 1])
  }

  function Snapshot(name: Bytes, cp: seq<Bytes>, v: Levels): Edit
    requires |cp| == NUM_LEVELS
  {
    NO_EDIT.(comparator := Some(name), pointers := PointerList(cp, NUM_LEVELS), added := FileList(v, NUM_LEVELS))
  }

  lemma {:induction false} AddedAtConcat(a: seq<(nat, Meta)>, b: seq<(nat, Meta)>, l: nat)
    ensures AddedAt(a + b, l) == AddedAt(a, l) + AddedAt(b, l)
  {
    if b == [] {
      assert a + b == a;
    } else {
      assert (a + b)[..|a + b| - 1] == a + b[..|b| - 1];
      AddedAtConcat(a, b[..|b| - 1], l);
    }
  }

  lemma {:induction false} AddedAtTagged(level: nat, fs: seq<Meta>, l: nat)
    ensures AddedAt(Tagged(level, fs), l) == if l == level then fs else []
  {
    if fs != [] {
      AddedAtTagged(level, fs[..|fs| - 1], l);
      var t := Tagged(level, fs[..|fs| - 1]);
      assert (t + [(level, fs[|fs| - 1])])[..|t|] == t;
      assert fs == fs[..|fs| - 1] + [fs[|fs| - 1]];
    }
  }

  lemma {:induction false} FileListHas(v: Levels, n: nat, l: nat)
    requires n <= NUM_LEVELS && l < NUM_LEVELS
    ensures AddedAt(FileList(v, n), l) == if l < n then v[l] else []
  {
    if n > 0 {
      FileListHas(v, n - 1, l);
      AddedAtConcat(FileList(v, n - 1), Tagged(n - 1, v[n - 1]), l);
      AddedAtTagged(n - 1, v[n - 1], l);
    }
  }

  lemma PointersAppend(cp: seq<Bytes>, ps: seq<(nat, Bytes)>, p: (nat, Bytes))
    requires |cp| == NUM_LEVELS && p.0 < NUM_LEVELS
    ensures PointersAfter(cp, ps + [p]) == PointersAfter(cp, ps)[p.0 := p.1]
  {
    assert (ps + [p])[..|ps|] == ps;
  }

  lemma NoPointerAt(l: nat)
    requires l < NUM_LEVELS
    ensures PointersAfter(UNPOINTED, []) == UNPOINTED && UNPOINTED[l] == []
  {
  }

  lemma {:induction false} PointerListHas(cp: seq<Bytes>, n: nat, l: nat)
    requires n <= |cp| == NUM_LEVELS && l < NUM_LEVELS
    ensures PointersAfter(UNPOINTED, PointerList(cp, n))[l] == if l < n then cp[l] else []
  {
    hide PointersAfter, UNPOINTED;
    NoPointerAt(l);
    if n > 0 {
      PointerListHas(cp, n - 1, l);
      var init := PointerList(cp, n - 1);
      if cp[n - 1] != [] {
        PointersAppend(UNPOINTED, init, (n - 1, cp[n - 1]));
      } else {
        assert PointerList(cp, n) == init;
      }
    }
  }

  /** A manifest that begins with a snapshot stands for the version the snapshot was taken of. */
  lemma SnapshotRestores(rank: Rank, name: Bytes, cp: seq<Bytes>, v: Levels)
    requires |cp| == NUM_LEVELS && LevelsOk(rank, v)
    ensures SaveEach(rank, NO_FILES, [Snapshot(name, cp, v)]) == v && PointersOf([Snapshot(name, cp, v)]) == cp
    ensures NeverReadded(NO_FILES, [Snapshot(name, cp, v)])
    ensures forall l :: 0 <= l < NUM_LEVELS ==> Held(NO_FILES, [Snapshot(name, cp, v)], l) == Numbers(v[l])
  {
    hide Snapshot, PointersAfter, Saved, ApplyAt, AddedAt, NewTo, NeverReadded, Held, Numbers, SaveEach, PointersOf, LevelsOk;
    var e := Snapshot(name, cp, v);
    forall l | 0 <= l < NUM_LEVELS
      ensures Saved(rank, [], ApplyAt(rank, UNTOUCHED, e, l)) == v[l]
      ensures NewTo({}, AddedAt(e.added, l)) && AddedAt(e.added, l) == v[l]
      ensures PointersAfter(UNPOINTED, e.pointers)[l] == cp[l]
    {
      SnapshotLevel(rank, name, cp, v, e, l);
    }
    SavedOne(rank, e, v);
    PointedOne(e, cp);
    NeverReaddedOne(e);
  }

  lemma SavedOne(rank: Rank, e: Edit, v: Levels)
    requires forall l :: 0 <= l < NUM_LEVELS ==> Saved(rank, [], ApplyAt(rank, UNTOUCHED, e, l)) == v[l]
    ensures SaveEach(rank, NO_FILES, [e]) == v
  {
    hide Saved, ApplyAt;
    assert [e][..0] == [];
    assert SaveOne(rank, NO_FILES, e) == v;
  }

  lemma PointedOne(e: Edit, cp: seq<Bytes>)
    requires |cp| == NUM_LEVELS && forall l :: 0 <= l < NUM_LEVELS ==> PointersAfter(UNPOINTED, e.pointers)[l] == cp[l]
    ensures PointersOf([e]) == cp
  {
    hide PointersAfter;
    assert [e][..0] == [];
  }

  lemma NeverReaddedOne(e: Edit)
    requires forall l :: 0 <= l < NUM_LEVELS ==> NewTo({}, AddedAt(e.added, l))
    ensures NeverReadded(NO_FILES, [e])
    ensures forall l :: 0 <= l < NUM_LEVELS ==> Held(NO_FILES, [e], l) == Numbers(AddedAt(e.added, l))
  {
    assert [e][..0] == [];
    assert Numbers([]) == {};
    assert forall l :: 0 <= l < NUM_LEVELS ==> NO_FILES[l] == [];
    assert AddsNew(NO_FILES, [], e);
  }

  lemma SnapshotLevel(rank: Rank, name: Bytes, cp: seq<Bytes>, v: Levels, e: Edit, l: nat)
    requires |cp| == NUM_LEVELS && LevelsOk(rank, v) && l < NUM_LEVELS && e == Snapshot(name, cp, v)
    ensures Saved(rank, [], ApplyAt(rank, UNTOUCHED, e, l)) == v[l]
    ensures NewTo({}, AddedAt(e.added, l)) && AddedAt(e.added, l) == v[l]
    ensures PointersAfter(UNPOINTED, e.pointers)[l] == cp[l]
  {
    hide FileList, PointerList, PointersAfter, Saved, ApplyAt, BySmallest;
    FileListHas(v, NUM_LEVELS, l);
    PointerListHas(cp, NUM_LEVELS, l);
    DistinctIsNew(rank, v[l]);
    OneEditSaved(rank, [], e, l, {});
    assert Files([]) == {};
    assert (set f | f in Files([]) && f.number !in DeletedAt(e.deleted, l)) == {};
    SortedIsUnique(rank, Saved(rank, [], ApplyAt(rank, UNTOUCHED, e, l)), v[l]);
  }

  lemma DistinctIsNew(rank: Rank, s: seq<Meta>)
    requires SortedFiles(rank, s) && DistinctNumbers(Files(s))
    ensures NewTo({}, s)
  {
    forall i, j | 0 <= i < j < |s| ensures s[i].number != s[j].number {
      assert BySmallest(rank, s[i], s[j]) && s[i] in Files(s) && s[j] in Files(s);
    }
  }

  // ---- One more edit ----

  lemma OneMoreEdit(edits: seq<Edit>, e: Edit)
    ensures (edits + [e])[..|edits|] == edits
    ensures PointersOf(edits + [e]) == PointersAfter(PointersOf(edits), e.pointers)
    ensures forall c :: Last(c, edits + [e]) == if Get(c, e).Some? then Get(c, e) else Last(c, edits)
  {
    assert (edits + [e])[..|edits|] == edits;
  }

  lemma OneMoreSave(rank: Rank, edits: seq<Edit>, e: Edit)
    requires NeverReadded(NO_FILES, edits) && AddsNew(NO_FILES, edits, e)
    ensures SaveEach(rank, NO_FILES, edits + [e]) == SaveOne(rank, SaveEach(rank, NO_FILES, edits), e)
    ensures NeverReadded(NO_FILES, edits + [e])
    ensures forall l :: 0 <= l < NUM_LEVELS ==> Held(NO_FILES, edits + [e], l) == Held(NO_FILES, edits, l) + Numbers(AddedAt(e.added, l))
  {
    assert (edits + [e])[..|edits|] == edits;
  }

  lemma OneMoreRecord(records: seq<Bytes>, edits: seq<Edit>, e: Edit)
    requires DecodeAll(records) == Some(edits) && EditOk(e)
    ensures DecodeAll(records + [Record(e)]) == Some(edits + [e])
  {
    hide DecodeLoop, ItemsBytes, Items;
    RecordRoundTrip(e, NO_EDIT);
    assert [] + e.pointers == e.pointers;
    assert (records + [Record(e)])[..|records|] == records;
  }

 // ---- The version set ----

  /** The records of a manifest hold these edits, and they add up to the state of the version set. */
  ghost predicate Represents(rank: Rank, name: Bytes, records: seq<Bytes>, edits: seq<Edit>, v: Levels, cp: seq<Bytes>,
                             logNumber: nat, prevLogNumber: nat, limit: nat)
  {
    && DecodeAll(records) == Some(edits) && SameComparator(edits, name)
    && NeverReadded(NO_FILES, edits) && SaveEach(rank, NO_FILES, edits) == v && PointersOf(edits) == cp
    && Last(LogNumber, edits) == Some(logNumber) && Last(PrevLogNumber, edits) == Some(prevLogNumber)
    && Last(LastSequence, edits).Some? && HeldBelow(edits, Last(NextFile, edits))
    && Last(NextFile, edits).value <= limit && logNumber < Last(NextFile, edits).value
  }

  /** Every file number a level has held lies below the next file number recorded. */
  ghost predicate HeldBelow(edits: seq<Edit>, next: Option<nat>) {
    next.Some? && forall l, n :: 0 <= l < NUM_LEVELS && n in Held(NO_FILES, edits, l) ==> n < next.value
  }

  /** Recovery of such a manifest installs the state it stands for, and a next file number above every live file. */
  lemma RecoveryRestores(rank: Rank, name: Bytes, records: seq<Bytes>, edits: seq<Edit>, v: Levels, cp: seq<Bytes>,
                         logNumber: nat, prevLogNumber: nat, limit: nat)
    requires Represents(rank, name, records, edits, v, cp, logNumber, prevLogNumber, limit)
    ensures RecoverSpec(rank, name, records).Some?
    ensures var r := RecoverSpec(rank, name, records).value;
            && r.v == v && r.pointers == cp && r.logNumber == logNumber && r.prevLogNumber == prevLogNumber && logNumber < r.nextFile
            && r.lastSeq == OrZero(Last(LastSequence, edits))
            && forall l, f :: 0 <= l < NUM_LEVELS && f in r.v[l] ==> f.number < r.nextFile
  {
    hide SaveEach, SaveOnce, PointersOf, NeverReadded, DecodeAll, Held, SameComparator, LevelsOk;
    NoFilesAreOk(rank);
    OnceIsEach(rank, NO_FILES, edits);
    SavedLevelsAreOk(rank, NO_FILES, edits);
  }

  /** What LogAndApply makes of the caller's edit. */
  function Completed(e: Edit, logNumber: nat, prevLogNumber: nat, nextFile: nat, lastSeq: nat): Edit {
    e.(logNumber := if e.logNumber.Some? then e.logNumber else Some(logNumber),
       prevLogNumber := if e.prevLogNumber.Some? then e.prevLogNumber else Some(prevLogNumber),
       nextFile := Some(nextFile), lastSeq := Some(lastSeq))
  }

  /** An edit the version set can be given: numbers are fresh, and the log number does not go back. */
  ghost predicate Acceptable(e: Edit, edits: seq<Edit>, logNumber: nat, nextFile: nat) {
    && e.comparator.None? && AddsNew(NO_FILES, edits, e)
    && (forall l, f :: 0 <= l < NUM_LEVELS && f in AddedAt(e.added, l) ==> f.number < nextFile)
    && (e.logNumber.Some? ==> logNumber <= e.logNumber.value < nextFile) && logNumber < nextFile
  }

  lemma AppendRepresents(rank: Rank, name: Bytes, records: seq<Bytes>, edits: seq<Edit>, v: Levels, cp: seq<Bytes>, e: Edit,
                         logNumber: nat, prevLogNumber: nat, nextFile: nat, lastSeq: nat)
    requires DecodeAll(records) == Some(edits) && SameComparator(edits, name) && NeverReadded(NO_FILES, edits)
    requires SaveEach(rank, NO_FILES, edits) == v && PointersOf(edits) == cp && HeldBelow(edits, Some(nextFile))
    requires Acceptable(e, edits, logNumber, nextFile) && EditOk(Completed(e, logNumber, prevLogNumber, nextFile, lastSeq))
    ensures var c := Completed(e, logNumber, prevLogNumber, nextFile, lastSeq);
            && Represents(rank, name, records + [Record(c)], edits + [c], SaveOne(rank, v, c), PointersAfter(cp, c.pointers),
                          c.logNumber.value, c.prevLogNumber.value, nextFile)
            && Last(LastSequence, edits + [c]) == Some(lastSeq)
  {
    var c := Completed(e, logNumber, prevLogNumber, nextFile, lastSeq);
    hide SaveEach, SaveOne, NeverReadded, DecodeAll, Record, EditOk, Last, PointersOf, PointersAfter, NewTo, AddedAt;
    assert AddsNew(NO_FILES, edits, c);
    OneMoreRecord(records, edits, c);
    OneMoreEdit(edits, c);
    OneMoreSave(rank, edits, c);
    hide Held;
    forall l, n | 0 <= l < NUM_LEVELS && n in Held(NO_FILES, edits + [c], l) ensures n < nextFile {
      if n in Numbers(AddedAt(c.added, l)) { var f :| f in AddedAt(c.added, l) && f.number == n; }
    }
  }

  class VersionSet {
    const rank: Rank
    const comparator: Bytes
    var current: Levels
    var compactPointer: seq<Bytes>
    var logNumber: nat
    var prevLogNumber: nat
    var nextFileNumber: nat
    var lastSequence: nat
    var manifestFileNumber: nat
    var descriptorOpen: bool
    var manifest: seq<Bytes>
    ghost var edits: seq<Edit>

    ghost predicate Valid()
      reads this
    {
      && |compactPointer| == NUM_LEVELS && LevelsOk(rank, current)
      && (descriptorOpen ==>
            Represents(rank, comparator, manifest, edits, current, compactPointer, logNumber, prevLogNumber, nextFileNumber))
    }

    /** A version set before recovery: no files, nothing open. */
    constructor (rank: Rank, comparator: Bytes)
      ensures Valid() && current == NO_FILES && compactPointer == UNPOINTED && !descriptorOpen
      ensures this.rank == rank && this.comparator == comparator
    {
      this.rank, this.comparator := rank, comparator;
      current, compactPointer := NO_FILES, UNPOINTED;
      logNumber, prevLogNumber, nextFileNumber, lastSequence, manifestFileNumber := 0, 0, 2, 0, 0;
      descriptorOpen, manifest, edits := false, [], [];
      new;
      NoFilesAreOk(rank);
    }

    method NewFileNumber() returns (n: nat)
      requires Valid()
      modifies this`nextFileNumber
      ensures Valid() && n == old(nextFileNumber) && nextFileNumber == n + 1
    {
      hide LevelsOk, NeverReadded, SaveEach, PointersOf, DecodeAll, SameComparator, Last, HeldBelow;
      n := nextFileNumber;
      nextFileNumber := n + 1;
    }

    method SetLastSequence(s: nat)
      requires Valid() && s >= lastSequence
      modifies this`lastSequence
      ensures Valid() && lastSequence == s
    {
      lastSequence := s;
    }

    /** WriteSnapshot: comparator, compaction pointers, and all files of the current version in one edit. */
    method WriteSnapshot() returns (record: Bytes)
      requires Valid()
      ensures record == Record(Snapshot(comparator, compactPointer, current))
    {
      var edit := new VersionEdit();
      edit.comparator := Some(comparator);
      for level := 0 to NUM_LEVELS
        invariant Valid() && fresh(edit)
        invariant edit.Value() == NO_EDIT.(comparator := Some(comparator), pointers := PointerList(compactPointer, level))
      {
        if compactPointer[level] != [] {
          edit.pointers := edit.pointers + [(level, compactPointer[level])];
        }
      }
      for level := 0 to NUM_LEVELS
        invariant Valid() && fresh(edit)
        invariant edit.Value() == NO_EDIT.(comparator := Some(comparator), pointers := PointerList(compactPointer, NUM_LEVELS),
                                           added := FileList(current, level))
      {
        edit.added := edit.added + Tagged(level, current[level]);
      }
      record := edit.EncodeTo();
    }

    /** LogAndApply with a manifest write that succeeds. */
    method LogAndApply(edit: Edit)
      requires Valid()
      requires Acceptable(edit, Written(edit), logNumber, nextFileNumber) && HeldBelow(Written(edit), Some(nextFileNumber))
      requires EditOk(Completed(edit, logNumber, prevLogNumber, nextFileNumber, lastSequence)) && LevelsInRange(edit)
      requires !descriptorOpen ==> EditOk(Snapshot(comparator, PointersAfter(compactPointer, edit.pointers), current))
      modifies this
      ensures Valid() && descriptorOpen
      ensures var c := Completed(edit, old(logNumber), old(prevLogNumber), old(nextFileNumber), old(lastSequence));
              && edits == old(Written(edit)) + [c] && current == SaveOne(rank, old(current), c)
              && logNumber == c.logNumber.value && prevLogNumber == c.prevLogNumber.value
      ensures Replaced(old(current), edit, current) && PointersMoved(old(compactPointer), edit.pointers, compactPointer)
      ensures logNumber == (if edit.logNumber.Some? then edit.logNumber.value else old(logNumber))
      ensures nextFileNumber == old(nextFileNumber) && lastSequence == old(lastSequence)
      ensures Last(LastSequence, edits) == Some(lastSequence)
    {
      hide SaveOne, SaveEach, NeverReadded, DecodeAll, Record, EditOk, Last, PointersOf, PointersAfter, Held, AddsNew, Snapshot, LevelsOk, HeldBelow, Acceptable, Replaced, PointersMoved;
      ghost var written := Written(edit);
      PointersAfterMoves(compactPointer, edit.pointers);
      var e := Completed(edit, logNumber, prevLogNumber, nextFileNumber, lastSequence);
      var v, cp := Build(e);
      PointersTwice(compactPointer, e.pointers);
      compactPointer := cp;
      if !descriptorOpen {
        var record := WriteSnapshot();
        SnapshotManifest(rank, comparator, cp, current);
        manifest, edits, descriptorOpen := [record], written, true;
      }
      AppendRepresents(rank, comparator, manifest, written, current, PointersOf(written), edit, logNumber, prevLogNumber, nextFileNumber, lastSequence);
      EditReplaces(rank, written, current, edit, e, logNumber, nextFileNumber);
      var record := RecordOf(e);
      manifest, edits := manifest + [record], edits + [e];
      current, logNumber, prevLogNumber := v, e.logNumber.value, e.prevLogNumber.value;
      CurrentIsOk(rank, edits, current);
    }

    /** The edits the manifest holds before this one: those written so far, or a snapshot if it is new. */
    ghost function Written(edit: Edit): seq<Edit>
      requires |compactPointer| == NUM_LEVELS
      reads this
    {
      if descriptorOpen then edits else [Snapshot(comparator, PointersAfter(compactPointer, edit.pointers), current)]
    }

    /** Recover's loop: every record is decoded and applied to the builder. */
    method ApplyRecords(records: seq<Bytes>, builder: Builder)
        returns (ok: bool, nextFile: Option<nat>, logNum: Option<nat>, prevLogNum: Option<nat>, lastSeq: Option<nat>, ghost es: seq<Edit>)
      requires builder.Valid() && builder.rank == rank && builder.compactPointer == UNPOINTED
      requires forall l :: 0 <= l < NUM_LEVELS ==> builder.levels[l] == UNTOUCHED
      modifies builder
      ensures builder.Valid() && (!ok ==> RecoverSpec(rank, comparator, records).None?)
      ensures ok ==> DecodeAll(records) == Some(es) && SameComparator(es, comparator)
      ensures ok ==> (nextFile, logNum, prevLogNum, lastSeq) == (Last(NextFile, es), Last(LogNumber, es), Last(PrevLogNumber, es), Last(LastSequence, es))
      ensures ok ==> builder.compactPointer == PointersOf(es) && forall l :: 0 <= l < NUM_LEVELS ==> builder.levels[l] == StateAt(rank, es, l)
    {
      hide DecodeAll, DecodeLoop, SaveOnce, StateAt, Last, PointersOf, ApplyAt, SameComparator, PointersAfter, LevelsOk;
      nextFile, logNum, prevLogNum, lastSeq, es := None, None, None, None, [];
      NothingRead(rank, comparator);
      assert records[..0] == [];
      for i := 0 to |records|
        invariant builder.Valid()
        invariant DecodeAll(records[..i]) == Some(es) && SameComparator(es, comparator)
        invariant (nextFile, logNum, prevLogNum, lastSeq) == (Last(NextFile, es), Last(LogNumber, es), Last(PrevLogNumber, es), Last(LastSequence, es))
        invariant builder.compactPointer == PointersOf(es)
        invariant forall l :: 0 <= l < NUM_LEVELS ==> builder.levels[l] == StateAt(rank, es, l)
      {
        var edit := new VersionEdit();
        var decoded := edit.DecodeFrom(records[i]);
        NextRecord(rank, comparator, records, i, es);
        if !decoded {
          return false, nextFile, logNum, prevLogNum, lastSeq, es;
        }
        var e := edit.Value();
        if e.comparator.Some? && e.comparator.value != comparator {
          return false, nextFile, logNum, prevLogNum, lastSeq, es;
        }
        DecodedLevels(records[i], NO_EDIT);
        OneMoreEdit(es, e);
        builder.Apply(e);
        nextFile, logNum := if e.nextFile.Some? then e.nextFile else nextFile, if e.logNumber.Some? then e.logNumber else logNum;
        prevLogNum, lastSeq := if e.prevLogNumber.Some? then e.prevLogNumber else prevLogNum, if e.lastSeq.Some? then e.lastSeq else lastSeq;
        es := es + [e];
      }
      assert records[..|records|] == records;
      ok := true;
    }

    /** Recover from the records of the manifest that CURRENT names. */
    method Recover(records: seq<Bytes>) returns (ok: bool)
      requires Valid() && current == NO_FILES && compactPointer == UNPOINTED && !descriptorOpen
      modifies this
      ensures ok == RecoverSpec(rank, comparator, records).Some? && !descriptorOpen
      ensures ok ==> RecoverSpec(rank, comparator, records).value ==
                     Recovered(current, compactPointer, logNumber, prevLogNumber, nextFileNumber, lastSequence)
    {
      hide DecodeAll, DecodeLoop, SaveOnce, StateAt, Last, PointersOf, ApplyAt, SameComparator, Represents, PointersAfter, LevelsOk;
      var builder := new Builder(rank, current, compactPointer);
      var applied, nextFile, logNum, prevLogNum, lastSeq, es := ApplyRecords(records, builder);
      if !applied || nextFile.None? || logNum.None? || lastSeq.None? {
        return false;
      }
      ok := true;
      NoFilesAreOk(rank);
      NoFilesSorted(rank);
      current := builder.SaveTo();
      assert current == SaveOnce(rank, NO_FILES, es) by { SavedIsOnce(rank, es, builder.levels, current); }
      compactPointer, manifestFileNumber, nextFileNumber := builder.compactPointer, nextFile.value, nextFile.value + 1;
      lastSequence, logNumber, prevLogNumber := lastSeq.value, logNum.value, OrZero(prevLogNum);
    }

    method Build(e: Edit) returns (v: Levels, cp: seq<Bytes>)
      requires Valid() && LevelsInRange(e)
      ensures v == SaveOne(rank, current, e) && cp == PointersAfter(compactPointer, e.pointers)
    {
      hide Represents, ApplyAt, Saved;
      var builder := new Builder(rank, current, compactPointer);
      builder.Apply(e);
      cp := builder.compactPointer;
      v := builder.SaveTo();
      assert v == SaveOne(rank, current, e);
    }
  }

  /** Opening again on the manifest a version set has written gives its version, log number and pointers back. */
  method Reopen(vs: VersionSet) returns (r: VersionSet)
    requires vs.Valid() && vs.descriptorOpen
    ensures r.current == vs.current && r.compactPointer == vs.compactPointer
    ensures r.logNumber == vs.logNumber && r.prevLogNumber == vs.prevLogNumber && r.logNumber < r.nextFileNumber
    ensures Last(LastSequence, vs.edits) == Some(r.lastSequence)
    ensures forall l, f :: 0 <= l < NUM_LEVELS && f in r.current[l] ==> f.number < r.nextFileNumber
  {
    hide RecoverSpec, LevelsOk;
    r := new VersionSet(vs.rank, vs.comparator);
    ManifestRestores(vs);
    var ok := r.Recover(vs.manifest);
  }

  lemma ManifestRestores(vs: VersionSet)
    requires vs.Valid() && vs.descriptorOpen
    ensures RecoverSpec(vs.rank, vs.comparator, vs.manifest).Some?
    ensures var r := RecoverSpec(vs.rank, vs.comparator, vs.manifest).value;
            && r.v == vs.current && r.pointers == vs.compactPointer && r.logNumber == vs.logNumber && r.prevLogNumber == vs.prevLogNumber
            && r.logNumber < r.nextFile && Last(LastSequence, vs.edits) == Some(r.lastSeq)
            && forall l, f :: 0 <= l < NUM_LEVELS && f in r.v[l] ==> f.number < r.nextFile
  {
    hide RecoverSpec, LevelsOk, Represents;
    RepresentsSequence(vs.rank, vs.comparator, vs.manifest, vs.edits, vs.current, vs.compactPointer, vs.logNumber, vs.prevLogNumber, vs.nextFileNumber);
    RecoveryRestores(vs.rank, vs.comparator, vs.manifest, vs.edits, vs.current, vs.compactPointer, vs.logNumber, vs.prevLogNumber, vs.nextFileNumber);
  }

  lemma RepresentsSequence(rank: Rank, name: Bytes, records: seq<Bytes>, edits: seq<Edit>, v: Levels, cp: seq<Bytes>,
                           logNumber: nat, prevLogNumber: nat, limit: nat)
    requires Represents(rank, name, records, edits, v, cp, logNumber, prevLogNumber, limit)
    ensures Last(LastSequence, edits).Some?
  {
  }

  method RecordOf(e: Edit) returns (record: Bytes)
    ensures record == Record(e)
  {
    var edit := new VersionEdit();
    edit.comparator, edit.logNumber, edit.prevLogNumber, edit.nextFile := e.comparator, e.logNumber, e.prevLogNumber, e.nextFile;
    edit.lastSeq, edit.pointers, edit.deleted, edit.added := e.lastSeq, e.pointers, e.deleted, e.added;
    record := edit.EncodeTo();
  }

  lemma EditReplaces(rank: Rank, edits: seq<Edit>, v: Levels, e: Edit, c: Edit, logNumber: nat, nextFile: nat)
    requires NeverReadded(NO_FILES, edits) && v == SaveEach(rank, NO_FILES, edits) && Acceptable(e, edits, logNumber, nextFile)
    requires c.added == e.added && c.deleted == e.deleted
    ensures Replaced(v, e, SaveOne(rank, v, c))
  {
    hide NeverReadded, SaveEach, SaveOne, NewTo;
    assert AddsNew(NO_FILES, edits, c);
    SavingReplaces(rank, edits, v, c);
  }

  lemma CurrentIsOk(rank: Rank, edits: seq<Edit>, v: Levels)
    requires NeverReadded(NO_FILES, edits) && v == SaveEach(rank, NO_FILES, edits)
    ensures LevelsOk(rank, v)
  {
    NoFilesAreOk(rank);
    SavedLevelsAreOk(rank, NO_FILES, edits);
  }

  lemma SnapshotManifest(rank: Rank, name: Bytes, cp: seq<Bytes>, v: Levels)
    requires |cp| == NUM_LEVELS && LevelsOk(rank, v) && EditOk(Snapshot(name, cp, v))
    ensures var e := Snapshot(name, cp, v);
            && DecodeAll([Record(e)]) == Some([e]) && SameComparator([e], name) && NeverReadded(NO_FILES, [e])
            && SaveEach(rank, NO_FILES, [e]) == v && PointersOf([e]) == cp
  {
    hide DecodeLoop;
    SnapshotRestores(rank, name, cp, v);
    OneMoreRecord([], [], Snapshot(name, cp, v));
    assert [] + [Record(Snapshot(name, cp, v))] == [Record(Snapshot(name, cp, v))];
    assert [] + [Snapshot(name, cp, v)] == [Snapshot(name, cp, v)];
  }

  lemma NothingRead(rank: Rank, name: Bytes)
    ensures DecodeAll([]) == Some([]) && SameComparator([], name) && PointersOf([]) == UNPOINTED
    ensures forall c :: Last(c, []) == None
    ensures forall l :: 0 <= l < NUM_LEVELS ==> StateAt(rank, [], l) == UNTOUCHED
  {
  }

  lemma NoFilesSorted(rank: Rank)
    ensures forall l :: 0 <= l < NUM_LEVELS ==> SortedFiles(rank, NO_FILES[l])
  {
  }

  lemma SavedIsOnce(rank: Rank, es: seq<Edit>, levels: seq<LevelState>, v: Levels)
    requires |levels| == NUM_LEVELS && forall l :: 0 <= l < NUM_LEVELS ==> levels[l] == StateAt(rank, es, l)
    requires forall l :: 0 <= l < NUM_LEVELS ==> v[l] == Saved(rank, NO_FILES[l], levels[l])
    ensures v == SaveOnce(rank, NO_FILES, es)
  {
  }

  /** A record that does not decode, or names another comparator, fails the whole recovery; a good one adds its edit. */
  lemma NextRecord(rank: Rank, name: Bytes, records: seq<Bytes>, i: nat, es: seq<Edit>)
    requires i < |records| && DecodeAll(records[..i]) == Some(es) && SameComparator(es, name)
    ensures var d := DecodeLoop(records[i], Cleared(NO_EDIT));
            && (d.None? ==> RecoverSpec(rank, name, records).None?)
            && (d.Some? && d.value.comparator.Some? && d.value.comparator.value != name ==> RecoverSpec(rank, name, records).None?)
            && (d.Some? ==> DecodeAll(records[..i + 1]) == Some(es + [d.value]))
            && (d.Some? && (d.value.comparator.Some? ==> d.value.comparator.value == name) ==> SameComparator(es + [d.value], name))
            && (d.Some? ==> forall l :: 0 <= l < NUM_LEVELS ==>
                  StateAt(rank, es + [d.value], l) == ApplyAt(rank, StateAt(rank, es, l), d.value, l))
  {
    hide DecodeLoop, StateAt, ApplyAt, SaveOnce, Last, PointersOf;
    assert records[..i + 1][..i] == records[..i];
    DecodePrefix(records, i + 1);
    var d := DecodeLoop(records[i], NO_EDIT);
    if d.Some? {
      StateNext(rank, es, d.value);
      assert DecodeAll(records[..i + 1]) == Some(es + [d.value]);
      assert DecodeAll(records).Some? ==> DecodeAll(records).value[..i + 1][i] == d.value;
    }
  }

  lemma StateNext(rank: Rank, es: seq<Edit>, e: Edit)
    ensures forall l :: StateAt(rank, es + [e], l) == ApplyAt(rank, StateAt(rank, es, l), e, l)
  {
    assert (es + [e])[..|es|] == es;
  }

  lemma {:induction false} DecodePrefix(records: seq<Bytes>, i: nat)
    requires i <= |records|
    ensures DecodeAll(records).Some? ==> DecodeAll(records[..i]).Some? && DecodeAll(records[..i]).value == DecodeAll(records).value[..i]
  {
    hide DecodeLoop;
    if i < |records| {
      DecodePrefix(records[..|records| - 1], i);
      assert records[..|records| - 1][..i] == records[..i];
    } else {
      assert records[..i] == records;
    }
  }

  /** Decoding lets through only levels that exist. */
  lemma {:induction false} DecodedLevels(s: Bytes, e: Edit)
    requires LevelsInRange(e)
    ensures DecodeLoop(s, e).Some? ==> LevelsInRange(DecodeLoop(s, e).value)
    decreases |s|
  {
    hide GetItem, Absorb, GetVarint32;
    var t := GetVarint32(s);
    if t.Some? && GetItem(t.value.0, t.value.1).Some? {
      var p := GetItem(t.value.0, t.value.1).value;
      ItemLevel(t.value.0, t.value.1);
      AbsorbLevel(e, p.0);
      DecodedLevels(p.1, Absorb(e, p.0));
    }
  }

  predicate HasLevel(item: Item) {
    match item
    case DeletedItem(level, _) => level < NUM_LEVELS
    case AddedItem(level, _) => level < NUM_LEVELS
    case _ => true
  }

  lemma ItemLevel(tag: nat, s: Bytes)
    ensures GetItem(tag, s).Some? ==> HasLevel(GetItem(tag, s).value.0)
  {
    hide GetVarint32, GetVarint64, GetLengthPrefixed, GetNewFile;
  }

  lemma AbsorbLevel(e: Edit, item: Item)
    requires LevelsInRange(e) && HasLevel(item)
    ensures LevelsInRange(Absorb(e, item))
  {
    if item.DeletedItem? {
      var d := Insert(e.deleted, (item.level, item.n));
      forall i | 0 <= i < |d| ensures d[i].0 < NUM_LEVELS { assert d[i] in d; }
    }
  }

  function LastPointer(ps: seq<(nat, Bytes)>, l: nat): Option<Bytes> {
    if ps == [] then None
    else if ps[|ps| - 1].0 == l then Some(ps[|ps| - 1].1)
    else LastPointer(ps[..|ps| - 1], l)
  }

  lemma {:induction false} PointerAt(cp: seq<Bytes>, ps: seq<(nat, Bytes)>, l: nat)
    requires |cp| == NUM_LEVELS && l < NUM_LEVELS
    ensures PointersAfter(cp, ps)[l] == if LastPointer(ps, l).Some? then LastPointer(ps, l).value else cp[l]
  {
    if ps != [] { PointerAt(cp, ps[..|ps| - 1], l); }
  }

  /** The first manifest holds an edit's compaction pointers twice, in the snapshot and in the edit: that makes no difference. */
  lemma PointersTwice(cp: seq<Bytes>, ps: seq<(nat, Bytes)>)
    requires |cp| == NUM_LEVELS
    ensures PointersAfter(PointersAfter(cp, ps), ps) == PointersAfter(cp, ps)
  {
    forall l | 0 <= l < NUM_LEVELS ensures PointersAfter(PointersAfter(cp, ps), ps)[l] == PointersAfter(cp, ps)[l] {
      PointerAt(PointersAfter(cp, ps), ps, l);
      PointerAt(cp, ps, l);
    }
  }
}
