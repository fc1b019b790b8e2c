/** Which files may be deleted, and when (db_impl.cc DeleteObsoleteFiles and its callers, version_set.cc AddLiveFiles). */
module Gc {

  datatype FileName = Log(n: nat) | Manifest(n: nat) | Table(n: nat) | Temp(n: nat) | Other(n: nat)

  /** A memtable flush: its table is being built, or its edit is being written to the manifest. */
  datatype Flush = NoFlush | Building(n: nat, written: bool) | Logging(table: set<nat>, recorded: bool)

  /** The background thread outside a flush. A compaction keeps a reference to the version it reads. */
  datatype Work = Resting | Merging(base: nat, inputs: set<nat>, outputs: set<nat>, written: set<nat>)
                | Committing(base: nat, inputs: set<nat>, outputs: set<nat>, recorded: bool)

  /** What recovery would read from the manifest now. */
  datatype Committed = Committed(tables: set<nat>, logNumber: nat)

  datatype Db = Db(
    files: set<FileName>, versions: map<nat, set<nat>>, current: nat, refs: multiset<nat>, pending: set<nat>,
    next: nat, logNumber: nat, prevLogNumber: nat, manifestNumber: nat, logfile: nat, hasImm: bool, error: bool,
    flush: Flush, work: Work, disk: Committed, everLogs: set<nat>)

  /** AddLiveFiles over all referenced versions. */
  function VersionFiles(db: Db): set<nat> {
    set v, n | v in db.versions && n in db.versions[v] :: n
  }

  function Live(db: Db): set<nat> {
    db.pending + VersionFiles(db)
  }

  predicate Keep(db: Db, live: set<nat>, f: FileName) {
    match f
    case Log(n) => n >= db.logNumber || n == db.prevLogNumber
    case Manifest(n) => n >= db.manifestNumber
    case Table(n) => n in live
    case Temp(n) => n in live
    case Other(_) => true
  }

  function Collected(db: Db): Db {
    if db.error then db else db.(files := set f | f in db.files && Keep(db, Live(db), f))
  }

  /** No table or temporary file without a use is left, no log that recovery skips, no manifest before the current one. */
  ghost predicate NothingObsolete(db: Db, files: set<FileName>) {
    && (forall n: nat :: Table(n) in files || Temp(n) in files ==> n in db.pending || exists v :: v in db.versions && n in db.versions[v])
    && (forall n: nat :: Log(n) in files ==> n >= db.logNumber || n == db.prevLogNumber)
    && forall n: nat :: Manifest(n) in files ==> n >= db.manifestNumber
  }

  lemma CollectedHasNothingObsolete(db: Db)
    requires !db.error
    ensures NothingObsolete(db, Collected(db).files)
  {
    forall n | n in VersionFiles(db) ensures exists v :: v in db.versions && n in db.versions[v] {}
  }

  /** The loop over the directory listing. */
  method DeleteObsoleteFiles(db: Db, filenames: seq<FileName>) returns (files: set<FileName>)
    requires forall f :: f in filenames <==> f in db.files
    ensures files == Collected(db).files
    ensures db.error ==> files == db.files
    ensures !db.error ==> NothingObsolete(db, files)
  {
    hide NothingObsolete;
    if !db.error { CollectedHasNothingObsolete(db); }
    files := db.files;
    if db.error {
      return;
    }
    var live := Live(db);
    for i := 0 to |filenames|
      invariant files == set f | f in db.files && (f in filenames[..i] ==> Keep(db, live, f))
    {
      assert filenames[..i + 1] == filenames[..i] + [filenames[i]];
      if !Keep(db, live, filenames[i]) {
        files := files - {filenames[i]};
      }
    }
    assert filenames[..|filenames|] == filenames;
  }

  // ---- Invariant ----

  /** A version is kept exactly as long as it is current or somebody refers to it. */
  ghost predicate Referenced(db: Db) {
    && db.current in db.versions && forall v :: v in db.versions <==> v == db.current || v in db.refs
  }

  ghost predicate OnDisk(db: Db, tables: set<nat>) {
    forall n :: n in tables ==> Table(n) in db.files
  }

  /** Every table that is read or may still be read is there: the promise. */
  ghost predicate TablesThere(db: Db) {
    && (forall v :: v in db.versions ==> OnDisk(db, db.versions[v]))
    && OnDisk(db, db.disk.tables)
    && (db.flush.Building? && db.flush.written ==> Table(db.flush.n) in db.files)
    && (db.flush.Logging? ==> OnDisk(db, db.flush.table))
    && (db.work.Merging? ==> OnDisk(db, db.work.written)) && (db.work.Committing? ==> OnDisk(db, db.work.outputs))
  }

  /** Every log that recovery would replay is there, and the manifest. */
  ghost predicate LogsThere(db: Db) {
    && (forall n :: n in db.everLogs && n >= db.logNumber ==> Log(n) in db.files)
    && Manifest(db.manifestNumber) in db.files
    && db.logNumber <= db.disk.logNumber && db.logNumber <= db.logfile && db.logfile in db.everLogs
  }

  function Current(db: Db): set<nat> {
    if db.current in db.versions then db.versions[db.current] else {}
  }

  function Merged(db: Db): set<nat>
    requires db.work.Committing?
  {
    (Current(db) - db.work.inputs) + db.work.outputs
  }

  /** What the manifest should say: the version set's state, and the edit that is being installed once it is recorded. */
  ghost function Expected(db: Db): Committed {
    if db.flush.Logging? && db.flush.recorded then Committed(Current(db) + db.flush.table, db.logfile)
    else if db.work.Committing? && db.work.recorded then Committed(Merged(db), db.logNumber)
    else Committed(Current(db), db.logNumber)
  }

  /** After an error nobody knows what the manifest says. */
  ghost predicate InStep(db: Db) {
    !db.error ==> db.disk == Expected(db)
  }

  /** Outputs being written are pending; a flush inside a compaction leaves them alone. */
  ghost predicate Protected(db: Db) {
    && (db.flush.Building? ==> db.flush.n in db.pending)
    && (db.work.Merging? ==> db.work.outputs <= db.pending && db.work.written <= db.work.outputs && db.work.base in db.refs)
    && (db.work.Committing? ==> db.work.outputs <= db.pending && db.work.base in db.refs && db.flush.NoFlush?)
    && (!db.flush.NoFlush? ==> db.hasImm)
    && (db.flush.Building? && db.work.Merging? ==> db.flush.n !in db.work.outputs)
    && (forall n :: n in db.pending ==> n < db.next)
  }

  /** No number stays pending once its table is written and recorded, or given up. */
  ghost predicate PendingIsUsed(db: Db) {
    forall n :: n in db.pending ==> (db.flush.Building? && n == db.flush.n) || n in OpenOutputs(db)
  }

  function OpenOutputs(db: Db): set<nat> {
    if db.work.Resting? then {} else db.work.outputs
  }

  ghost predicate Inv(db: Db) {
    Referenced(db) && TablesThere(db) && LogsThere(db) && InStep(db) && Protected(db) && PendingIsUsed(db)
  }

  // ---- Steps ----

  /** MakeRoomForWrite: a new log file and memtable. */
  ghost predicate CanSwitch(db: Db) { !db.hasImm && db.next > db.logfile }

  function Switch(db: Db): Db {
    db.(files := db.files + {Log(db.next)}, logfile := db.next, next := db.next + 1, hasImm := true, everLogs := db.everLogs + {db.next})
  }

  /** A reader takes a reference to the current version, or gives one back. */
  function Ref(db: Db): Db {
    db.(refs := db.refs + multiset{db.current})
  }

  function Unref(db: Db, v: nat): Db {
    var refs := db.refs - multiset{v};
    db.(refs := refs, versions := if v == db.current || v in refs then db.versions else db.versions - {v})
  }

  /** WriteLevel0Table, up to the unlock: the table's number is pending. */
  ghost predicate CanStartFlush(db: Db) {
    db.hasImm && !db.error && db.flush.NoFlush? && !db.work.Committing?
  }

  function StartFlush(db: Db): Db {
    db.(next := db.next + 1, pending := db.pending + {db.next}, flush := Building(db.next, false))
  }

  /** BuildTable leaves a table file. */
  function BuildTable(db: Db): Db
    requires db.flush.Building?
  {
    db.(files := db.files + {Table(db.flush.n)}, flush := Building(db.flush.n, true))
  }

  /** The end of WriteLevel0Table gives up the number before LogAndApply starts; an empty memtable has no table. */
  function StartFlushLog(db: Db): Db
    requires db.flush.Building?
  {
    db.(pending := db.pending - {db.flush.n}, flush := Logging(if db.flush.written then {db.flush.n} else {}, false))
  }

  /** The manifest record of the flush reaches the disk. */
  function FlushRecord(db: Db): Db
    requires db.flush.Logging?
  {
    db.(disk := Committed(db.disk.tables + db.flush.table, db.logfile), flush := Logging(db.flush.table, true))
  }

  /** A new current version: the old one stays only if it is referred to. */
  function Install(db: Db, v: nat, tables: set<nat>, logNumber: nat): Db {
    var rest := if db.current in db.refs then db.versions else db.versions - {db.current};
    db.(versions := rest[v := tables], current := v, logNumber := logNumber)
  }

  /** LogAndApply returns, the memtable is let go, obsolete files are deleted. */
  ghost predicate CanFinishFlush(db: Db, v: nat) {
    db.flush.Logging? && db.flush.recorded && !db.error && v !in db.versions && v !in db.refs
  }

  function FinishFlush(db: Db, v: nat): Db
    requires db.flush.Logging?
  {
    Collected(Install(db, v, Current(db) + db.flush.table, db.logfile).(hasImm := false, flush := NoFlush))
  }

  /** The flush fails: nobody knows whether its record was written. Its table is no longer pending. */
  function FailFlush(db: Db): Db {
    db.(error := true, pending := if db.flush.Building? then db.pending - {db.flush.n} else db.pending, flush := NoFlush)
  }

  /** A compaction starts, or opens an output file, or writes it. */
  ghost predicate CanMerge(db: Db, inputs: set<nat>) {
    db.work.Resting? && db.flush.NoFlush? && !db.hasImm && !db.error && inputs <= Current(db)
  }

  function StartMerge(db: Db, inputs: set<nat>): Db {
    db.(refs := db.refs + multiset{db.current}, work := Merging(db.current, inputs, {}, {}))
  }

  function OpenOutput(db: Db): Db
    requires db.work.Merging?
  {
    db.(next := db.next + 1, pending := db.pending + {db.next},
        work := Merging(db.work.base, db.work.inputs, db.work.outputs + {db.next}, db.work.written))
  }

  function WriteOutput(db: Db, n: nat): Db
    requires db.work.Merging?
  {
    db.(files := db.files + {Table(n)}, work := Merging(db.work.base, db.work.inputs, db.work.outputs, db.work.written + {n}))
  }

  ghost predicate CanCommit(db: Db) {
    db.work.Merging? && db.flush.NoFlush? && db.work.written == db.work.outputs
  }

  function StartCommit(db: Db): Db
    requires db.work.Merging?
  {
    db.(work := Committing(db.work.base, db.work.inputs, db.work.outputs, false))
  }

  function MergeRecord(db: Db): Db
    requires db.work.Committing?
  {
    db.(disk := Committed((db.disk.tables - db.work.inputs) + db.work.outputs, db.logNumber),
        work := Committing(db.work.base, db.work.inputs, db.work.outputs, true))
  }

  ghost predicate CanFinishMerge(db: Db, v: nat) {
    db.work.Committing? && db.work.recorded && v !in db.versions && v !in db.refs
  }

  /** InstallCompactionResults, CleanupCompaction, ReleaseInputs, DeleteObsoleteFiles. */
  function FinishMerge(db: Db, v: nat): Db
    requires db.work.Committing?
  {
    var installed := Install(db, v, Merged(db), db.logNumber);
    Collected(Unref(installed, db.work.base).(pending := db.pending - db.work.outputs, work := Resting))
  }

  /** A compaction that fails: its outputs are no longer pending, and nothing is deleted any more. */
  function FailMerge(db: Db): Db
    requires !db.work.Resting?
  {
    Collected(Unref(db, db.work.base).(pending := db.pending - db.work.outputs, work := Resting, error := true))
  }

  datatype Step =
    | SwitchStep | RefStep | UnrefStep(v: nat)
    | StartFlushStep | BuildTableStep | StartFlushLogStep | FlushRecordStep | FinishFlushStep(v: nat) | FailFlushStep
    | StartMergeStep(inputs: set<nat>) | OpenOutputStep | WriteOutputStep(n: nat) | StartCommitStep | MergeRecordStep
    | FinishMergeStep(v: nat) | FailMergeStep

  ghost predicate Next(db: Db, step: Step, db': Db) {
    match step
    case SwitchStep => CanSwitch(db) && db' == Switch(db)
    case RefStep => db' == Ref(db)
    case UnrefStep(v) => v in db.refs && (!db.work.Resting? ==> db.work.base != v || db.refs[v] > 1) && db' == Unref(db, v)
    case StartFlushStep => CanStartFlush(db) && db' == StartFlush(db)
    case BuildTableStep => db.flush.Building? && db' == BuildTable(db)
    case StartFlushLogStep => db.flush.Building? && !db.error && db' == StartFlushLog(db)
    case FlushRecordStep => db.flush.Logging? && !db.flush.recorded && !db.error && db' == FlushRecord(db)
    case FinishFlushStep(v) => CanFinishFlush(db, v) && db' == FinishFlush(db, v)
    case FailFlushStep => !db.flush.NoFlush? && db' == FailFlush(db)
    case StartMergeStep(inputs) => CanMerge(db, inputs) && db' == StartMerge(db, inputs)
    case OpenOutputStep => db.work.Merging? && db' == OpenOutput(db)
    case WriteOutputStep(n) => db.work.Merging? && n in db.work.outputs && db' == WriteOutput(db, n)
    case StartCommitStep => CanCommit(db) && db' == StartCommit(db)
    case MergeRecordStep => db.work.Committing? && !db.work.recorded && db' == MergeRecord(db)
    case FinishMergeStep(v) => CanFinishMerge(db, v) && db' == FinishMerge(db, v)
    case FailMergeStep => !db.work.Resting? && db.flush.NoFlush? && db' == FailMerge(db)
  }

  /** A database just opened: one version, one log, nothing pending. */
  ghost predicate Init(db: Db) {
    && db.current in db.versions && db.versions.Keys == {db.current} && db.refs == multiset{} && db.pending == {}
    && db.flush == NoFlush && db.work == Resting && !db.error && !db.hasImm
    && db.disk == Committed(db.versions[db.current], db.logNumber) && db.logfile == db.logNumber && db.everLogs == {db.logfile}
    && OnDisk(db, db.versions[db.current]) && Log(db.logfile) in db.files && Manifest(db.manifestNumber) in db.files
    && db.next > db.logfile
  }

  // ---- Every step keeps the invariant ----

  /** Deleting what is not live keeps everything that is promised. */
  lemma CollectKeepsInv(db: Db)
    requires Inv(db) && !db.flush.Logging? && !db.work.Committing?
    ensures Inv(Collected(db))
  {
    if !db.error {
      forall v, n | v in db.versions && n in db.versions[v] ensures Table(n) in Collected(db).files { assert n in Live(db); }
      forall n | n in db.disk.tables ensures Table(n) in Collected(db).files { assert n in db.versions[db.current] && n in Live(db); }
    }
  }

  lemma InstallKeepsReferenced(db: Db, v: nat, tables: set<nat>, logNumber: nat)
    requires Referenced(db) && v !in db.versions && v !in db.refs
    ensures Referenced(Install(db, v, tables, logNumber))
    ensures forall u :: u in Install(db, v, tables, logNumber).versions ==>
      u == v || (u in db.versions && Install(db, v, tables, logNumber).versions[u] == db.versions[u])
  {
  }

  lemma UnrefKeepsReferenced(db: Db, v: nat)
    requires Referenced(db) && v in db.refs
    ensures Referenced(Unref(db, v)) && Unref(db, v).current == db.current && Current(Unref(db, v)) == Current(db)
    ensures forall u :: u in Unref(db, v).versions ==> u in db.versions && Unref(db, v).versions[u] == db.versions[u]
  {
  }

  lemma FinishFlushKeepsInv(db: Db, v: nat)
    requires Inv(db) && CanFinishFlush(db, v)
    ensures Inv(FinishFlush(db, v))
  {
    var tables := Current(db) + db.flush.table;
    var db' := Install(db, v, tables, db.logfile).(hasImm := false, flush := NoFlush);
    InstallKeepsReferenced(db, v, tables, db.logfile);
    assert Referenced(db');
    assert OnDisk(db, tables);
    assert Current(db') == tables;
    assert Inv(db');
    CollectKeepsInv(db');
  }

  lemma FinishMergeKeepsInv(db: Db, v: nat)
    requires Inv(db) && CanFinishMerge(db, v)
    ensures Inv(FinishMerge(db, v))
  {
    var tables := Merged(db);
    var installed := Install(db, v, tables, db.logNumber);
    InstallKeepsReferenced(db, v, tables, db.logNumber);
    UnrefKeepsReferenced(installed, db.work.base);
    var db' := Unref(installed, db.work.base).(pending := db.pending - db.work.outputs, work := Resting);
    assert OnDisk(db, tables);
    assert Inv(db');
    CollectKeepsInv(db');
  }

  lemma FailMergeKeepsInv(db: Db)
    requires Inv(db) && !db.work.Resting? && db.flush.NoFlush?
    ensures Inv(FailMerge(db))
  {
    UnrefKeepsReferenced(db, db.work.base);
    var db' := Unref(db, db.work.base).(pending := db.pending - db.work.outputs, work := Resting, error := true);
    assert Inv(db');
  }

  lemma UnrefKeepsInv(db: Db, v: nat)
    requires Inv(db) && v in db.refs && (!db.work.Resting? ==> db.work.base != v || db.refs[v] > 1)
    ensures Inv(Unref(db, v))
  {
    UnrefKeepsReferenced(db, v);
  }

  lemma FlushStepKeepsInv(db: Db, step: Step, db': Db)
    requires Inv(db) && Next(db, step, db')
    requires step.StartFlushStep? || step.BuildTableStep? || step.StartFlushLogStep? || step.FlushRecordStep? || step.FailFlushStep?
    ensures Inv(db')
  {
    hide Referenced, Live, Keep;
    assert Referenced(db') by { SameVersions(db, db'); }
  }

  lemma SameVersions(db: Db, db': Db)
    requires Referenced(db) && db'.versions == db.versions && db'.current == db.current && db'.refs == db.refs
    ensures Referenced(db')
  {
  }

  lemma MergeStepKeepsInv(db: Db, step: Step, db': Db)
    requires Inv(db) && Next(db, step, db')
    requires step.OpenOutputStep? || step.WriteOutputStep? || step.StartCommitStep? || step.MergeRecordStep?
    ensures Inv(db')
  {
    hide Referenced, Live, Keep;
    assert Referenced(db') by { SameVersions(db, db'); }
  }

  lemma SwitchKeepsInv(db: Db)
    requires Inv(db) && CanSwitch(db)
    ensures Inv(Switch(db))
  {
  }

  lemma RefKeepsInv(db: Db)
    requires Inv(db)
    ensures Inv(Ref(db))
  {
  }

  lemma StartMergeKeepsInv(db: Db, inputs: set<nat>)
    requires Inv(db) && CanMerge(db, inputs)
    ensures Inv(StartMerge(db, inputs))
  {
  }

  lemma NextKeepsInv(db: Db, step: Step, db': Db)
    requires Inv(db) && Next(db, step, db')
    ensures Inv(db')
  {
    hide Inv;
    match step
    case UnrefStep(v) => UnrefKeepsInv(db, v);
    case FinishFlushStep(v) => FinishFlushKeepsInv(db, v);
    case FinishMergeStep(v) => FinishMergeKeepsInv(db, v);
    case FailMergeStep => FailMergeKeepsInv(db);
    case OpenOutputStep => MergeStepKeepsInv(db, step, db');
    case WriteOutputStep(_) => MergeStepKeepsInv(db, step, db');
    case StartCommitStep => MergeStepKeepsInv(db, step, db');
    case MergeRecordStep => MergeStepKeepsInv(db, step, db');
    case SwitchStep => SwitchKeepsInv(db);
    case RefStep => RefKeepsInv(db);
    case StartMergeStep(inputs) => StartMergeKeepsInv(db, inputs);
    case _ => FlushStepKeepsInv(db, step, db');
  }

  lemma {:induction false} RunIsSafe(dbs: seq<Db>, steps: seq<Step>, i: nat)
    requires |dbs| == |steps| + 1 && Init(dbs[0]) && (forall k :: 0 <= k < |steps| ==> Next(dbs[k], steps[k], dbs[k + 1]))
    requires i < |dbs|
    ensures Inv(dbs[i])
  {
    hide Inv, Next, Init;
    if i == 0 {
      InitHasInv(dbs[0]);
    } else {
      RunIsSafe(dbs, steps, i - 1);
      NextKeepsInv(dbs[i - 1], steps[i - 1], dbs[i]);
    }
  }

  /** In every run, a file that a step deletes is in no referenced version, no pending output, and nothing recovery reads. */
  lemma DeletedIsNotNeeded(dbs: seq<Db>, steps: seq<Step>, i: nat, f: FileName)
    requires |dbs| == |steps| + 1 && Init(dbs[0]) && (forall k :: 0 <= k < |steps| ==> Next(dbs[k], steps[k], dbs[k + 1]))
    requires i < |steps| && f in dbs[i].files && f !in dbs[i + 1].files
    ensures !Needed(dbs[i + 1], f)
  {
    hide Init, Next, Inv, Needed;
    RunIsSafe(dbs, steps, i + 1);
    RunIsSafe(dbs, steps, i);
    if f.Table? { PendingIsKept(dbs[i], steps[i], dbs[i + 1], f); }
    NeededIsThere(dbs[i + 1], f);
  }

  /** Every table there is an output of the running compaction, or in a version that is current or that somebody refers to. */
  ghost predicate OnlyUsedTables(db: Db) {
    forall n: nat :: Table(n) in db.files ==>
      n in OpenOutputs(db) || exists v :: v in db.versions && (v == db.current || v in db.refs) && n in db.versions[v]
  }

  /** In every run, right after a flush or a compaction that ended well no obsolete file is left. */
  lemma ObsoleteIsGone(dbs: seq<Db>, steps: seq<Step>, i: nat)
    requires |dbs| == |steps| + 1 && Init(dbs[0]) && (forall k :: 0 <= k < |steps| ==> Next(dbs[k], steps[k], dbs[k + 1]))
    requires i < |steps| && (steps[i].FinishFlushStep? || steps[i].FinishMergeStep?) && !dbs[i + 1].error
    ensures NothingObsolete(dbs[i + 1], dbs[i + 1].files) && OnlyUsedTables(dbs[i + 1])
  {
    hide Init, Inv, NothingObsolete, OnlyUsedTables;
    RunIsSafe(dbs, steps, i + 1);
    var db, db' := dbs[i], dbs[i + 1];
    assert Next(db, steps[i], db');
    match steps[i]
    case FinishFlushStep(v) =>
      CollectionLeavesUsed(Install(db, v, Current(db) + db.flush.table, db.logfile).(hasImm := false, flush := NoFlush));
    case FinishMergeStep(v) =>
      RunIsSafe(dbs, steps, i);
      CommitHasNoFlush(db);
      var installed := Install(db, v, Merged(db), db.logNumber);
      CollectionLeavesUsed(Unref(installed, db.work.base).(pending := db.pending - db.work.outputs, work := Resting));
    case _ =>
  }

  /** The references that readers hold after the first i steps: those they took and have not given back. */
  ghost function HeldByReaders(dbs: seq<Db>, steps: seq<Step>, i: nat): multiset<nat>
    requires i <= |steps| <= |dbs|
  {
    if i == 0 then multiset{}
    else
      var held := HeldByReaders(dbs, steps, i - 1);
      match steps[i - 1]
      case RefStep => held + multiset{dbs[i - 1].current}
      case UnrefStep(v) => held - multiset{v}
      case _ => held
  }

  /** The reference that a compaction holds. */
  function HeldByWork(db: Db): multiset<nat> {
    if db.work.Resting? then multiset{} else multiset{db.work.base}
  }

  /** In every run the references are those of the readers and of the compaction under way: none is forgotten. */
  lemma {:induction false} NoReferenceIsForgotten(dbs: seq<Db>, steps: seq<Step>, i: nat)
    requires |dbs| == |steps| + 1 && Init(dbs[0]) && (forall k :: 0 <= k < |steps| ==> Next(dbs[k], steps[k], dbs[k + 1]))
    requires i < |dbs|
    ensures dbs[i].refs == HeldByReaders(dbs, steps, i) + HeldByWork(dbs[i])
  {
    hide Init, Next;
    if i == 0 {
      StartsUnreferenced(dbs[0]);
    } else {
      NoReferenceIsForgotten(dbs, steps, i - 1);
      StepReferences(dbs[i - 1], steps[i - 1], dbs[i], HeldByReaders(dbs, steps, i - 1));
    }
  }

  lemma StartsUnreferenced(db: Db)
    requires Init(db)
    ensures db.refs == HeldByWork(db) == multiset{}
  {
  }

  lemma StepReferences(db: Db, step: Step, db': Db, held: multiset<nat>)
    requires Next(db, step, db') && db.refs == held + HeldByWork(db)
    ensures step.RefStep? ==> db'.refs == held + multiset{db.current} + HeldByWork(db')
    ensures step.UnrefStep? ==> db'.refs == held - multiset{step.v} + HeldByWork(db')
    ensures !step.RefStep? && !step.UnrefStep? ==> db'.refs == held + HeldByWork(db')
  {
    match step
    case RefStep => MultisetsMove(held, HeldByWork(db), db.current);
    case UnrefStep(v) => ReaderLetsGo(held, HeldByWork(db), v);
    case StartMergeStep(_) =>
    case FinishMergeStep(v) => WorkLetsGo(db, step, db', held);
    case FailMergeStep => WorkLetsGo(db, step, db', held);
    case _ =>
      hide Collected, Install, Unref, Merged, Current;
      QuietReferences(db, step, db');
  }

  lemma MultisetsMove(a: multiset<nat>, b: multiset<nat>, v: nat)
    ensures a + b + multiset{v} == a + multiset{v} + b
  {
  }

  lemma ReaderLetsGo(a: multiset<nat>, b: multiset<nat>, v: nat)
    requires v in a + b && (b == multiset{} || exists w :: b == multiset{w} && (w != v || (a + b)[v] > 1))
    ensures a + b - multiset{v} == a - multiset{v} + b
  {
    assert a[v] > 0;
  }

  lemma WorkLetsGo(db: Db, step: Step, db': Db, held: multiset<nat>)
    requires Next(db, step, db') && (step.FinishMergeStep? || step.FailMergeStep?) && db.refs == held + multiset{db.work.base}
    ensures db'.work.Resting? && db'.refs == held
  {
    assert held + multiset{db.work.base} - multiset{db.work.base} == held;
  }

  lemma QuietReferences(db: Db, step: Step, db': Db)
    requires Next(db, step, db') && !step.RefStep? && !step.UnrefStep?
    requires !step.StartMergeStep? && !step.FinishMergeStep? && !step.FailMergeStep?
    ensures db'.refs == db.refs && HeldByWork(db') == HeldByWork(db)
  {
    hide Live, Keep;
  }

  lemma CollectionLeavesUsed(db: Db)
    requires !db.error && db.flush.NoFlush?
    ensures NothingObsolete(Collected(db), Collected(db).files)
    ensures Inv(Collected(db)) ==> OnlyUsedTables(Collected(db))
  {
    CollectedHasNothingObsolete(db);
    if Inv(Collected(db)) { LiveIsUsed(Collected(db)); }
  }

  lemma LiveIsUsed(db: Db)
    requires Referenced(db) && PendingIsUsed(db) && db.flush.NoFlush? && !db.error && db.files == Collected(db).files
    ensures OnlyUsedTables(db)
  {
    forall n: nat | Table(n) in db.files && n !in OpenOutputs(db)
      ensures exists v :: v in db.versions && (v == db.current || v in db.refs) && n in db.versions[v]
    {
      assert n in VersionFiles(db);
    }
  }

  lemma CommitHasNoFlush(db: Db)
    requires Inv(db) && db.work.Committing?
    ensures db.flush.NoFlush?
  {
  }

  /** A file that a reader, a writer or recovery may still open. */
  ghost predicate Needed(db: Db, f: FileName) {
    match f
    case Table(n) => n in VersionFiles(db) || n in db.pending || n in db.disk.tables
    case Log(n) => n in db.everLogs && n >= db.disk.logNumber
    case Manifest(n) => n == db.manifestNumber
    case _ => false
  }

  lemma NeededIsThere(db: Db, f: FileName)
    requires Inv(db) && f !in db.files && (f.Table? ==> f.n !in db.pending)
    ensures !Needed(db, f)
  {
  }

  lemma PendingIsKept(db: Db, step: Step, db': Db, f: FileName)
    requires Inv(db) && Next(db, step, db') && f in db.files && f !in db'.files && f.Table?
    ensures f.n !in db'.pending
  {
    match step
    case FinishFlushStep(v) => CollectedIsDead(Install(db, v, Current(db) + db.flush.table, db.logfile).(hasImm := false, flush := NoFlush), f);
    case FinishMergeStep(v) =>
      var installed := Install(db, v, Merged(db), db.logNumber);
      CollectedIsDead(Unref(installed, db.work.base).(pending := db.pending - db.work.outputs, work := Resting), f);
    case _ =>
  }

  lemma CollectedIsDead(db: Db, f: FileName)
    requires f in db.files && f !in Collected(db).files && f.Table?
    ensures f.n !in db.pending
  {
  }

  lemma InitHasInv(db: Db)
    requires Init(db)
    ensures Inv(db)
  {
  }
}
