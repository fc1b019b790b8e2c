/** The store as a state machine over its durable and volatile state (db_impl.cc, version_set.cc LogAndApply). */
module Store {
  import opened Bytestrings
  import opened Format
  import opened Versions
  import opened Inputs
  import opened CompactionInputs
  import opened Compactions
  import opened Merge
  import opened Views
  import opened ViewSteps
  import opened Jobs
  import opened History

  datatype LogFile = LogFile(number: nat, groups: seq<Group>)

  /** What the manifest's records add up to. */
  datatype Manifest = Manifest(v: Version, logNumber: nat, nextFile: nat, lastSeq: nat)

  /** Installing: a manifest record is appended, the version set does not point to the new version yet. */
  datatype Phase = Idle | Flushing | Compacting

  /**
   * `pending` is a group whose log record is appended and whose entries are not in the memtable yet; `job` is the
   * compaction that is under way.
   */
  datatype Db = Db(
    up: bool, mem: set<Entry>, imm: Option<set<Entry>>, pending: Option<Group>, current: Version,
    logNumber: nat, nextFile: nat, lastSeq: nat, logfile: nat, snaps: seq<nat>, phase: Phase,
    job: Option<Job>, logs: seq<LogFile>, manifest: Manifest, history: seq<Group>)

  /** The groups recovery replays: those of every log file numbered `from` or more, in file order. */
  function Replay(logs: seq<LogFile>, from: nat): seq<Group> {
    if logs == [] then []
    else Replay(logs[..|logs| - 1], from) + if logs[|logs| - 1].number >= from then logs[|logs| - 1].groups else []
  }

  function ImmSet(db: Db): set<Entry> {
    if db.imm.Some? then db.imm.value else {}
  }

  function PendingEntries(db: Db): set<Entry> {
    if db.pending.Some? then GroupEntries(db.pending.value) else {}
  }

  /** What readers use now. */
  function Current(db: Db): View {
    View(db.mem, ImmSet(db), db.current)
  }

  /** What readers use once the last manifest record is installed. */
  function Committed(db: Db): View {
    View(db.mem, if db.phase.Flushing? then {} else ImmSet(db), db.manifest.v)
  }

  /** The groups whose entries are in the memtable or below. */
  function Applied(db: Db): seq<Group> {
    if db.pending.Some? && db.history != [] then db.history[..|db.history| - 1] else db.history
  }

  function Tail(db: Db): seq<Group> {
    Replay(db.logs, db.manifest.logNumber)
  }

  function Oldest(db: Db): nat {
    if db.snaps == [] then db.lastSeq else db.snaps[0]
  }

  /** s holds entries of the history only, and reads as the whole history from `from` on. */
  ghost predicate Faithful(s: set<Entry>, h: seq<Group>, from: int) {
    s <= HistoryEntries(h) && forall at: nat :: at >= from ==> SameReads(s, HistoryEntries(h), at)
  }

  ghost predicate ViewOk(w: View, h: seq<Group>, from: int) {
    Sound(w.v) && LayerOrder(w) && Faithful(All(w), h, from)
  }

  ghost predicate LogsAscend(logs: seq<LogFile>) {
    forall i, j :: 0 <= i < j < |logs| ==> logs[i].number < logs[j].number
  }

  ghost predicate IsSuffix(t: seq<Group>, h: seq<Group>) {
    |t| <= |h| && t == h[|h| - |t|..]
  }

  /** The part of the history that only tables hold. */
  function Tabled(db: Db): seq<Group> {
    if |Tail(db)| <= |db.history| then db.history[..|db.history| - |Tail(db)|] else []
  }

  ghost predicate Durable(db: Db) {
    && Consecutive(db.history) && LastSeq(db.history) < MAX_SEQUENCE
    && LogsAscend(db.logs)
    && IsSuffix(Tail(db), db.history)
    && LastSeq(Tabled(db)) <= db.manifest.lastSeq <= LastSeq(db.history)
    && Fresh(db.manifest.v, db.manifest.nextFile)
  }

  /** The state a crash leaves: everything is in tables of the manifest's version or in logs it does not cover. */
  ghost predicate Recoverable(db: Db) {
    ViewOk(View(HistoryEntries(Tail(db)), {}, db.manifest.v), db.history, LastSeq(db.history))
  }

  predicate EndsWith(h: seq<Group>, g: Group) {
    h != [] && h[|h| - 1] == g
  }

  ghost predicate LogsHold(db: Db) {
    && db.logs != [] && db.logs[|db.logs| - 1].number == db.logfile
    && db.manifest.logNumber <= db.logfile
    && (db.pending.Some? ==> EndsWith(db.logs[|db.logs| - 1].groups, db.pending.value))
    && HistoryEntries(db.logs[|db.logs| - 1].groups) == db.mem + PendingEntries(db)
    && HistoryEntries(Replay(db.logs[..|db.logs| - 1], db.manifest.logNumber)) == Committed(db).imm
  }

  ghost predicate Counters(db: Db) {
    && db.manifest.lastSeq <= db.lastSeq == LastSeq(Applied(db))
    && (db.pending.Some? ==> EndsWith(db.history, db.pending.value))
    && db.logNumber <= db.manifest.logNumber && db.logfile < db.nextFile && db.manifest.nextFile <= db.nextFile && Fresh(db.current, db.nextFile)
    && (forall i :: 0 <= i < |db.snaps| ==> db.snaps[i] <= db.lastSeq)
    && (forall i, j :: 0 <= i < j < |db.snaps| ==> db.snaps[i] <= db.snaps[j])
  }

  ghost predicate PhaseOk(db: Db) {
    match db.phase
    case Idle => db.manifest.v == db.current && db.manifest.logNumber == db.logNumber
    case Flushing => db.imm.Some? && db.manifest.logNumber == db.logfile
    case Compacting => db.manifest.logNumber == db.logNumber
  }

  /** A compaction under way can still be installed, in the current version and in the recorded one. */
  ghost predicate JobInv(db: Db) {
    db.job.Some? ==>
      !db.phase.Compacting? && JobOk(db.current, db.job.value) && JobOk(db.manifest.v, db.job.value) && db.job.value.smallest <= Oldest(db)
  }

  ghost predicate Volatile(db: Db) {
    && ViewOk(Current(db), Applied(db), Oldest(db))
    && ViewOk(Committed(db), Applied(db), Oldest(db))
    && LogsHold(db) && Counters(db) && PhaseOk(db) && JobInv(db)
  }

  ghost predicate Inv(db: Db) {
    Durable(db) && if db.up then Volatile(db) else Recoverable(db)
  }

  // ---- Steps ----

  /** DBImpl::Write, first half: the group's record is appended to the log. */
  ghost predicate CanAppend(db: Db, ops: seq<Op>) {
    db.up && db.pending.None? && db.logs != [] && db.lastSeq + |ops| < MAX_SEQUENCE
  }

  function Append(db: Db, ops: seq<Op>): Db
    requires db.logs != []
  {
    var g := Group(db.lastSeq + 1, ops);
    var last := db.logs[|db.logs| - 1];
    db.(logs := db.logs[..|db.logs| - 1] + [last.(groups := last.groups + [g])],
        history := db.history + [g], pending := Some(g))
  }

  /** DBImpl::Write, second half: the memtable and the last sequence take the group in. */
  function Insert(db: Db): Db
    requires db.pending.Some?
  {
    db.(mem := db.mem + PendingEntries(db), lastSeq := db.lastSeq + |db.pending.value.ops|, pending := None)
  }

  /** MakeRoomForWrite: a new log file, a new memtable. */
  ghost predicate CanSwitch(db: Db) {
    db.up && db.pending.None? && db.imm.None?
  }

  function Switch(db: Db): Db {
    db.(mem := {}, imm := Some(db.mem), logfile := db.nextFile, nextFile := db.nextFile + 1,
        logs := db.logs + [LogFile(db.nextFile, [])])
  }

  ghost predicate TableOf(f: File, s: set<Entry>) {
    && Sorted(f.entries) && Entries(f.entries) == s && f.entries != []
    && f.smallest == f.entries[0].k && f.largest == f.entries[|f.entries| - 1].k
  }

  /**
   * CompactMemTable up to the appended manifest record. An empty memtable makes no table. A flush inside a compaction
   * goes to its output level only where the gaps of the inputs are filled.
   */
  ghost predicate CanFlush(db: Db, v2: Version, level: nat, f: File, limit: nat) {
    && db.up && db.phase.Idle? && db.imm.Some? && |db.current| == NUM_LEVELS
    && (db.imm.value == {} ==> v2 == db.current)
    && (db.imm.value != {} ==> TableOf(f, db.imm.value) && f.number == db.nextFile)
    && (db.imm.value != {} ==> LevelAllowed(db.current, level, f, limit) && Placed(db.current, v2, level, f))
    && (db.imm.value != {} && db.job.Some? && level == db.job.value.level + 1 ==>
        |db.job.value.base| == NUM_LEVELS && Guarded(db.current, db.job.value))
  }

  function Flush(db: Db, v2: Version): Db {
    db.(manifest := Manifest(v2, db.logfile, db.nextFile + 1, db.lastSeq), nextFile := db.nextFile + 1, phase := Flushing)
  }

  /** NewFileNumber, for a compaction's next output. */
  function Take(db: Db): Db {
    db.(nextFile := db.nextFile + 1)
  }

  /** A compaction starts: inputs that are closed on both levels, read in the current version. */
  ghost predicate CanPick(db: Db, level: nat, in0: seq<File>, in1: seq<File>) {
    && db.up && db.phase.Idle? && db.job.None? && |db.current| == NUM_LEVELS && level + 1 < NUM_LEVELS
    && Closed(db.current, level, in0, in1) && NoShared(db.current[level + 1], in1, in1)
  }

  /** What the merge drops is decided by the version and the oldest snapshot of this moment. */
  function Pick(db: Db, level: nat, in0: seq<File>, in1: seq<File>): Db {
    db.(job := Some(Job(db.current, level, in0, in1, Oldest(db))))
  }

  /** The compaction under way, up to its appended manifest record. */
  ghost predicate CanCompact(db: Db, v2: Version, outs: seq<File>, input: seq<Entry>) {
    && db.up && db.phase.Idle? && db.job.Some?
    && var j := db.job.value;
       && Compacted(db.current, v2, j.level, j.in0, j.in1, outs) && OutputsOk(db.current, j.level, j.in0, j.in1, outs)
       && |j.base| == NUM_LEVELS && Merged(j.base, j.level, j.in0, j.in1, input, j.smallest, outs)
       && forall o :: o in outs ==> o.number < db.nextFile
  }

  /** A trivial move up to the appended manifest record. */
  ghost predicate CanMove(db: Db, v2: Version, level: nat, f: File) {
    && db.up && db.phase.Idle? && db.job.None? && |db.current| == NUM_LEVELS && level + 1 < NUM_LEVELS
    && Closed(db.current, level, [f], []) && Compacted(db.current, v2, level, [f], [], [f])
  }

  function Compact(db: Db, v2: Version): Db {
    db.(manifest := Manifest(v2, db.logNumber, db.nextFile, db.lastSeq), phase := Compacting, job := None)
  }

  /** A compaction that fails, or that the shutdown stops, leaves the version as it is. */
  function Abandon(db: Db): Db {
    db.(job := None)
  }

  /** LogAndApply's last part: the new version becomes current, a flushed memtable is let go. */
  function Install(db: Db): Db {
    db.(current := db.manifest.v, logNumber := db.manifest.logNumber, imm := if db.phase.Flushing? then None else db.imm,
        phase := Idle)
  }

  function NewSnapshot(db: Db): Db {
    db.(snaps := db.snaps + [db.lastSeq])
  }

  function ReleaseSnapshot(db: Db, i: nat): Db
    requires i < |db.snaps|
  {
    db.(snaps := db.snaps[..i] + db.snaps[i + 1..])
  }

  /** DeleteObsoleteFiles, the log part: the first log goes if the version set no longer needs it. */
  ghost predicate CanCollect(db: Db) {
    db.up && |db.logs| > 1 && db.logs[0].number < db.logNumber
  }

  function Collect(db: Db): Db
    requires db.logs != []
  {
    db.(logs := db.logs[1..])
  }

  function Crash(db: Db): Db {
    db.(up := false)
  }

  /** DB::Open that fails after it made its new log file. */
  ghost predicate CanFailOpen(db: Db, number: nat) {
    !db.up && db.manifest.logNumber <= number && forall i :: 0 <= i < |db.logs| ==> db.logs[i].number < number
  }

  function FailOpen(db: Db, number: nat): Db {
    db.(logs := db.logs + [LogFile(number, [])])
  }

  /** Recovery: each run of replayed groups becomes one level-0 file, in order; a run without operations makes none. */
  ghost predicate RunsPlaced(v: Version, runs: seq<seq<Group>>, files: seq<File>, vs: seq<Version>) {
    && |vs| == |runs| + 1 && |files| == |runs| && vs[0] == v
    && forall i :: 0 <= i < |runs| ==> RunPlaced(vs[i], vs[i + 1], HistoryEntries(runs[i]), files[i])
  }

  ghost predicate RunPlaced(v: Version, v2: Version, s: set<Entry>, f: File) {
    if s == {} then v2 == v else TableOf(f, s) && Fresh(v, f.number) && Placed(v, v2, 0, f)
  }

  function FlattenRuns(runs: seq<seq<Group>>): seq<Group> {
    if runs == [] then [] else runs[0] + FlattenRuns(runs[1..])
  }

  ghost predicate CanOpen(db: Db, runs: seq<seq<Group>>, files: seq<File>, vs: seq<Version>, number: nat) {
    && CanFailOpen(db, number) && FlattenRuns(runs) == Tail(db) && RunsPlaced(db.manifest.v, runs, files, vs)
    && Fresh(vs[|vs| - 1], number)
  }

  /** RecoverLogFile's max_sequence over the replayed records. */
  function MaxSequence(h: seq<Group>): int {
    if h == [] then 0
    else
      var m, l := MaxSequence(h[..|h| - 1]), h[|h| - 1].first + |h[|h| - 1].ops| - 1;
      if l > m then l else m
  }

  function Open(db: Db, v2: Version, number: nat): Db {
    var last := if db.manifest.lastSeq < MaxSequence(Tail(db)) then MaxSequence(Tail(db)) else db.manifest.lastSeq;
    Db(true, {}, None, None, v2, number, number + 1, last, number, [], Idle,
       None, db.logs + [LogFile(number, [])], Manifest(v2, number, number + 1, last), db.history)
  }

  datatype Step =
    | AppendStep(ops: seq<Op>)
    | InsertStep
    | SwitchStep
    | FlushStep(v2: Version, level: nat, f: File, limit: nat)
    | TakeStep
    | PickStep(level: nat, in0: seq<File>, in1: seq<File>)
    | CompactStep(v2: Version, outs: seq<File>, input: seq<Entry>)
    | AbandonStep
    | MoveStep(v2: Version, level: nat, f: File)
    | InstallStep
    | SnapshotStep
    | ReleaseStep(i: nat)
    | CollectStep
    | CrashStep
    | FailOpenStep(number: nat)
    | OpenStep(runs: seq<seq<Group>>, files: seq<File>, vs: seq<Version>, number: nat)

  ghost predicate Next(db: Db, step: Step, db': Db) {
    match step
    case AppendStep(ops) => CanAppend(db, ops) && db' == Append(db, ops)
    case InsertStep => db.up && db.pending.Some? && db' == Insert(db)
    case SwitchStep => CanSwitch(db) && db' == Switch(db)
    case FlushStep(v2, level, f, limit) => CanFlush(db, v2, level, f, limit) && db' == Flush(db, v2)
    case TakeStep => db.up && db' == Take(db)
    case PickStep(level, in0, in1) => CanPick(db, level, in0, in1) && db' == Pick(db, level, in0, in1)
    case CompactStep(v2, outs, input) => CanCompact(db, v2, outs, input) && db' == Compact(db, v2)
    case AbandonStep => db.up && db' == Abandon(db)
    case MoveStep(v2, level, f) => CanMove(db, v2, level, f) && db' == Compact(db, v2)
    case InstallStep => db.up && !db.phase.Idle? && db' == Install(db)
    case SnapshotStep => db.up && db' == NewSnapshot(db)
    case ReleaseStep(i) => db.up && i < |db.snaps| && db' == ReleaseSnapshot(db, i)
    case CollectStep => CanCollect(db) && db' == Collect(db)
    case CrashStep => db.up && db' == Crash(db)
    case FailOpenStep(number) => CanFailOpen(db, number) && db' == FailOpen(db, number)
    case OpenStep(runs, files, vs, number) =>
      CanOpen(db, runs, files, vs, number) && db' == Open(db, vs[|vs| - 1], number)
  }

  /** NewDB: a manifest with no files, no logs, nothing written. */
  ghost predicate Init(db: Db) {
    && !db.up && db.logs == [] && db.history == []
    && db.manifest == Manifest([[], [], [], [], [], [], []], 0, 2, 0)
  }
}
