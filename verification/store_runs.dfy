/** What holds in every run of the store: reads, snapshots, crash recovery (db_impl.cc, snapshot.h). */
module StoreRuns {
  import opened Bytestrings
  import opened Format
  import opened Versions
  import opened Views
  import opened ViewSteps
  import opened Jobs
  import opened History
  import opened Store
  import opened StoreSteps

  lemma NextKeepsInv(db: Db, step: Step, db': Db)
    requires Inv(db) && Next(db, step, db')
    ensures Inv(db')
  {
    hide Inv, CanAppend, CanSwitch, CanFlush, CanPick, CanCompact, CanMove, CanCollect, CanFailOpen, CanOpen;
    hide Append, Insert, Switch, Flush, Take, Pick, Compact, Abandon, Install, NewSnapshot, ReleaseSnapshot, Collect, Crash, FailOpen, Open;
    match step
    case AppendStep(ops) => AppendKeepsInv(db, ops);
    case InsertStep => InsertKeepsInv(db);
    case SwitchStep => SwitchKeepsInv(db);
    case FlushStep(v2, level, f, limit) => FlushKeepsInv(db, v2, level, f, limit);
    case TakeStep => TakeKeepsInv(db);
    case PickStep(level, in0, in1) => PickKeepsInv(db, level, in0, in1);
    case CompactStep(v2, outs, input) => CompactKeepsInv(db, v2, outs, input);
    case AbandonStep => AbandonKeepsInv(db);
    case MoveStep(v2, level, f) => MoveKeepsInv(db, v2, level, f);
    case InstallStep => InstallKeepsInv(db);
    case SnapshotStep => SnapshotKeepsInv(db);
    case ReleaseStep(i) => ReleaseKeepsInv(db, i);
    case CollectStep => CollectKeepsInv(db);
    case CrashStep => CrashKeepsInv(db);
    case FailOpenStep(number) => FailOpenKeepsInv(db, number);
    case OpenStep(runs, files, vs, number) => OpenKeepsInv(db, runs, files, vs, number);
  }

  /** A run: states joined by steps, starting from a new database. */
  ghost predicate IsRun(dbs: seq<Db>, steps: seq<Step>) {
    && |dbs| == |steps| + 1 && Init(dbs[0])
    && forall i :: 0 <= i < |steps| ==> Next(dbs[i], steps[i], dbs[i + 1])
  }

  lemma {:induction false} RunKeepsInv(dbs: seq<Db>, steps: seq<Step>, i: nat)
    requires IsRun(dbs, steps) && i < |dbs|
    ensures Inv(dbs[i])
  {
    hide Inv, Next, Init;
    if i == 0 {
      InitHasInv(dbs[0]);
    } else {
      RunKeepsInv(dbs, steps, i - 1);
      NextKeepsInv(dbs[i - 1], steps[i - 1], dbs[i]);
    }
  }

  // ---- What was written ----

  /** The batches whose log records were appended, in order. */
  function Batches(steps: seq<Step>): seq<seq<Op>> {
    if steps == [] then []
    else Batches(steps[..|steps| - 1]) + match steps[|steps| - 1] { case AppendStep(ops) => [ops] case _ => [] }
  }

  /** The map a sequential store holds after the batches. */
  function ApplyBatches(bs: seq<seq<Op>>): map<UserKey, Bytes> {
    if bs == [] then map[] else ApplyOps(ApplyBatches(bs[..|bs| - 1]), bs[|bs| - 1])
  }

  function OpsOf(h: seq<Group>): seq<seq<Op>> {
    seq(|h|, i requires 0 <= i < |h| => h[i].ops)
  }

  lemma {:induction false} ApplyAllIsSequential(h: seq<Group>)
    ensures ApplyAll(h) == ApplyBatches(OpsOf(h))
  {
    if h != [] {
      ApplyAllIsSequential(h[..|h| - 1]);
      assert OpsOf(h)[..|h| - 1] == OpsOf(h[..|h| - 1]);
    }
  }

  lemma NextHistory(db: Db, step: Step, db': Db)
    requires Next(db, step, db')
    ensures OpsOf(db'.history) == OpsOf(db.history) + if step.AppendStep? then [step.ops] else []
  {
    hide CanAppend, CanSwitch, CanFlush, CanPick, CanCompact, CanMove, CanCollect, CanFailOpen, CanOpen;
  }

  lemma {:induction false} HistoryIsBatches(dbs: seq<Db>, steps: seq<Step>, i: nat)
    requires IsRun(dbs, steps) && i < |dbs|
    ensures OpsOf(dbs[i].history) == Batches(steps[..i])
  {
    hide Next;
    if i > 0 {
      HistoryIsBatches(dbs, steps, i - 1);
      NextHistory(dbs[i - 1], steps[i - 1], dbs[i]);
      assert steps[..i][..i - 1] == steps[..i - 1];
    }
  }

  // ---- What readers see ----

  /** Whatever a lookup of the newest visible entry returns stands for the value the entries read. */
  lemma NewestIsRead(s: set<Entry>, user: UserKey, at: nat, r: Option<Entry>, v: Option<Bytes>)
    requires Distinct(s) && Newest(s, user, at, r)
    ensures Reads(s, user, at, v) <==> v == Payload(r)
  {
    if q :| Newest(s, user, at, q) && Payload(q) == v { NewestIsUnique(s, user, at, q, r); }
  }

  /** At a sequence number where a prefix of the applied groups ends, a reader gets the map of that prefix. */
  lemma ReadsPrefix(db: Db, p: seq<Group>, at: nat, user: UserKey, r: Option<Entry>)
    requires Inv(db) && db.up && p <= Applied(db) && at == LastSeq(p) && at >= Oldest(db)
    requires Newest(All(Current(db)), user, at, r)
    ensures Payload(r) == Lookup(ApplyAll(p), user)
  {
    hide LogsHold, Counters, PhaseOk, JobInv, LayerOrder, Sound, All, Newest, HistoryEntries, Reads, Lookup, Payload, IsSuffix, LogsAscend, Fresh;
    var s, h, v := All(Current(db)), Applied(db), Payload(r);
    AppliedIsConsecutive(db);
    FaithfulIsDistinct(s, h, Oldest(db));
    NewestIsRead(s, user, at, r, v);
    assert SameReads(s, HistoryEntries(h), at);
    assert h == p + h[|p|..];
    SnapshotReadsPrefix(p, h[|p|..], user, v);
  }

  lemma AppliedGrows(db: Db, step: Step, db': Db)
    requires Inv(db) && Next(db, step, db')
    ensures Applied(db) <= Applied(db')
  {
    hide CanAppend, CanSwitch, CanFlush, CanPick, CanCompact, CanMove, CanCollect, CanFailOpen, CanOpen, Durable, Volatile;
    if step.AppendStep? { assert db.pending.None? by { AppendNeeds(db, step.ops); } }
  }

  lemma AppendNeeds(db: Db, ops: seq<Op>)
    requires CanAppend(db, ops)
    ensures db.pending.None?
  {
  }

  lemma {:induction false} AppliedOnlyGrows(dbs: seq<Db>, steps: seq<Step>, i: nat, j: nat)
    requires IsRun(dbs, steps) && i <= j < |dbs|
    ensures Applied(dbs[i]) <= Applied(dbs[j])
    decreases j
  {
    hide Inv, Next, Init, Applied;
    if i < j {
      AppliedOnlyGrows(dbs, steps, i, j - 1);
      RunKeepsInv(dbs, steps, j - 1);
      AppliedGrows(dbs[j - 1], steps[j - 1], dbs[j]);
    }
  }

  /** In every run, a lookup at the last sequence number returns what the batches applied so far leave. */
  lemma LatestReads(dbs: seq<Db>, steps: seq<Step>, i: nat, user: UserKey, r: Option<Entry>)
    requires IsRun(dbs, steps) && i < |dbs| && dbs[i].up
    requires Newest(All(Current(dbs[i])), user, dbs[i].lastSeq, r)
    ensures Payload(r) == Lookup(ApplyBatches(OpsOf(Applied(dbs[i]))), user)
  {
    hide ViewOk, LogsHold, PhaseOk, JobInv, All, Newest, HistoryEntries, IsSuffix, LogsAscend, Fresh, Next, Init, Lookup, Payload;
    var db := dbs[i];
    RunKeepsInv(dbs, steps, i);
    ReadsPrefix(db, Applied(db), db.lastSeq, user, r);
    ApplyAllIsSequential(Applied(db));
  }

  /** In every run, a lookup at a live snapshot returns what a lookup at the moment it was taken would have returned. */
  lemma SnapshotsAreStable(dbs: seq<Db>, steps: seq<Step>, i: nat, j: nat, user: UserKey, r: Option<Entry>)
    requires IsRun(dbs, steps) && i <= j < |dbs| && dbs[i].up && dbs[j].up
    requires dbs[i].lastSeq in dbs[j].snaps && Newest(All(Current(dbs[j])), user, dbs[i].lastSeq, r)
    ensures Payload(r) == Lookup(ApplyBatches(OpsOf(Applied(dbs[i]))), user)
  {
    hide ViewOk, LogsHold, PhaseOk, JobInv, All, Newest, HistoryEntries, IsSuffix, LogsAscend, Fresh, Next, Init, Lookup, Payload;
    RunKeepsInv(dbs, steps, i);
    RunKeepsInv(dbs, steps, j);
    AppliedOnlyGrows(dbs, steps, i, j);
    SnapIsOldest(dbs[j], dbs[i].lastSeq);
    ReadsPrefix(dbs[j], Applied(dbs[i]), dbs[i].lastSeq, user, r);
    ApplyAllIsSequential(Applied(dbs[i]));
  }

  lemma SnapIsOldest(db: Db, at: nat)
    requires Counters(db) && at in db.snaps
    ensures at >= Oldest(db)
  {
    var k :| 0 <= k < |db.snaps| && db.snaps[k] == at;
    assert k > 0 ==> db.snaps[0] <= db.snaps[k];
  }

  /** After any crash, reopening gives what applying, in order, every batch ever logged gives. */
  lemma RecoveryIsComplete(dbs: seq<Db>, steps: seq<Step>, i: nat, user: UserKey, r: Option<Entry>)
    requires IsRun(dbs, steps) && i < |steps| && steps[i].OpenStep?
    requires Newest(All(Current(dbs[i + 1])), user, dbs[i + 1].lastSeq, r)
    ensures Payload(r) == Lookup(ApplyBatches(Batches(steps[..i])), user)
  {
    hide All, Newest, CanOpen, Init, Lookup, Payload, MaxSequence, Batches;
    assert Next(dbs[i], steps[i], dbs[i + 1]);
    assert dbs[i + 1].up && Applied(dbs[i + 1]) == dbs[i + 1].history == dbs[i].history;
    hide Next, Applied;
    LatestReads(dbs, steps, i + 1, user, r);
    HistoryIsBatches(dbs, steps, i);
  }

  /** Entries that are in no table of the manifest's version are in a log numbered at least its log number. */
  lemma UnflushedIsLogged(dbs: seq<Db>, steps: seq<Step>, i: nat, e: Entry)
    requires IsRun(dbs, steps) && i < |dbs| && dbs[i].up
    requires e in dbs[i].mem || e in PendingEntries(dbs[i]) || (e in ImmSet(dbs[i]) && !dbs[i].phase.Flushing?)
    ensures exists l :: l in dbs[i].logs && l.number >= dbs[i].manifest.logNumber && e in HistoryEntries(l.groups)
  {
    hide ViewOk, Counters, PhaseOk, JobInv, HistoryEntries, IsSuffix, LogsAscend, Fresh, Next, Init;
    RunKeepsInv(dbs, steps, i);
    TailEntries(dbs[i]);
    ReplayedFrom(dbs[i].logs, dbs[i].manifest.logNumber, e);
  }

  lemma {:induction false} ReplayedFrom(logs: seq<LogFile>, from: nat, e: Entry)
    requires e in HistoryEntries(Replay(logs, from))
    ensures exists l :: l in logs && l.number >= from && e in HistoryEntries(l.groups)
  {
    if logs != [] {
      var init, last := logs[..|logs| - 1], logs[|logs| - 1];
      EntriesOfConcat(Replay(init, from), if last.number >= from then last.groups else []);
      if e in HistoryEntries(Replay(init, from)) { ReplayedFrom(init, from, e); }
      assert last in logs && forall l :: l in init ==> l in logs;
    }
  }

  /** While the store is open, the sequence number compaction may drop below never falls (smallest_snapshot). */
  lemma OldestOnlyRises(db: Db, step: Step, db': Db)
    requires Inv(db) && Next(db, step, db') && db.up
    ensures Oldest(db) <= Oldest(db')
  {
    hide CanAppend, CanSwitch, CanFlush, CanPick, CanCompact, CanMove, CanCollect, CanFailOpen, CanOpen, Durable, ViewOk, LogsHold, PhaseOk, JobInv, Fresh;
    if step.OpenStep? { OpenNeeds(db, step, db'); }
  }

  lemma OpenNeeds(db: Db, step: Step, db': Db)
    requires Next(db, step, db') && step.OpenStep?
    ensures !db.up
  {
  }

  /** No more is kept for readers than they need: the bound is a live snapshot's number, or the last one if there is no snapshot. */
  lemma BoundIsTight(dbs: seq<Db>, steps: seq<Step>, i: nat)
    requires IsRun(dbs, steps) && i < |steps| && steps[i].PickStep?
    ensures dbs[i + 1].job.Some?
    ensures var db, bound := dbs[i], dbs[i + 1].job.value.smallest;
      && bound <= db.lastSeq && (forall k :: 0 <= k < |db.snaps| ==> bound <= db.snaps[k])
      && (bound in db.snaps || (db.snaps == [] && bound == db.lastSeq))
  {
    hide Next, Durable, ViewOk, LogsHold, PhaseOk, JobInv, Fresh;
    RunKeepsInv(dbs, steps, i);
    PickSets(dbs[i], steps[i], dbs[i + 1]);
  }

  lemma PickSets(db: Db, step: Step, db': Db)
    requires Next(db, step, db') && step.PickStep?
    ensures db.up && db'.job.Some? && db'.job.value.smallest == Oldest(db)
  {
  }

  /** The running compaction's inputs are guarded in the current version and in the recorded one. */
  ghost predicate JobGuarded(db: Db) {
    db.job.Some? ==> Guarded(db.current, db.job.value) && Guarded(db.manifest.v, db.job.value)
  }

  /** A compaction that starts guarded stays so: what a flush inside it has to ask for holds until it ends. */
  lemma GuardStays(db: Db, step: Step, db': Db)
    requires Inv(db) && Next(db, step, db') && db.up && db.job.Some? && db'.job == db.job && JobGuarded(db)
    ensures JobGuarded(db')
  {
    hide CanAppend, CanSwitch, CanPick, CanCompact, CanMove, CanCollect, CanFailOpen, CanOpen, Durable, ViewOk, LogsHold, Fresh, JobOk;
    hide Guarded, Placed, TableOf;
    if step.FlushStep? && db.imm.value != {} {
      MoreFilesGuard(db.current, step.v2, step.level, step.f, db.job.value);
    }
  }

  // ---- Lookups in the store's own order ----

  /** What a reader holds in state db: its memtables as sorted runs, and its version. */
  ghost predicate ReaderHolds(db: Db, mem: seq<Entry>, imm: seq<Entry>, v: Version) {
    Sorted(mem) && Entries(mem) == db.mem && Sorted(imm) && Entries(imm) == ImmSet(db) && v == db.current
  }

  /** DBImpl::Get in a state of a run: what it finds is the newest visible entry of all. */
  method GetAt(ghost db: Db, mem: seq<Entry>, imm: seq<Entry>, v: Version, user: UserKey, at: nat) returns (r: Option<Entry>)
    requires Inv(db) && db.up && ReaderHolds(db, mem, imm, v)
    ensures Newest(All(Current(db)), user, at, r)
  {
    hide LogsHold, Counters, PhaseOk, JobInv, LayerOrder, Faithful, Newest, IsSuffix, LogsAscend, Fresh, Sorted, HistoryEntries;
    SoundIsOk(v);
    r := Views.Get(mem, imm, v, user, at);
  }

  /** In every run, Get at the last sequence number returns what the batches applied so far leave. */
  method GetLatest(ghost dbs: seq<Db>, ghost steps: seq<Step>, ghost i: nat, mem: seq<Entry>, imm: seq<Entry>, v: Version,
                   lastSeq: nat, user: UserKey) returns (r: Option<Bytes>)
    requires IsRun(dbs, steps) && i < |dbs| && dbs[i].up
    requires ReaderHolds(dbs[i], mem, imm, v) && lastSeq == dbs[i].lastSeq
    ensures r == Lookup(ApplyBatches(OpsOf(Applied(dbs[i]))), user)
  {
    hide *;
    RunKeepsInv(dbs, steps, i);
    var e := GetAt(dbs[i], mem, imm, v, user, lastSeq);
    LatestReads(dbs, steps, i, user, e);
    r := Payload(e);
  }

  /** In every run, Get at a live snapshot returns what the batches applied before it was taken left. */
  method GetSnapshot(ghost dbs: seq<Db>, ghost steps: seq<Step>, ghost i: nat, ghost j: nat, mem: seq<Entry>, imm: seq<Entry>,
                     v: Version, snapshot: nat, user: UserKey) returns (r: Option<Bytes>)
    requires IsRun(dbs, steps) && i <= j < |dbs| && dbs[i].up && dbs[j].up
    requires snapshot == dbs[i].lastSeq && snapshot in dbs[j].snaps && ReaderHolds(dbs[j], mem, imm, v)
    ensures r == Lookup(ApplyBatches(OpsOf(Applied(dbs[i]))), user)
  {
    hide *;
    RunKeepsInv(dbs, steps, j);
    var e := GetAt(dbs[j], mem, imm, v, user, snapshot);
    SnapshotsAreStable(dbs, steps, i, j, user, e);
    r := Payload(e);
  }

  /** After any crash and reopening, Get returns what applying, in order, every batch ever logged gives. */
  method GetRecovered(ghost dbs: seq<Db>, ghost steps: seq<Step>, ghost i: nat, mem: seq<Entry>, imm: seq<Entry>, v: Version,
                      lastSeq: nat, user: UserKey) returns (r: Option<Bytes>)
    requires IsRun(dbs, steps) && i < |steps| && steps[i].OpenStep?
    requires ReaderHolds(dbs[i + 1], mem, imm, v) && lastSeq == dbs[i + 1].lastSeq
    ensures r == Lookup(ApplyBatches(Batches(steps[..i])), user)
  {
    assert Next(dbs[i], steps[i], dbs[i + 1]) && dbs[i + 1].up;
    hide *;
    RunKeepsInv(dbs, steps, i + 1);
    var e := GetAt(dbs[i + 1], mem, imm, v, user, lastSeq);
    RecoveryIsComplete(dbs, steps, i, user, e);
    r := Payload(e);
  }
}
