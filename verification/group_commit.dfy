/** Every interleaving of writers going through the queue (db_impl.cc, Write). */
module GroupCommit {
  import opened Bytestrings
  import opened Comparators
  import opened WriteBatches
  import opened MemTables
  import opened Writers

  /** One log record: the sequence number of its first operation, and the operations. */
  datatype LogRecord = LogRecord(first: nat, ops: seq<Op>)

  /** How far the leader is. The mutex is free from Built until the group is inserted, so others come and go meanwhile. */
  datatype Stage = Built | Logged | Inserting(done: nat)

  datatype Phase = Idle | Leading(members: nat, ops: seq<Op>, stage: Stage)

  /** `arrived` and `finished` remember the writers in the order they queued up and were released. */
  datatype Db = Db(
    queue: seq<Request>,
    phase: Phase,
    log: seq<LogRecord>,
    synced: nat,
    mem: seq<Record>,
    last: nat,
    arrived: seq<Request>,
    finished: seq<Request>
  )

  ghost predicate Init(s: Db) {
    s == Db([], Idle, [], 0, [], 0, [], [])
  }

  ghost predicate Fresh(arrived: seq<Request>, r: Request) {
    forall i :: 0 <= i < |arrived| ==> arrived[i].id != r.id
  }

  ghost predicate Arrive(s: Db, t: Db, r: Request) {
    Fresh(s.arrived, r) && t == s.(queue := s.queue + [r], arrived := s.arrived + [r])
  }

  /** A null batch at the front is alone in its group and writes nothing. */
  ghost predicate Skip(s: Db, t: Db) {
    && s.phase.Idle? && s.queue != [] && s.queue[0].ops.None?
    && t == s.(queue := s.queue[1..], finished := s.finished + s.queue[..1])
  }

  ghost predicate Build(s: Db, t: Db, n: nat) {
    && s.phase.Idle? && s.queue != [] && s.queue[0].ops.Some? && IsGroup(s.queue, n)
    && t == s.(phase := Leading(n, Together(s.queue[..n]), Built))
  }

  /** There is one way only to build the next group. */
  lemma BuildIsDetermined(s: Db, t: Db, m: nat, u: Db, n: nat)
    requires Build(s, t, m) && Build(s, u, n)
    ensures m == n && t == u
  {
    hide IsGroup, Together;
    GroupIsUnique(s.queue, m, n);
  }

  ghost predicate Log(s: Db, t: Db) {
    && s.phase.Leading? && s.phase.stage == Built
    && t == s.(log := s.log + [LogRecord(s.last + 1, s.phase.ops)], phase := s.phase.(stage := Logged))
  }

  /** Sync covers the whole log so far, but only when the leader asks for it. */
  ghost predicate Sync(s: Db, t: Db) {
    && s.phase.Leading? && s.phase.stage == Logged && s.queue != []
    && t == s.(synced := if s.queue[0].sync then |s.log| else s.synced, phase := s.phase.(stage := Inserting(0)))
  }

  ghost predicate Insert(s: Db, t: Db) {
    && s.phase.Leading? && s.phase.stage.Inserting? && s.phase.stage.done < |s.phase.ops|
    && var k := s.phase.stage.done;
       t == s.(mem := s.mem + [Record(s.last + 1 + k, s.phase.ops[k])], phase := s.phase.(stage := Inserting(k + 1)))
  }

  /** The sequence number moves and the group is released, all under the mutex. */
  ghost predicate Finish(s: Db, t: Db) {
    && s.phase.Leading? && s.phase.stage == Inserting(|s.phase.ops|) && s.phase.members <= |s.queue|
    && t == s.(phase := Idle, last := s.last + |s.phase.ops|, queue := s.queue[s.phase.members..],
               finished := s.finished + s.queue[..s.phase.members])
  }

  ghost predicate LeaderNext(s: Db, t: Db) {
    Skip(s, t) || (exists n :: Build(s, t, n)) || Log(s, t) || Sync(s, t) || Insert(s, t) || Finish(s, t)
  }

  ghost predicate Next(s: Db, t: Db) {
    LeaderNext(s, t) || exists r :: Arrive(s, t, r)
  }

  ghost predicate IsRun(run: seq<Db>) {
    run != [] && Init(run[0]) && forall i :: 0 <= i < |run| - 1 ==> Next(run[i], run[i + 1])
  }

  // ---- What every step keeps ----

  function LogOps(log: seq<LogRecord>): seq<Op> {
    if log == [] then [] else LogOps(log[..|log| - 1]) + log[|log| - 1].ops
  }

  /** Each record's number is one more than the number of operations before it. */
  ghost predicate LogNumbered(log: seq<LogRecord>) {
    forall i :: 0 <= i < |log| ==> log[i].first == |LogOps(log[..i])| + 1
  }

  /** Nobody is lost, nobody is released twice, nobody overtakes. */
  ghost predicate QueueOk(s: Db) {
    && s.finished + s.queue == s.arrived
    && forall i, j :: 0 <= i < j < |s.arrived| ==> s.arrived[i].id != s.arrived[j].id
  }

  ghost predicate PhaseOk(s: Db) {
    s.phase.Leading? ==>
      && 1 <= s.phase.members <= |s.queue|
      && s.phase.ops == Together(s.queue[..s.phase.members])
      && (forall i :: 0 <= i < s.phase.members && s.queue[i].sync ==> s.queue[0].sync)
      && (s.phase.stage.Inserting? ==> s.phase.stage.done <= |s.phase.ops|)
  }

  /** The operations in the log, and in the memtable. */
  function Appended(s: Db): seq<Op> {
    Together(s.finished) + if s.phase.Leading? && s.phase.stage != Built then s.phase.ops else []
  }

  function Inserted(s: Db): seq<Op> {
    Together(s.finished) +
      if s.phase.Leading? && s.phase.stage.Inserting? && s.phase.stage.done <= |s.phase.ops|
      then s.phase.ops[..s.phase.stage.done] else []
  }

  ghost predicate ContentsOk(s: Db) {
    && s.last == |Together(s.finished)|
    && LogOps(s.log) == Appended(s) && LogNumbered(s.log)
    && s.mem == Numbered(1, Inserted(s))
  }

  /** The first n operations are in the synced part of the log. */
  ghost predicate Durable(log: seq<LogRecord>, synced: nat, n: nat) {
    synced <= |log| && n <= |LogOps(log[..synced])|
  }

  ghost predicate SyncOk(s: Db) {
    && s.synced <= |s.log|
    && (forall i :: 0 <= i < |s.finished| && s.finished[i].sync && s.finished[i].ops.Some? ==>
          Durable(s.log, s.synced, |Together(s.finished[..i + 1])|))
    && (s.phase.Leading? && s.phase.stage.Inserting? && s.queue != [] && s.queue[0].sync ==>
          Durable(s.log, s.synced, |Appended(s)|))
  }

  ghost predicate Inv(s: Db) {
    QueueOk(s) && PhaseOk(s) && ContentsOk(s) && SyncOk(s)
  }

  lemma InitHolds(s: Db)
    requires Init(s)
    ensures Inv(s)
  {
  }

  lemma {:induction false} ArriveKeepsInv(s: Db, t: Db, r: Request)
    requires Inv(s) && Arrive(s, t, r)
    ensures Inv(t)
  {
    hide Together, LogOps, Numbered, Durable, LogNumbered;
    assert s.finished + (s.queue + [r]) == s.arrived + [r];
    if s.phase.Leading? {
      assert t.queue[..s.phase.members] == s.queue[..s.phase.members];
    }
  }

  lemma {:induction false} SkipKeepsInv(s: Db, t: Db)
    requires Inv(s) && Skip(s, t)
    ensures Inv(t)
  {
    hide LogOps, Numbered, Durable, LogNumbered, Together;
    assert s.finished + s.queue == (s.finished + s.queue[..1]) + s.queue[1..];
    TogetherConcat(s.finished, s.queue[..1]);
    FirstAlone(s.queue);
    assert Together(t.finished) == Together(s.finished) + [] == Together(s.finished);
    PrefixesStay(s.finished, s.queue[..1]);
  }

  /** Earlier prefixes of the finished writers are still there when more finish. */
  lemma PrefixesStay(a: seq<Request>, b: seq<Request>)
    ensures forall i :: 0 < i <= |a| ==> (a + b)[..i] == a[..i]
  {
  }

  lemma {:induction false} BuildKeepsInv(s: Db, t: Db, n: nat)
    requires Inv(s) && Build(s, t, n)
    ensures Inv(t)
  {
    hide LogOps, Numbered, Durable, LogNumbered, Together, IsGroup;
    GroupSize(s.queue, n);
    SyncNeedsSyncLeader(s.queue, n);
  }

  lemma GroupSize(q: seq<Request>, n: nat)
    requires IsGroup(q, n)
    ensures 1 <= n <= |q|
  {
  }

  lemma {:induction false} LogGrows(log: seq<LogRecord>, r: LogRecord)
    requires LogNumbered(log) && r.first == |LogOps(log)| + 1
    ensures LogNumbered(log + [r]) && LogOps(log + [r]) == LogOps(log) + r.ops
  {
    var now := log + [r];
    forall i | 0 <= i < |now| ensures now[i].first == |LogOps(now[..i])| + 1 {
      assert i < |log| ==> now[..i] == log[..i];
    }
    assert now[..|log|] == log;
  }

  lemma StaysDurable(log: seq<LogRecord>, r: LogRecord, synced: nat, n: nat)
    requires Durable(log, synced, n)
    ensures Durable(log + [r], synced, n)
  {
    assert (log + [r])[..synced] == log[..synced];
  }

  lemma {:induction false} LogKeepsInv(s: Db, t: Db)
    requires Inv(s) && Log(s, t)
    ensures Inv(t)
  {
    hide LogOps, Numbered, Durable, LogNumbered, Together;
    var r := LogRecord(s.last + 1, s.phase.ops);
    assert Together(s.finished) + [] == Together(s.finished);
    LogGrows(s.log, r);
    forall i | 0 <= i < |t.finished| && t.finished[i].sync && t.finished[i].ops.Some?
      ensures Durable(t.log, t.synced, |Together(t.finished[..i + 1])|)
    {
      StaysDurable(s.log, r, s.synced, |Together(s.finished[..i + 1])|);
    }
  }

  lemma WholeLogIsDurable(log: seq<LogRecord>, n: nat)
    requires n <= |LogOps(log)|
    ensures Durable(log, |log|, n)
  {
    assert log[..|log|] == log;
  }

  lemma {:induction false} SyncKeepsInv(s: Db, t: Db)
    requires Inv(s) && Sync(s, t)
    ensures Inv(t)
  {
    hide LogOps, Numbered, Durable, LogNumbered, Together;
    assert s.phase.ops[..0] == [];
    forall i | 0 <= i < |t.finished| && t.finished[i].sync && t.finished[i].ops.Some?
      ensures Durable(t.log, t.synced, |Together(t.finished[..i + 1])|)
    {
      CountOfPrefix(s.finished, i + 1, |s.finished|);
      assert s.finished[..|s.finished|] == s.finished;
      WholeLogIsDurable(s.log, |Together(s.finished[..i + 1])|);
    }
    WholeLogIsDurable(s.log, |Appended(s)|);
  }

  lemma {:induction false} InsertKeepsInv(s: Db, t: Db)
    requires Inv(s) && Insert(s, t)
    ensures Inv(t)
  {
    hide LogOps, Numbered, Durable, LogNumbered, Together;
    var k, ops := s.phase.stage.done, s.phase.ops;
    assert ops[..k + 1] == ops[..k] + [ops[k]];
    assert Inserted(t) == Inserted(s) + [ops[k]];
    NumberedMore(1, Inserted(s), ops[k]);
  }

  lemma {:induction false} FinishKeepsInv(s: Db, t: Db)
    requires Inv(s) && Finish(s, t)
    ensures Inv(t)
  {
    hide LogOps, Numbered, Durable, LogNumbered, Together;
    var n, ops := s.phase.members, s.phase.ops;
    assert s.finished + s.queue == (s.finished + s.queue[..n]) + s.queue[n..];
    TogetherConcat(s.finished, s.queue[..n]);
    assert ops[..|ops|] == ops;
    assert Together(t.finished) + [] == Together(t.finished);
    PrefixesStay(s.finished, s.queue[..n]);
    forall i | 0 <= i < |t.finished| && t.finished[i].sync && t.finished[i].ops.Some?
      ensures Durable(t.log, t.synced, |Together(t.finished[..i + 1])|)
    {
      if i >= |s.finished| {
        assert t.finished[i] == s.queue[i - |s.finished|];
        CountOfPrefix(t.finished, i + 1, |t.finished|);
        assert t.finished[..|t.finished|] == t.finished;
        LessIsDurable(s.log, s.synced, |Together(t.finished[..i + 1])|, |Appended(s)|);
      }
    }
  }

  lemma LessIsDurable(log: seq<LogRecord>, synced: nat, m: nat, n: nat)
    requires m <= n && Durable(log, synced, n)
    ensures Durable(log, synced, m)
  {
  }

  lemma NextKeepsInv(s: Db, t: Db)
    requires Inv(s) && Next(s, t)
    ensures Inv(t)
  {
    hide Inv, Arrive, Skip, Build, Log, Sync, Insert, Finish;
    if r :| Arrive(s, t, r) { ArriveKeepsInv(s, t, r); }
    else if Skip(s, t) { SkipKeepsInv(s, t); }
    else if n :| Build(s, t, n) { BuildKeepsInv(s, t, n); }
    else if Log(s, t) { LogKeepsInv(s, t); }
    else if Sync(s, t) { SyncKeepsInv(s, t); }
    else if Insert(s, t) { InsertKeepsInv(s, t); }
    else { FinishKeepsInv(s, t); }
  }

  lemma {:induction false} RunKeepsInv(run: seq<Db>)
    requires IsRun(run)
    ensures Inv(run[|run| - 1])
  {
    hide Inv, Next, Init;
    if |run| == 1 {
      InitHolds(run[0]);
    } else {
      RunKeepsInv(run[..|run| - 1]);
      assert Next(run[|run| - 2], run[|run| - 1]);
      NextKeepsInv(run[|run| - 2], run[|run| - 1]);
    }
  }

  // ---- What follows for every run ----

  /** Writers are released in the order they queued up, each exactly once. */
  lemma FinishedOnceInOrder(run: seq<Db>)
    requires IsRun(run)
    ensures var s := run[|run| - 1];
      && |s.finished| <= |s.arrived| && s.finished == s.arrived[..|s.finished|]
      && forall i, j :: 0 <= i < j < |s.finished| ==> s.finished[i].id != s.finished[j].id
  {
    hide Next, Init;
    RunKeepsInv(run);
  }

  /** A reader at the last sequence number gets the outcome of the finished writers' batches, applied one by one, and nothing of a group in progress. */
  lemma ReaderSeesWholeGroups(run: seq<Db>, order: Order, key: Bytes)
    requires IsRun(run)
    ensures var s := run[|run| - 1];
      && s.last == |Together(s.finished)|
      && NewestOp(order, SetOf(s.mem), key, s.last, LastOn(order, Together(s.finished), key))
  {
    hide Next, Init, Together, Numbered, NewestOp, LastOn, LogOps, SetOf;
    var s := run[|run| - 1];
    RunKeepsInv(run);
    ReadsAsApplied(order, Inserted(s), key, s.last);
    assert Inserted(s)[..s.last] == Together(s.finished);
  }

  /** What part of the group under way the memtable has: none before the inserting begins. */
  function GroupPart(phase: Phase): nat {
    if phase.Leading? && phase.stage.Inserting? then phase.stage.done else 0
  }

  /**
   * The memtable holds the batches of all finished writers and then the first operations of the group under way, if
   * there is one, with consecutive numbers and nothing else; the log is ahead by at most that group.
   */
  lemma MemtableIsBatchesInOrder(run: seq<Db>)
    requires IsRun(run)
    ensures var s := run[|run| - 1];
      && (s.phase.Idle? ==> s.mem == Numbered(1, Together(s.finished)) && LogOps(s.log) == Together(s.finished))
      && (s.phase.Leading? ==>
            && s.phase.members <= |s.queue| && s.phase.ops == Together(s.queue[..s.phase.members])
            && GroupPart(s.phase) <= |s.phase.ops|
            && s.mem == Numbered(1, Together(s.finished) + s.phase.ops[..GroupPart(s.phase)])
            && LogOps(s.log) == Together(s.finished) + if s.phase.stage == Built then [] else s.phase.ops)
      && LogNumbered(s.log)
  {
    hide Next, Init, Together, LogOps, LogNumbered, Numbered;
    RunKeepsInv(run);
    var s := run[|run| - 1];
    assert Together(s.finished) + [] == Together(s.finished);
    if s.phase.Leading? { assert s.phase.ops[..0] == []; }
  }

  /** When a writer that asked for a sync is released, its operations and all before it are in the synced part of the log. */
  lemma SyncIsDurable(run: seq<Db>, i: nat)
    requires IsRun(run)
    requires i < |run[|run| - 1].finished|
    requires run[|run| - 1].finished[i].sync && run[|run| - 1].finished[i].ops.Some?
    ensures var s := run[|run| - 1];
      && s.synced <= |s.log|
      && Together(s.finished[..i + 1]) <= LogOps(s.log[..s.synced])
  {
    hide Next, Init, Together, LogOps, Numbered, LogNumbered;
    RunKeepsInv(run);
    var s := run[|run| - 1];
    var a, b := Together(s.finished[..i + 1]), LogOps(s.log[..s.synced]);
    LogPrefix(s.log, s.synced);
    TogetherConcat(s.finished[..i + 1], s.finished[i + 1..]);
    assert s.finished[..i + 1] + s.finished[i + 1..] == s.finished;
    assert a <= Appended(s) && b <= Appended(s);
    ShorterIsPrefix(a, b, Appended(s));
  }

  lemma {:induction false} LogPrefix(log: seq<LogRecord>, n: nat)
    requires n <= |log|
    ensures LogOps(log[..n]) <= LogOps(log)
  {
    if n < |log| {
      LogPrefix(log[..|log| - 1], n);
      assert log[..|log| - 1][..n] == log[..n];
    } else {
      assert log[..n] == log;
    }
  }

  lemma ShorterIsPrefix(a: seq<Op>, b: seq<Op>, c: seq<Op>)
    requires a <= c && b <= c && |a| <= |b|
    ensures a <= b
  {
  }

  // ---- Nobody waits for ever ----

  ghost function StepsLeft(s: Db): nat {
    match s.phase
    case Idle => |s.queue| + 1
    case Leading(_, ops, Built) => |ops| + 3
    case Leading(_, ops, Logged) => |ops| + 2
    case Leading(_, ops, Inserting(k)) => if k <= |ops| then |ops| - k + 1 else 0
  }

  lemma {:induction false} GroupExists(q: seq<Request>, n: nat) returns (m: nat)
    requires 1 <= n <= |q| && forall i :: 1 <= i < n ==> Admitted(q, i)
    ensures IsGroup(q, m)
    decreases |q| - n
  {
    hide Admitted;
    if n == |q| || !Admitted(q, n) {
      m := n;
    } else {
      m := GroupExists(q, n + 1);
    }
  }

  /** While anyone waits, the writer at the front can move; the moves it makes before it is released run out. */
  lemma LeaderCanMove(s: Db) returns (t: Db)
    requires Inv(s) && s.queue != []
    ensures LeaderNext(s, t)
    ensures |t.finished| > |s.finished| || (s.phase.Idle? && t.phase.Leading?)
         || (s.phase.Leading? && t.phase.Leading? && StepsLeft(t) < StepsLeft(s))
  {
    hide Together, LogOps, Numbered, Durable, LogNumbered, IsGroup;
    match s.phase
    case Idle =>
      if s.queue[0].ops.None? {
        t := s.(queue := s.queue[1..], finished := s.finished + s.queue[..1]);
      } else {
        var n := GroupExists(s.queue, 1);
        GroupSize(s.queue, n);
        t := s.(phase := Leading(n, Together(s.queue[..n]), Built));
        assert Build(s, t, n);
      }
    case Leading(n, ops, Built) =>
      t := s.(log := s.log + [LogRecord(s.last + 1, ops)], phase := s.phase.(stage := Logged));
    case Leading(n, ops, Logged) =>
      t := s.(synced := if s.queue[0].sync then |s.log| else s.synced, phase := s.phase.(stage := Inserting(0)));
    case Leading(n, ops, Inserting(k)) =>
      if k < |ops| {
        t := s.(mem := s.mem + [Record(s.last + 1 + k, ops[k])], phase := s.phase.(stage := Inserting(k + 1)));
      } else {
        t := s.(phase := Idle, last := s.last + |ops|, queue := s.queue[n..], finished := s.finished + s.queue[..n]);
      }
  }

  /** From every reachable state the leader's own steps alone release the writer at the front. */
  lemma {:induction false} FrontIsReleased(s: Db) returns (run: seq<Db>)
    requires Inv(s) && s.queue != []
    ensures run != [] && run[0] == s && LeaderRun(run)
    ensures var t := run[|run| - 1];
      |t.finished| > |s.finished| && t.finished[|s.finished|] == s.queue[0]
    decreases s.phase.Idle?, StepsLeft(s)
  {
    hide Inv, LeaderNext, StepsLeft;
    var t := LeaderCanMove(s);
    LeaderBringsNoOne(s, t);
    NextKeepsInv(s, t);
    if |t.finished| > |s.finished| {
      run := [s, t];
      NextInLine(s, t);
    } else {
      StillWaiting(s, t);
      var more := FrontIsReleased(t);
      run := [s] + more;
    }
  }

  ghost predicate LeaderRun(run: seq<Db>) {
    forall i :: 0 <= i < |run| - 1 ==> LeaderNext(run[i], run[i + 1])
  }

  lemma NextInLine(s: Db, t: Db)
    requires Inv(s) && Inv(t) && s.queue != [] && t.arrived == s.arrived && |t.finished| > |s.finished|
    ensures t.finished[|s.finished|] == s.queue[0]
  {
    hide PhaseOk, ContentsOk, SyncOk;
    assert s.arrived[|s.finished|] == s.queue[0] && t.arrived[|s.finished|] == t.finished[|s.finished|];
  }

  lemma LeaderBringsNoOne(s: Db, t: Db)
    requires LeaderNext(s, t)
    ensures Next(s, t) && t.arrived == s.arrived
  {
    hide IsGroup, Together;
  }

  lemma StillWaiting(s: Db, t: Db)
    requires Inv(s) && s.queue != [] && LeaderNext(s, t) && |t.finished| <= |s.finished|
    ensures t.queue == s.queue && |t.finished| == |s.finished|
  {
    hide IsGroup, Together, LogOps, Numbered, Durable, LogNumbered;
  }
}
