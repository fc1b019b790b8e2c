/** Every step of the store keeps its invariant. */
module StoreSteps {
  import opened Bytestrings
  import opened Format
  import opened Versions
  import opened Inputs
  import opened CompactionInputs
  import opened Compactions
  import opened Merge
  import opened Views
  import opened ViewSteps
  import opened Jobs
  import opened History
  import opened Store

  // ---- Reading the same as the history ----

  /** Entries newer than everything, added on both sides, keep two sets reading alike. */
  lemma SameReadsAdd(a: set<Entry>, b: set<Entry>, e: set<Entry>, from: nat)
    requires a <= b && SameReads(a, b, from) && Distinct(b + e) && AllNewer(e, b)
    ensures SameReads(a + e, b + e, from)
  {
    forall user, at, v | at >= from ensures Reads(a + e, user, at, v) <==> Reads(b + e, user, at, v) {
      var n := NewestExists(e, user, at);
      if n.Some? {
        assert Newest(a + e, user, at, n) && Newest(b + e, user, at, n);
        assert Distinct(a + e);
        ReadsOf(a + e, user, at, n, v);
        ReadsOf(b + e, user, at, n, v);
      } else {
        InvisibleAdd(a, e, user, at, v);
        InvisibleAdd(b, e, user, at, v);
      }
    }
  }

  lemma InvisibleAdd(a: set<Entry>, e: set<Entry>, user: UserKey, at: nat, v: Option<Bytes>)
    requires Newest(e, user, at, None)
    ensures Reads(a + e, user, at, v) <==> Reads(a, user, at, v)
  {
    forall r ensures Newest(a + e, user, at, r) <==> Newest(a, user, at, r) {}
  }

  lemma GroupIsNewer(h: seq<Group>, g: Group)
    requires Consecutive(h + [g])
    ensures Consecutive(h) && HistoryEntries(h + [g]) == HistoryEntries(h) + GroupEntries(g)
    ensures AllNewer(GroupEntries(g), HistoryEntries(h)) && Distinct(HistoryEntries(h + [g]))
    ensures 0 <= LastSeq(h) <= LastSeq(h + [g])
  {
    assert (h + [g])[..|h|] == h;
    HistoryIsNumbered(h + [g]);
    HistoryIsNumbered(h);
    NumberedIsDistinct(HistoryEntries(h + [g]), 0, LastSeq(h + [g]));
    OpsAreNumbered(g.ops, g.first);
  }

  lemma FaithfulAdd(s: set<Entry>, h: seq<Group>, from: int, g: Group)
    requires Faithful(s, h, from) && Consecutive(h + [g])
    ensures Faithful(s + GroupEntries(g), h + [g], from)
  {
    GroupIsNewer(h, g);
    forall at: nat | at >= from ensures SameReads(s + GroupEntries(g), HistoryEntries(h + [g]), at) {
      SameReadsAdd(s, HistoryEntries(h), GroupEntries(g), at);
    }
  }

  lemma ViewOkAdd(w: View, h: seq<Group>, from: int, g: Group)
    requires ViewOk(w, h, from) && Consecutive(h + [g])
    ensures ViewOk(w.(mem := w.mem + GroupEntries(g)), h + [g], from)
  {
    GroupIsNewer(h, g);
    assert AllNewer(GroupEntries(g), All(w));
    hide HistoryEntries, GroupEntries, All, Consecutive;
    WriteKeepsOrder(w, GroupEntries(g));
    FaithfulAdd(All(w), h, from, g);
  }

  lemma ViewOkLater(w: View, h: seq<Group>, from: int, later: int)
    requires ViewOk(w, h, from) && from <= later
    ensures ViewOk(w, h, later)
  {
  }

  /** The same entries in the same version read alike however the memtables split them. */
  lemma ViewOkSwitch(w: View, h: seq<Group>, from: int)
    requires ViewOk(w, h, from) && w.imm == {}
    ensures ViewOk(View({}, w.mem, w.v), h, from)
  {
    SwitchKeepsOrder(w);
  }

  lemma ViewOkMerge(w: View, h: seq<Group>, from: int)
    requires ViewOk(w, h, from)
    ensures ViewOk(View(w.imm + w.mem, {}, w.v), h, from)
  {
    hide LayerOrder, Faithful;
    assert All(View(w.imm + w.mem, {}, w.v)) == All(w);
    MergeKeepsOrder(w);
  }

  lemma MergeKeepsOrder(w: View)
    requires |w.v| == NUM_LEVELS && LayerOrder(w)
    ensures LayerOrder(View(w.imm + w.mem, {}, w.v))
  {
    var w' := View(w.imm + w.mem, {}, w.v);
    forall p, q | Above(p, q) ensures Newer(At(w', p), At(w', q)) {
      assert Newer(At(w, p), At(w, q));
      if p == Mem && q != Imm { assert Newer(At(w, Imm), At(w, q)); }
    }
  }

  // ---- Log files ----

  lemma ReplayLast(logs: seq<LogFile>, l: LogFile, from: nat)
    ensures Replay(logs + [l], from) == Replay(logs, from) + if l.number >= from then l.groups else []
  {
    assert (logs + [l])[..|logs|] == logs;
  }

  lemma {:induction false} ReplayNothing(logs: seq<LogFile>, from: nat)
    requires forall i :: 0 <= i < |logs| ==> logs[i].number < from
    ensures Replay(logs, from) == []
  {
    if logs != [] { ReplayNothing(logs[..|logs| - 1], from); }
  }

  lemma {:induction false} ReplayWithoutFirst(logs: seq<LogFile>, from: nat)
    requires logs != [] && logs[0].number < from
    ensures Replay(logs[1..], from) == Replay(logs, from)
  {
    if |logs| > 1 {
      ReplayWithoutFirst(logs[..|logs| - 1], from);
      assert logs[1..][..|logs| - 2] == logs[..|logs| - 1][1..];
    }
  }

  /** In a running store the replayed groups hold exactly the committed view's memtables and the pending group. */
  lemma TailEntries(db: Db)
    requires LogsHold(db)
    ensures HistoryEntries(Tail(db)) == Committed(db).imm + db.mem + PendingEntries(db)
  {
    var init, last := db.logs[..|db.logs| - 1], db.logs[|db.logs| - 1];
    EntriesOfConcat(Replay(init, db.manifest.logNumber), last.groups);
  }

  // ---- Writes ----

  lemma AppendLogs(db: Db, ops: seq<Op>)
    requires LogsAscend(db.logs) && LogsHold(db) && db.pending.None?
    ensures Tail(Append(db, ops)) == Tail(db) + [Group(db.lastSeq + 1, ops)]
    ensures LogsAscend(Append(db, ops).logs) && LogsHold(Append(db, ops))
  {
    hide HistoryEntries, GroupEntries, Replay;
    var init, last, db' := db.logs[..|db.logs| - 1], db.logs[|db.logs| - 1], Append(db, ops);
    var g := Group(db.lastSeq + 1, ops);
    ReplayLast(init, last, db.manifest.logNumber);
    ReplayLast(init, last.(groups := last.groups + [g]), db.manifest.logNumber);
    assert db.logs == init + [last] && db'.logs[..|db'.logs| - 1] == init;
    GroupEntriesLast(last.groups, g);
  }

  lemma GroupEntriesLast(h: seq<Group>, g: Group)
    ensures HistoryEntries(h + [g]) == HistoryEntries(h) + GroupEntries(g)
  {
    assert (h + [g])[..|h|] == h;
  }

  lemma AppendKeepsInv(db: Db, ops: seq<Op>)
    requires Inv(db) && CanAppend(db, ops)
    ensures Inv(Append(db, ops))
  {
    hide Durable, Volatile;
    AppendKeepsDurable(db, ops);
    AppendKeepsVolatile(db, ops);
  }

  lemma AppendKeepsDurable(db: Db, ops: seq<Op>)
    requires Durable(db) && Volatile(db) && CanAppend(db, ops)
    ensures Durable(Append(db, ops))
  {
    hide ViewOk, LogsHold, LogsAscend, Replay, PhaseOk, HistoryEntries, Fresh, Tail, IsSuffix;
    var db', g := Append(db, ops), Group(db.lastSeq + 1, ops);
    AppendLogs(db, ops);
    assert db'.history[..|db'.history| - 1] == db.history;
    SuffixGrows(Tail(db), db.history, g);
  }

  lemma AppendKeepsVolatile(db: Db, ops: seq<Op>)
    requires Durable(db) && Volatile(db) && CanAppend(db, ops)
    ensures Volatile(Append(db, ops))
  {
    hide ViewOk, LogsHold, LogsAscend, Replay, PhaseOk, HistoryEntries, Fresh, Tail, Tabled, IsSuffix, JobOk;
    var db' := Append(db, ops);
    AppendLogs(db, ops);
    assert db'.history[..|db'.history| - 1] == db.history;
    AppendPhase(db, ops);
  }

  lemma SuffixGrows(t: seq<Group>, h: seq<Group>, g: Group)
    requires IsSuffix(t, h)
    ensures |t| <= |h| && IsSuffix(t + [g], h + [g]) && (h + [g])[..|h + [g]| - |t + [g]|] == h[..|h| - |t|]
  {
  }

  lemma AppendPhase(db: Db, ops: seq<Op>)
    requires db.logs != [] && PhaseOk(db)
    ensures PhaseOk(Append(db, ops))
  {
  }

  lemma InsertKeepsInv(db: Db)
    requires Inv(db) && db.up && db.pending.Some?
    ensures Inv(Insert(db))
  {
    hide ViewOk, Replay, LogsAscend, HistoryEntries, JobOk, Fresh, IsSuffix;
    var db', g, h := Insert(db), db.pending.value, Applied(db);
    assert db.history == h + [g];
    GroupIsNewer(h, g);
    ViewOkAdd(Current(db), h, Oldest(db), g);
    ViewOkAdd(Committed(db), h, Oldest(db), g);
    ViewOkLater(Current(db'), db.history, Oldest(db), Oldest(db'));
    ViewOkLater(Committed(db'), db.history, Oldest(db), Oldest(db'));
  }

  // ---- Memtable switch, snapshots, installs, log collection ----

  lemma SwitchLogs(db: Db)
    requires LogsAscend(db.logs) && LogsHold(db) && Counters(db) && PhaseOk(db) && CanSwitch(db)
    ensures Tail(Switch(db)) == Tail(db) && LogsAscend(Switch(db).logs) && LogsHold(Switch(db))
  {
    hide Replay, HistoryEntries;
    var db' := Switch(db);
    assert db'.logs[..|db'.logs| - 1] == db.logs;
    ReplayLast(db.logs, LogFile(db.nextFile, []), db.manifest.logNumber);
    TailEntries(db);
    NoEntries();
  }

  lemma NoEntries()
    ensures HistoryEntries([]) == {}
  {
  }

  lemma SwitchKeepsInv(db: Db)
    requires Inv(db) && CanSwitch(db)
    ensures Inv(Switch(db))
  {
    hide ViewOk, LogsHold, LogsAscend, Replay, HistoryEntries, Consecutive, JobOk;
    SwitchLogs(db);
    ViewOkSwitch(Current(db), Applied(db), Oldest(db));
    if !db.phase.Flushing? { ViewOkSwitch(Committed(db), Applied(db), Oldest(db)); }
  }

  lemma InstallKeepsInv(db: Db)
    requires Inv(db) && db.up && !db.phase.Idle?
    ensures Inv(Install(db))
  {
    hide ViewOk, LogsAscend, Replay, HistoryEntries, Consecutive, JobOk;
    assert Committed(Install(db)) == Committed(db) == Current(Install(db));
    FreshLater(db.manifest.v, db.manifest.nextFile, db.nextFile);
  }

  lemma FreshLater(v: Version, a: nat, b: nat)
    requires Fresh(v, a) && a <= b
    ensures Fresh(v, b)
  {
  }

  lemma SnapshotKeepsInv(db: Db)
    requires Inv(db) && db.up
    ensures Inv(NewSnapshot(db))
  {
    hide ViewOk, LogsAscend, Replay, HistoryEntries, Consecutive, Fresh, IsSuffix, JobOk;
    assert Oldest(NewSnapshot(db)) == Oldest(db);
  }

  lemma ReleaseKeepsInv(db: Db, i: nat)
    requires Inv(db) && db.up && i < |db.snaps|
    ensures Inv(ReleaseSnapshot(db, i))
  {
    hide ViewOk, LogsAscend, Replay, HistoryEntries, Consecutive, Fresh, IsSuffix, JobOk;
    var db' := ReleaseSnapshot(db, i);
    assert forall j :: 0 <= j < |db'.snaps| ==> db'.snaps[j] == if j < i then db.snaps[j] else db.snaps[j + 1];
    assert Oldest(db) <= Oldest(db');
    ViewOkLater(Current(db), Applied(db), Oldest(db), Oldest(db'));
    ViewOkLater(Committed(db), Applied(db), Oldest(db), Oldest(db'));
  }

  lemma CollectKeepsInv(db: Db)
    requires Inv(db) && CanCollect(db)
    ensures Inv(Collect(db))
  {
    hide ViewOk, Replay, HistoryEntries, Consecutive, LogsAscend, LogsHold, Fresh, IsSuffix, JobOk;
    CollectLogs(db.logs, db.manifest.logNumber);
    CollectHolds(db);
  }

  lemma {:induction false} CollectLogs(logs: seq<LogFile>, from: nat)
    requires LogsAscend(logs) && |logs| > 1 && logs[0].number < from
    ensures LogsAscend(logs[1..]) && Replay(logs[1..], from) == Replay(logs, from)
    ensures Replay(logs[1..][..|logs| - 2], from) == Replay(logs[..|logs| - 1], from)
  {
    hide Replay;
    var init := logs[..|logs| - 1];
    ReplayWithoutFirst(logs, from);
    ReplayWithoutFirst(init, from);
    assert logs[1..][..|logs| - 2] == init[1..];
  }

  lemma CollectHolds(db: Db)
    requires LogsHold(db) && LogsAscend(db.logs) && |db.logs| > 1 && db.logs[0].number < db.manifest.logNumber
    ensures LogsHold(Collect(db))
  {
    hide Replay, HistoryEntries, LogsAscend;
    CollectLogs(db.logs, db.manifest.logNumber);
  }

  // ---- Crash and reopening ----

  lemma CrashKeepsInv(db: Db)
    requires Inv(db) && db.up
    ensures Inv(Crash(db))
  {
    hide ViewOk, Replay, HistoryEntries, LogsAscend, LogsHold, Fresh, IsSuffix, PhaseOk, JobOk;
    var c, h := Committed(db), Applied(db);
    TailEntries(db);
    ViewOkMerge(c, h, Oldest(db));
    var m := View(c.imm + c.mem, {}, c.v);
    if db.pending.Some? {
      assert db.history == h + [db.pending.value];
      GroupIsNewer(h, db.pending.value);
      ViewOkAdd(m, h, Oldest(db), db.pending.value);
    }
    MergedIsTail(db, m);
    ViewOkLater(View(HistoryEntries(Tail(db)), {}, db.manifest.v), db.history, Oldest(db), LastSeq(db.history));
  }

  /** The two memtables and a pending group, taken together, are what the logs replay. */
  lemma MergedIsTail(db: Db, m: View)
    requires m == View(Committed(db).imm + Committed(db).mem, {}, db.manifest.v)
    requires HistoryEntries(Tail(db)) == Committed(db).imm + db.mem + PendingEntries(db)
    ensures View(HistoryEntries(Tail(db)), {}, db.manifest.v)
         == if db.pending.Some? then m.(mem := m.mem + GroupEntries(db.pending.value)) else m
  {
    hide HistoryEntries, Tail;
  }

  lemma {:induction false} FailOpenKeepsInv(db: Db, number: nat)
    requires Inv(db) && CanFailOpen(db, number)
    ensures Inv(FailOpen(db, number))
  {
    hide ViewOk, Replay, HistoryEntries, Consecutive, JobOk;
    ReplayLast(db.logs, LogFile(number, []), db.manifest.logNumber);
  }

  lemma EmptyVersionIsSound(v: Version)
    requires v == [[], [], [], [], [], [], []]
    ensures Sound(v) && VersionEntries(v) == {} && LayerOrder(View({}, {}, v)) && Fresh(v, 2)
  {
    assert forall l :: 0 <= l < |v| ==> v[l] == [];
    EmptyViewIsOrdered(v);
  }

  lemma EmptyViewIsOrdered(v: Version)
    requires v == [[], [], [], [], [], [], []]
    ensures LayerOrder(View({}, {}, v))
  {
    hide Sound;
    var w := View({}, {}, v);
    assert All(w) == {};
    forall p, q | Above(p, q) ensures Newer(At(w, p), At(w, q)) {
      forall e ensures e !in At(w, p) { PlaceOf(w, e); }
    }
  }

  lemma InitHasInv(db: Db)
    requires Init(db)
    ensures Inv(db)
  {
    EmptyVersionIsSound(db.manifest.v);
    hide Sound, LayerOrder;
    assert Tail(db) == [];
  }

  // ---- Flush ----

  lemma TableIsOk(f: File, s: set<Entry>, h: seq<Group>)
    requires TableOf(f, s) && s <= HistoryEntries(h) && Consecutive(h) && LastSeq(h) < MAX_SEQUENCE
    ensures FileOk(f) && FileEntries(f) == s
  {
    HistoryIsNumbered(h);
    forall e | e in f.entries ensures e.k.sn <= MAX_SEQUENCE { assert e in Entries(f.entries); }
  }

  lemma PlacedIsFresh(v: Version, v2: Version, level: nat, f: File)
    requires Placed(v, v2, level, f) && Fresh(v, f.number)
    ensures Fresh(v2, f.number + 1)
  {
  }

  lemma ViewOkFlush(w: View, h: seq<Group>, from: int, v2: Version, level: nat, f: File, limit: nat)
    requires ViewOk(w, h, from) && Consecutive(h) && LastSeq(h) < MAX_SEQUENCE
    requires TableOf(f, w.imm) && LevelAllowed(w.v, level, f, limit) && Placed(w.v, v2, level, f) && Fresh(w.v, f.number)
    ensures ViewOk(View(w.mem, {}, v2), h, from)
  {
    hide Consecutive, HistoryEntries, LayerOrder, Placed, LevelAllowed, TableOf, Sound, Fresh, SameReads;
    assert w.imm <= All(w);
    TableIsOk(f, w.imm, h);
    AllowedIsClear(w.v, level, f, limit);
    FlushKeepsOrder(w, v2, level, f);
    PlacedIsSound(w.v, v2, level, f);
  }

  lemma FlushView(db: Db, v2: Version, level: nat, f: File, limit: nat)
    requires Inv(db) && CanFlush(db, v2, level, f, limit)
    ensures ViewOk(View(db.mem, {}, v2), Applied(db), Oldest(db)) && Fresh(v2, db.nextFile + 1)
  {
    hide ViewOk, Consecutive, HistoryEntries, Placed, LevelAllowed, TableOf, Fresh, Replay, JobOk;
    if db.imm.value == {} {
      FreshLater(v2, db.nextFile, db.nextFile + 1);
    } else {
      AppliedIsConsecutive(db);
      ViewOkFlush(Current(db), Applied(db), Oldest(db), v2, level, f, limit);
      PlacedIsFresh(db.current, v2, level, f);
    }
  }

  lemma AppliedIsConsecutive(db: Db)
    requires Consecutive(db.history)
    ensures Consecutive(Applied(db)) && 0 <= LastSeq(Applied(db)) <= LastSeq(db.history)
  {
    if db.pending.Some? && db.history != [] {
      assert db.history == db.history[..|db.history| - 1] + [db.history[|db.history| - 1]];
      GroupIsNewer(db.history[..|db.history| - 1], db.history[|db.history| - 1]);
    } else {
      HistoryIsNumbered(db.history);
    }
  }

  /** Once the current log is all that recovery replays, the rest of the history is in tables. */
  lemma FlushLogs(db: Db, v2: Version)
    requires LogsAscend(db.logs) && LogsHold(db)
    ensures LogsHold(Flush(db, v2)) && Tail(Flush(db, v2)) == db.logs[|db.logs| - 1].groups
    ensures Tail(db) == Replay(db.logs[..|db.logs| - 1], db.manifest.logNumber) + db.logs[|db.logs| - 1].groups
    ensures db.manifest.logNumber <= db.logfile
  {
    hide HistoryEntries;
    ReplayNothing(db.logs[..|db.logs| - 1], db.logfile);
    NoEntries();
  }

  lemma FlushTabled(db: Db, v2: Version)
    requires Durable(db) && LogsHold(db) && Counters(db)
    ensures IsSuffix(Tail(Flush(db, v2)), db.history)
    ensures LastSeq(Tabled(Flush(db, v2))) <= db.lastSeq <= LastSeq(db.history)
  {
    hide HistoryEntries, Fresh;
    var db' := Flush(db, v2);
    FlushLogs(db, v2);
    ShorterSuffix(Replay(db.logs[..|db.logs| - 1], db.manifest.logNumber), Tail(db'), db.history);
    AppliedIsConsecutive(db);
    TabledIsApplied(db, Tail(db'));
    hide Replay, LogsHold;
    PrefixIsEarlier(Applied(db), Tabled(db'), db.history);
  }

  lemma ShorterSuffix(a: seq<Group>, b: seq<Group>, h: seq<Group>)
    requires IsSuffix(a + b, h)
    ensures IsSuffix(b, h)
  {
    assert h[|h| - |b|..] == (a + b)[|a|..];
  }

  lemma TabledIsApplied(db: Db, t: seq<Group>)
    requires LogsHold(db) && Counters(db) && t == db.logs[|db.logs| - 1].groups && |t| <= |db.history|
    ensures |db.history| - |t| <= |Applied(db)| && Applied(db) <= db.history
  {
    hide HistoryEntries, Replay;
  }

  lemma PrefixIsEarlier(h: seq<Group>, p: seq<Group>, whole: seq<Group>)
    requires Consecutive(h) && p <= whole && h <= whole && |p| <= |h|
    ensures LastSeq(p) <= LastSeq(h)
  {
    assert h == p + h[|p|..];
    SuffixIsNewer(p, h[|p|..]);
  }

  /** What is flushed is newer than all the version has. */
  lemma FlushIsNewer(w: View, f: File)
    requires |w.v| == NUM_LEVELS && LayerOrder(w) && TableOf(f, w.imm)
    ensures NewerThan(f, w.v)
  {
    hide LayerOrder, VersionEntries, All, At;
    forall x, y | x in f.entries && y in VersionEntries(w.v) && x.k.user == y.k.user ensures x.k.sn > y.k.sn {
      assert x in Entries(f.entries);
      InLayers(w, x, y);
    }
  }

  lemma InLayers(w: View, x: Entry, y: Entry)
    requires |w.v| == NUM_LEVELS && LayerOrder(w) && x in w.imm && y in VersionEntries(w.v) && x.k.user == y.k.user
    ensures x.k.sn > y.k.sn
  {
    var l: nat, f :| l < |w.v| && f in w.v[l] && y in f.entries;
    InFilePlace(w, l, f, y);
    Ordered(w, Imm, FilePlace(l, f), x, y);
  }

  /** A flush inside a compaction leaves its inputs in order. */
  lemma FlushKeepsJob(db: Db, v2: Version, level: nat, f: File, limit: nat)
    requires Inv(db) && CanFlush(db, v2, level, f, limit) && db.job.Some?
    ensures JobOk(v2, db.job.value)
  {
    hide Consecutive, HistoryEntries, Placed, LevelAllowed, TableOf, Fresh, Replay, LayerOrder, Sound, JobOk, Guarded, SameReads, Clear, NewerThan;
    if db.imm.value != {} {
      AppliedIsConsecutive(db);
      assert db.imm.value <= All(Current(db));
      TableIsOk(f, db.imm.value, Applied(db));
      AllowedIsClear(db.current, level, f, limit);
      FlushIsNewer(Current(db), f);
      PlacedKeepsJob(db.current, v2, level, f, db.job.value);
    }
  }

  lemma FlushKeepsInv(db: Db, v2: Version, level: nat, f: File, limit: nat)
    requires Inv(db) && CanFlush(db, v2, level, f, limit)
    ensures Inv(Flush(db, v2))
  {
    hide ViewOk, Consecutive, HistoryEntries, LogsHold, LogsAscend, Fresh, Replay, IsSuffix, Tabled, JobOk;
    FlushView(db, v2, level, f, limit);
    FlushLogs(db, v2);
    FlushTabled(db, v2);
    FreshLater(db.current, db.nextFile, db.nextFile + 1);
    if db.job.Some? { FlushKeepsJob(db, v2, level, f, limit); }
  }

  // ---- Compaction ----

  lemma TakeKeepsInv(db: Db)
    requires Inv(db) && db.up
    ensures Inv(Take(db))
  {
    hide ViewOk, LogsAscend, Replay, HistoryEntries, Consecutive, Fresh, IsSuffix, JobOk;
    FreshLater(db.current, db.nextFile, db.nextFile + 1);
  }

  lemma PickKeepsInv(db: Db, level: nat, in0: seq<File>, in1: seq<File>)
    requires Inv(db) && CanPick(db, level, in0, in1)
    ensures Inv(Pick(db, level, in0, in1))
  {
    hide LayerOrder, Faithful, Sound, LogsAscend, Replay, HistoryEntries, Consecutive, Fresh, IsSuffix, JobOk, Closed, NoShared;
    JobStarts(db.current, Job(db.current, level, in0, in1, Oldest(db)));
  }

  lemma AbandonKeepsInv(db: Db)
    requires Inv(db) && db.up
    ensures Inv(Abandon(db))
  {
    hide ViewOk, LogsAscend, Replay, HistoryEntries, Consecutive, Fresh, IsSuffix, JobOk;
  }

  lemma FaithfulThrough(s: set<Entry>, t: set<Entry>, h: seq<Group>, from: nat)
    requires Faithful(s, h, from) && t <= s && SameReads(s, t, from)
    ensures Faithful(t, h, from)
  {
    forall at: nat | at >= from ensures SameReads(t, HistoryEntries(h), at) {
      assert SameReads(s, HistoryEntries(h), at);
    }
  }

  lemma FaithfulIsDistinct(s: set<Entry>, h: seq<Group>, from: int)
    requires Faithful(s, h, from) && Consecutive(h)
    ensures Distinct(s)
  {
    HistoryIsNumbered(h);
    NumberedIsDistinct(HistoryEntries(h), 0, LastSeq(h));
  }

  lemma ViewOkCompact(w: View, h: seq<Group>, from: nat, v2: Version, level: nat, in0: seq<File>, in1: seq<File>,
                      outs: seq<File>, input: seq<Entry>, smallest: nat)
    requires ViewOk(w, h, from) && smallest <= from && Consecutive(h) && level + 1 < NUM_LEVELS
    requires Closed(w.v, level, in0, in1) && NoShared(w.v[level + 1], in1, in1)
    requires Compacted(w.v, v2, level, in0, in1, outs) && OutputsOk(w.v, level, in0, in1, outs)
    requires Merged(w.v, level, in0, in1, input, smallest, outs)
    ensures ViewOk(w.(v := v2), h, from)
  {
    assert Apart(w.v[level + 1], in1, in0 + in1);
    assert |v2| == NUM_LEVELS;
    hide *;
    ViewParts(w, h, from);
    FaithfulIsDistinct(All(w), h, from);
    CompactionKeepsOrder(w, v2, level, in0, in1, outs);
    CompactionKeepsReads(w, v2, level, in0, in1, outs, input, smallest);
    SameReadsLater(All(w), All(w.(v := v2)), smallest, from);
    CompactedIsSound(w.v, v2, level, in0, in1, outs);
    FaithfulThrough(All(w), All(w.(v := v2)), h, from);
    ViewWhole(w.(v := v2), h, from);
  }

  lemma SameReadsLater(a: set<Entry>, b: set<Entry>, from: nat, later: nat)
    requires SameReads(a, b, from) && from <= later
    ensures SameReads(a, b, later)
  {
    hide Reads;
  }

  lemma ViewParts(w: View, h: seq<Group>, from: int)
    requires ViewOk(w, h, from)
    ensures |w.v| == NUM_LEVELS && Sound(w.v) && LayerOrder(w) && Faithful(All(w), h, from)
  {
  }

  lemma ViewWhole(w: View, h: seq<Group>, from: int)
    requires Sound(w.v) && |w.v| == NUM_LEVELS && LayerOrder(w) && Faithful(All(w), h, from)
    ensures ViewOk(w, h, from)
  {
  }

  lemma CompactKeepsInv(db: Db, v2: Version, outs: seq<File>, input: seq<Entry>)
    requires Inv(db) && CanCompact(db, v2, outs, input)
    ensures Inv(Compact(db, v2))
  {
    hide ViewOk, Consecutive, HistoryEntries, LogsAscend, Fresh, Replay, Compacted, OutputsOk, Merged, JobOk, IsSuffix;
    var j := db.job.value;
    AppliedIsConsecutive(db);
    JobParts(db.current, j);
    MergedAlike(db.current, j, input, outs);
    ViewOkCompact(Current(db), Applied(db), Oldest(db), v2, j.level, j.in0, j.in1, outs, input, j.smallest);
    CompactedIsFresh(db.current, v2, j.level, j.in0, j.in1, outs, db.nextFile);
  }

  lemma JobParts(v: Version, j: Job)
    requires JobOk(v, j)
    ensures |v| == |j.base| == NUM_LEVELS && j.level + 1 < NUM_LEVELS
    ensures Closed(v, j.level, j.in0, j.in1) && NoShared(v[j.level + 1], j.in1, j.in1)
  {
  }

  lemma CompactedIsFresh(v: Version, v2: Version, level: nat, in0: seq<File>, in1: seq<File>, outs: seq<File>, a: nat)
    requires Compacted(v, v2, level, in0, in1, outs) && Fresh(v, a) && forall o :: o in outs ==> o.number < a
    ensures Fresh(v2, a)
  {
  }

  // ---- Trivial move ----

  lemma MovedOutputsOk(v: Version, level: nat, f: File)
    requires Sound(v) && level + 1 < NUM_LEVELS && f in v[level]
    ensures OutputsOk(v, level, [f], [], [f])
  {
    assert LevelSound(v[level], level == 0);
    assert [f] + [] == [f];
    forall e | e in FileEntries(f) ensures e in LevelEntries([f] + []) { assert f in [f]; }
  }

  lemma ViewOkMove(w: View, h: seq<Group>, from: nat, v2: Version, level: nat, f: File)
    requires ViewOk(w, h, from) && level + 1 < NUM_LEVELS
    requires Closed(w.v, level, [f], []) && Compacted(w.v, v2, level, [f], [], [f])
    ensures ViewOk(w.(v := v2), h, from)
  {
    hide LayerOrder, Compacted, OlderChosen, NoShared, Faithful, OutputsOk, All, NumbersUnique, LevelSound;
    assert f in [f] && |v2| == NUM_LEVELS by { CompactedSizes(w.v, v2, level, [f], [], [f]); }
    MovedOutputsOk(w.v, level, f);
    CompactionKeepsOrder(w, v2, level, [f], [], [f]);
    CompactedIsSound(w.v, v2, level, [f], [], [f]);
    MoveContents(w, v2, level, f);
  }

  lemma CompactedSizes(v: Version, v2: Version, level: nat, in0: seq<File>, in1: seq<File>, outs: seq<File>)
    requires Compacted(v, v2, level, in0, in1, outs)
    ensures |v2| == NUM_LEVELS
  {
  }

  lemma MoveContents(w: View, v2: Version, level: nat, f: File)
    requires |w.v| == NUM_LEVELS && Compacted(w.v, v2, level, [f], [], [f]) && f in w.v[level]
    ensures All(w.(v := v2)) == All(w)
  {
    hide All, Compacted, LevelEntries, Rest;
    assert [f] + [] == [f];
    forall e ensures e in All(w.(v := v2)) <==> e in All(w) {
      MoveLevel(w.v, v2, level, f);
      ContentsBefore(w, level, [f], [], e);
      ContentsAfter(w, v2, level, [f], [], [f], e);
    }
  }

  lemma MoveLevel(v: Version, v2: Version, level: nat, f: File)
    requires |v| == NUM_LEVELS && Compacted(v, v2, level, [f], [], [f]) && f in v[level]
    ensures level + 1 < NUM_LEVELS && Among([f], v[level]) && Among([], v[level + 1])
  {
  }

  lemma MoveKeepsInv(db: Db, v2: Version, level: nat, f: File)
    requires Inv(db) && CanMove(db, v2, level, f)
    ensures Inv(Compact(db, v2))
  {
    hide ViewOk, Consecutive, HistoryEntries, LogsAscend, Fresh, Replay, Closed, Compacted, JobOk, IsSuffix;
    AppliedIsConsecutive(db);
    ViewOkMove(Current(db), Applied(db), Oldest(db), v2, level, f);
    MovedIsFresh(db.current, v2, level, f, db.nextFile);
  }

  lemma MovedIsFresh(v: Version, v2: Version, level: nat, f: File, a: nat)
    requires Compacted(v, v2, level, [f], [], [f]) && Closed(v, level, [f], []) && Fresh(v, a)
    ensures Fresh(v2, a)
  {
    assert f in [f] && f in v[level];
  }

  // ---- Reopening ----

  lemma SplitKeepsOrder(w: View, e: set<Entry>, r: set<Entry>)
    requires |w.v| == NUM_LEVELS && LayerOrder(w) && w.imm == {} && w.mem == e + r && AllNewer(r, e)
    ensures LayerOrder(View(r, e, w.v)) && All(View(r, e, w.v)) == All(w)
  {
    var w' := View(r, e, w.v);
    forall p, q | Above(p, q) ensures Newer(At(w', p), At(w', q)) {
      if q != Imm { assert Newer(At(w, if p == Imm then Mem else p), At(w, q)); }
    }
  }

  /** A run of replayed groups is older than the groups replayed after it. */
  lemma RunIsOlder(a: seq<Group>, run: seq<Group>, rest: seq<Group>)
    requires Consecutive(a + (run + rest))
    ensures AllNewer(HistoryEntries(rest), HistoryEntries(run))
    ensures HistoryEntries(run + rest) == HistoryEntries(run) + HistoryEntries(rest)
  {
    EntriesOfConcat(run, rest);
    EntriesOfConcat(a, run);
    assert a + (run + rest) == (a + run) + rest;
    SuffixIsNewer(a + run, rest);
    HistoryIsNumbered(a + run);
  }

  lemma RunKeepsView(h: seq<Group>, from: int, a: seq<Group>, run: seq<Group>, rest: seq<Group>, v: Version, v2: Version, f: File)
    requires h == a + (run + rest) && Consecutive(h) && LastSeq(h) < MAX_SEQUENCE
    requires ViewOk(View(HistoryEntries(run + rest), {}, v), h, from) && RunPlaced(v, v2, HistoryEntries(run), f)
    ensures ViewOk(View(HistoryEntries(rest), {}, v2), h, from)
  {
    hide Consecutive, HistoryEntries, LayerOrder, Placed, TableOf, Sound, Fresh, SameReads, All;
    RunIsOlder(a, run, rest);
    var e, r := HistoryEntries(run), HistoryEntries(rest);
    assert |v| == NUM_LEVELS by { ViewParts(View(HistoryEntries(run + rest), {}, v), h, from); }
    if e == {} {
      assert e + r == r;
    } else {
      SplitKeepsOrder(View(e + r, {}, v), e, r);
      ViewOkFlush(View(r, e, v), h, from, v2, 0, f, 0);
    }
  }

  lemma {:induction false} RunsKeepView(h: seq<Group>, from: int, a: seq<Group>, runs: seq<seq<Group>>, files: seq<File>,
                                        vs: seq<Version>)
    requires |vs| > 0 && RunsPlaced(vs[0], runs, files, vs)
    requires h == a + FlattenRuns(runs) && Consecutive(h) && LastSeq(h) < MAX_SEQUENCE
    requires ViewOk(View(HistoryEntries(FlattenRuns(runs)), {}, vs[0]), h, from)
    ensures ViewOk(View({}, {}, vs[|vs| - 1]), h, from)
    decreases |runs|
  {
    hide ViewOk, HistoryEntries, Consecutive, RunPlaced;
    if runs == [] {
      NoEntries();
    } else {
      RunKeepsView(h, from, a, runs[0], FlattenRuns(runs[1..]), vs[0], vs[1], files[0]);
      assert h == (a + runs[0]) + FlattenRuns(runs[1..]);
      RunsKeepView(h, from, a + runs[0], runs[1..], files[1..], vs[1..]);
    }
  }

  /** The largest sequence number recovery meets, or the manifest's, is the last one of the history. */
  lemma {:induction false} MaxSequenceOfSuffix(a: seq<Group>, t: seq<Group>)
    requires Consecutive(a + t)
    ensures MaxSequence(t) <= LastSeq(a + t)
    ensures t != [] ==> MaxSequence(t) == LastSeq(a + t)
  {
    if t == [] {
      HistoryIsNumbered(a + t);
    } else {
      assert (a + t)[..|a + t| - 1] == a + t[..|t| - 1];
      MaxSequenceOfSuffix(a, t[..|t| - 1]);
    }
  }

  lemma RecoveredSequence(db: Db, v2: Version, number: nat)
    requires Durable(db)
    ensures Open(db, v2, number).lastSeq == LastSeq(db.history)
  {
    hide Fresh, HistoryEntries, Replay, LogsAscend, MaxSequence;
    var a, t := Tabled(db), Tail(db);
    assert db.history == a + t;
    MaxSequenceOfSuffix(a, t);
    assert t == [] ==> a == db.history;
  }

  lemma OpenLogs(db: Db, v2: Version, number: nat)
    requires LogsAscend(db.logs) && CanFailOpen(db, number)
    ensures Tail(Open(db, v2, number)) == [] && LogsAscend(Open(db, v2, number).logs) && LogsHold(Open(db, v2, number))
  {
    hide HistoryEntries, MaxSequence;
    var db' := Open(db, v2, number);
    ReplayNothing(db.logs, number);
    ReplayLast(db.logs, LogFile(number, []), number);
    assert db'.logs[..|db'.logs| - 1] == db.logs;
    NoEntries();
  }

  lemma OpenView(db: Db, runs: seq<seq<Group>>, files: seq<File>, vs: seq<Version>, number: nat)
    requires Inv(db) && CanOpen(db, runs, files, vs, number)
    ensures |vs| > 0 && ViewOk(View({}, {}, vs[|vs| - 1]), db.history, LastSeq(db.history))
  {
    hide ViewOk, HistoryEntries, Consecutive, RunPlaced, LogsAscend, Replay, Fresh, MaxSequence;
    assert db.history == Tabled(db) + Tail(db);
    RunsKeepView(db.history, LastSeq(db.history), Tabled(db), runs, files, vs);
  }

  lemma OpenKeepsInv(db: Db, runs: seq<seq<Group>>, files: seq<File>, vs: seq<Version>, number: nat)
    requires Inv(db) && CanOpen(db, runs, files, vs, number)
    ensures |vs| > 0 && Inv(Open(db, vs[|vs| - 1], number))
  {
    hide ViewOk, HistoryEntries, Consecutive, RunPlaced, LogsAscend, Replay, Fresh, LogsHold, MaxSequence, JobOk;
    OpenView(db, runs, files, vs, number);
    var v2 := vs[|vs| - 1];
    OpenLogs(db, v2, number);
    RecoveredSequence(db, v2, number);
    FreshLater(v2, number, number + 1);
  }
}
