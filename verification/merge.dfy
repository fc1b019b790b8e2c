/** What a compaction drops, and why no reader notices (db_impl.cc, DoCompactionWork). */
module Merge {
  import opened Bytestrings
  import opened Format
  import opened Versions
  import opened Inputs
  import opened CompactionInputs
  import opened Compactions
  import opened Stops

  /** Rule (A): the entry before this one, of the same user key, is already visible to the oldest snapshot. */
  predicate Hidden(input: seq<Entry>, i: nat, snapshot: nat)
    requires i < |input|
  {
    i > 0 && input[i - 1].k.user == input[i].k.user && input[i - 1].k.sn <= snapshot
  }

  /** The tombstone rule: a deletion every snapshot sees, of a user key no deeper level holds. */
  ghost predicate Obsolete(e: Entry, snapshot: nat, v: Version, level: nat)
    requires |v| == NUM_LEVELS
  {
    e.k.kind.Deletion? && e.k.sn <= snapshot && Deepest(v, level, e.k.user)
  }

  ghost predicate Dropped(input: seq<Entry>, i: nat, snapshot: nat, v: Version, level: nat)
    requires i < |input| && |v| == NUM_LEVELS
  {
    Hidden(input, i, snapshot) || Obsolete(input[i], snapshot, v, level)
  }

  ghost function Kept(input: seq<Entry>, n: nat, snapshot: nat, v: Version, level: nat): seq<Entry>
    requires n <= |input| && |v| == NUM_LEVELS
  {
    if n == 0 then []
    else Kept(input, n - 1, snapshot, v, level) + if Dropped(input, n - 1, snapshot, v, level) then [] else [input[n - 1]]
  }

  lemma {:induction false} KeptHas(input: seq<Entry>, n: nat, snapshot: nat, v: Version, level: nat, e: Entry)
    requires n <= |input| && |v| == NUM_LEVELS
    ensures e in Kept(input, n, snapshot, v, level) <==>
            exists i :: 0 <= i < n && input[i] == e && !Dropped(input, i, snapshot, v, level)
  {
    if n > 0 { KeptHas(input, n - 1, snapshot, v, level, e); }
  }

  ghost function Flatten(runs: seq<seq<Entry>>): seq<Entry> {
    if runs == [] then [] else Flatten(runs[..|runs| - 1]) + runs[|runs| - 1]
  }

  lemma NoneFlat()
    ensures Flatten([]) == []
  {
  }

  lemma FlattenAppend(runs: seq<seq<Entry>>, run: seq<Entry>)
    ensures Flatten(runs + [run]) == Flatten(runs) + run
  {
    assert (runs + [run])[..|runs|] == runs;
  }

  /** The drop decision for one entry; `last` is the user key of the entry before. */
  method Drops(c: Compaction, input: seq<Entry>, i: nat, lastSequenceForKey: nat, snapshot: nat) returns (drop: bool)
    requires VersionOk(c.v) && i < |input| && snapshot < MAX_SEQUENCE && Sorted(input)
    requires c.PointersBehind(LastUser(input, i))
    requires lastSequenceForKey ==
             if i > 0 && input[i - 1].k.user == input[i].k.user then input[i - 1].k.sn else MAX_SEQUENCE
    modifies c.levelPtrs
    ensures c.PointersBehind(LastUser(input, i + 1))
    ensures drop <==> Dropped(input, i, snapshot, c.v, c.level)
    ensures drop <==> Overwritten(input, i, snapshot) || Useless(input[i], snapshot, c.v, c.level)
  {
    hide VersionOk, Deepest, Overwritten, Useless;
    DroppedMeans(input, i, snapshot, c.v, c.level);
    var e := input[i];
    assert i > 0 ==> Less(input[i - 1].k, e.k);
    PointersStay(c, LastUser(input, i), e.k.user);
    drop := false;
    if lastSequenceForKey <= snapshot {
      drop := true;
    } else if e.k.kind.Deletion? && e.k.sn <= snapshot {
      drop := c.IsBaseLevelForKey(e.k.user, LastUser(input, i));
    }
  }

  function LastUser(input: seq<Entry>, i: nat): Option<UserKey>
    requires i <= |input|
  {
    if i == 0 then None else Some(input[i - 1].k.user)
  }

  // ---- Where outputs end ----

  /** Between entries p and q an output ends: the first has filled it, or an entry up to the second is to start a new one. */
  ghost predicate Parted(stopBefore: seq<bool>, full: seq<bool>, p: nat, q: nat)
    requires p < q < |stopBefore| == |full|
  {
    full[p] || exists m :: p < m <= q && stopBefore[m]
  }

  /** Neighbours of one run are not parted. */
  ghost predicate Whole(run: seq<Entry>, input: seq<Entry>, stopBefore: seq<bool>, full: seq<bool>)
    requires |stopBefore| == |full| == |input|
  {
    forall j, p, q :: 0 < j < |run| && 0 <= p < q < |input| && input[p] == run[j - 1] && input[q] == run[j] ==>
      !Parted(stopBefore, full, p, q)
  }

  /** The last entry of one run and the first of the next are. */
  ghost predicate Broken(a: seq<Entry>, b: seq<Entry>, input: seq<Entry>, stopBefore: seq<bool>, full: seq<bool>)
    requires |stopBefore| == |full| == |input|
  {
    a != [] && b != [] ==>
      forall p, q :: 0 <= p < q < |input| && input[p] == a[|a| - 1] && input[q] == b[0] ==> Parted(stopBefore, full, p, q)
  }

  /** Outputs end exactly where ShouldStopBefore and the output size say. */
  ghost predicate CutAsTold(runs: seq<seq<Entry>>, input: seq<Entry>, stopBefore: seq<bool>, full: seq<bool>)
    requires |stopBefore| == |full| == |input|
  {
    && (forall k :: 0 <= k < |runs| ==> runs[k] != [] && Whole(runs[k], input, stopBefore, full))
    && forall k :: 0 < k < |runs| ==> Broken(runs[k - 1], runs[k], input, stopBefore, full)
  }

  /** The outputs, and the one that is open. */
  function Runs(outputs: seq<seq<Entry>>, builder: seq<Entry>): seq<seq<Entry>> {
    if builder == [] then outputs else outputs + [builder]
  }

  /** Entry p is the last one kept, and its output is open exactly if nothing before entry i has ended it. */
  ghost predicate EndsAt(runs: seq<seq<Entry>>, open: bool, i: nat, input: seq<Entry>, stopBefore: seq<bool>, full: seq<bool>)
    requires i <= |stopBefore| == |full| == |input|
  {
    if runs == [] then !open
    else
      var last := runs[|runs| - 1];
      && last != []
      && exists p :: 0 <= p < i && input[p] == last[|last| - 1] && (open <==> !full[p] && forall m :: p < m < i ==> !stopBefore[m])
  }

  /** Entry i joins the open output. */
  lemma RunGrows(runs: seq<seq<Entry>>, builder: seq<Entry>, i: nat, input: seq<Entry>, stopBefore: seq<bool>, full: seq<bool>)
    requires i < |stopBefore| == |full| == |input| && Sorted(input) && builder != []
    requires CutAsTold(runs + [builder], input, stopBefore, full)
    requires EndsAt(runs + [builder], true, i + 1, input, stopBefore, full)
    ensures CutAsTold(runs + [builder + [input[i]]], input, stopBefore, full)
  {
    var all, b' := runs + [builder], builder + [input[i]];
    assert all[|runs|] == builder;
    forall j, p: nat, q: nat | 0 < j < |b'| && p < q < |input| && input[p] == b'[j - 1] && input[q] == b'[j]
      ensures !Parted(stopBefore, full, p, q)
    {
      if j == |builder| {
        OnePlace(input, q, i);
        var t :| 0 <= t < i + 1 && input[t] == builder[|builder| - 1] && !full[t] && forall m :: t < m < i + 1 ==> !stopBefore[m];
        OnePlace(input, p, t);
      }
    }
    assert Whole(b', input, stopBefore, full);
    var all' := runs + [b'];
    forall k | 0 <= k < |all'| ensures all'[k] != [] && Whole(all'[k], input, stopBefore, full) {
      if k < |runs| { assert all'[k] == all[k]; }
    }
    forall k | 0 < k < |all'| ensures Broken(all'[k - 1], all'[k], input, stopBefore, full) {
      assert Broken(all[k - 1], all[k], input, stopBefore, full);
      assert all'[k - 1] == all[k - 1] && all'[k][0] == all[k][0];
    }
  }

  /** Entry i starts a new output. */
  lemma RunStarts(runs: seq<seq<Entry>>, i: nat, input: seq<Entry>, stopBefore: seq<bool>, full: seq<bool>)
    requires i < |stopBefore| == |full| == |input| && Sorted(input) && CutAsTold(runs, input, stopBefore, full)
    requires EndsAt(runs, false, i + 1, input, stopBefore, full)
    ensures CutAsTold(runs + [[input[i]]], input, stopBefore, full)
  {
    var all, one := runs + [[input[i]]], [input[i]];
    assert Whole(one, input, stopBefore, full);
    forall k | 0 <= k < |all| ensures all[k] != [] && Whole(all[k], input, stopBefore, full) {}
    if runs != [] {
      var last := runs[|runs| - 1];
      forall p: nat, q: nat | p < q < |input| && input[p] == last[|last| - 1] && input[q] == one[0] ensures Parted(stopBefore, full, p, q) {
        OnePlace(input, q, i);
        var t :| 0 <= t < i + 1 && input[t] == last[|last| - 1] && !(!full[t] && forall m :: t < m < i + 1 ==> !stopBefore[m]);
        OnePlace(input, p, t);
      }
      assert Broken(last, one, input, stopBefore, full);
    }
    forall k | 0 < k < |all| ensures Broken(all[k - 1], all[k], input, stopBefore, full) {
      if k < |runs| { assert Broken(runs[k - 1], runs[k], input, stopBefore, full); }
    }
  }

  /** Closing the open output, if entry i starts a new one. */
  lemma EndStops(outputs: seq<seq<Entry>>, builder: seq<Entry>, i: nat, input: seq<Entry>, stopBefore: seq<bool>, full: seq<bool>)
    requires i < |stopBefore| == |full| == |input| && EndsAt(Runs(outputs, builder), builder != [], i, input, stopBefore, full)
    ensures EndsAt(Runs(outputs, builder), builder != [] && !stopBefore[i], i + 1, input, stopBefore, full)
  {
    var runs := Runs(outputs, builder);
    if runs != [] {
      var last := runs[|runs| - 1];
      var p :| 0 <= p < i && input[p] == last[|last| - 1] && (builder != [] <==> !full[p] && forall m :: p < m < i ==> !stopBefore[m]);
      assert (builder != [] && !stopBefore[i]) <==> !full[p] && forall m :: p < m < i + 1 ==> !stopBefore[m];
    }
  }

  /** Entry i is kept: it joins the open output or starts one. */
  lemma EntryJoins(outputs: seq<seq<Entry>>, builder: seq<Entry>, i: nat, input: seq<Entry>, stopBefore: seq<bool>, full: seq<bool>)
    requires i < |stopBefore| == |full| == |input| && Sorted(input)
    requires CutAsTold(Runs(outputs, builder), input, stopBefore, full)
    requires EndsAt(Runs(outputs, builder), builder != [], i + 1, input, stopBefore, full)
    ensures CutAsTold(outputs + [builder + [input[i]]], input, stopBefore, full)
    ensures EndsAt(outputs + [builder + [input[i]]], !full[i], i + 1, input, stopBefore, full)
  {
    hide CutAsTold, Sorted;
    var b' := builder + [input[i]];
    if builder == [] {
      RunStarts(outputs, i, input, stopBefore, full);
      assert b' == [input[i]];
    } else {
      RunGrows(outputs, builder, i, input, stopBefore, full);
    }
    assert (outputs + [b'])[|outputs|] == b' && b'[|b'| - 1] == input[i];
  }

  /** The outputs so far and the open one are cut as told, up to entry i. */
  ghost predicate CutTo(outputs: seq<seq<Entry>>, builder: seq<Entry>, i: nat, input: seq<Entry>, stopBefore: seq<bool>, full: seq<bool>)
    requires i <= |stopBefore| == |full| == |input|
  {
    && CutAsTold(Runs(outputs, builder), input, stopBefore, full)
    && EndsAt(Runs(outputs, builder), builder != [], i, input, stopBefore, full)
  }

  lemma NothingCut(input: seq<Entry>, stopBefore: seq<bool>, full: seq<bool>)
    requires |stopBefore| == |full| == |input|
    ensures CutTo([], [], 0, input, stopBefore, full)
  {
  }

  /** Before entry i is taken. */
  method StartEntry(outputs: seq<seq<Entry>>, builder: seq<Entry>, stop: bool,
                    ghost i: nat, ghost input: seq<Entry>, ghost stopBefore: seq<bool>, ghost full: seq<bool>)
      returns (r: seq<seq<Entry>>, b: seq<Entry>)
    requires i < |stopBefore| == |full| == |input| && CutTo(outputs, builder, i, input, stopBefore, full) && stop == stopBefore[i]
    ensures Flatten(r) + b == Flatten(outputs) + builder && CutTo(r, b, i + 1, input, stopBefore, full)
  {
    hide CutAsTold, EndsAt, Flatten;
    EndStops(outputs, builder, i, input, stopBefore, full);
    r, b := CloseOutput(outputs, builder, stop);
  }

  /** Entry i is kept. */
  method KeepEntry(outputs: seq<seq<Entry>>, builder: seq<Entry>, i: nat, input: seq<Entry>, ghost stopBefore: seq<bool>, full: seq<bool>)
      returns (r: seq<seq<Entry>>, b: seq<Entry>)
    requires i < |stopBefore| == |full| == |input| && Sorted(input) && CutTo(outputs, builder, i + 1, input, stopBefore, full)
    ensures Flatten(r) + b == Flatten(outputs) + builder + [input[i]] && CutTo(r, b, i + 1, input, stopBefore, full)
  {
    hide CutAsTold, EndsAt, Flatten, Sorted;
    EntryJoins(outputs, builder, i, input, stopBefore, full);
    r, b := CloseOutput(outputs, builder + [input[i]], full[i]);
    assert Flatten(outputs) + (builder + [input[i]]) == Flatten(outputs) + builder + [input[i]];
  }

  /** The last output is closed. */
  method EndEntries(outputs: seq<seq<Entry>>, builder: seq<Entry>, ghost input: seq<Entry>, ghost stopBefore: seq<bool>, ghost full: seq<bool>)
      returns (r: seq<seq<Entry>>)
    requires |stopBefore| == |full| == |input| && CutTo(outputs, builder, |input|, input, stopBefore, full)
    ensures Flatten(r) == Flatten(outputs) + builder && CutAsTold(r, input, stopBefore, full) && forall o :: o in r ==> o != []
  {
    hide EndsAt, Flatten;
    var b;
    r, b := CloseOutput(outputs, builder, true);
    assert Flatten(r) + b == Flatten(r);
  }

  /** Asking about entry i, in order: the key before was asked about last, and entry s is where the last stop was. */
  ghost predicate AskedTo(c: Compaction, input: seq<Entry>, stops: seq<bool>, s: nat, i: nat)
    requires i <= |input| == |stops|
    reads c`grandparents, c`grandparentIndex, c`seenKey, c`overlappedBytes
  {
    if i == 0 then c.ScanAt(None, None) else s < i && LastStop(stops, s, i) && c.ScanAt(Some(input[s].k), Some(input[i - 1].k))
  }

  /** Whether an output ends before entry i. */
  method AskStop(c: Compaction, input: seq<Entry>, i: nat, limit: nat, ghost stops: seq<bool>, ghost s: nat)
      returns (stop: bool, ghost s2: nat)
    requires i < |input| == |stops| && Sorted(input) && LevelOk(c.grandparents)
    requires StopsAtLimit(c.grandparents, input, stops, limit) && AskedTo(c, input, stops, s, i)
    modifies c`grandparentIndex, c`seenKey, c`overlappedBytes
    ensures stop == stops[i] && AskedTo(c, input, stops, s2, i + 1)
  {
    hide LevelOk, Sorted;
    if i > 0 { InOrder(input, i - 1, i); }
    stop := c.ShouldStopBefore(input[i].k, limit, if i == 0 then None else Some(input[s].k), if i == 0 then None else Some(input[i - 1].k));
    s2 := if i == 0 || stop then i else s;
  }

  /** The merge loop. `full` stands for the output size limit; `stops` says where ShouldStopBefore starts a new output. */
  method DoCompactionWork(c: Compaction, input: seq<Entry>, snapshot: nat, limit: nat, full: seq<bool>)
      returns (outputs: seq<seq<Entry>>, ghost stops: seq<bool>)
    requires VersionOk(c.v) && c.PointersBehind(None) && LevelOk(c.grandparents) && c.ScanAt(None, None)
    requires Sorted(input) && snapshot < MAX_SEQUENCE
    requires |full| == |input|
    modifies c.levelPtrs, c`grandparentIndex, c`seenKey, c`overlappedBytes
    ensures Flatten(outputs) == Kept(input, |input|, snapshot, c.v, c.level)
    ensures Reduced(Flatten(outputs), snapshot, c.v, c.level)
    ensures StopsAtLimit(c.grandparents, input, stops, limit)
    ensures CutAsTold(outputs, input, stops, full) && forall o :: o in outputs ==> o != []
  {
    hide CutTo, CutAsTold, Dropped, Overwritten, Useless, Reduced, Sorted, Deepest, Flatten, StopsAtLimit, LevelOk, AskedTo;
    ghost var s;
    stops, s := StopsExist(c.grandparents, input, limit);
    StopsForAll(c.grandparents, input, stops, limit);
    NothingCut(input, stops, full);
    NothingAsked(c, input, stops, s);
    outputs := [];
    NoneFlat();
    var builder: seq<Entry> := [];
    var currentUserKey: Option<UserKey> := None;
    var lastSequenceForKey := MAX_SEQUENCE;
    for i := 0 to |input|
      invariant c.PointersBehind(LastUser(input, i)) && currentUserKey == LastUser(input, i)
      invariant i > 0 ==> lastSequenceForKey == input[i - 1].k.sn
      invariant Flatten(outputs) + builder == Kept(input, i, snapshot, c.v, c.level)
      invariant CutTo(outputs, builder, i, input, stops, full) && AskedTo(c, input, stops, s, i)
    {
      hide VersionOk;
      var stop;
      stop, s := AskStop(c, input, i, limit, stops, s);
      outputs, builder := StartEntry(outputs, builder, stop, i, input, stops, full);
      var e := input[i];
      if currentUserKey != Some(e.k.user) {
        currentUserKey, lastSequenceForKey := Some(e.k.user), MAX_SEQUENCE;
      }
      var drop := Drops(c, input, i, lastSequenceForKey, snapshot);
      lastSequenceForKey := e.k.sn;
      if !drop {
        outputs, builder := KeepEntry(outputs, builder, i, input, stops, full);
      }
    }
    outputs := EndEntries(outputs, builder, input, stops, full);
    KeptIsReduced(input, |input|, snapshot, c.v, c.level);
  }

  lemma StopsForAll(gs: seq<File>, input: seq<Entry>, stops: seq<bool>, limit: nat)
    requires StopsAtLimit(gs, input, stops, limit)
    ensures |stops| == |input|
  {
  }

  lemma NothingAsked(c: Compaction, input: seq<Entry>, stops: seq<bool>, s: nat)
    requires |stops| == |input| && c.ScanAt(None, None)
    ensures AskedTo(c, input, stops, s, 0)
  {
  }

  /** FinishCompactionOutputFile, when there is an open output and it is to be closed. */
  method CloseOutput(outputs: seq<seq<Entry>>, builder: seq<Entry>, close: bool) returns (r: seq<seq<Entry>>, b: seq<Entry>)
    ensures Flatten(r) + b == Flatten(outputs) + builder
    ensures Runs(r, b) == Runs(outputs, builder) && b == if close then [] else builder
  {
    r, b := outputs, builder;
    if close && builder != [] {
      FlattenAppend(outputs, builder);
      r, b := outputs + [builder], [];
    }
  }

  lemma PointersStay(c: Compaction, last: Option<UserKey>, user: UserKey)
    requires c.PointersBehind(last) || c.PointersBehind(Some(user))
    requires last.Some? ==> last.value <= user
    ensures c.PointersBehind(Some(user))
  {
    if c.PointersBehind(last) {
      forall l | 0 <= l < NUM_LEVELS ensures Passed(c.v[l], c.levelPtrs[l], Some(user)) {
        assert Passed(c.v[l], c.levelPtrs[l], last);
      }
    }
  }

  /** Sorted entries of one user key stand together, newest first. */
  lemma SameUserRun(input: seq<Entry>, i: nat, j: nat)
    requires Sorted(input) && Distinct(Entries(input)) && i < j < |input| && input[i].k.user == input[j].k.user
    ensures input[j - 1].k.user == input[j].k.user
    ensures input[j].k.sn < input[i].k.sn && input[j - 1].k.sn <= input[i].k.sn
  {
    assert input[i] in Entries(input) && input[j] in Entries(input) && input[j - 1] in Entries(input);
    assert Less(input[i].k, input[j].k) && Less(input[j - 1].k, input[j].k);
    if i < j - 1 { assert Less(input[i].k, input[j - 1].k); }
  }

  /** A hidden entry is never the newest one at or above the snapshot. */
  lemma HiddenIsNotNewest(input: seq<Entry>, i: nat, snapshot: nat, all: set<Entry>, at: nat)
    requires Sorted(input) && Distinct(Entries(input)) && i < |input| && Hidden(input, i, snapshot) && at >= snapshot
    requires Entries(input) <= all
    ensures !Newest(all, input[i].k.user, at, Some(input[i]))
  {
    SameUserRun(input, i - 1, i);
    assert input[i - 1] in Entries(input);
  }

  /** Behind an obsolete entry that is not hidden, everything of its user key is dropped. */
  lemma NothingKeptBehind(input: seq<Entry>, i: nat, snapshot: nat, v: Version, level: nat, e: Entry)
    requires |v| == NUM_LEVELS && Sorted(input) && Distinct(Entries(input)) && i < |input|
    requires Obsolete(input[i], snapshot, v, level)
    requires e in Kept(input, |input|, snapshot, v, level) && e.k.user == input[i].k.user
    ensures e.k.sn > input[i].k.sn
  {
    KeptHas(input, |input|, snapshot, v, level, e);
    var j :| 0 <= j < |input| && input[j] == e && !Dropped(input, j, snapshot, v, level);
    if j > i {
      SameUserRun(input, i, j);
    } else if j < i {
      SameUserRun(input, j, i);
    }
  }

  // ---- What a compaction is for ----

  /** Some level below the output level has a file whose range holds the user key. */
  ghost predicate HeldDeeper(v: Version, level: nat, user: UserKey) {
    exists l: nat, f :: level + 2 <= l < |v| && f in v[l] && f.smallest.user <= user <= f.largest.user
  }

  /** Of each user key at most one entry is left at or below the snapshot, and it is no tombstone nothing deeper needs. */
  ghost predicate Reduced(es: seq<Entry>, snapshot: nat, v: Version, level: nat) {
    && (forall i, j :: 0 <= i < j < |es| && es[i].k.user == es[j].k.user ==> es[i].k.sn > snapshot)
    && forall e :: e in es && e.k.kind.Deletion? && e.k.sn <= snapshot ==> HeldDeeper(v, level, e.k.user)
  }

  lemma SortedUserRun(input: seq<Entry>, i: nat, j: nat)
    requires Sorted(input) && i < j < |input| && input[i].k.user == input[j].k.user
    ensures input[j - 1].k.user == input[j].k.user && input[j - 1].k.sn <= input[i].k.sn
  {
    assert Less(input[j - 1].k, input[j].k);
    if i < j - 1 { assert Less(input[i].k, input[j - 1].k); }
  }

  /** An earlier entry of the user key is visible at the snapshot already. */
  ghost predicate Overwritten(input: seq<Entry>, i: nat, snapshot: nat)
    requires i < |input|
  {
    exists j: nat :: j < i && input[j].k.user == input[i].k.user && input[j].k.sn <= snapshot
  }

  /** A deletion every reader sees, of a user key that no deeper file holds. */
  ghost predicate Useless(e: Entry, snapshot: nat, v: Version, level: nat) {
    e.k.kind.Deletion? && e.k.sn <= snapshot && !HeldDeeper(v, level, e.k.user)
  }

  lemma DroppedMeans(input: seq<Entry>, i: nat, snapshot: nat, v: Version, level: nat)
    requires |v| == NUM_LEVELS && Sorted(input) && i < |input|
    ensures Dropped(input, i, snapshot, v, level) <==> Overwritten(input, i, snapshot) || Useless(input[i], snapshot, v, level)
  {
    hide Sorted, Deepest, HeldDeeper;
    DeepestOrHeld(v, level, input[i].k.user);
    if j: nat :| j < i && input[j].k.user == input[i].k.user && input[j].k.sn <= snapshot { SortedUserRun(input, j, i); }
    if Hidden(input, i, snapshot) { assert i - 1 < i && input[i - 1].k.sn <= snapshot; }
  }

  /** An entry that is not the first of its user key stays only behind one that is above the snapshot. */
  lemma StaysBehindNewer(input: seq<Entry>, i: nat, j: nat, snapshot: nat)
    requires Sorted(input) && i < j < |input| && input[i].k.user == input[j].k.user && !Hidden(input, j, snapshot)
    ensures input[i].k.sn > snapshot
  {
    SortedUserRun(input, i, j);
  }

  lemma NotDeepest(v: Version, level: nat, user: UserKey)
    requires |v| == NUM_LEVELS && !Deepest(v, level, user)
    ensures HeldDeeper(v, level, user)
  {
    var l: nat :| level + 2 <= l < NUM_LEVELS && !NoneHolds(v[l], user);
    var f :| f in v[l] && f.smallest.user <= user <= f.largest.user;
  }

  /** The drop rules reclaim overwritten values and tombstones that hide nothing. */
  lemma {:induction false} KeptIsReduced(input: seq<Entry>, n: nat, snapshot: nat, v: Version, level: nat)
    requires |v| == NUM_LEVELS && Sorted(input) && n <= |input|
    ensures Reduced(Kept(input, n, snapshot, v, level), snapshot, v, level)
  {
    hide Sorted, Deepest, HeldDeeper, Hidden;
    if n > 0 && !Dropped(input, n - 1, snapshot, v, level) {
      KeptIsReduced(input, n - 1, snapshot, v, level);
      var kept, last := Kept(input, n - 1, snapshot, v, level), input[n - 1];
      forall i | 0 <= i < |kept| && kept[i].k.user == last.k.user ensures kept[i].k.sn > snapshot {
        KeptHas(input, n - 1, snapshot, v, level, kept[i]);
        var a :| 0 <= a < n - 1 && input[a] == kept[i];
        StaysBehindNewer(input, a, n - 1, snapshot);
      }
      if last.k.kind.Deletion? && last.k.sn <= snapshot { NotDeepest(v, level, last.k.user); }
    } else if n > 0 {
      KeptIsReduced(input, n - 1, snapshot, v, level);
    }
  }

  /** Some reader at or above the snapshot gets this entry from the input. */
  ghost predicate Seen(input: seq<Entry>, e: Entry, snapshot: nat) {
    exists at: nat :: at >= snapshot && Newest(Entries(input), e.k.user, at, Some(e))
  }

  /** Kept is exactly what some reader sees, but for tombstones no deeper level needs. */
  lemma KeptIsSeen(input: seq<Entry>, snapshot: nat, v: Version, level: nat, e: Entry)
    requires |v| == NUM_LEVELS && Sorted(input) && Distinct(Entries(input)) && e in input
    ensures e in Kept(input, |input|, snapshot, v, level) <==>
            Seen(input, e, snapshot) && !Useless(e, snapshot, v, level)
  {
    hide Sorted, Deepest, HeldDeeper, Hidden, Newest, Distinct;
    KeptHas(input, |input|, snapshot, v, level, e);
    DeepestOrHeld(v, level, e.k.user);
    var i :| 0 <= i < |input| && input[i] == e;
    forall j | 0 <= j < |input| && input[j] == e ensures j == i { OnePlace(input, i, j); }
    SeenIfNotHidden(input, i, snapshot);
  }

  lemma DeepestOrHeld(v: Version, level: nat, user: UserKey)
    requires |v| == NUM_LEVELS
    ensures Deepest(v, level, user) <==> !HeldDeeper(v, level, user)
  {
    if !Deepest(v, level, user) { NotDeepest(v, level, user); }
    if HeldDeeper(v, level, user) {
      var l: nat, f :| level + 2 <= l < |v| && f in v[l] && f.smallest.user <= user <= f.largest.user;
      assert !NoneHolds(v[l], user);
    }
  }

  lemma OnePlace(input: seq<Entry>, i: nat, j: nat)
    requires Sorted(input) && i < |input| && j < |input| && input[i] == input[j]
    ensures i == j
  {
  }

  lemma SeenIfNotHidden(input: seq<Entry>, i: nat, snapshot: nat)
    requires Sorted(input) && Distinct(Entries(input)) && i < |input|
    ensures Seen(input, input[i], snapshot) <==> !Hidden(input, i, snapshot)
  {
    var e := input[i];
    if Hidden(input, i, snapshot) {
      forall at: nat | at >= snapshot ensures !Newest(Entries(input), e.k.user, at, Some(e)) {
        HiddenIsNotNewest(input, i, snapshot, Entries(input), at);
      }
    } else {
      var at := if e.k.sn < snapshot then snapshot else e.k.sn;
      forall x | x in Entries(input) && Visible(x, e.k.user, at) ensures x.k.sn <= e.k.sn {
        var j :| 0 <= j < |input| && input[j] == x;
        if i < j { SameUserRun(input, i, j); }
        if j < i {
          SameUserRun(input, j, i);
          StaysBehindNewer(input, j, i, snapshot);
        }
      }
      assert Newest(Entries(input), e.k.user, at, Some(e));
    }
  }

  /** All entries before the compaction, and after it: `rest` is what the compaction does not read. */
  ghost function Before(rest: set<Entry>, input: seq<Entry>): set<Entry> {
    rest + Entries(input)
  }

  ghost function After(rest: set<Entry>, input: seq<Entry>, snapshot: nat, v: Version, level: nat): set<Entry>
    requires |v| == NUM_LEVELS
  {
    rest + Entries(Kept(input, |input|, snapshot, v, level))
  }

  lemma AfterIsPartOfBefore(rest: set<Entry>, input: seq<Entry>, snapshot: nat, v: Version, level: nat)
    requires |v| == NUM_LEVELS
    ensures After(rest, input, snapshot, v, level) <= Before(rest, input)
  {
    forall e | e in Entries(Kept(input, |input|, snapshot, v, level)) ensures e in Entries(input) {
      KeptHas(input, |input|, snapshot, v, level, e);
    }
  }

  /** The dropped tombstone i is the newest entry of its user key for the oldest snapshot. */
  ghost predicate Exposes(rest: set<Entry>, input: seq<Entry>, i: nat, snapshot: nat, v: Version, level: nat)
    requires |v| == NUM_LEVELS && i < |input|
  {
    Obsolete(input[i], snapshot, v, level) && Newest(Before(rest, input), input[i].k.user, snapshot, Some(input[i]))
  }

  /** No dropped tombstone uncovers an older value the compaction does not read. */
  ghost predicate NoResurrection(rest: set<Entry>, input: seq<Entry>, snapshot: nat, v: Version, level: nat)
    requires |v| == NUM_LEVELS
  {
    forall i :: 0 <= i < |input| && Exposes(rest, input, i, snapshot, v, level) ==>
      Reads(rest, input[i].k.user, snapshot, None)
  }

  /** Where the newest entry goes: it stays, or it is a dropped tombstone and only `rest` is left to read. */
  lemma NewestAfter(rest: set<Entry>, input: seq<Entry>, snapshot: nat, v: Version, level: nat, user: UserKey, at: nat, n: Entry)
    requires |v| == NUM_LEVELS && Sorted(input) && Distinct(Before(rest, input)) && at >= snapshot
    requires Newest(Before(rest, input), user, at, Some(n))
    ensures n in After(rest, input, snapshot, v, level) ==> Newest(After(rest, input, snapshot, v, level), user, at, Some(n))
    ensures n !in After(rest, input, snapshot, v, level) ==>
      n.k.kind.Deletion? && (exists i :: 0 <= i < |input| && input[i] == n && Exposes(rest, input, i, snapshot, v, level)) &&
      (forall r :: Newest(rest, user, snapshot, r) ==> Newest(After(rest, input, snapshot, v, level), user, at, r))
  {
    AfterIsPartOfBefore(rest, input, snapshot, v, level);
    if n !in After(rest, input, snapshot, v, level) {
      var i :| 0 <= i < |input| && input[i] == n;
      KeptHas(input, |input|, snapshot, v, level, n);
      if Hidden(input, i, snapshot) { HiddenIsNotNewest(input, i, snapshot, Before(rest, input), at); }
      assert Exposes(rest, input, i, snapshot, v, level);
      forall r | Newest(rest, user, snapshot, r)
        ensures Newest(After(rest, input, snapshot, v, level), user, at, r)
      {
        OnlyRestIsLeft(rest, input, snapshot, v, level, user, at, i, r);
      }
    }
  }

  lemma OnlyRestIsLeft(rest: set<Entry>, input: seq<Entry>, snapshot: nat, v: Version, level: nat, user: UserKey, at: nat,
                       i: nat, r: Option<Entry>)
    requires |v| == NUM_LEVELS && Sorted(input) && Distinct(Before(rest, input)) && at >= snapshot
    requires i < |input| && input[i].k.user == user && Obsolete(input[i], snapshot, v, level)
    requires Newest(Before(rest, input), user, at, Some(input[i])) && Newest(rest, user, snapshot, r)
    ensures Newest(After(rest, input, snapshot, v, level), user, at, r)
  {
    AfterIsPartOfBefore(rest, input, snapshot, v, level);
    forall e | e in After(rest, input, snapshot, v, level) && Visible(e, user, at)
      ensures e in rest && Visible(e, user, snapshot)
    {
      assert e.k.sn <= input[i].k.sn;
      if e in Kept(input, |input|, snapshot, v, level) { NothingKeptBehind(input, i, snapshot, v, level, e); }
    }
  }

  lemma ReadsOf(all: set<Entry>, user: UserKey, at: nat, r: Option<Entry>, v: Option<Bytes>)
    requires Distinct(all) && Newest(all, user, at, r)
    ensures Reads(all, user, at, v) <==> v == Payload(r)
  {
    if Reads(all, user, at, v) {
      var q :| Newest(all, user, at, q) && Payload(q) == v;
      NewestIsUnique(all, user, at, q, r);
    }
  }

  /** One reader sees the same before and after, when no tombstone it depends on uncovers older data. */
  lemma SameRead(rest: set<Entry>, input: seq<Entry>, snapshot: nat, v: Version, level: nat, user: UserKey, at: nat, val: Option<Bytes>)
    requires |v| == NUM_LEVELS && Sorted(input) && Distinct(Before(rest, input)) && at >= snapshot
    requires NoResurrection(rest, input, snapshot, v, level)
    ensures Reads(Before(rest, input), user, at, val) <==> Reads(After(rest, input, snapshot, v, level), user, at, val)
  {
    var before, after := Before(rest, input), After(rest, input, snapshot, v, level);
    AfterIsPartOfBefore(rest, input, snapshot, v, level);
    assert Distinct(after);
    var n := NewestExists(before, user, at);
    ReadsOf(before, user, at, n, val);
    if n.None? {
      ReadsOf(after, user, at, None, val);
    } else {
      NewestAfter(rest, input, snapshot, v, level, user, at, n.value);
      if n.value in after {
        ReadsOf(after, user, at, n, val);
      } else {
        var r :| Newest(rest, user, snapshot, r) && Payload(r) == None;
        ReadsOf(after, user, at, r, val);
      }
    }
  }

  /** If every reader sees the same, no dropped tombstone uncovered anything. */
  lemma ResurrectionIsSeen(rest: set<Entry>, input: seq<Entry>, snapshot: nat, v: Version, level: nat, i: nat)
    requires |v| == NUM_LEVELS && Sorted(input) && Distinct(Before(rest, input))
    requires i < |input| && Exposes(rest, input, i, snapshot, v, level)
    requires SameReads(Before(rest, input), After(rest, input, snapshot, v, level), snapshot)
    ensures Reads(rest, input[i].k.user, snapshot, None)
  {
    var before, after, user := Before(rest, input), After(rest, input, snapshot, v, level), input[i].k.user;
    AfterIsPartOfBefore(rest, input, snapshot, v, level);
    ReadsOf(before, user, snapshot, Some(input[i]), None);
    assert Reads(after, user, snapshot, None);
    var r := NewestExists(rest, user, snapshot);
    OnlyRestIsLeft(rest, input, snapshot, v, level, user, snapshot, i, r);
    ReadsOf(after, user, snapshot, r, None);
  }

  /** The drop rules are invisible at and above the oldest snapshot exactly when no dropped tombstone uncovers an older value. */
  lemma CompactionPreservesReads(rest: set<Entry>, input: seq<Entry>, snapshot: nat, v: Version, level: nat)
    requires |v| == NUM_LEVELS && Sorted(input) && Distinct(Before(rest, input))
    ensures SameReads(Before(rest, input), After(rest, input, snapshot, v, level), snapshot) <==>
            NoResurrection(rest, input, snapshot, v, level)
  {
    if SameReads(Before(rest, input), After(rest, input, snapshot, v, level), snapshot) {
      forall i | 0 <= i < |input| && Exposes(rest, input, i, snapshot, v, level)
        ensures Reads(rest, input[i].k.user, snapshot, None)
      {
        ResurrectionIsSeen(rest, input, snapshot, v, level, i);
      }
    }
    if NoResurrection(rest, input, snapshot, v, level) {
      forall user, at, val | at >= snapshot
        ensures Reads(Before(rest, input), user, at, val) <==> Reads(After(rest, input, snapshot, v, level), user, at, val)
      {
        SameRead(rest, input, snapshot, v, level, user, at, val);
      }
    }
  }

  /** What closed inputs give: data left out is newer for each shared user key, or some deeper level holds the key. */
  ghost predicate NewerOrDeeper(rest: set<Entry>, input: seq<Entry>, v: Version, level: nat)
    requires |v| == NUM_LEVELS
  {
    forall x, y | x in rest && y in input && x.k.user == y.k.user :: x.k.sn > y.k.sn || !Deepest(v, level, y.k.user)
  }

  lemma ClosedInputsAreSafe(rest: set<Entry>, input: seq<Entry>, snapshot: nat, v: Version, level: nat)
    requires |v| == NUM_LEVELS && NewerOrDeeper(rest, input, v, level)
    ensures NoResurrection(rest, input, snapshot, v, level)
  {
    forall i | 0 <= i < |input| && Exposes(rest, input, i, snapshot, v, level)
      ensures Reads(rest, input[i].k.user, snapshot, None)
    {
      assert input[i] in input;
      assert Newest(rest, input[i].k.user, snapshot, None);
    }
  }

  /** Two adjacent level-2 files split user key 5: its tombstone is compacted, its older value is not. */
  const TOP: Entry := Entry(IKey(4.0, 20, Value), [])
  const LOW: Entry := Entry(IKey(4.0, 2, Value), [])
  const GONE: Entry := Entry(IKey(5.0, 9, Deletion), [])
  const STALE: Entry := Entry(IKey(5.0, 3, Value), [])
  const UPPER: File := File(12, 1, TOP.k, TOP.k, [TOP])
  const CHOSEN: File := File(10, 1, LOW.k, GONE.k, [LOW, GONE])
  const LEFT: File := File(11, 1, STALE.k, STALE.k, [STALE])

  function SplitKeyVersion(): (v: Version)
    ensures |v| == NUM_LEVELS
  {
    [[], [UPPER], [CHOSEN, LEFT], [], [], [], []]
  }

  /** SetupOtherInputs adds no boundary file on the next level, so its own choice can bring a deleted value back. */
  lemma BoundaryOnNextLevelIsNeeded()
    ensures VersionOk(SplitKeyVersion()) && Closed(SplitKeyVersion(), 1, [UPPER], [CHOSEN])
    ensures [CHOSEN] == Picked(SplitKeyVersion()[2], Some(UPPER.smallest.user), Some(UPPER.largest.user))
    ensures Sorted([TOP, LOW, GONE]) && Distinct(Before({STALE}, [TOP, LOW, GONE]))
    ensures !SameReads(Before({STALE}, [TOP, LOW, GONE]), After({STALE}, [TOP, LOW, GONE], 20, SplitKeyVersion(), 1), 20)
  {
    SplitFilesAreSound();
    SplitInputsAreClosed();
    StaleValueReturns();
  }

  lemma SplitFilesAreSound()
    ensures FileOk(UPPER) && FileOk(CHOSEN) && FileOk(LEFT)
    ensures VersionOk(SplitKeyVersion())
  {
    assert FileOk(UPPER) && FileOk(CHOSEN) && FileOk(LEFT);
    hide FileOk;
    assert LevelOk([UPPER]) && LevelOk([CHOSEN, LEFT]) && LevelOk([]) && LevelZeroOk([]);
  }

  lemma SplitInputsAreClosed()
    ensures Closed(SplitKeyVersion(), 1, [UPPER], [CHOSEN])
    ensures [CHOSEN] == Picked(SplitKeyVersion()[2], Some(4.0), Some(4.0))
  {
    hide Apart, OlderChosen, NoShared, Picked;
    SplitPick();
    SplitSharesNothing();
    SplitIsApart();
    WholeLevelChosen([UPPER]);
    assert CHOSEN in [CHOSEN, LEFT];
  }

  lemma WholeLevelChosen(files: seq<File>)
    ensures OlderChosen(files, files)
  {
  }

  lemma SplitPick()
    ensures [CHOSEN] == Picked([CHOSEN, LEFT], Some(4.0), Some(4.0))
  {
    assert [CHOSEN, LEFT][..1] == [CHOSEN] && [CHOSEN][..0] == [];
    assert Picked([CHOSEN], Some(4.0), Some(4.0)) == [CHOSEN];
  }

  lemma SplitEntries(x: Entry, y: Entry)
    requires x in LEFT.entries && (y in UPPER.entries || y in CHOSEN.entries)
    ensures Less(y.k, LEFT.smallest)
    ensures y in UPPER.entries ==> x.k.user != y.k.user
  {
    assert x == STALE && (y == TOP || y == LOW || y == GONE);
  }

  lemma SplitSharesNothing()
    ensures NoShared([CHOSEN, LEFT], [CHOSEN], [UPPER])
  {
    forall x, y | x in LEFT.entries && y in UPPER.entries ensures x.k.user != y.k.user { SplitEntries(x, y); }
    hide *;
    LeftOverSharesNothing(CHOSEN, LEFT, UPPER);
  }

  lemma LeftOverSharesNothing(chosen: File, left: File, upper: File)
    requires forall x, y | x in left.entries && y in upper.entries :: x.k.user != y.k.user
    ensures NoShared([chosen, left], [chosen], [upper])
  {
    assert chosen in [chosen];
  }

  lemma SplitIsApart()
    ensures Apart([CHOSEN, LEFT], [CHOSEN], [UPPER] + [CHOSEN])
  {
    assert STALE in LEFT.entries && CHOSEN in [CHOSEN];
    hide Less;
    forall g, y | g in [UPPER] + [CHOSEN] && y in g.entries ensures Less(y.k, LEFT.smallest) {
      SplitEntries(STALE, y);
    }
  }

  lemma StaleValueReturns()
    ensures Sorted([TOP, LOW, GONE]) && Distinct(Before({STALE}, [TOP, LOW, GONE]))
    ensures !SameReads(Before({STALE}, [TOP, LOW, GONE]), After({STALE}, [TOP, LOW, GONE], 20, SplitKeyVersion(), 1), 20)
  {
    var input, rest, v := [TOP, LOW, GONE], {STALE}, SplitKeyVersion();
    GoneIsExposed();
    StaleIsLeft();
    hide *;
    ResurrectionReturns(rest, input, 20, v, 1, 2);
  }

  lemma ResurrectionReturns(rest: set<Entry>, input: seq<Entry>, snapshot: nat, v: Version, level: nat, i: nat)
    requires |v| == NUM_LEVELS && Sorted(input) && Distinct(Before(rest, input))
    requires i < |input| && Exposes(rest, input, i, snapshot, v, level) && !Reads(rest, input[i].k.user, snapshot, None)
    ensures !SameReads(Before(rest, input), After(rest, input, snapshot, v, level), snapshot)
  {
    hide Exposes, Reads, SameReads, Sorted, Distinct;
    CompactionPreservesReads(rest, input, snapshot, v, level);
  }

  lemma GoneIsExposed()
    ensures Sorted([TOP, LOW, GONE]) && Distinct(Before({STALE}, [TOP, LOW, GONE]))
    ensures Exposes({STALE}, [TOP, LOW, GONE], 2, 20, SplitKeyVersion(), 1)
  {
    assert Entries([TOP, LOW, GONE]) == {TOP, LOW, GONE};
    assert Deepest(SplitKeyVersion(), 1, 5.0);
    hide Deepest;
  }

  lemma StaleIsLeft()
    ensures !Reads({STALE}, GONE.k.user, 20, None)
  {
    assert Newest({STALE}, 5.0, 20, Some(STALE));
    ReadsOf({STALE}, 5.0, 20, Some(STALE), None);
  }
}
