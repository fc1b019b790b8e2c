/** Recovery never gets stuck: from every crashed state the store can be opened (db_impl.cc, Recover). */
module Recovery {
  import opened Bytestrings
  import opened Format
  import opened Versions
  import opened Views
  import opened ViewSteps
  import opened History
  import opened Store
  import opened StoreSteps
  import opened StoreRuns

  function InsertEntry(es: seq<Entry>, e: Entry): seq<Entry> {
    if es == [] || Less(es[|es| - 1].k, e.k) then es + [e]
    else InsertEntry(es[..|es| - 1], e) + [es[|es| - 1]]
  }

  lemma {:induction false} InsertEntryHas(es: seq<Entry>, e: Entry, x: Entry)
    ensures x in InsertEntry(es, e) <==> x in es || x == e
  {
    hide Less;
    if es != [] && !Less(es[|es| - 1].k, e.k) {
      InsertEntryHas(es[..|es| - 1], e, x);
      assert es == es[..|es| - 1] + [es[|es| - 1]];
    }
  }

  lemma SortedSnoc(es: seq<Entry>, e: Entry)
    requires Sorted(es) && (es == [] || Less(es[|es| - 1].k, e.k))
    ensures Sorted(es + [e])
  {
    forall i | 0 <= i < |es| ensures Less(es[i].k, e.k) {
      if i < |es| - 1 { assert Less(es[i].k, es[|es| - 1].k); }
    }
  }

  lemma {:induction false} InsertEntryIsSorted(es: seq<Entry>, e: Entry)
    requires Sorted(es) && forall x :: x in es ==> x.k != e.k
    ensures Sorted(InsertEntry(es, e))
  {
    if es == [] || Less(es[|es| - 1].k, e.k) {
      SortedSnoc(es, e);
    } else {
      var init, last := es[..|es| - 1], es[|es| - 1];
      assert last in es && forall x :: x in init ==> x in es;
      LessIsTotalOrder(last.k, e.k, last.k);
      hide Less;
      InsertEntryIsSorted(init, e);
      var r := InsertEntry(init, e);
      LastInserted(init, e, last);
      SortedSnoc(r, last);
    }
  }

  lemma LastInserted(init: seq<Entry>, e: Entry, last: Entry)
    requires Sorted(init + [last]) && Less(e.k, last.k)
    ensures InsertEntry(init, e) != [] && Less(InsertEntry(init, e)[|InsertEntry(init, e)| - 1].k, last.k)
  {
    hide Less;
    var r, all := InsertEntry(init, e), init + [last];
    InsertEntryHas(init, e, e);
    var x := r[|r| - 1];
    InsertEntryHas(init, e, x);
    if x != e {
      var i :| 0 <= i < |init| && init[i] == x;
      assert Less(all[i].k, all[|init|].k);
    }
  }

  /** A memtable's entries in internal key order. */
  lemma {:induction false} SortedRunExists(s: set<Entry>) returns (es: seq<Entry>)
    requires forall x, y :: x in s && y in s && x.k == y.k ==> x == y
    ensures Sorted(es) && Entries(es) == s
    decreases s
  {
    hide Sorted;
    if s == {} {
      es := [];
      EmptyIsSorted();
    } else {
      var e :| e in s;
      var rest := SortedRunExists(s - {e});
      assert forall x :: x in rest ==> x in Entries(rest);
      InsertEntryIsSorted(rest, e);
      es := InsertEntry(rest, e);
      forall x ensures x in Entries(es) <==> x in s { InsertEntryHas(rest, e, x); }
    }
  }

  lemma EmptyIsSorted()
    ensures Sorted([])
  {
  }

  lemma TableExists(s: set<Entry>, number: nat) returns (f: File)
    requires s != {} && Distinct(s)
    ensures TableOf(f, s) && f.number == number
  {
    var es := SortedRunExists(s);
    var e :| e in s;
    assert e in Entries(es);
    f := File(number, |es|, es[0].k, es[|es| - 1].k, es);
  }

  /** Replayed entries can go to one level-0 file, whatever the version holds. */
  lemma RunCanBePlaced(v: Version, s: set<Entry>, number: nat) returns (v2: Version, f: File)
    requires Sound(v) && Distinct(s) && Fresh(v, number)
    ensures RunPlaced(v, v2, s, f) && Fresh(v2, number + 1)
  {
    hide Sound, TableOf, Placed, Distinct;
    if s == {} {
      v2, f := v, File(number, 0, IKey(0.0, 0, Value), IKey(0.0, 0, Value), []);
    } else {
      f := TableExists(s, number);
      v2 := FileCanBePlaced(v, 0, f);
      PlacedIsFresh(v, v2, 0, f);
    }
  }

  function NumberAbove(logs: seq<LogFile>, floor: nat): (n: nat)
    ensures n >= floor && forall i :: 0 <= i < |logs| ==> logs[i].number < n
  {
    if logs == [] then floor
    else
      var n, last := NumberAbove(logs[..|logs| - 1], floor), logs[|logs| - 1].number;
      if last < n then n else last + 1
  }

  lemma TailIsDistinct(db: Db)
    requires Durable(db)
    ensures Distinct(HistoryEntries(Tail(db)))
  {
    hide Fresh, LogsAscend, Replay, HistoryEntries, Distinct;
    var a, t := Tabled(db), Tail(db);
    assert db.history == a + t;
    SuffixIsNewer(a, t);
    NumberedIsDistinct(HistoryEntries(t), LastSeq(a), LastSeq(a + t));
  }

  /** From every crashed state there is a way to open: for one, with all that is replayed in one table. */
  lemma CrashedCanOpen(db: Db) returns (runs: seq<seq<Group>>, files: seq<File>, vs: seq<Version>, number: nat)
    requires Inv(db) && !db.up
    ensures CanOpen(db, runs, files, vs, number)
  {
    hide HistoryEntries, Consecutive, RunPlaced, LogsAscend, Replay, Fresh, MaxSequence, Sound, LayerOrder, Faithful, Distinct, LastSeq, Tabled, IsSuffix;
    TailIsDistinct(db);
    var v2, f := RunCanBePlaced(db.manifest.v, HistoryEntries(Tail(db)), db.manifest.nextFile);
    runs, files, vs := [Tail(db)], [f], [db.manifest.v, v2];
    number := NumberAbove(db.logs, db.manifest.logNumber + db.manifest.nextFile + 1);
    FreshLater(v2, db.manifest.nextFile + 1, number);
    OneRun(Tail(db));
  }

  lemma OneRun(h: seq<Group>)
    ensures FlattenRuns([h]) == h
  {
    assert [h][1..] == [];
  }

  /** Every run that ends in a crash goes on: the store opens, and holds every batch ever logged. */
  lemma CrashedRunGoesOn(dbs: seq<Db>, steps: seq<Step>) returns (step: Step, db: Db)
    requires IsRun(dbs, steps) && !dbs[|steps|].up
    ensures step.OpenStep? && IsRun(dbs + [db], steps + [step]) && db.up
    ensures OpsOf(db.history) == Batches(steps)
  {
    hide *;
    RunLength(dbs, steps);
    RunKeepsInv(dbs, steps, |steps|);
    var runs, files, vs, number := CrashedCanOpen(dbs[|steps|]);
    step, db := OpenOf(dbs[|steps|], runs, files, vs, number);
    RunGrows(dbs, steps, step, db);
    HistoryIsBatches(dbs, steps, |steps|);
    NextHistory(dbs[|steps|], step, db);
    assert steps[..|steps|] == steps;
  }

  lemma RunLength(dbs: seq<Db>, steps: seq<Step>)
    requires IsRun(dbs, steps)
    ensures |dbs| == |steps| + 1
  {
  }

  lemma OpenOf(db: Db, runs: seq<seq<Group>>, files: seq<File>, vs: seq<Version>, number: nat) returns (step: Step, db': Db)
    requires CanOpen(db, runs, files, vs, number)
    ensures step.OpenStep? && Next(db, step, db') && db'.up
  {
    hide CanFailOpen, FlattenRuns, Fresh, RunPlaced, Tail;
    step, db' := OpenStep(runs, files, vs, number), Open(db, vs[|vs| - 1], number);
  }

  lemma RunGrows(dbs: seq<Db>, steps: seq<Step>, step: Step, db: Db)
    requires IsRun(dbs, steps) && Next(dbs[|steps|], step, db)
    ensures IsRun(dbs + [db], steps + [step])
  {
    hide Next, Init;
    var ds, ss := dbs + [db], steps + [step];
    forall i | 0 <= i < |ss| ensures Next(ds[i], ss[i], ds[i + 1]) {
      if i < |steps| { assert Next(dbs[i], steps[i], dbs[i + 1]); }
    }
  }
}
