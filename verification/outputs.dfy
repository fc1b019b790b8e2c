/** The files a compaction loop writes are what the compaction step installs (db_impl.cc, version_set.cc). */
module Outputs {
  import opened Bytestrings
  import opened Format
  import opened Versions
  import opened CompactionInputs
  import opened Compactions
  import opened Merge
  import opened Stops
  import opened Views
  import opened ViewSteps

  lemma {:induction false} KeptIsSorted(input: seq<Entry>, n: nat, snapshot: nat, v: Version, level: nat)
    requires n <= |input| && |v| == NUM_LEVELS && Sorted(input)
    ensures Sorted(Kept(input, n, snapshot, v, level))
  {
    if n > 0 {
      KeptIsSorted(input, n - 1, snapshot, v, level);
      var k := Kept(input, n - 1, snapshot, v, level);
      forall i | 0 <= i < |k| ensures Less(k[i].k, input[n - 1].k) {
        KeptHas(input, n - 1, snapshot, v, level, k[i]);
      }
    }
  }

  /** Cutting a sorted run into pieces leaves sorted pieces, one after the other. */
  ghost predicate Cut(runs: seq<seq<Entry>>) {
    && (forall r :: r in runs ==> Sorted(r))
    && forall i, j, x, y | 0 <= i < j < |runs| && x in runs[i] && y in runs[j] :: Less(x.k, y.k)
  }

  lemma {:induction false} FlattenHas(runs: seq<seq<Entry>>, e: Entry)
    ensures e in Flatten(runs) <==> exists r :: r in runs && e in r
  {
    if runs != [] {
      FlattenHas(runs[..|runs| - 1], e);
      assert runs == runs[..|runs| - 1] + [runs[|runs| - 1]];
    }
  }

  lemma {:induction false} PiecesAreCut(runs: seq<seq<Entry>>)
    requires Sorted(Flatten(runs))
    ensures Cut(runs)
  {
    if runs != [] {
      var init, last := runs[..|runs| - 1], runs[|runs| - 1];
      SortedParts(Flatten(init), last);
      hide Less, Sorted;
      PiecesAreCut(init);
      forall i, x: Entry, y: Entry | 0 <= i < |init| && x in init[i] && y in last ensures Less(x.k, y.k) {
        FlattenHas(init, x);
      }
      assert forall i :: 0 <= i < |init| ==> runs[i] == init[i];
    }
  }

  lemma SortedParts(a: seq<Entry>, b: seq<Entry>)
    requires Sorted(a + b)
    ensures Sorted(a) && Sorted(b) && forall x, y | x in a && y in b :: Less(x.k, y.k)
  {
    hide Less;
    var all := a + b;
    assert forall i :: 0 <= i < |a| ==> all[i] == a[i];
    assert forall i :: 0 <= i < |b| ==> all[|a| + i] == b[i];
    forall x, y | x in a && y in b ensures Less(x.k, y.k) {
      var i :| 0 <= i < |a| && a[i] == x;
      var k :| 0 <= k < |b| && b[k] == y;
      assert Less(all[i].k, all[|a| + k].k);
    }
  }

  /** One file per run, numbered upwards from `base` (OpenCompactionOutputFile, FinishCompactionOutputFile). */
  ghost predicate FilesOf(outs: seq<File>, runs: seq<seq<Entry>>, base: nat) {
    && |outs| == |runs|
    && forall i :: 0 <= i < |runs| ==> FileOfRun(outs[i], runs[i], base + i)
  }

  predicate FileOfRun(f: File, run: seq<Entry>, number: nat) {
    && f.number == number && f.entries == run && run != []
    && f.smallest == run[0].k && f.largest == run[|run| - 1].k
  }

  lemma RunFileOk(input: seq<Entry>, snapshot: nat, v: Version, level: nat, ins: seq<File>, runs: seq<seq<Entry>>, f: File,
                  i: nat, number: nat)
    requires |v| == NUM_LEVELS && Entries(input) == LevelEntries(ins) && (forall g :: g in ins ==> FileOk(g))
    requires Flatten(runs) == Kept(input, |input|, snapshot, v, level) && Cut(runs)
    requires i < |runs| && FileOfRun(f, runs[i], number)
    ensures FileOk(f) && FileEntries(f) <= LevelEntries(ins)
  {
    hide Kept, Sorted;
    assert runs[i] in runs;
    forall e | e in f.entries ensures e in LevelEntries(ins) && e.k.sn <= MAX_SEQUENCE {
      FlattenHas(runs, e);
      KeptHas(input, |input|, snapshot, v, level, e);
      assert e in Entries(input);
      var g :| g in ins && e in g.entries;
    }
  }

  lemma RunFilesContents(outs: seq<File>, runs: seq<seq<Entry>>, base: nat)
    requires FilesOf(outs, runs, base)
    ensures LevelEntries(outs) == Entries(Flatten(runs))
  {
    forall e ensures e in LevelEntries(outs) <==> e in Entries(Flatten(runs)) {
      FlattenHas(runs, e);
      if f :| f in outs && e in f.entries {
        var i :| 0 <= i < |outs| && outs[i] == f;
        assert FileOfRun(outs[i], runs[i], base + i);
        assert runs[i] in runs;
      }
      if r :| r in runs && e in r {
        var i :| 0 <= i < |runs| && runs[i] == r;
        assert FileOfRun(outs[i], runs[i], base + i);
        assert outs[i] in outs;
      }
    }
  }

  lemma RunFilesApart(outs: seq<File>, runs: seq<seq<Entry>>, base: nat, o: File, q: File)
    requires FilesOf(outs, runs, base) && Cut(runs) && o in outs && q in outs && o != q
    ensures Disjoint(o, q) && o.number != q.number
  {
    hide Cut, Less;
    var i: nat :| i < |outs| && outs[i] == o;
    var j: nat :| j < |outs| && outs[j] == q;
    assert FileOfRun(outs[i], runs[i], base + i) && FileOfRun(outs[j], runs[j], base + j);
    if i < j {
      RunsApart(runs, i, j, o, q);
    } else {
      RunsApart(runs, j, i, q, o);
    }
  }

  lemma RunsApart(runs: seq<seq<Entry>>, i: nat, j: nat, f: File, g: File)
    requires Cut(runs) && i < j < |runs|
    requires runs[i] != [] && f.largest == runs[i][|runs[i]| - 1].k
    requires runs[j] != [] && g.smallest == runs[j][0].k
    ensures Less(f.largest, g.smallest)
  {
    hide Less, Sorted;
    assert runs[i][|runs[i]| - 1] in runs[i] && runs[j][0] in runs[j];
  }

  /** What the merge loop returns, written to new files, meets every demand of the compaction step. */
  lemma LoopOutputsInstall(v: Version, level: nat, in0: seq<File>, in1: seq<File>, input: seq<Entry>, snapshot: nat,
                           runs: seq<seq<Entry>>, outs: seq<File>, base: nat)
    requires Sound(v) && level + 1 < NUM_LEVELS && Among(in0, v[level]) && Among(in1, v[level + 1]) && Fresh(v, base)
    requires Sorted(input) && Entries(input) == LevelEntries(in0 + in1)
    requires Flatten(runs) == Kept(input, |input|, snapshot, v, level) && FilesOf(outs, runs, base)
    ensures OutputsOk(v, level, in0, in1, outs) && Merged(v, level, in0, in1, input, snapshot, outs)
    ensures forall o :: o in outs ==> base <= o.number < base + |outs|
  {
    hide Kept, Sorted, FileOk, NumbersUnique, Cut, Flatten, FileOfRun;
    KeptIsSorted(input, |input|, snapshot, v, level);
    PiecesAreCut(runs);
    InputsOk(v, level, in0, in1);
    RunFilesContents(outs, runs, base);
    forall o | o in outs ensures FileOk(o) && FileEntries(o) <= LevelEntries(in0 + in1) && base <= o.number < base + |outs| {
      var i :| 0 <= i < |outs| && outs[i] == o;
      RunFileOk(input, snapshot, v, level, in0 + in1, runs, o, i, base + i);
      NumberOfRun(o, runs[i], base + i);
    }
    forall o, q | o in outs && q in outs ensures o == q || (Disjoint(o, q) && o.number != q.number) {
      if o != q { RunFilesApart(outs, runs, base, o, q); }
    }
  }

  lemma NumberOfRun(f: File, run: seq<Entry>, number: nat)
    requires FileOfRun(f, run, number)
    ensures f.number == number
  {
  }

  lemma InputsOk(v: Version, level: nat, in0: seq<File>, in1: seq<File>)
    requires Sound(v) && level + 1 < NUM_LEVELS && Among(in0, v[level]) && Among(in1, v[level + 1])
    ensures forall g :: g in in0 + in1 ==> FileOk(g)
  {
    assert LevelSound(v[level], level == 0) && LevelSound(v[level + 1], false);
  }

  // ---- What an output overlaps two levels down ----

  /** From the first entry of an output to its j-th nothing stops. */
  lemma {:induction false} RunSpan(run: seq<Entry>, input: seq<Entry>, stops: seq<bool>, full: seq<bool>, j: nat) returns (p: nat, q: nat)
    requires |stops| == |full| == |input| && Whole(run, input, stops, full)
    requires Sorted(run) && Sorted(input) && (forall e :: e in run ==> e in input) && j < |run|
    ensures p <= q < |input| && input[p] == run[0] && input[q] == run[j] && forall m :: p < m <= q ==> !stops[m]
  {
    assert run[j] in input;
    q :| q < |input| && input[q] == run[j];
    if j == 0 {
      p := q;
    } else {
      var before;
      p, before := RunSpan(run, input, stops, full, j - 1);
      InputOrder(run, input, j, before, q);
      NoStopInside(run, input, stops, full, j, before, q);
    }
  }

  lemma InputOrder(run: seq<Entry>, input: seq<Entry>, j: nat, p: nat, q: nat)
    requires Sorted(run) && Sorted(input) && 0 < j < |run| && p < |input| && q < |input|
    requires input[p] == run[j - 1] && input[q] == run[j]
    ensures p < q
  {
    assert Less(input[p].k, input[q].k);
  }

  lemma NoStopInside(run: seq<Entry>, input: seq<Entry>, stops: seq<bool>, full: seq<bool>, j: nat, p: nat, q: nat)
    requires |stops| == |full| == |input| && Whole(run, input, stops, full) && 0 < j < |run|
    requires p < q < |input| && input[p] == run[j - 1] && input[q] == run[j]
    ensures forall m :: p < m <= q ==> !stops[m]
  {
    assert !Parted(stops, full, p, q);
  }

  /** However the merge goes, each output meets at most `limit` bytes of grandparents, not counting one of them. */
  lemma OutputsOverlapLittle(gs: seq<File>, input: seq<Entry>, stops: seq<bool>, full: seq<bool>, limit: nat,
                             snapshot: nat, v: Version, level: nat, runs: seq<seq<Entry>>, k: nat)
    requires LevelOk(gs) && Sorted(input) && |v| == NUM_LEVELS && |stops| == |full| == |input| && k < |runs|
    requires StopsAtLimit(gs, input, stops, limit) && CutAsTold(runs, input, stops, full)
    requires Flatten(runs) == Kept(input, |input|, snapshot, v, level)
    ensures OverlapsLittle(gs, runs[k], limit)
  {
    hide LevelOk, Sorted, StopsAtLimit, Kept, Flatten, Whole, OverlapsLittle;
    var run := runs[k];
    KeptIsSorted(input, |input|, snapshot, v, level);
    PiecesAreCut(runs);
    assert Sorted(run) && run != [];
    forall e | e in run ensures e in input {
      FlattenHas(runs, e);
      KeptHas(input, |input|, snapshot, v, level, e);
    }
    var p, q := RunSpan(run, input, stops, full, |run| - 1);
    NoStopOverlapsLittle(gs, input, stops, limit, p, q, run);
  }
}
