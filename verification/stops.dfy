/** Where a compaction starts a new output because of the grandparents it passes (version_set.cc, ShouldStopBefore). */
module Stops {
  import opened Bytestrings
  import opened Format
  import opened Versions
  import opened Inputs

  /** How many grandparents end before the key. */
  ghost function Behind(gs: seq<File>, key: IKey): (n: nat)
    ensures n <= |gs|
  {
    if gs == [] || !Less(gs[0].largest, key) then 0 else 1 + Behind(gs[1..], key)
  }

  lemma {:induction false} BehindMeans(gs: seq<File>, key: IKey)
    requires LevelOk(gs)
    ensures forall k :: 0 <= k < |gs| ==> (k < Behind(gs, key) <==> Less(gs[k].largest, key))
  {
    if gs != [] {
      if Less(gs[0].largest, key) {
        assert LevelOk(gs[1..]);
        BehindMeans(gs[1..], key);
        assert forall k :: 0 < k < |gs| ==> gs[k] == gs[1..][k - 1];
      } else {
        forall k | 0 < k < |gs| ensures !Less(gs[k].largest, key) { LaterEndsLater(gs, k); }
      }
    }
  }

  lemma LaterEndsLater(gs: seq<File>, k: nat)
    requires LevelOk(gs) && 0 < k < |gs|
    ensures Less(gs[0].largest, gs[k].largest)
  {
    assert gs[k] in gs;
    EndsAreEntries(gs[k]);
    assert Less(gs[0].largest, gs[k].smallest);
  }

  lemma BehindIs(gs: seq<File>, key: IKey, n: nat)
    requires LevelOk(gs) && n <= |gs|
    requires forall k :: 0 <= k < n ==> Less(gs[k].largest, key)
    requires n < |gs| ==> !Less(gs[n].largest, key)
    ensures Behind(gs, key) == n
  {
    BehindMeans(gs, key);
    NextEndsAfter(gs, key);
  }

  lemma NextEndsAfter(gs: seq<File>, key: IKey)
    requires LevelOk(gs)
    ensures Behind(gs, key) < |gs| ==> !Less(gs[Behind(gs, key)].largest, key)
    ensures forall k :: Behind(gs, key) < k < |gs| ==> Less(key, gs[k].smallest)
  {
    BehindMeans(gs, key);
    forall k | Behind(gs, key) < k < |gs| ensures Less(key, gs[k].smallest) {
      assert Less(gs[Behind(gs, key)].largest, gs[k].smallest);
    }
  }

  lemma BehindGrows(gs: seq<File>, a: IKey, b: IKey)
    requires LevelOk(gs) && AtMost(a, b)
    ensures Behind(gs, a) <= Behind(gs, b)
  {
    BehindMeans(gs, a);
    BehindMeans(gs, b);
    assert Behind(gs, a) > Behind(gs, b) ==> Less(gs[Behind(gs, b)].largest, a);
  }

  /** The bytes of the grandparents that end at or after a, and before b. */
  ghost function BytesBetween(gs: seq<File>, a: IKey, b: IKey): nat {
    if Behind(gs, a) <= Behind(gs, b) then TotalFileSize(gs[Behind(gs, a)..Behind(gs, b)]) else 0
  }

  lemma {:induction false} SizeOfNext(gs: seq<File>, i: nat, j: nat)
    requires i <= j < |gs|
    ensures TotalFileSize(gs[i..j + 1]) == TotalFileSize(gs[i..j]) + gs[j].size
    decreases j - i
  {
    if i == j {
      assert gs[i..j] == [] && gs[i..j + 1][1..] == [];
    } else {
      SizeOfNext(gs, i + 1, j);
      assert gs[i..j + 1][1..] == gs[i + 1..j + 1] && gs[i..j][1..] == gs[i + 1..j];
    }
  }

  // ---- Which entries stop ----

  /** The last stop before entry m is entry s, or nothing has stopped and s is the first entry. */
  ghost predicate LastStop(stops: seq<bool>, s: nat, m: nat)
    requires s < m <= |stops|
  {
    (s == 0 || stops[s]) && forall t :: s < t < m ==> !stops[t]
  }

  /** A new output starts exactly where more than `limit` bytes of grandparents were passed since the last stop. */
  ghost predicate StopsAtLimit(gs: seq<File>, input: seq<Entry>, stops: seq<bool>, limit: nat) {
    && |stops| == |input| && (input != [] ==> !stops[0])
    && forall s: nat, m: nat :: s < m < |input| && LastStop(stops, s, m) ==>
         (stops[m] <==> BytesBetween(gs, input[s].k, input[m].k) > limit)
  }

  lemma {:induction false} StopsExist(gs: seq<File>, input: seq<Entry>, limit: nat) returns (stops: seq<bool>, s: nat)
    ensures StopsAtLimit(gs, input, stops, limit)
    ensures input != [] ==> s < |input| && LastStop(stops, s, |input|)
  {
    if |input| <= 1 {
      stops, s := seq(|input|, i => false), 0;
    } else {
      var n := |input| - 1;
      var init, last := StopsExist(gs, input[..n], limit);
      var stop := BytesBetween(gs, input[last].k, input[n].k) > limit;
      stops, s := init + [stop], if stop then n else last;
      assert forall x :: 0 <= x < n ==> stops[x] == init[x];
      forall t: nat, m: nat | t < m < |input| && LastStop(stops, t, m)
        ensures stops[m] <==> BytesBetween(gs, input[t].k, input[m].k) > limit
      {
        assert LastStop(init, t, m);
        if m == n { OneLastStop(init, t, last, n); }
      }
    }
  }

  lemma OneLastStop(stops: seq<bool>, s: nat, t: nat, m: nat)
    requires s < m <= |stops| && t < m && LastStop(stops, s, m) && LastStop(stops, t, m)
    ensures s == t
  {
  }

  lemma {:induction false} LastStopExists(stops: seq<bool>, m: nat, p: nat) returns (s: nat)
    requires p < m <= |stops| && forall t :: p < t < m ==> !stops[t]
    ensures s <= p && LastStop(stops, s, m)
    decreases p
  {
    if p == 0 || stops[p] {
      s := p;
    } else {
      s := LastStopExists(stops, m, p - 1);
    }
  }

  /** The keys and the grandparents alone decide it. */
  lemma {:induction false} OneWayToStop(gs: seq<File>, input: seq<Entry>, a: seq<bool>, b: seq<bool>, limit: nat, n: nat)
    requires StopsAtLimit(gs, input, a, limit) && StopsAtLimit(gs, input, b, limit) && n <= |input|
    ensures a[..n] == b[..n]
  {
    if n > 0 {
      var m := n - 1;
      OneWayToStop(gs, input, a, b, limit, m);
      assert forall t :: 0 <= t < m ==> a[..m][t] == a[t] && b[..m][t] == b[t];
      if m > 0 {
        var s := LastStopExists(a, m, m - 1);
        assert LastStop(b, s, m);
      }
      assert a[..n] == a[..m] + [a[m]] && b[..n] == b[..m] + [b[m]];
    }
  }

  // ---- What an output overlaps ----

  ghost predicate Meets(g: File, a: IKey, b: IKey) {
    AtMost(a, g.largest) && AtMost(g.smallest, b)
  }

  /** But for one, the grandparents that the run meets have at most `limit` bytes together. */
  ghost predicate OverlapsLittle(gs: seq<File>, run: seq<Entry>, limit: nat) {
    run != [] ==> exists i: nat, j: nat :: i <= j <= |gs| && TotalFileSize(gs[i..j]) <= limit && MeetsWithin(gs, run, i, j)
  }

  ghost predicate MeetsWithin(gs: seq<File>, run: seq<Entry>, i: nat, j: nat)
    requires run != []
  {
    forall k :: 0 <= k < |gs| && Meets(gs[k], run[0].k, run[|run| - 1].k) ==> i <= k <= j
  }

  /** Entries p to q of the input with no stop after the first. */
  lemma NoStopOverlapsLittle(gs: seq<File>, input: seq<Entry>, stops: seq<bool>, limit: nat, p: nat, q: nat, run: seq<Entry>)
    requires LevelOk(gs) && Sorted(input) && StopsAtLimit(gs, input, stops, limit)
    requires p <= q < |input| == |stops| && (forall m :: p < m <= q ==> !stops[m])
    requires run != [] && run[0] == input[p] && run[|run| - 1] == input[q]
    ensures OverlapsLittle(gs, run, limit)
  {
    hide Sorted, LevelOk, StopsAtLimit;
    var s := p;
    if p < q {
      s := LastStopExists(stops, q, p);
      NotStopped(gs, input, stops, limit, s, q);
    }
    InOrder(input, s, p);
    InOrder(input, s, q);
    BehindGrows(gs, input[s].k, input[q].k);
    if s == q { assert gs[Behind(gs, input[s].k)..Behind(gs, input[q].k)] == []; }
    MetInRange(gs, input[s].k, run);
    assert MeetsWithin(gs, run, Behind(gs, input[s].k), Behind(gs, input[q].k));
  }

  lemma NotStopped(gs: seq<File>, input: seq<Entry>, stops: seq<bool>, limit: nat, s: nat, q: nat)
    requires StopsAtLimit(gs, input, stops, limit) && s < q < |input| && LastStop(stops, s, q) && !stops[q]
    ensures BytesBetween(gs, input[s].k, input[q].k) <= limit
  {
  }

  lemma InOrder(input: seq<Entry>, i: nat, j: nat)
    requires Sorted(input) && i <= j < |input|
    ensures AtMost(input[i].k, input[j].k)
  {
    LessIsTotalOrder(input[i].k, input[j].k, input[j].k);
    if i < j { assert Less(input[i].k, input[j].k); }
  }

  lemma MetInRange(gs: seq<File>, a: IKey, run: seq<Entry>)
    requires LevelOk(gs) && run != [] && AtMost(a, run[0].k)
    ensures MeetsWithin(gs, run, Behind(gs, a), Behind(gs, run[|run| - 1].k))
  {
    var b := run[|run| - 1].k;
    BehindMeans(gs, a);
    NextEndsAfter(gs, b);
    forall k | 0 <= k < |gs| && Meets(gs[k], run[0].k, b) ensures Behind(gs, a) <= k <= Behind(gs, b) {}
  }
}
