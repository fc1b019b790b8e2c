/** Group commit: the writer queue, the leader's group, and what readers see meanwhile (db_impl.cc, Write and BuildBatchGroup). */
module Writers {
  import opened Bytestrings
  import opened WriteBatches
  import opened MemTables

  // ---- What joins a group ----

  /** A queued write: None stands for the null batch that only forces a memtable switch. */
  datatype Request = Request(id: nat, ops: Option<seq<Op>>, sync: bool)

  function OpsOf(r: Request): seq<Op> {
    if r.ops.Some? then r.ops.value else []
  }

  function Together(rs: seq<Request>): seq<Op> {
    if rs == [] then [] else Together(rs[..|rs| - 1]) + OpsOf(rs[|rs| - 1])
  }

  lemma {:induction false} TogetherConcat(a: seq<Request>, b: seq<Request>)
    ensures Together(a + b) == Together(a) + Together(b)
  {
    hide OpsOf;
    if b == [] {
      assert a + b == a;
    } else {
      var init := b[..|b| - 1];
      TogetherConcat(a, init);
      LastOfConcat(a, b);
      Regroup(Together(a), Together(init), OpsOf(b[|b| - 1]));
    }
  }

  lemma LastOfConcat(a: seq<Request>, b: seq<Request>)
    requires b != []
    ensures (a + b)[..|a + b| - 1] == a + b[..|b| - 1] && (a + b)[|a + b| - 1] == b[|b| - 1]
  {
  }

  lemma Regroup(a: seq<Op>, b: seq<Op>, c: seq<Op>)
    ensures a + (b + c) == (a + b) + c
  {
  }

  function ByteSize(r: Request): nat {
    if r.ops.Some? then HEADER + |OpsBytes(r.ops.value)| else 0
  }

  function TotalSize(rs: seq<Request>): nat {
    if rs == [] then 0 else TotalSize(rs[..|rs| - 1]) + ByteSize(rs[|rs| - 1])
  }

  /** A small first write keeps the group small. */
  function MaxSize(size: nat): nat {
    if size <= 0x2_0000 then size + 0x2_0000 else 0x10_0000
  }

  /** Writer i may join: it does not ask a non-sync leader for a sync, and its batch does not overfill the group. */
  ghost predicate Admitted(q: seq<Request>, i: nat)
    requires i < |q|
  {
    && (q[i].sync ==> q[0].sync)
    && (q[i].ops.Some? ==> TotalSize(q[..i + 1]) <= MaxSize(ByteSize(q[0])))
  }

  /** The group is the leader and everyone behind it up to the first that may not join. */
  ghost predicate IsGroup(q: seq<Request>, n: nat) {
    && 1 <= n <= |q|
    && (forall i :: 1 <= i < n ==> Admitted(q, i))
    && (n < |q| ==> !Admitted(q, n))
  }

  lemma GroupIsUnique(q: seq<Request>, m: nat, n: nat)
    requires IsGroup(q, m) && IsGroup(q, n)
    ensures m == n
  {
    hide Admitted;
  }

  /** Before the queue changes no sync write is in the group of a non-sync leader. */
  lemma SyncNeedsSyncLeader(q: seq<Request>, n: nat)
    requires IsGroup(q, n)
    ensures forall i :: 0 <= i < n && q[i].sync ==> q[0].sync
  {
    forall i | 0 <= i < n && q[i].sync ensures q[0].sync {
      assert i > 0 ==> Admitted(q, i);
    }
  }

  datatype Writer = Writer(id: nat, batch: WriteBatch?, sync: bool)

  ghost function RequestOf(w: Writer): Request
    reads w.batch
  {
    Request(w.id, if w.batch == null then None else Some(w.batch.ops), w.sync)
  }

  ghost function Requests(ws: seq<Writer>): (rs: seq<Request>)
    reads set w | w in ws :: w.batch
    ensures |rs| == |ws|
  {
    seq(|ws|, i requires 0 <= i < |ws| reads set w | w in ws :: w.batch => RequestOf(ws[i]))
  }

  ghost predicate AllValid(ws: seq<Writer>)
    reads set w | w in ws :: w.batch
  {
    forall w :: w in ws && w.batch != null ==> w.batch.Valid()
  }

  lemma SizeOfBatch(rep: Bytes, r: Request)
    requires r.ops.Some? && Holds(rep, r.ops.value)
    ensures ByteSize(r) == |rep|
  {
    hide OpsBytes;
    assert |rep[HEADER..]| == |rep| - HEADER;
  }

  lemma OneMore(q: seq<Request>, i: nat)
    requires i < |q|
    ensures TotalSize(q[..i + 1]) == TotalSize(q[..i]) + ByteSize(q[i])
    ensures Together(q[..i + 1]) == Together(q[..i]) + OpsOf(q[i])
  {
    hide ByteSize, OpsOf;
    assert q[..i + 1][..i] == q[..i];
  }

  lemma {:induction false} CountOfPrefix(q: seq<Request>, i: nat, n: nat)
    requires i <= n <= |q|
    ensures |Together(q[..i])| <= |Together(q[..n])|
  {
    if i < n {
      OneMore(q, n - 1);
      CountOfPrefix(q, i, n - 1);
    }
  }

  /** The bytes of the batches that are there. */
  ghost function BatchBytes(ws: seq<Writer>): nat
    reads set w | w in ws :: w.batch
  {
    if ws == [] then 0
    else
      var last := ws[|ws| - 1];
      assert forall w :: w in ws[..|ws| - 1] ==> w in ws;
      BatchBytes(ws[..|ws| - 1]) + if last.batch == null then 0 else |last.batch.rep|
  }

  lemma {:induction false} BytesAreSizes(ws: seq<Writer>, n: nat)
    requires AllValid(ws) && n <= |ws|
    ensures BatchBytes(ws[..n]) == TotalSize(Requests(ws)[..n])
  {
    hide ByteSize, Holds;
    if n > 0 {
      BytesAreSizes(ws, n - 1);
      assert ws[..n][..n - 1] == ws[..n - 1] && ws[n - 1] in ws;
      OneMore(Requests(ws), n - 1);
      var w := ws[n - 1];
      if w.batch != null {
        SizeOfBatch(w.batch.rep, RequestOf(w));
      } else {
        NullHasNoSize(RequestOf(w));
      }
    }
  }

  lemma NullHasNoSize(r: Request)
    requires r.ops.None?
    ensures ByteSize(r) == 0
  {
  }

  /** A group stays within the bound, or nobody's batch has joined its leader's. */
  lemma {:induction false} GroupFits(q: seq<Request>, n: nat)
    requires 1 <= n <= |q| && forall i :: 1 <= i < n ==> Admitted(q, i)
    ensures TotalSize(q[..n]) <= MaxSize(ByteSize(q[0])) || TotalSize(q[..n]) == ByteSize(q[0])
  {
    hide ByteSize, MaxSize;
    if n == 1 {
      FirstAlone(q);
    } else {
      GroupFits(q, n - 1);
      assert Admitted(q, n - 1);
      if q[n - 1].ops.None? { NothingAdded(q, n - 1); }
    }
  }

  /**
   * In bytes of batches: a leader of at most 128 KB takes at most 128 KB more, a larger one no more than 1 MB in all. The
   * group ends before a sync request its leader does not make, before the batch that would go beyond, or with the queue.
   */
  ghost predicate FitsInBytes(ws: seq<Writer>, n: nat)
    requires 1 <= n <= |ws| && ws[0].batch != null
    reads set w | w in ws :: w.batch
  {
    assert forall w :: w in ws[..n] ==> w in ws;
    var s := |ws[0].batch.rep|;
    && (s <= 0x2_0000 ==> BatchBytes(ws[..n]) <= s + 0x2_0000)
    && (s > 0x2_0000 ==> BatchBytes(ws[..n]) <= 0x10_0000 || BatchBytes(ws[..n]) == s)
    && (n < |ws| ==>
          || (ws[n].sync && !ws[0].sync)
          || (ws[n].batch != null && BatchBytes(ws[..n]) + |ws[n].batch.rep| > if s <= 0x2_0000 then s + 0x2_0000 else 0x10_0000))
  }

  lemma GroupFitsInBytes(ws: seq<Writer>, n: nat)
    requires 1 <= n <= |ws| && ws[0].batch != null && AllValid(ws) && IsGroup(Requests(ws), n)
    ensures FitsInBytes(ws, n)
  {
    hide ByteSize, Holds, Admitted, TotalSize;
    var q := Requests(ws);
    GroupFits(q, n);
    BytesAreSizes(ws, n);
    assert ws[0] in ws && q[0] == RequestOf(ws[0]);
    SizeOfBatch(ws[0].batch.rep, q[0]);
    if n < |ws| {
      assert ws[n] in ws && q[n] == RequestOf(ws[n]);
      AdmittedUnfolds(q, n);
      OneMore(q, n);
      if ws[n].batch != null { SizeOfBatch(ws[n].batch.rep, q[n]); }
    }
  }

  /** BuildBatchGroup: which writers join, and one batch with all their operations in queue order. */
  method BuildBatchGroup(ws: seq<Writer>, tmp: WriteBatch) returns (result: WriteBatch, n: nat)
    requires ws != [] && ws[0].batch != null && AllValid(ws) && tmp.Valid() && tmp.ops == []
    requires forall w :: w in ws ==> w.batch != tmp
    requires |Together(Requests(ws))| < TWO31
    modifies tmp
    ensures IsGroup(Requests(ws), n) && Requests(ws) == old(Requests(ws)) && AllValid(ws) && FitsInBytes(ws, n)
    ensures result == ws[0].batch || result == tmp
    ensures result.Valid() && result.ops == Together(Requests(ws)[..n])
    ensures result != tmp ==> tmp.Valid() && tmp.ops == []
  {
    hide Holds, ByteSize, OpsOf, Admitted, Together, TotalSize, FitsInBytes;
    ghost var q := Requests(ws);
    var first := ws[0];
    assert first in ws;
    result := first.batch;
    SizeOfBatch(first.batch.rep, q[0]);
    var size := |first.batch.rep|;
    var maxSize := 0x10_0000;
    if size <= 0x2_0000 {
      maxSize := size + 0x2_0000;
    }
    FirstAlone(q);
    n := 1;
    while n < |ws|
      invariant 1 <= n <= |ws| && (forall i :: 1 <= i < n ==> Admitted(q, i))
      invariant size == TotalSize(q[..n])
      invariant result == first.batch || result == tmp
      invariant result == first.batch ==> tmp.ops == []
      invariant tmp.Valid() && result.Valid() && result.ops == Together(q[..n])
      invariant AllValid(ws) && Requests(ws) == q
    {
      var w := ws[n];
      assert w in ws && q[n] == RequestOf(w);
      OneMore(q, n);
      AdmittedUnfolds(q, n);
      OpsOfUnfolds(q[n]);
      CountOfPrefix(q, n + 1, |q|);
      CountOfPrefix(q, n, |q|);
      assert q[..|q|] == q;
      if w.sync && !first.sync {
        break;
      }
      if w.batch != null {
        SizeOfBatch(w.batch.rep, q[n]);
        size := size + |w.batch.rep|;
        if size > maxSize {
          break;
        }
        if result == first.batch {
          result := tmp;
          result.Append(first.batch);
          assert [] + first.batch.ops == first.batch.ops;
        }
        assert forall x :: x in ws ==> x.batch != tmp;
        result.Append(w.batch);
      } else {
        NothingAdded(q, n);
      }
      n := n + 1;
    }
    GroupFitsInBytes(ws, n);
  }

  lemma FirstAlone(q: seq<Request>)
    requires q != []
    ensures TotalSize(q[..1]) == ByteSize(q[0]) && Together(q[..1]) == OpsOf(q[0])
    ensures q[0].ops.Some? ==> OpsOf(q[0]) == q[0].ops.value
  {
    hide ByteSize;
    OneMore(q, 0);
    assert q[..0] == [];
    assert [] + OpsOf(q[0]) == OpsOf(q[0]);
  }

  lemma AdmittedUnfolds(q: seq<Request>, i: nat)
    requires i < |q|
    ensures Admitted(q, i) ==> q[i].sync ==> q[0].sync
    ensures Admitted(q, i) && q[i].ops.Some? ==> TotalSize(q[..i + 1]) <= MaxSize(ByteSize(q[0]))
    ensures q[i].sync && !q[0].sync ==> !Admitted(q, i)
    ensures q[i].ops.Some? && TotalSize(q[..i + 1]) > MaxSize(ByteSize(q[0])) ==> !Admitted(q, i)
    ensures (q[i].sync ==> q[0].sync) && (q[i].ops.None? || TotalSize(q[..i + 1]) <= MaxSize(ByteSize(q[0]))) ==> Admitted(q, i)
  {
    hide ByteSize, TotalSize, MaxSize;
  }

  lemma OpsOfUnfolds(r: Request)
    ensures r.ops.Some? ==> OpsOf(r) == r.ops.value
  {
  }

  /** A null batch adds neither operations nor size. */
  lemma NothingAdded(q: seq<Request>, n: nat)
    requires n < |q| && q[n].ops.None?
    ensures TotalSize(q[..n + 1]) == TotalSize(q[..n]) && Together(q[..n + 1]) == Together(q[..n])
  {
    OneMore(q, n);
  }
}
