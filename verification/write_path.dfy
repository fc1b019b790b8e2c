/** What the writer at the front of the queue does, from its group to the release (db_impl.cc, Write). */
module WritePath {
  import opened Bytestrings
  import opened Comparators
  import opened WriteBatches
  import opened MemTables
  import opened Writers

  class DbImpl {
    const mem: MemTable
    const tmp: WriteBatch
    var writers: seq<Writer>
    var log: seq<Bytes>
    var lastSequence: nat
    /** Who was told it is done, in order, and with what status. */
    var released: seq<(nat, Status)>

    ghost predicate Valid()
      reads this, mem, tmp, set w | w in writers :: w.batch
    {
      && mem.Valid() && tmp.Valid() && tmp.ops == []
      && (forall r :: r in mem.Contents() ==> r.sn <= lastSequence)
      && AllValid(writers) && forall w :: w in writers ==> w.batch != tmp
    }

    constructor (order: Order)
      ensures Valid() && fresh(mem) && fresh(tmp) && writers == [] && lastSequence == 0 && mem.Contents() == {}
    {
      mem := new MemTable(order);
      tmp := new WriteBatch();
      writers, log, lastSequence, released := [], [], 0, [];
    }

    /** The group's one batch, with its first sequence number in place. */
    method Stamp(ghost q: seq<Request>) returns (updates: WriteBatch, n: nat)
      requires Valid() && writers != [] && writers[0].batch != null && q == Requests(writers)
      requires |Together(q)| < TWO31 && lastSequence + |Together(q)| < MAX_SN
      modifies tmp, writers[0].batch
      ensures IsGroup(q, n) && 1 <= n <= |q| && |Together(q[..n])| <= |Together(q)| && AllValid(writers)
      ensures updates == writers[0].batch || updates == tmp
      ensures updates != tmp ==> tmp.Valid() && tmp.ops == []
      ensures Carries(updates.rep, lastSequence + 1, Together(q[..n]))
    {
      hide Holds, IsGroup, Together;
      updates, n := BuildBatchGroup(writers, tmp);
      GroupBounds(q, n);
      updates.SetSequence(lastSequence + 1);
    }

    /** The group is the longest that may form; one log record carries it; the memtable gets its operations with the next numbers. */
    method WriteGroup(ghost q: seq<Request>) returns (n: nat, status: Status)
      requires Valid() && writers != [] && writers[0].batch != null && q == Requests(writers)
      requires |Together(q)| < TWO31 && lastSequence + |Together(q)| < MAX_SN
      modifies `log, `lastSequence, mem, tmp, writers[0].batch
      ensures Valid() && status == Ok && IsGroup(q, n)
      ensures |log| == |old(log)| + 1 && log[..|old(log)|] == old(log)
      ensures Carries(log[|old(log)|], old(lastSequence) + 1, Together(q[..n]))
      ensures lastSequence == old(lastSequence) + |Together(q[..n])|
      ensures mem.Contents() == old(mem.Contents()) + SetOf(Numbered(old(lastSequence) + 1, Together(q[..n])))
    {
      hide Holds, IsGroup, Together, Iterated, Numbered, SetOf, TotalSize, CountOf, SequenceOf;
      var updates;
      updates, n := Stamp(q);
      BatchCount(updates.rep, Together(q[..n]));
      IterateOfBatch(updates.rep, Together(q[..n]));
      var count := CountOf(updates.rep);
      log := log + [updates.rep];
      status := mem.InsertBatch(updates);
      if updates == tmp { tmp.Clear(); }
      NumbersBelow(lastSequence + 1, Together(q[..n]));
      lastSequence := lastSequence + count;
      assert AllValid(writers);
    }

    /** From the front of the queue to the release of the group; a null batch at the front writes nothing. */
    method Lead(ghost q: seq<Request>) returns (n: nat)
      requires Valid() && writers != [] && q == Requests(writers)
      requires |Together(q)| < TWO31 && lastSequence + |Together(q)| < MAX_SN
      modifies this, mem, tmp, if writers[0].batch == null then {} else {writers[0].batch}
      ensures Valid() && 1 <= n <= |q| && writers == old(writers)[n..]
      ensures q[0].ops.None? ==> n == 1 && log == old(log)
      ensures q[0].ops.Some? ==> IsGroup(q, n) && |log| == |old(log)| + 1 && log[..|old(log)|] == old(log)
      ensures q[0].ops.Some? ==> Carries(log[|old(log)|], old(lastSequence) + 1, Together(q[..n]))
      ensures lastSequence == old(lastSequence) + |Together(q[..n])|
      ensures mem.Contents() == old(mem.Contents()) + SetOf(Numbered(old(lastSequence) + 1, Together(q[..n])))
      ensures released == old(released) + Told(old(writers)[..n], Ok)
    {
      hide IsGroup, Together, Numbered, SetOf, Told, Carries;
      var status := Ok;
      n := 1;
      assert writers[0] in writers && q[0] == RequestOf(writers[0]);
      if writers[0].batch != null {
        n, status := WriteGroup(q);
        GroupBounds(q, n);
      } else {
        NothingToWrite(q, lastSequence + 1);
      }
      Release(n, status);
    }

    /** Pops and signals up to and including the last writer of the group. */
    method Release(n: nat, status: Status)
      requires Valid() && 1 <= n <= |writers|
      modifies `writers, `released
      ensures Valid()
      ensures writers == old(writers)[n..] && released == old(released) + Told(old(writers)[..n], status)
    {
      hide Told;
      var i := 0;
      ghost var ws := writers;
      NoneTold(status);
      assert ws[..0] == [];
      while true
        invariant 0 <= i < n && writers == ws[i..] && released == old(released) + Told(ws[..i], status)
        decreases n - i
      {
        OneMoreTold(ws, i, status);
        released := released + [(writers[0].id, status)];
        writers := writers[1..];
        i := i + 1;
        if i == n { break; }
      }
      assert forall w :: w in writers ==> w in ws;
    }
  }

  function Told(ws: seq<Writer>, status: Status): seq<(nat, Status)> {
    seq(|ws|, i requires 0 <= i < |ws| => (ws[i].id, status))
  }

  lemma NoneTold(status: Status)
    ensures Told([], status) == []
  {
  }

  lemma OneMoreTold(ws: seq<Writer>, i: nat, status: Status)
    requires i < |ws|
    ensures Told(ws[..i + 1], status) == Told(ws[..i], status) + [(ws[i].id, status)]
  {
  }

  /** A log record or batch with these operations, numbered from first. */
  ghost predicate Carries(rep: Bytes, first: nat, ops: seq<Op>) {
    Holds(rep, ops) && SequenceOf(rep) == first
  }

  lemma GroupBounds(q: seq<Request>, n: nat)
    requires IsGroup(q, n)
    ensures 1 <= n <= |q| && |Together(q[..n])| <= |Together(q)|
  {
    hide Together;
    CountOfPrefix(q, n, |q|);
    assert q[..|q|] == q;
  }

  lemma BatchCount(rep: Bytes, ops: seq<Op>)
    requires Holds(rep, ops)
    ensures |rep| >= HEADER && CountOf(rep) == |ops| && AllSmall(ops)
  {
    hide CountOf;
  }

  lemma NumbersBelow(first: nat, ops: seq<Op>)
    ensures forall r :: r in SetOf(Numbered(first, ops)) ==> r.sn < first + |ops|
  {
  }

  lemma NothingToWrite(q: seq<Request>, first: nat)
    requires q != [] && q[0].ops.None?
    ensures Together(q[..1]) == [] && SetOf(Numbered(first, [])) == {}
  {
    FirstAlone(q);
  }

  /** What recovery makes of one log record: too short, or its batch inserted, and the largest sequence number so far. */
  datatype Replayed = TooShort | Inserted(status: Status, maxSequence: nat)

  /**
   * The body of the loop of RecoverLogFile, on a record that was written by a leader or is too short to be one: the
   * memtable gets the operations with the very numbers the leader gave them.
   */
  method RecoverRecord(record: Bytes, batch: WriteBatch, mem: MemTable, maxSequence: nat, ghost ops: seq<Op>)
      returns (r: Replayed)
    requires mem.Valid()
    requires |record| >= HEADER ==>
               Carries(record, SequenceOf(record), ops) && SequenceOf(record) + |ops| <= MAX_SN && 1 <= SequenceOf(record)
    requires |record| >= HEADER ==> forall x :: x in mem.Contents() ==> x.sn < SequenceOf(record)
    modifies batch, mem
    ensures |record| < HEADER ==> r == TooShort && mem.Contents() == old(mem.Contents())
    ensures |record| >= HEADER ==>
              var last := SequenceOf(record) + |ops| - 1;
              && r == Inserted(Ok, if last > maxSequence then last else maxSequence)
              && mem.Contents() == old(mem.Contents()) + SetOf(Numbered(SequenceOf(record), ops))
    ensures mem.Valid()
  {
    hide Holds, Iterated, Numbered, SetOf, SequenceOf, CountOf;
    if |record| < HEADER {
      return TooShort;
    }
    assert Holds(record, ops);
    batch.SetContents(record, ops);
    BatchCount(record, ops);
    IterateOfBatch(record, ops);
    var status := mem.InsertBatch(batch);
    var lastSeq := SequenceOf(batch.rep) + CountOf(batch.rep) - 1;
    r := Inserted(status, if lastSeq > maxSequence then lastSeq else maxSequence);
  }

  /** A record tells which operations it carries, and from which number. */
  lemma RecordIsUnambiguous(record: Bytes, m: nat, a: seq<Op>, n: nat, b: seq<Op>)
    requires Carries(record, m, a) && Carries(record, n, b)
    ensures m == n && a == b
  {
    hide Holds;
    BatchIsUnambiguous(record, a, b);
  }
}
