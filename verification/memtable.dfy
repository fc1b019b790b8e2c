/** The memtable: encoded entries in comparator order, looked up by seeking (db/memtable.cc). */
module MemTables {
  import opened Bytestrings
  import opened Coding
  import opened Comparators
  import opened WriteBatches

  /** One operation with the sequence number it was given. */
  datatype Record = Record(sn: nat, op: Op)

  const MAX_SN: nat := 0xFF_FFFF_FFFF_FFFF

  function Code(op: Op): nat {
    if op.Put? then 1 else 0
  }

  function Tag(r: Record): nat {
    r.sn * 256 + Code(r.op)
  }

  predicate Fits(r: Record) {
    Small(r.op) && r.sn <= MAX_SN
  }

  /** An internal key after its length, as both entries and lookup keys begin. */
  function KeyBytes(key: Bytes, tag: nat): Bytes {
    PutLengthPrefixed(key + PutFixed(8, tag))
  }

  function Encoded(r: Record): Bytes {
    KeyBytes(r.op.key, Tag(r)) + PutLengthPrefixed(if r.op.Put? then r.op.val else [])
  }

  /** What GetLengthPrefixedSlice and the eight bytes at the end give for an entry: key, tag, and what follows. */
  datatype Taken = Taken(key: Bytes, tag: nat, rest: Bytes)

  function Take(buf: Bytes): Option<Taken> {
    match GetLengthPrefixed(buf)
    case None => None
    case Some(p) =>
      if |p.0| < 8 then None else Some(Taken(p.0[..|p.0| - 8], GetFixed(p.0[|p.0| - 8..]), p.1))
  }

  lemma TakeOfKey(key: Bytes, tag: nat, rest: Bytes)
    requires |key| + 8 < TWO32 && tag < TWO64
    ensures Take(KeyBytes(key, tag) + rest) == Some(Taken(key, tag, rest))
  {
    hide GetLengthPrefixed, PutLengthPrefixed, GetFixed, PutFixed;
    var ik := key + PutFixed(8, tag);
    LengthPrefixedRoundTrip(ik, rest);
    PowersOf256();
    FixedRoundTrip(8, tag);
    assert ik[..|ik| - 8] == key && ik[|ik| - 8..] == PutFixed(8, tag);
  }

  /** Every field of an entry comes back, the value included. */
  lemma TakeOfEntry(r: Record)
    requires Fits(r)
    ensures Take(Encoded(r)) == Some(Taken(r.op.key, Tag(r), PutLengthPrefixed(if r.op.Put? then r.op.val else [])))
    ensures r.op.Put? ==> GetLengthPrefixed(PutLengthPrefixed(r.op.val)) == Some((r.op.val, []))
  {
    hide Take, KeyBytes, PutLengthPrefixed, GetLengthPrefixed;
    TakeOfKey(r.op.key, Tag(r), PutLengthPrefixed(if r.op.Put? then r.op.val else []));
    if r.op.Put? {
      LengthPrefixedRoundTrip(r.op.val, []);
      assert PutLengthPrefixed(r.op.val) + [] == PutLengthPrefixed(r.op.val);
    }
  }

  /** MemTable::KeyComparator on two buffers: user keys up, tags down. */
  predicate Before(order: Order, a: Bytes, b: Bytes) {
    match (Take(a), Take(b))
    case (Some(x), Some(y)) => order(x.key) < order(y.key) || (order(x.key) == order(y.key) && x.tag > y.tag)
    case _ => false
  }

  predicate RecordBefore(order: Order, x: Record, y: Record) {
    order(x.op.key) < order(y.op.key) || (order(x.op.key) == order(y.op.key) && Tag(x) > Tag(y))
  }

  lemma BeforeIsRecordOrder(order: Order, x: Record, y: Record)
    requires Fits(x) && Fits(y)
    ensures Before(order, Encoded(x), Encoded(y)) <==> RecordBefore(order, x, y)
  {
    hide Take, Encoded;
    TakeOfEntry(x);
    TakeOfEntry(y);
  }

  /** A lookup key stands before exactly the larger keys and its own key's entries at or below the snapshot. */
  lemma LookupStandsBefore(order: Order, key: Bytes, snapshot: nat, r: Record)
    requires |key| + 8 < TWO32 && snapshot <= MAX_SN && Fits(r)
    ensures Before(order, Encoded(r), KeyBytes(key, snapshot * 256 + 1))
       <==> order(r.op.key) < order(key) || (order(r.op.key) == order(key) && r.sn > snapshot)
  {
    hide Take, Encoded, KeyBytes;
    TakeOfEntry(r);
    TakeOfKey(key, snapshot * 256 + 1, []);
    assert KeyBytes(key, snapshot * 256 + 1) + [] == KeyBytes(key, snapshot * 256 + 1);
  }

  predicate Sees(order: Order, r: Record, key: Bytes, snapshot: nat) {
    order(r.op.key) == order(key) && r.sn <= snapshot
  }

  /** The operation a reader gets: the newest it may see, None when there is none. */
  ghost predicate NewestOp(order: Order, rs: set<Record>, key: Bytes, snapshot: nat, op: Option<Op>) {
    match op
    case None => forall r :: r in rs ==> !Sees(order, r, key, snapshot)
    case Some(o) =>
      exists n :: n in rs && n.op == o && Sees(order, n, key, snapshot) && NoneNewer(order, rs, key, snapshot, n.sn)
  }

  ghost predicate NoneNewer(order: Order, rs: set<Record>, key: Bytes, snapshot: nat, sn: nat) {
    forall r :: r in rs && Sees(order, r, key, snapshot) ==> r.sn <= sn
  }

  /** MemTable::Get: the entry says the value, says the key is deleted, or there is none. */
  datatype Answer = Found(value: Bytes) | Deleted | Absent

  function AnswerOf(op: Option<Op>): Answer {
    match op
    case None => Absent
    case Some(Put(_, val)) => Found(val)
    case Some(Delete(_)) => Deleted
  }

  ghost predicate InOrder(order: Order, rs: seq<Record>) {
    forall i, j :: 0 <= i < j < |rs| ==> RecordBefore(order, rs[i], rs[j])
  }

  ghost predicate Encodes(table: seq<Bytes>, rs: seq<Record>) {
    |table| == |rs| && forall i :: 0 <= i < |rs| ==> table[i] == Encoded(rs[i]) && Fits(rs[i])
  }

  ghost function SetOf(rs: seq<Record>): set<Record> {
    set r | r in rs
  }

  lemma InsertKeepsOrder(order: Order, rs: seq<Record>, p: nat, r: Record)
    requires p <= |rs| && InOrder(order, rs)
    requires forall i :: 0 <= i < p ==> RecordBefore(order, rs[i], r)
    requires forall i :: p <= i < |rs| ==> RecordBefore(order, r, rs[i])
    ensures InOrder(order, rs[..p] + [r] + rs[p..]) && SetOf(rs[..p] + [r] + rs[p..]) == SetOf(rs) + {r}
  {
    assert rs == rs[..p] + rs[p..];
  }

  /** What stands at the seek position is the newest entry of the key, or there is none. */
  lemma SeekIsNewest(order: Order, rs: seq<Record>, key: Bytes, snapshot: nat, p: nat)
    requires InOrder(order, rs) && p <= |rs|
    requires forall i :: 0 <= i < p ==> !Sees(order, rs[i], key, snapshot)
    requires p < |rs| ==> order(rs[p].op.key) > order(key) || Sees(order, rs[p], key, snapshot)
    ensures NewestOp(order, SetOf(rs), key, snapshot,
                     if p < |rs| && order(rs[p].op.key) == order(key) then Some(rs[p].op) else None)
  {
    hide Tag;
    forall r | r in SetOf(rs) && Sees(order, r, key, snapshot)
      ensures p < |rs| && order(rs[p].op.key) == order(key) && r.sn <= rs[p].sn
    {
      var i :| 0 <= i < |rs| && rs[i] == r;
      assert i > p ==> RecordBefore(order, rs[p], rs[i]);
      TagOrder(rs[p], rs[i]);
    }
    if p < |rs| && order(rs[p].op.key) == order(key) {
      assert rs[p] in SetOf(rs) && NoneNewer(order, SetOf(rs), key, snapshot, rs[p].sn);
    }
  }

  lemma TagOrder(x: Record, y: Record)
    ensures Tag(x) > Tag(y) ==> x.sn >= y.sn
  {
  }

  class MemTable {
    const order: Order
    var table: seq<Bytes>
    ghost var records: seq<Record>

    ghost predicate Valid()
      reads this
    {
      Encodes(table, records) && InOrder(order, records)
    }

    ghost function Contents(): set<Record>
      reads this
    {
      SetOf(records)
    }

    constructor (order: Order)
      ensures Valid() && Contents() == {} && this.order == order
    {
      this.order := order;
      table, records := [], [];
    }

    /** Where the table's iterator lands: the first entry not before the target. */
    method Seek(target: Bytes) returns (p: nat)
      requires Valid()
      ensures p <= |table| && (forall i :: 0 <= i < p ==> Before(order, table[i], target))
      ensures p < |table| ==> !Before(order, table[p], target)
    {
      hide Before;
      p := 0;
      while p < |table| && Before(order, table[p], target)
        invariant p <= |table| && forall i :: 0 <= i < p ==> Before(order, table[i], target)
      {
        p := p + 1;
      }
    }

    /** The skip list refuses equal keys; Write gives every operation a sequence number of its own. */
    method Add(r: Record)
      requires Valid() && Fits(r)
      requires forall x :: x in Contents() ==> x.sn != r.sn
      modifies this
      ensures Valid() && Contents() == old(Contents()) + {r}
    {
      hide Encoded, Before, RecordBefore;
      var buf := KeyBytes(r.op.key, r.sn * 256 + Code(r.op));
      buf := buf + PutLengthPrefixed(if r.op.Put? then r.op.val else []);
      EncodedUnfolds(r);
      var p := Seek(buf);
      forall i | 0 <= i < |records| ensures i < p <==> RecordBefore(order, records[i], r) {
        BeforeIsRecordOrder(order, records[i], r);
        if p < i { Chain(order, records[p], records[i], r); }
        BeforeIsRecordOrder(order, records[if p < |records| then p else i], r);
      }
      forall i | p <= i < |records| ensures RecordBefore(order, r, records[i]) {
        assert records[i] in Contents();
        Otherwise(order, records[i], r);
      }
      InsertKeepsOrder(order, records, p, r);
      table := table[..p] + [buf] + table[p..];
      records := records[..p] + [r] + records[p..];
    }

    method Get(key: Bytes, snapshot: nat) returns (answer: Answer)
      requires Valid() && |key| + 8 < TWO32 && snapshot <= MAX_SN
      ensures exists op :: NewestOp(order, Contents(), key, snapshot, op) && answer == AnswerOf(op)
    {
      hide Encoded, Before, NewestOp, KeyBytes, Tag, InOrder, PutLengthPrefixed, GetLengthPrefixed, Take;
      var p := Seek(KeyBytes(key, snapshot * 256 + 1));
      forall i | 0 <= i < |records| && i <= p
        ensures Before(order, table[i], KeyBytes(key, snapshot * 256 + 1))
           <==> order(records[i].op.key) < order(key) || (order(records[i].op.key) == order(key) && records[i].sn > snapshot)
      {
        LookupStandsBefore(order, key, snapshot, records[i]);
      }
      SeekIsNewest(order, records, key, snapshot, p);
      if p < |table| {
        var entry := Take(table[p]).value by { TakeOfEntry(records[p]); }
        TakeOfEntry(records[p]);
        if order(entry.key) == order(key) {
          TagTells(records[p]);
          ghost var op := Some(records[p].op);
          assert NewestOp(order, Contents(), key, snapshot, op);
          if entry.tag % 256 == 1 {
            return Found(GetLengthPrefixed(entry.rest).value.0);
          }
          return Deleted;
        }
      }
      answer := Absent;
      assert NewestOp(order, Contents(), key, snapshot, None);
    }

    /** InsertInto: operation by operation, sequence numbers counting up from the batch's own. */
    method InsertBatch(b: WriteBatch) returns (status: Status)
      requires Valid() && |b.rep| >= HEADER
      requires AllSmall(Iterated(b.rep).ops) && SequenceOf(b.rep) + |Iterated(b.rep).ops| <= MAX_SN
      requires forall x :: x in Contents() ==> x.sn < SequenceOf(b.rep)
      modifies this
      ensures Valid() && status == Iterated(b.rep).status
      ensures Contents() == old(Contents()) + SetOf(Numbered(SequenceOf(b.rep), Iterated(b.rep).ops))
    {
      hide SetOf, Encodes, InOrder, FirstOp, CountOf, SequenceOf, Numbered, Left, ParseOps, Fits;
      var input := b.rep[HEADER..];
      var sequence := SequenceOf(b.rep);
      var found := 0;
      ghost var first, all, done := sequence, ParseOps(input), [];
      NumberedNone(first);
      AllLeft(input);
      while input != []
        invariant Valid() && sequence == first + |done| && found == |done|
        invariant Left(all, done, input)
        invariant Contents() == old(Contents()) + SetOf(Numbered(first, done))
        invariant forall x :: x in Contents() ==> x.sn < sequence
        decreases |input|
      {
        found := found + 1;
        var step := FirstOp(input);
        match step
        case Stop(bad) =>
          LeftAtStop(all, done, input);
          return bad;
        case Next(op, rest) =>
          LeftNext(all, done, input);
          SmallFits(all.ops, |done|, sequence);
          Add(Record(sequence, op));
          NumberedMore(first, done, op);
          done := done + [op];
          sequence := sequence + 1;
          input := rest;
      }
      NoneLeft(all, done);
      status := if found != CountOf(b.rep) then WrongCount else Ok;
    }
  }

  /** The pass over the whole input is what is done and then the pass over the rest. */
  ghost predicate Left(all: Pass, done: seq<Op>, input: Bytes) {
    all == Pass(done + ParseOps(input).ops, ParseOps(input).status)
  }

  lemma AllLeft(input: Bytes)
    ensures Left(ParseOps(input), [], input)
  {
    hide ParseOps;
    assert [] + ParseOps(input).ops == ParseOps(input).ops;
  }

  lemma NoneLeft(all: Pass, done: seq<Op>)
    requires Left(all, done, [])
    ensures all == Pass(done, Ok)
  {
    assert done + [] == done;
  }

  lemma {:induction false} LeftAtStop(all: Pass, done: seq<Op>, input: Bytes)
    requires input != [] && FirstOp(input).Stop? && Left(all, done, input)
    ensures all == Pass(done, FirstOp(input).status)
  {
    hide FirstOp;
    assert done + [] == done;
  }

  lemma {:induction false} LeftNext(all: Pass, done: seq<Op>, input: Bytes)
    requires input != [] && FirstOp(input).Next? && Left(all, done, input)
    ensures |done| < |all.ops| && all.ops[|done|] == FirstOp(input).op
    ensures Left(all, done + [FirstOp(input).op], FirstOp(input).rest)
  {
    hide FirstOp;
    var op, more := FirstOp(input).op, ParseOps(FirstOp(input).rest).ops;
    assert done + ([op] + more) == (done + [op]) + more;
  }

  lemma SmallFits(ops: seq<Op>, i: nat, sequence: nat)
    requires AllSmall(ops) && i < |ops| && sequence <= MAX_SN
    ensures Fits(Record(sequence, ops[i]))
  {
  }

  lemma EncodedUnfolds(r: Record)
    ensures Encoded(r) == KeyBytes(r.op.key, Tag(r)) + PutLengthPrefixed(if r.op.Put? then r.op.val else [])
  {
  }

  lemma TagTells(r: Record)
    ensures Tag(r) % 256 == 1 <==> r.op.Put?
  {
  }

  lemma Chain(order: Order, x: Record, y: Record, z: Record)
    ensures RecordBefore(order, x, y) && RecordBefore(order, y, z) ==> RecordBefore(order, x, z)
  {
  }

  lemma Otherwise(order: Order, x: Record, y: Record)
    requires x.sn != y.sn
    ensures RecordBefore(order, x, y) || RecordBefore(order, y, x)
  {
  }

  /** ops with the sequence numbers first, first + 1, ... */
  ghost function Numbered(first: nat, ops: seq<Op>): (rs: seq<Record>)
    ensures |rs| == |ops|
  {
    seq(|ops|, i requires 0 <= i < |ops| => Record(first + i, ops[i]))
  }

  lemma NumberedNone(first: nat)
    ensures SetOf(Numbered(first, [])) == {}
  {
  }

  lemma NumberedMore(first: nat, ops: seq<Op>, op: Op)
    ensures Numbered(first, ops + [op]) == Numbered(first, ops) + [Record(first + |ops|, op)]
    ensures SetOf(Numbered(first, ops + [op])) == SetOf(Numbered(first, ops)) + {Record(first + |ops|, op)}
  {
    assert Numbered(first, ops + [op]) == Numbered(first, ops) + [Record(first + |ops|, op)];
  }

  /** The last operation on the key, applying ops in order. */
  ghost function LastOn(order: Order, ops: seq<Op>, key: Bytes): Option<Op> {
    if ops == [] then None
    else if order(ops[|ops| - 1].key) == order(key) then Some(ops[|ops| - 1])
    else LastOn(order, ops[..|ops| - 1], key)
  }

  /** A reader at the number of the n-th of the numbered operations sees the outcome of applying n of them in order. */
  lemma {:induction false} ReadsAsApplied(order: Order, ops: seq<Op>, key: Bytes, n: nat)
    requires n <= |ops|
    ensures NewestOp(order, SetOf(Numbered(1, ops)), key, n, LastOn(order, ops[..n], key))
  {
    var rs := Numbered(1, ops);
    if n > 0 {
      assert ops[..n][..n - 1] == ops[..n - 1];
      if order(ops[n - 1].key) == order(key) {
        assert rs[n - 1] in SetOf(rs) && NoneNewer(order, SetOf(rs), key, n, rs[n - 1].sn);
      } else {
        ReadsAsApplied(order, ops, key, n - 1);
        forall r | r in SetOf(rs) ensures Sees(order, r, key, n) <==> Sees(order, r, key, n - 1) {
          var i :| 0 <= i < |rs| && rs[i] == r;
        }
        SameSights(order, SetOf(rs), key, n - 1, n, LastOn(order, ops[..n - 1], key));
      }
    }
  }

  lemma SameSights(order: Order, rs: set<Record>, key: Bytes, a: nat, b: nat, op: Option<Op>)
    requires forall r :: r in rs ==> (Sees(order, r, key, a) <==> Sees(order, r, key, b))
    requires NewestOp(order, rs, key, a, op)
    ensures NewestOp(order, rs, key, b, op)
  {
    hide Sees;
    if op.Some? {
      var n :| n in rs && n.op == op.value && Sees(order, n, key, a) && NoneNewer(order, rs, key, a, n.sn);
      assert NoneNewer(order, rs, key, b, n.sn);
    }
  }
}
