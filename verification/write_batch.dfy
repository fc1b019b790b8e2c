/** Write batches: their bytes, how they grow, and how they are taken apart again (db/write_batch.cc). */
module WriteBatches {
  import opened Bytestrings
  import opened Coding

  datatype Op = Put(key: Bytes, val: Bytes) | Delete(key: Bytes)

  /** Eight bytes of sequence number, four of count. */
  const HEADER: nat := 12

  const TWO31: int := 0x8000_0000

  /** Lengths are kept in 32 bits, the memtable's with the eight bytes of the tag added. */
  predicate Small(op: Op) {
    |op.key| + 8 < TWO32 && (op.Put? ==> |op.val| < TWO32)
  }

  ghost predicate AllSmall(ops: seq<Op>) {
    forall i :: 0 <= i < |ops| ==> Small(ops[i])
  }

  function OpBytes(op: Op): (b: Bytes)
    ensures |b| > 0
  {
    match op
    case Put(key, val) => [1] + (PutLengthPrefixed(key) + PutLengthPrefixed(val))
    case Delete(key) => [0] + PutLengthPrefixed(key)
  }

  function OpsBytes(ops: seq<Op>): Bytes {
    if ops == [] then [] else OpBytes(ops[0]) + OpsBytes(ops[1..])
  }

  lemma {:induction false} OpsBytesConcat(a: seq<Op>, b: seq<Op>)
    ensures OpsBytes(a + b) == OpsBytes(a) + OpsBytes(b)
  {
    hide OpBytes;
    if a == [] {
      assert a + b == b;
    } else {
      OpsBytesConcat(a[1..], b);
      assert (a + b)[1..] == a[1..] + b;
    }
  }

  datatype Status = Ok | TooSmall | BadPut | BadDelete | UnknownTag | WrongCount

  /** What a pass over the bytes hands to the handler before it stops, and why it stops. */
  datatype Pass = Pass(ops: seq<Op>, status: Status)

  /** One operation at the front: itself and what follows it, or the complaint. */
  datatype Step = Next(op: Op, rest: Bytes) | Stop(status: Status)

  function FirstOp(input: Bytes): (r: Step)
    requires input != []
    ensures r.Next? ==> |r.rest| < |input|
    ensures r.Stop? ==> r.status != Ok
  {
    if input[0] == 1 then
      match GetLengthPrefixed(input[1..])
      case None => Stop(BadPut)
      case Some(k) =>
        match GetLengthPrefixed(k.1)
        case None => Stop(BadPut)
        case Some(v) => Next(Put(k.0, v.0), v.1)
    else if input[0] == 0 then
      match GetLengthPrefixed(input[1..])
      case None => Stop(BadDelete)
      case Some(k) => Next(Delete(k.0), k.1)
    else
      Stop(UnknownTag)
  }

  function ParseOps(input: Bytes): Pass
    decreases |input|
  {
    if input == [] then Pass([], Ok)
    else
      match FirstOp(input)
      case Stop(status) => Pass([], status)
      case Next(op, rest) => var more := ParseOps(rest); Pass([op] + more.ops, more.status)
  }

  function CountOf(rep: Bytes): nat
    requires |rep| >= HEADER
  {
    GetFixed(rep[8..12])
  }

  function SequenceOf(rep: Bytes): nat
    requires |rep| >= HEADER
  {
    GetFixed(rep[..8])
  }

  /** WriteBatch::Iterate over any bytes at all. */
  function Iterated(rep: Bytes): Pass {
    if |rep| < HEADER then Pass([], TooSmall)
    else
      var pass := ParseOps(rep[HEADER..]);
      if pass.status == Ok && |pass.ops| != CountOf(rep) then Pass(pass.ops, WrongCount) else pass
  }

  lemma FirstOfBytes(op: Op, rest: Bytes)
    requires Small(op)
    ensures OpBytes(op) + rest != [] && FirstOp(OpBytes(op) + rest) == Next(op, rest)
  {
    hide FirstOp;
    if op.Put? { FirstOfPut(op.key, op.val, rest); } else { FirstOfDelete(op.key, rest); }
  }

  lemma FirstOfPut(key: Bytes, val: Bytes, rest: Bytes)
    requires Small(Put(key, val))
    ensures FirstOp(OpBytes(Put(key, val)) + rest) == Next(Put(key, val), rest)
  {
    hide PutLengthPrefixed, GetLengthPrefixed;
    LengthPrefixedRoundTrip(key, PutLengthPrefixed(val) + rest);
    LengthPrefixedRoundTrip(val, rest);
    AfterTag(1, PutLengthPrefixed(key), PutLengthPrefixed(val), rest);
  }

  lemma FirstOfDelete(key: Bytes, rest: Bytes)
    requires Small(Delete(key))
    ensures FirstOp(OpBytes(Delete(key)) + rest) == Next(Delete(key), rest)
  {
    hide PutLengthPrefixed, GetLengthPrefixed;
    LengthPrefixedRoundTrip(key, rest);
    assert ([0] + PutLengthPrefixed(key) + rest)[1..] == PutLengthPrefixed(key) + rest;
  }

  lemma AfterTag(tag: byte, a: Bytes, b: Bytes, rest: Bytes)
    ensures ([tag] + (a + b) + rest)[0] == tag && ([tag] + (a + b) + rest)[1..] == a + (b + rest)
  {
  }

  /** Reading undoes writing, operation by operation. */
  lemma {:induction false} ParseOfBytes(ops: seq<Op>)
    requires AllSmall(ops)
    ensures ParseOps(OpsBytes(ops)) == Pass(ops, Ok)
  {
    hide OpBytes, FirstOp;
    if ops != [] {
      FirstOfBytes(ops[0], OpsBytes(ops[1..]));
      ParseOfBytes(ops[1..]);
      assert ops == [ops[0]] + ops[1..];
    }
  }

  /** rep is a batch of exactly these operations, whatever its sequence number. */
  ghost predicate Holds(rep: Bytes, ops: seq<Op>) {
    && |rep| >= HEADER && |ops| < TWO31 && AllSmall(ops)
    && CountOf(rep) == |ops| && rep[HEADER..] == OpsBytes(ops)
  }

  /** Iterating over a batch delivers its operations, in order, and succeeds. */
  lemma IterateOfBatch(rep: Bytes, ops: seq<Op>)
    requires Holds(rep, ops)
    ensures Iterated(rep) == Pass(ops, Ok)
  {
    hide OpsBytes, ParseOps, CountOf;
    ParseOfBytes(ops);
  }

  /** The bytes say which operations they hold. */
  lemma BatchIsUnambiguous(rep: Bytes, a: seq<Op>, b: seq<Op>)
    requires Holds(rep, a) && Holds(rep, b)
    ensures a == b
  {
    hide Holds, Iterated;
    IterateOfBatch(rep, a);
    IterateOfBatch(rep, b);
  }

  lemma FirstOpExtends(s: Bytes, more: Bytes)
    requires s != [] && FirstOp(s).Next?
    ensures s + more != [] && FirstOp(s + more) == Next(FirstOp(s).op, FirstOp(s).rest + more)
  {
    hide GetLengthPrefixed;
    assert (s + more)[0] == s[0] && (s + more)[1..] == s[1..] + more;
    if GetLengthPrefixed(s[1..]).Some? {
      GetLengthPrefixedExtends(s[1..], more);
      var k := GetLengthPrefixed(s[1..]).value;
      if GetLengthPrefixed(k.1).Some? { GetLengthPrefixedExtends(k.1, more); }
    }
  }

  /** An operation that is cut short is no operation. */
  lemma TruncatedStops(op: Op, n: nat)
    requires Small(op) && 0 < n < |OpBytes(op)|
    ensures FirstOp(OpBytes(op)[..n]).Stop?
  {
    hide FirstOp, OpBytes;
    var b := OpBytes(op);
    FirstOfBytes(op, []);
    assert b + [] == b && b[..n] + b[n..] == b;
    if FirstOp(b[..n]).Next? { FirstOpExtends(b[..n], b[n..]); }
  }

  lemma {:induction false} ParseStops(ops: seq<Op>, tail: Bytes)
    requires AllSmall(ops) && tail != [] && FirstOp(tail).Stop?
    ensures ParseOps(OpsBytes(ops) + tail) == Pass(ops, FirstOp(tail).status)
  {
    hide FirstOp, OpBytes;
    if ops == [] {
      assert OpsBytes(ops) + tail == tail;
    } else {
      assert OpsBytes(ops) + tail == OpBytes(ops[0]) + (OpsBytes(ops[1..]) + tail);
      FirstOfBytes(ops[0], OpsBytes(ops[1..]) + tail);
      ParseStops(ops[1..], tail);
      assert ops == [ops[0]] + ops[1..];
    }
  }

  /** After good operations a cut-off one, or a tag that is none, ends the pass with a complaint; the good ones are delivered. */
  lemma BrokenBatchIsNoticed(rep: Bytes, ops: seq<Op>, tail: Bytes)
    requires |rep| >= HEADER && AllSmall(ops) && rep[HEADER..] == OpsBytes(ops) + tail && tail != []
    requires tail[0] > 1 || exists op, n :: Small(op) && 0 < n < |OpBytes(op)| && tail == OpBytes(op)[..n]
    ensures Iterated(rep).ops == ops && Iterated(rep).status != Ok
  {
    hide FirstOp, OpBytes, OpsBytes, ParseOps;
    if tail[0] > 1 {
      OtherTagStops(tail);
    } else {
      var op, n :| Small(op) && 0 < n < |OpBytes(op)| && tail == OpBytes(op)[..n];
      TruncatedStops(op, n);
    }
    ParseStops(ops, tail);
  }

  lemma OtherTagStops(tail: Bytes)
    requires tail != [] && tail[0] > 1
    ensures FirstOp(tail).Stop? && FirstOp(tail).status != Ok
  {
  }

  /** A count other than the number of operations is always noticed. */
  lemma WrongCountIsNoticed(rep: Bytes, ops: seq<Op>)
    requires |rep| >= HEADER && AllSmall(ops) && rep[HEADER..] == OpsBytes(ops) && CountOf(rep) != |ops|
    ensures Iterated(rep).status == WrongCount
  {
    hide OpsBytes, ParseOps, CountOf;
    ParseOfBytes(ops);
  }

  const BLANK: Bytes := [0, 0, 0, 0, 0, 0, 0, 0, 0, 0, 0, 0]

  lemma HeaderParts(count: nat, sequence: nat)
    requires count < TWO32 && sequence < TWO64
    ensures GetFixed(PutFixed(4, count)) == count && GetFixed(PutFixed(8, sequence)) == sequence
  {
    hide PutFixed, GetFixed;
    PowersOf256();
    FixedRoundTrip(4, count);
    FixedRoundTrip(8, sequence);
  }

  class WriteBatch {
    var rep: Bytes
    ghost var ops: seq<Op>

    ghost predicate Valid()
      reads this
    {
      Holds(rep, ops)
    }

    constructor ()
      ensures Valid() && ops == []
    {
      rep, ops := BLANK, [];
      new;
      Blank();
    }

    method Clear()
      modifies this
      ensures Valid() && ops == []
    {
      rep, ops := BLANK, [];
      Blank();
    }

    /** SetContents, for the bytes of a batch with these operations. */
    method SetContents(contents: Bytes, ghost held: seq<Op>)
      requires Holds(contents, held)
      modifies this
      ensures Valid() && rep == contents && ops == held
    {
      rep, ops := contents, held;
    }

    method SetCount(n: nat)
      requires |rep| >= HEADER && n < TWO32
      modifies `rep
      ensures |rep| == |old(rep)| && CountOf(rep) == n
      ensures rep[..8] == old(rep[..8]) && rep[HEADER..] == old(rep[HEADER..])
    {
      hide PutFixed, GetFixed;
      HeaderParts(n, 0);
      rep := rep[..8] + PutFixed(4, n) + rep[HEADER..];
      assert rep[8..12] == PutFixed(4, n);
    }

    method SetSequence(sequence: nat)
      requires Valid() && sequence < TWO64
      modifies `rep
      ensures Valid() && |rep| == |old(rep)| && SequenceOf(rep) == sequence
    {
      hide PutFixed, GetFixed, OpsBytes;
      HeaderParts(0, sequence);
      ghost var was := rep;
      rep := PutFixed(8, sequence) + rep[8..];
      assert rep[..8] == PutFixed(8, sequence);
      assert rep[8..12] == was[8..12] && rep[HEADER..] == was[HEADER..];
    }

    method Put(key: Bytes, val: Bytes)
      requires Valid() && |ops| + 1 < TWO31 && Small(Op.Put(key, val))
      modifies this
      ensures Valid() && ops == old(ops) + [Op.Put(key, val)] && SequenceOf(rep) == old(SequenceOf(rep))
    {
      hide PutLengthPrefixed, OpsBytes, CountOf;
      ghost var was, op := rep, Op.Put(key, val);
      SetCount(CountOf(rep) + 1);
      ghost var counted := rep;
      rep := rep + [1];
      rep := rep + PutLengthPrefixed(key);
      rep := rep + PutLengthPrefixed(val);
      assert rep == counted + OpBytes(op);
      BytesOfOne(op);
      Grown(was, counted, rep, ops, [op]);
      ops := ops + [op];
    }

    method Delete(key: Bytes)
      requires Valid() && |ops| + 1 < TWO31 && Small(Op.Delete(key))
      modifies this
      ensures Valid() && ops == old(ops) + [Op.Delete(key)] && SequenceOf(rep) == old(SequenceOf(rep))
    {
      hide PutLengthPrefixed, OpsBytes, CountOf;
      ghost var was, op := rep, Op.Delete(key);
      SetCount(CountOf(rep) + 1);
      ghost var counted := rep;
      rep := rep + [0];
      rep := rep + PutLengthPrefixed(key);
      assert rep == counted + OpBytes(op);
      BytesOfOne(op);
      Grown(was, counted, rep, ops, [op]);
      ops := ops + [op];
    }

    method Append(src: WriteBatch)
      requires Valid() && src.Valid() && |ops| + |src.ops| < TWO31
      modifies this
      ensures Valid() && ops == old(ops) + old(src.ops) && SequenceOf(rep) == old(SequenceOf(rep))
      ensures |rep| == |old(rep)| + |old(src.rep)| - HEADER
    {
      hide OpsBytes, CountOf;
      ghost var was, more := rep, src.ops;
      var tail := src.rep[HEADER..];
      SetCount(CountOf(rep) + CountOf(src.rep));
      ghost var counted := rep;
      rep := rep + tail;
      Grown(was, counted, rep, ops, more);
      ops := ops + more;
    }
  }

  lemma Blank()
    ensures Holds(BLANK, []) && SequenceOf(BLANK) == 0
  {
    assert BLANK[8..12] == [0, 0, 0, 0] && BLANK[..8] == [0, 0, 0, 0, 0, 0, 0, 0];
    assert forall b: byte, s: Bytes :: ([b] + s)[1..] == s;
    assert GetFixed([0, 0]) == 0 by { assert [0, 0] == [0] + [0]; }
    assert GetFixed([0, 0, 0, 0]) == 0 by { assert [0, 0, 0, 0] == [0] + ([0] + [0, 0]); }
    assert GetFixed([0, 0, 0, 0, 0, 0]) == 0 by { assert [0, 0, 0, 0, 0, 0] == [0] + ([0] + [0, 0, 0, 0]); }
    assert GetFixed([0, 0, 0, 0, 0, 0, 0, 0]) == 0 by {
      assert [0, 0, 0, 0, 0, 0, 0, 0] == [0] + ([0] + [0, 0, 0, 0, 0, 0]);
    }
  }

  lemma BytesOfOne(op: Op)
    ensures OpsBytes([op]) == OpBytes(op)
  {
    hide OpBytes;
    assert OpsBytes([op]) == OpBytes(op) + OpsBytes([]);
  }

  lemma SlicesGrow(was: Bytes, counted: Bytes, tail: Bytes)
    requires |counted| == |was| >= HEADER && counted[..8] == was[..8] && counted[HEADER..] == was[HEADER..]
    ensures (counted + tail)[HEADER..] == was[HEADER..] + tail
    ensures (counted + tail)[8..12] == counted[8..12] && (counted + tail)[..8] == was[..8]
  {
  }

  /** Adding encoded operations at the end and their number to the count. */
  lemma {:induction false} Grown(was: Bytes, counted: Bytes, now: Bytes, ops: seq<Op>, more: seq<Op>)
    requires Holds(was, ops) && AllSmall(more) && |ops| + |more| < TWO31
    requires |counted| == |was| && CountOf(counted) == |ops| + |more|
    requires counted[..8] == was[..8] && counted[HEADER..] == was[HEADER..]
    requires now == counted + OpsBytes(more)
    ensures Holds(now, ops + more) && SequenceOf(now) == SequenceOf(was)
  {
    hide OpsBytes, GetFixed;
    OpsBytesConcat(ops, more);
    SlicesGrow(was, counted, OpsBytes(more));
  }
}
