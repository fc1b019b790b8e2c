/** Write groups, the entries they stand for, and the map they build (write_batch.cc, db_impl.cc Write). */
module History {
  import opened Bytestrings
  import opened Format

  datatype Op = Put(key: UserKey, val: Bytes) | Delete(key: UserKey)

  /** One write group: the batch of one log record. Its operations take consecutive sequence numbers. */
  datatype Group = Group(first: nat, ops: seq<Op>)

  function OpEntry(op: Op, sn: nat): Entry {
    match op
    case Put(key, val) => Entry(IKey(key, sn, Value), val)
    case Delete(key) => Entry(IKey(key, sn, Deletion), [])
  }

  function OpsEntries(ops: seq<Op>, first: nat): set<Entry> {
    if ops == [] then {}
    else OpsEntries(ops[..|ops| - 1], first) + {OpEntry(ops[|ops| - 1], first + |ops| - 1)}
  }

  function GroupEntries(g: Group): set<Entry> {
    OpsEntries(g.ops, g.first)
  }

  function HistoryEntries(h: seq<Group>): set<Entry> {
    if h == [] then {} else HistoryEntries(h[..|h| - 1]) + GroupEntries(h[|h| - 1])
  }

  /** The sequence number of the last operation. */
  function LastSeq(h: seq<Group>): int {
    if h == [] then 0 else h[|h| - 1].first + |h[|h| - 1].ops| - 1
  }

  /** Each group starts right after the one before; sequence numbers start at 1. */
  ghost predicate Consecutive(h: seq<Group>) {
    h == [] || (Consecutive(h[..|h| - 1]) && h[|h| - 1].first == LastSeq(h[..|h| - 1]) + 1)
  }

  function ApplyOp(m: map<UserKey, Bytes>, op: Op): map<UserKey, Bytes> {
    match op
    case Put(key, val) => m[key := val]
    case Delete(key) => m - {key}
  }

  function ApplyOps(m: map<UserKey, Bytes>, ops: seq<Op>): map<UserKey, Bytes> {
    if ops == [] then m else ApplyOp(ApplyOps(m, ops[..|ops| - 1]), ops[|ops| - 1])
  }

  /** The map that applying every group in order leaves behind. */
  function ApplyAll(h: seq<Group>): map<UserKey, Bytes> {
    if h == [] then map[] else ApplyOps(ApplyAll(h[..|h| - 1]), h[|h| - 1].ops)
  }

  function Lookup(m: map<UserKey, Bytes>, user: UserKey): Option<Bytes> {
    if user in m then Some(m[user]) else None
  }

  /** Every entry of s has a sequence number in (lo, hi], and no number occurs twice. */
  ghost predicate Numbered(s: set<Entry>, lo: int, hi: int) {
    && (forall e :: e in s ==> lo < e.k.sn <= hi)
    && forall x, y :: x in s && y in s && x.k.sn == y.k.sn ==> x == y
  }

  lemma {:induction false} OpsAreNumbered(ops: seq<Op>, first: nat)
    ensures Numbered(OpsEntries(ops, first), first - 1, first + |ops| - 1)
  {
    if ops != [] { OpsAreNumbered(ops[..|ops| - 1], first); }
  }

  lemma {:induction false} HistoryIsNumbered(h: seq<Group>)
    requires Consecutive(h)
    ensures LastSeq(h) >= 0 && Numbered(HistoryEntries(h), 0, LastSeq(h))
  {
    if h != [] {
      HistoryIsNumbered(h[..|h| - 1]);
      OpsAreNumbered(h[|h| - 1].ops, h[|h| - 1].first);
    }
  }

  lemma NumberedIsDistinct(s: set<Entry>, lo: int, hi: int)
    requires Numbered(s, lo, hi)
    ensures Distinct(s)
  {
  }

  /** Adding one entry newer than all others changes what its own user key reads, and nothing else. */
  lemma ReadsWithNewer(s: set<Entry>, e: Entry, user: UserKey, at: nat, v: Option<Bytes>)
    requires Distinct(s) && (forall x :: x in s ==> x.k.sn < e.k.sn) && at >= e.k.sn
    ensures user == e.k.user ==> (Reads(s + {e}, user, at, v) <==> v == Payload(Some(e)))
    ensures user != e.k.user ==> (Reads(s + {e}, user, at, v) <==> Reads(s, user, at, v))
  {
    if user == e.k.user {
      assert Newest(s + {e}, user, at, Some(e));
    } else {
      forall r ensures Newest(s + {e}, user, at, r) <==> Newest(s, user, at, r) {}
    }
  }

  /** `s` reads as the map m does, at every sequence number from `from` on. */
  ghost predicate ReadsAs(s: set<Entry>, m: map<UserKey, Bytes>, from: int) {
    forall user, at: nat, v :: at >= from ==> (Reads(s, user, at, v) <==> v == Lookup(m, user))
  }

  lemma {:induction false} OpsReadAsApplied(s: set<Entry>, m: map<UserKey, Bytes>, ops: seq<Op>, first: nat, lo: int)
    requires lo < first && Numbered(s, lo, first - 1) && ReadsAs(s, m, first - 1)
    ensures Numbered(s + OpsEntries(ops, first), lo, first + |ops| - 1)
    ensures ReadsAs(s + OpsEntries(ops, first), ApplyOps(m, ops), first + |ops| - 1)
  {
    if ops == [] {
      assert s + OpsEntries(ops, first) == s;
    } else {
      var init, op := ops[..|ops| - 1], ops[|ops| - 1];
      OpsReadAsApplied(s, m, init, first, lo);
      var t, e := s + OpsEntries(init, first), OpEntry(op, first + |ops| - 1);
      assert s + OpsEntries(ops, first) == t + {e};
      forall user, at: nat, v | at >= first + |ops| - 1
        ensures Reads(t + {e}, user, at, v) <==> v == Lookup(ApplyOps(m, ops), user)
      {
        ReadsWithNewer(t, e, user, at, v);
      }
    }
  }

  /** Reading all entries at the last sequence number gives the map of applying every group in order. */
  lemma {:induction false} HistoryReadsAsApplied(h: seq<Group>)
    requires Consecutive(h)
    ensures ReadsAs(HistoryEntries(h), ApplyAll(h), LastSeq(h))
  {
    if h == [] {
      forall user, at: nat, v ensures Reads({}, user, at, v) <==> v == None {
        assert Newest({}, user, at, None);
      }
    } else {
      var init, g := h[..|h| - 1], h[|h| - 1];
      HistoryReadsAsApplied(init);
      HistoryIsNumbered(init);
      OpsReadAsApplied(HistoryEntries(init), ApplyAll(init), g.ops, g.first, 0);
    }
  }

  lemma {:induction false} EntriesOfConcat(a: seq<Group>, b: seq<Group>)
    ensures HistoryEntries(a + b) == HistoryEntries(a) + HistoryEntries(b)
  {
    if b == [] {
      assert a + b == a;
    } else {
      assert (a + b)[..|a + b| - 1] == a + b[..|b| - 1];
      EntriesOfConcat(a, b[..|b| - 1]);
    }
  }

  /** In a consecutive history, later groups hold the entries above the last number of the earlier ones. */
  lemma {:induction false} SuffixIsNewer(a: seq<Group>, b: seq<Group>)
    requires Consecutive(a + b)
    ensures Consecutive(a) && LastSeq(a) <= LastSeq(a + b)
    ensures Numbered(HistoryEntries(b), LastSeq(a), LastSeq(a + b))
  {
    if b == [] {
      assert a + b == a;
    } else {
      assert (a + b)[..|a + b| - 1] == a + b[..|b| - 1];
      SuffixIsNewer(a, b[..|b| - 1]);
      OpsAreNumbered(b[|b| - 1].ops, b[|b| - 1].first);
    }
  }

  /** A reader at the end of some group sees that group and the earlier ones whole, and nothing of later ones. */
  lemma SnapshotReadsPrefix(a: seq<Group>, b: seq<Group>, user: UserKey, v: Option<Bytes>)
    requires Consecutive(a + b)
    ensures LastSeq(a) >= 0
    ensures Reads(HistoryEntries(a + b), user, LastSeq(a), v) <==> v == Lookup(ApplyAll(a), user)
  {
    SuffixIsNewer(a, b);
    EntriesOfConcat(a, b);
    HistoryIsNumbered(a);
    HistoryReadsAsApplied(a);
    LaterIsInvisible(HistoryEntries(a), HistoryEntries(b), user, LastSeq(a), v);
  }

  lemma LaterIsInvisible(s: set<Entry>, t: set<Entry>, user: UserKey, at: nat, v: Option<Bytes>)
    requires forall e :: e in t ==> e.k.sn > at
    ensures Reads(s + t, user, at, v) <==> Reads(s, user, at, v)
  {
    forall r ensures Newest(s + t, user, at, r) <==> Newest(s, user, at, r) {}
  }
}
