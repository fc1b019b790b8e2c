/** Internal keys, their order, and what a reader at a sequence number sees (db/dbformat). */
module Format {
  import opened Bytestrings

  /** A user key is its rank in the comparator's order: any total order on byte strings embeds in the reals. */
  type UserKey = real

  datatype Kind = Deletion | Value

  datatype IKey = IKey(user: UserKey, sn: nat, kind: Kind)

  datatype Entry = Entry(k: IKey, val: Bytes)

  const MAX_SEQUENCE: nat := 0xFF_FFFF_FFFF_FFFF

  function KindCode(t: Kind): nat {
    if t.Value? then 1 else 0
  }

  /** PackSequenceAndType. */
  function Pack(sn: nat, t: Kind): nat {
    sn * 256 + KindCode(t)
  }

  /** InternalKeyComparator::Compare(a, b) < 0: user keys up, packed sequence and type down. */
  predicate Less(a: IKey, b: IKey) {
    a.user < b.user || (a.user == b.user && Pack(a.sn, a.kind) > Pack(b.sn, b.kind))
  }

  predicate AtMost(a: IKey, b: IKey) {
    !Less(b, a)
  }

  lemma LessIsTotalOrder(a: IKey, b: IKey, c: IKey)
    ensures !Less(a, a)
    ensures Less(a, b) && Less(b, c) ==> Less(a, c)
    ensures Less(a, b) || a == b || Less(b, a)
    ensures AtMost(a, b) <==> Less(a, b) || a == b
  {
  }

  /** The position a reader of `user` at `snapshot` seeks to. */
  function LookupKey(user: UserKey, snapshot: nat): IKey {
    IKey(user, snapshot, Value)
  }

  /** Seeking skips exactly the smaller user keys and the sequence numbers above the snapshot. */
  lemma SeekPosition(k: IKey, user: UserKey, snapshot: nat)
    ensures AtMost(LookupKey(user, snapshot), k) <==> k.user > user || (k.user == user && k.sn <= snapshot)
  {
  }

  ghost predicate Sorted(es: seq<Entry>) {
    forall i, j :: 0 <= i < j < |es| ==> Less(es[i].k, es[j].k)
  }

  predicate Visible(e: Entry, user: UserKey, snapshot: nat) {
    e.k.user == user && e.k.sn <= snapshot
  }

  /** r is the newest entry of `user` in s that a reader at `snapshot` may see, None when there is none. */
  ghost predicate Newest(s: set<Entry>, user: UserKey, snapshot: nat, r: Option<Entry>) {
    match r
    case None => forall e :: e in s ==> !Visible(e, user, snapshot)
    case Some(n) =>
      && n in s && Visible(n, user, snapshot)
      && forall e :: e in s && Visible(e, user, snapshot) ==> e.k.sn <= n.k.sn
  }

  /** No two entries of one user key carry the same sequence number. */
  ghost predicate Distinct(s: set<Entry>) {
    forall x, y :: x in s && y in s && x.k.user == y.k.user && x.k.sn == y.k.sn ==> x == y
  }

  lemma NewestIsUnique(s: set<Entry>, user: UserKey, snapshot: nat, a: Option<Entry>, b: Option<Entry>)
    requires Distinct(s) && Newest(s, user, snapshot, a) && Newest(s, user, snapshot, b)
    ensures a == b
  {
  }

  lemma NewestExists(s: set<Entry>, user: UserKey, snapshot: nat) returns (r: Option<Entry>)
    ensures Newest(s, user, snapshot, r)
    decreases s
  {
    if e :| e in s && Visible(e, user, snapshot) {
      var q := NewestExists(s - {e}, user, snapshot);
      r := if q.Some? && q.value.k.sn >= e.k.sn then q else Some(e);
      assert s == (s - {e}) + {e};
    } else {
      r := None;
    }
  }

  /** The value a newest entry stands for. */
  function Payload(r: Option<Entry>): Option<Bytes> {
    if r.Some? && r.value.k.kind.Value? then Some(r.value.val) else None
  }

  /** A reader of `user` at `snapshot` over the entries s gets v. */
  ghost predicate Reads(s: set<Entry>, user: UserKey, snapshot: nat, v: Option<Bytes>) {
    exists r :: Newest(s, user, snapshot, r) && Payload(r) == v
  }

  /** The two entry sets answer every reader at or above `from` alike. */
  ghost predicate SameReads(a: set<Entry>, b: set<Entry>, from: nat) {
    forall user, snapshot, v :: snapshot >= from ==> (Reads(a, user, snapshot, v) <==> Reads(b, user, snapshot, v))
  }

  function Entries(es: seq<Entry>): set<Entry> {
    set e | e in es
  }

  /** Table::InternalGet and SkipList::Seek: the first entry at or after `target`. */
  function SeekEntry(es: seq<Entry>, target: IKey): (r: Option<Entry>)
  {
    if es == [] then None
    else if Less(es[0].k, target) then SeekEntry(es[1..], target)
    else Some(es[0])
  }

  /** The user-key test on what a seek delivers (SaveValue, MemTable::Get). */
  function SeekHit(es: seq<Entry>, user: UserKey, snapshot: nat): Option<Entry> {
    match SeekEntry(es, LookupKey(user, snapshot))
    case None => None
    case Some(e) => if e.k.user == user then Some(e) else None
  }

  /** Seeking in one sorted run finds its newest visible entry of the user key. */
  lemma {:induction false} SeekHitIsNewest(es: seq<Entry>, user: UserKey, snapshot: nat)
    requires Sorted(es)
    ensures Newest(Entries(es), user, snapshot, SeekHit(es, user, snapshot))
  {
    if es != [] {
      var target := LookupKey(user, snapshot);
      if Less(es[0].k, target) {
        SeekHitIsNewest(es[1..], user, snapshot);
        assert Entries(es) == {es[0]} + Entries(es[1..]) by { assert es == [es[0]] + es[1..]; }
      } else {
        forall e | e in Entries(es) && Visible(e, user, snapshot)
          ensures es[0].k.user == user && e.k.sn <= es[0].k.sn
        {
          var i :| 0 <= i < |es| && es[i] == e;
          assert i > 0 ==> Less(es[0].k, es[i].k);
        }
      }
    }
  }
}
