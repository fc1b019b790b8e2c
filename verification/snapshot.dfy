/** The list of live snapshots: a circular doubly linked list through a dummy head (db/snapshot.h). */
module Snapshots {

  class Snapshot {
    const sn: nat
    var prev: Snapshot
    var next: Snapshot

    constructor (sn: nat)
      ensures this.sn == sn && prev == this && next == this
    {
      this.sn, prev, next := sn, this, this;
    }
  }

  function After(n: nat, i: nat): nat {
    if i + 1 < n then i + 1 else 0
  }

  function Before(n: nat, i: nat): int {
    if i > 0 then i - 1 else n - 1
  }

  /** The links of node i lead to its neighbours, around the end too. */
  ghost predicate Linked(ring: seq<Snapshot>, next: seq<Snapshot>, prev: seq<Snapshot>, i: nat)
    requires i < |ring| == |next| == |prev|
  {
    next[i] == ring[After(|ring|, i)] && prev[i] == ring[Before(|ring|, i)]
  }

  ghost predicate Circle(ring: seq<Snapshot>, next: seq<Snapshot>, prev: seq<Snapshot>) {
    && |ring| == |next| == |prev|
    && (forall i, j :: 0 <= i < j < |ring| ==> ring[i] != ring[j])
    && forall i :: 0 <= i < |ring| ==> Linked(ring, next, prev, i)
  }

  function Without(s: seq<Snapshot>, p: nat): seq<Snapshot>
    requires p < |s|
  {
    s[..p] + s[p + 1..]
  }

  /** Linking a node's neighbours to each other leaves a circle of the others. */
  lemma {:induction false} RemovedFromCircle(ring: seq<Snapshot>, next: seq<Snapshot>, prev: seq<Snapshot>, p: nat)
    requires Circle(ring, next, prev) && 0 < p < |ring|
    ensures Circle(Without(ring, p), Without(next[p - 1 := next[p]], p), Without(prev[After(|ring|, p) := prev[p]], p))
  {
    hide Circle;
    CircleUnfolds(ring, next, prev);
    var r, n, v := Without(ring, p), Without(next[p - 1 := next[p]], p), Without(prev[After(|ring|, p) := prev[p]], p);
    forall i | 0 <= i < |r| ensures Linked(r, n, v, i) {
      assert Linked(ring, next, prev, if i < p then i else i + 1) && Linked(ring, next, prev, p);
    }
    CircleFolds(r, n, v);
  }

  /** A node put between the last and the head. */
  lemma {:induction false} AddedToCircle(ring: seq<Snapshot>, next: seq<Snapshot>, prev: seq<Snapshot>, s: Snapshot)
    requires Circle(ring, next, prev) && ring != [] && s !in ring
    ensures Circle(ring + [s], next[|ring| - 1 := s] + [ring[0]], prev[0 := s] + [prev[0]])
  {
    hide Circle;
    CircleUnfolds(ring, next, prev);
    var r, n, v := ring + [s], next[|ring| - 1 := s] + [ring[0]], prev[0 := s] + [prev[0]];
    forall i | 0 <= i < |r| ensures Linked(r, n, v, i) {
      assert Linked(ring, next, prev, if i < |ring| then i else 0);
    }
    CircleFolds(r, n, v);
  }

  lemma CircleUnfolds(ring: seq<Snapshot>, next: seq<Snapshot>, prev: seq<Snapshot>)
    requires Circle(ring, next, prev)
    ensures |ring| == |next| == |prev|
    ensures forall i, j :: 0 <= i < j < |ring| ==> ring[i] != ring[j]
    ensures forall i :: 0 <= i < |ring| ==> Linked(ring, next, prev, i)
  {
  }

  lemma CircleFolds(ring: seq<Snapshot>, next: seq<Snapshot>, prev: seq<Snapshot>)
    requires |ring| == |next| == |prev|
    requires forall i, j :: 0 <= i < j < |ring| ==> ring[i] != ring[j]
    requires forall i :: 0 <= i < |ring| ==> Linked(ring, next, prev, i)
    ensures Circle(ring, next, prev)
  {
  }

  ghost function Nexts(ring: seq<Snapshot>): (s: seq<Snapshot>)
    reads ring
    ensures |s| == |ring|
  {
    seq(|ring|, i requires 0 <= i < |ring| reads ring => ring[i].next)
  }

  ghost function Prevs(ring: seq<Snapshot>): (s: seq<Snapshot>)
    reads ring
    ensures |s| == |ring|
  {
    seq(|ring|, i requires 0 <= i < |ring| reads ring => ring[i].prev)
  }

  ghost predicate Ascending(nodes: seq<Snapshot>) {
    forall i, j :: 0 <= i <= j < |nodes| ==> nodes[i].sn <= nodes[j].sn
  }

  class SnapshotList {
    const head: Snapshot
    ghost var nodes: seq<Snapshot>

    /** The head and then the snapshots, oldest first. */
    ghost function Around(): seq<Snapshot>
      reads this
    {
      [head] + nodes
    }

    ghost predicate Valid()
      reads this, head, nodes
    {
      Circle(Around(), Nexts(Around()), Prevs(Around())) && Ascending(nodes)
    }

    constructor ()
      ensures Valid() && nodes == [] && fresh(head)
    {
      head := new Snapshot(0);
      nodes := [];
    }

    method Empty() returns (b: bool)
      requires Valid()
      ensures b <==> nodes == []
    {
      ghost var ring := Around();
      assert Linked(ring, Nexts(ring), Prevs(ring), 0);
      assert nodes != [] ==> ring[1] == nodes[0] && ring[0] != ring[1];
      b := head.next == head;
    }

    /** The oldest snapshot: no live one has a smaller sequence number. */
    method Oldest() returns (s: Snapshot)
      requires Valid() && nodes != []
      ensures s in nodes && forall x :: x in nodes ==> s.sn <= x.sn
    {
      ghost var ring := Around();
      assert Linked(ring, Nexts(ring), Prevs(ring), 0) && ring[1] == nodes[0];
      s := head.next;
    }

    method Newest() returns (s: Snapshot)
      requires Valid() && nodes != []
      ensures s in nodes && forall x :: x in nodes ==> x.sn <= s.sn
    {
      ghost var ring := Around();
      assert Linked(ring, Nexts(ring), Prevs(ring), 0) && ring[|ring| - 1] == nodes[|nodes| - 1];
      s := head.prev;
    }

    /** A new snapshot goes to the end; the caller takes them in rising order. */
    method New(sn: nat) returns (s: Snapshot)
      requires Valid() && forall x :: x in nodes ==> x.sn <= sn
      modifies this, head, nodes
      ensures Valid() && fresh(s) && s.sn == sn && nodes == old(nodes) + [s]
    {
      hide Circle;
      ghost var ring, next, prev := Around(), Nexts(Around()), Prevs(Around());
      CircleUnfolds(ring, next, prev);
      assert Linked(ring, next, prev, 0);
      s := new Snapshot(sn);
      assert s !in ring;
      s.next := head;
      s.prev := head.prev;
      s.prev.next := s;
      s.next.prev := s;
      nodes := nodes + [s];
      assert Around() == ring + [s];
      AddedToCircle(ring, next, prev, s);
      assert Nexts(Around()) == next[|ring| - 1 := s] + [ring[0]];
      assert Prevs(Around()) == prev[0 := s] + [prev[0]];
    }

    /** Unlinks a live snapshot; the others stay, in order. */
    method Delete(s: Snapshot, ghost k: nat)
      requires Valid() && k < |nodes| && nodes[k] == s
      modifies this, head, nodes
      ensures Valid() && nodes == old(nodes[..k] + nodes[k + 1..])
    {
      hide Circle, Nexts, Prevs, Ascending;
      ghost var ring, p := Around(), k + 1;
      Thinned(nodes, k);
      RemovedFromCircle(ring, Nexts(ring), Prevs(ring), p);
      Unlink(s, ring, p);
      nodes := nodes[..k] + nodes[k + 1..];
      assert Around() == Without(ring, p);
      LinksWithout(ring, p);
    }
  }

  method Unlink(s: Snapshot, ghost ring: seq<Snapshot>, ghost p: nat)
    requires Circle(ring, Nexts(ring), Prevs(ring)) && 0 < p < |ring| && ring[p] == s
    modifies ring
    ensures Nexts(ring) == old(Nexts(ring))[p - 1 := old(Nexts(ring))[p]]
    ensures Prevs(ring) == old(Prevs(ring))[After(|ring|, p) := old(Prevs(ring))[p]]
  {
    assert Linked(ring, Nexts(ring), Prevs(ring), p);
    s.prev.next := s.next;
    s.next.prev := s.prev;
  }

  lemma LinksWithout(ring: seq<Snapshot>, p: nat)
    requires p < |ring|
    ensures Nexts(Without(ring, p)) == Without(Nexts(ring), p) && Prevs(Without(ring, p)) == Without(Prevs(ring), p)
  {
  }

  lemma Thinned(nodes: seq<Snapshot>, k: nat)
    requires Ascending(nodes) && k < |nodes|
    ensures Ascending(nodes[..k] + nodes[k + 1..])
  {
  }
}
