/** The memtable's skip list, one link store at a time, under concurrent readers (skiplist.h). */
module SkipLists {

  /** A key is its rank in the comparator's order. */
  type Key = real

  const MAX_HEIGHT: nat := 12

  /** Nodes are numbers: places in the arena. The head is node 0. */
  const HEAD: nat := 0

  datatype Link = Null | Node(n: nat)

  /** keys and next per node; rows[l] lists the nodes reached along level l, the head first. */
  datatype State = State(keys: seq<Key>, next: seq<seq<Link>>, maxHeight: nat, rows: seq<seq<nat>>)

  ghost predicate Sized(s: State) {
    && |s.keys| == |s.next| >= 1 && |s.rows| == MAX_HEIGHT && |s.next[HEAD]| == MAX_HEIGHT
    && 1 <= s.maxHeight <= MAX_HEIGHT
  }

  /** Every node of a row exists and is tall enough; keys rise; the links follow the row. */
  ghost predicate RowOk(s: State, l: nat)
    requires Sized(s) && l < MAX_HEIGHT
  {
    var row := s.rows[l];
    && row != [] && row[0] == HEAD && (forall i :: 0 <= i < |row| ==> row[i] < |s.keys|)
    && (forall i :: 0 <= i < |row| ==> LinkIs(s, l, row, i))
    && (forall i :: 1 <= i < |row| ==> row[i] != HEAD)
    && forall i, j :: 1 <= i < j < |row| ==> s.keys[row[i]] < s.keys[row[j]]
  }

  /** Entry k of a row is tall enough and links to the next one. */
  ghost predicate LinkIs(s: State, l: nat, row: seq<nat>, k: nat)
    requires Sized(s) && k < |row| && row[k] < |s.keys|
  {
    |s.next[row[k]]| > l && s.next[row[k]][l] == LinkAfter(row, k)
  }

  function LinkAfter(row: seq<nat>, i: nat): Link
    requires i < |row|
  {
    if i + 1 < |row| then Node(row[i + 1]) else Null
  }

  /** Level l is a sublist of the level below. */
  ghost predicate Nested(s: State, l: nat)
    requires Sized(s) && l < MAX_HEIGHT
  {
    l > 0 ==> forall n :: n in s.rows[l] ==> n in s.rows[l - 1]
  }

  ghost predicate Good(s: State) {
    && Sized(s)
    && (forall l :: 0 <= l < MAX_HEIGHT ==> RowOk(s, l) && Nested(s, l))
    && forall l :: s.maxHeight <= l < MAX_HEIGHT ==> s.rows[l] == [HEAD]
  }

  ghost function RowKeys(keys: seq<Key>, row: seq<nat>): set<Key> {
    set i | 1 <= i < |row| && row[i] < |keys| :: keys[row[i]]
  }

  /** The keys of the level-0 list: the contents. */
  ghost function Contents(s: State): set<Key>
    requires Sized(s)
  {
    RowKeys(s.keys, s.rows[0])
  }

  /** KeyIsAfterNode: no node counts as infinite. */
  predicate After(keys: seq<Key>, key: Key, x: Link) {
    x.Node? && x.n < |keys| && keys[x.n] < key
  }

  /** x stands on level l before the target. */
  ghost predicate Standing(s: State, l: nat, x: nat, key: Key, i: nat)
    requires Sized(s) && l < MAX_HEIGHT
  {
    i < |s.rows[l]| && s.rows[l][i] == x && (x != HEAD ==> x < |s.keys| && s.keys[x] < key)
  }

  /** x is the last node of level l before the target. */
  ghost predicate Predecessor(s: State, l: nat, x: nat, key: Key, i: nat)
    requires Sized(s) && l < MAX_HEIGHT
  {
    Standing(s, l, x, key, i) && (i + 1 < |s.rows[l]| ==> s.rows[l][i + 1] < |s.keys| && s.keys[s.rows[l][i + 1]] >= key)
  }

  ghost predicate HasPredecessor(s: State, l: nat, x: nat, key: Key)
    requires Sized(s) && l < MAX_HEIGHT
  {
    exists i: nat :: Predecessor(s, l, x, key, i)
  }

  /** r is the first node at or after the key. */
  ghost predicate IsFirstAtLeast(s: State, key: Key, r: Link)
    requires Sized(s) && RowOk(s, 0)
  {
    match r
    case Null => forall k :: k in Contents(s) ==> k < key
    case Node(n) => n < |s.keys| && s.keys[n] in Contents(s) && s.keys[n] >= key && forall k :: k in Contents(s) && k >= key ==> k >= s.keys[n]
  }

  /** r is the last node before the key, the head if there is none. */
  ghost predicate IsLastBefore(s: State, key: Key, r: nat)
    requires Sized(s) && RowOk(s, 0)
  {
    if r == HEAD then forall k :: k in Contents(s) ==> k >= key
    else r < |s.keys| && s.keys[r] in Contents(s) && s.keys[r] < key && forall k :: k in Contents(s) && k < key ==> k <= s.keys[r]
  }

  lemma GoodLevel(s: State, l: nat)
    requires Good(s) && l < MAX_HEIGHT
    ensures Sized(s) && RowOk(s, l) && Nested(s, l) && RowOk(s, 0)
  {
  }

  /** At the predecessor on level 0, its link is the first node at or after the key, and it is the last one before. */
  lemma PredecessorDecides(s: State, x: nat, key: Key, i: nat)
    requires Sized(s) && RowOk(s, 0) && Predecessor(s, 0, x, key, i)
    ensures IsFirstAtLeast(s, key, LinkAfter(s.rows[0], i)) && IsLastBefore(s, key, x)
  {
    var row := s.rows[0];
    forall k | k in Contents(s) ensures k >= key ==> i + 1 < |row| && k >= s.keys[row[i + 1]] ensures k < key ==> i > 0 && k <= s.keys[row[i]] {
      var j :| 1 <= j < |row| && s.keys[row[j]] == k;
      if j <= i { assert j == i || s.keys[row[j]] < s.keys[row[i]]; }
      else { assert j == i + 1 || s.keys[row[i + 1]] < s.keys[row[j]]; }
    }
  }

  lemma StepRight(s: State, l: nat, x: nat, key: Key, i: nat)
    requires Sized(s) && l < MAX_HEIGHT && RowOk(s, l) && Standing(s, l, x, key, i)
    ensures x < |s.next| && l < |s.next[x]| && s.next[x][l] == LinkAfter(s.rows[l], i)
    ensures After(s.keys, key, s.next[x][l]) ==> Standing(s, l, s.next[x][l].n, key, i + 1)
    ensures !After(s.keys, key, s.next[x][l]) ==> Predecessor(s, l, x, key, i)
  {
    assert LinkIs(s, l, s.rows[l], i);
  }

  lemma StepDown(s: State, l: nat, x: nat, key: Key, i: nat) returns (j: nat)
    requires Sized(s) && 0 < l < MAX_HEIGHT && RowOk(s, l) && Nested(s, l) && Standing(s, l, x, key, i)
    ensures Standing(s, l - 1, x, key, j)
  {
    assert x in s.rows[l];
    j :| 0 <= j < |s.rows[l - 1]| && s.rows[l - 1][j] == x;
  }

  // ---- Stores of the writer ----

  /** NewNode: a node nobody can reach yet. */
  ghost function Allocated(s: State, key: Key, height: nat): State {
    s.(keys := s.keys + [key], next := s.next + [seq(height, _ => Null)])
  }

  ghost function Raised(s: State, height: nat): State {
    s.(maxHeight := height)
  }

  /** The unpublished store x->next[l] = prev->next[l]. */
  ghost function Prepared(s: State, l: nat, prev: nat, x: nat): State
    requires Sized(s) && prev < |s.next| && x < |s.next| && l < |s.next[prev]| && l < |s.next[x]|
  {
    s.(next := s.next[x := s.next[x][l := s.next[prev][l]]])
  }

  function RowWith(row: seq<nat>, i: nat, x: nat): (r: seq<nat>)
    requires i < |row|
    ensures |r| == |row| + 1
    ensures forall k :: 0 <= k < |r| ==> r[k] == EntryWith(row, i, x, k)
  {
    row[..i + 1] + [x] + row[i + 1..]
  }

  function EntryWith(row: seq<nat>, i: nat, x: nat, k: nat): nat
    requires i < |row| && k <= |row|
  {
    if k <= i then row[k] else if k == i + 1 then x else row[k - 1]
  }

  /** The publishing store prev->next[l] = x. */
  ghost function Linked(s: State, l: nat, prev: nat, x: nat, i: nat): State
    requires Sized(s) && l < MAX_HEIGHT && prev < |s.next| && l < |s.next[prev]| && i < |s.rows[l]|
  {
    s.(next := s.next[prev := s.next[prev][l := Node(x)]], rows := s.rows[l := RowWith(s.rows[l], i, x)])
  }

  /** x is a node that level l does not list. */
  ghost predicate Unlisted(s: State, l: nat, x: nat)
    requires Sized(s) && l < MAX_HEIGHT
  {
    HEAD < x < |s.keys| && |s.next[x]| > l && x !in s.rows[l]
  }

  /** A row whose nodes keep their links on its level stays good. */
  lemma KeepsRow(s: State, t: State, l: nat)
    requires Sized(s) && Sized(t) && l < MAX_HEIGHT && RowOk(s, l) && t.rows[l] == s.rows[l] && s.keys <= t.keys
    requires forall n :: n in s.rows[l] ==> n < |s.next| && |s.next[n]| > l
    requires forall n :: n in s.rows[l] ==> n < |t.next| && |t.next[n]| > l && t.next[n][l] == s.next[n][l]
    ensures RowOk(t, l)
  {
    var row := s.rows[l];
    forall i | 0 <= i < |row| ensures LinkIs(t, l, row, i) {
      assert LinkIs(s, l, row, i) && row[i] in row;
    }
  }

  lemma RowNodes(s: State, l: nat)
    requires Sized(s) && l < MAX_HEIGHT && RowOk(s, l)
    ensures forall n :: n in s.rows[l] ==> n < |s.next| && |s.next[n]| > l
  {
    var row := s.rows[l];
    forall n | n in row ensures n < |s.next| && |s.next[n]| > l {
      var i :| 0 <= i < |row| && row[i] == n;
      assert LinkIs(s, l, row, i);
    }
  }

  lemma AllocationKeepsGood(s: State, key: Key, height: nat)
    requires Good(s)
    ensures Good(Allocated(s, key, height)) && Contents(Allocated(s, key, height)) == Contents(s)
  {
    var s' := Allocated(s, key, height);
    forall l | 0 <= l < MAX_HEIGHT ensures RowOk(s', l) && Nested(s', l) {
      GoodLevel(s, l);
      RowNodes(s, l);
      KeepsRow(s, s', l);
    }
    GoodLevel(s, 0);
    assert forall i :: 1 <= i < |s.rows[0]| ==> s'.keys[s.rows[0][i]] == s.keys[s.rows[0][i]];
  }

  lemma RaisingKeepsGood(s: State, height: nat)
    requires Good(s) && s.maxHeight <= height <= MAX_HEIGHT
    ensures Good(Raised(s, height)) && Contents(Raised(s, height)) == Contents(s)
  {
    var s' := Raised(s, height);
    forall l | 0 <= l < MAX_HEIGHT ensures RowOk(s', l) && Nested(s', l) {
      GoodLevel(s, l);
      RowNodes(s, l);
      KeepsRow(s, s', l);
    }
  }

  /** A store into a node that the level does not list changes no row. */
  lemma PreparingKeepsGood(s: State, l: nat, prev: nat, x: nat)
    requires Good(s) && l < MAX_HEIGHT && Unlisted(s, l, x) && prev < |s.next| && l < |s.next[prev]|
    ensures Good(Prepared(s, l, prev, x)) && Contents(Prepared(s, l, prev, x)) == Contents(s)
  {
    var s' := Prepared(s, l, prev, x);
    forall m | 0 <= m < MAX_HEIGHT ensures RowOk(s', m) && Nested(s', m) {
      GoodLevel(s, m);
      RowNodes(s, m);
      KeepsRow(s, s', m);
    }
  }

  ghost predicate Ready(s: State, l: nat, prev: nat, x: nat, i: nat)
    requires Sized(s) && l < MAX_HEIGHT
  {
    && Unlisted(s, l, x) && i < |s.rows[l]| && Predecessor(s, l, prev, s.keys[x], i)
    && (i + 1 < |s.rows[l]| ==> s.rows[l][i + 1] < |s.keys| && s.keys[s.rows[l][i + 1]] > s.keys[x])
    && s.next[x][l] == LinkAfter(s.rows[l], i)
    && (l > 0 ==> x in s.rows[l - 1]) && l < s.maxHeight
  }

  /** After the publishing store the level lists x between its neighbours. */
  lemma LinkedRow(s: State, l: nat, prev: nat, x: nat, i: nat)
    requires Sized(s) && l < MAX_HEIGHT && RowOk(s, l) && Ready(s, l, prev, x, i) && prev < |s.next| && l < |s.next[prev]|
    ensures RowOk(Linked(s, l, prev, x, i), l)
  {
    var s', row' := Linked(s, l, prev, x, i), RowWith(s.rows[l], i, x);
    ReadyParts(s, l, prev, x, i);
    LinkedLinks(s, l, prev, x, i);
    LinkedSorted(s, l, prev, x, i);
  }

  lemma LinkedSorted(s: State, l: nat, prev: nat, x: nat, i: nat)
    requires Sized(s) && l < MAX_HEIGHT && RowOk(s, l) && i < |s.rows[l]| && HEAD < x < |s.keys|
    requires s.rows[l][i] != HEAD ==> s.keys[s.rows[l][i]] < s.keys[x]
    requires i + 1 < |s.rows[l]| ==> s.keys[s.rows[l][i + 1]] > s.keys[x]
    ensures RowWith(s.rows[l], i, x)[0] == HEAD
    ensures forall k :: 1 <= k <= |s.rows[l]| ==> HEAD != RowWith(s.rows[l], i, x)[k] < |s.keys|
    ensures forall a, b :: 1 <= a < b <= |s.rows[l]| ==>
      s.keys[RowWith(s.rows[l], i, x)[a]] < s.keys[RowWith(s.rows[l], i, x)[b]]
  {
    forall a, b | 1 <= a < b <= |s.rows[l]|
      ensures s.keys[RowWith(s.rows[l], i, x)[a]] < s.keys[RowWith(s.rows[l], i, x)[b]]
    {
      LinkedPair(s, l, x, i, a, b);
    }
  }

  lemma ReadyParts(s: State, l: nat, prev: nat, x: nat, i: nat)
    requires Sized(s) && l < MAX_HEIGHT && RowOk(s, l) && Ready(s, l, prev, x, i)
    ensures HEAD < x < |s.keys| && |s.next[x]| > l && x !in s.rows[l] && i < |s.rows[l]| && s.rows[l][i] == prev
    ensures prev != HEAD ==> s.keys[prev] < s.keys[x]
    ensures i + 1 < |s.rows[l]| ==> s.keys[s.rows[l][i + 1]] > s.keys[x]
    ensures s.next[x][l] == LinkAfter(s.rows[l], i)
  {
  }

  lemma LinkedLinks(s: State, l: nat, prev: nat, x: nat, i: nat)
    requires Sized(s) && l < MAX_HEIGHT && RowOk(s, l) && prev < |s.next| && l < |s.next[prev]|
    requires x < |s.next| && |s.next[x]| > l && x !in s.rows[l] && i < |s.rows[l]| && s.rows[l][i] == prev
    requires s.next[x][l] == LinkAfter(s.rows[l], i)
    ensures forall k :: 0 <= k <= |s.rows[l]| ==> RowWith(s.rows[l], i, x)[k] < |s.keys|
    ensures forall k :: 0 <= k <= |s.rows[l]| ==> LinkIs(Linked(s, l, prev, x, i), l, RowWith(s.rows[l], i, x), k)
  {
    var s', row := Linked(s, l, prev, x, i), s.rows[l];
    RowIsDistinct(s, l);
    forall k | 0 <= k <= |row| ensures LinkIs(s', l, RowWith(row, i, x), k) {
      if k > i + 1 {
        assert LinkIs(s, l, row, k - 1) && row[k - 1] != prev && row[k - 1] in row;
      } else if k < i {
        assert LinkIs(s, l, row, k) && row[k] != prev && row[k] in row;
      } else {
        assert prev in row;
      }
    }
  }

  lemma LinkedPair(s: State, l: nat, x: nat, i: nat, a: nat, b: nat)
    requires Sized(s) && l < MAX_HEIGHT && RowOk(s, l) && i < |s.rows[l]| && x < |s.keys|
    requires s.rows[l][i] != HEAD ==> s.keys[s.rows[l][i]] < s.keys[x]
    requires i + 1 < |s.rows[l]| ==> s.keys[s.rows[l][i + 1]] > s.keys[x]
    requires 1 <= a < b <= |s.rows[l]|
    ensures EntryWith(s.rows[l], i, x, a) < |s.keys| && EntryWith(s.rows[l], i, x, b) < |s.keys|
    ensures s.keys[EntryWith(s.rows[l], i, x, a)] < s.keys[EntryWith(s.rows[l], i, x, b)]
  {
    var row := s.rows[l];
    if b == i + 1 {
      assert a == i || s.keys[row[a]] < s.keys[row[i]];
    } else if a == i + 1 {
      assert b - 1 == i + 1 || s.keys[row[i + 1]] < s.keys[row[b - 1]];
    }
  }

  lemma RowIsDistinct(s: State, l: nat)
    requires Sized(s) && l < MAX_HEIGHT && RowOk(s, l)
    ensures forall i, j :: 0 <= i < j < |s.rows[l]| ==> s.rows[l][i] != s.rows[l][j]
  {
    var row := s.rows[l];
    forall i, j | 0 <= i < j < |row| ensures row[i] != row[j] {
      if i > 0 { assert s.keys[row[i]] < s.keys[row[j]]; }
    }
  }

  /** The publishing store keeps every level a sorted sublist of the one below; only on level 0 does it show the key. */
  lemma LinkingKeepsGood(s: State, l: nat, prev: nat, x: nat, i: nat)
    requires Good(s) && l < MAX_HEIGHT && Ready(s, l, prev, x, i) && prev < |s.next| && l < |s.next[prev]|
    ensures Good(Linked(s, l, prev, x, i))
    ensures Contents(Linked(s, l, prev, x, i)) == if l == 0 then Contents(s) + {s.keys[x]} else Contents(s)
  {
    var s' := Linked(s, l, prev, x, i);
    forall m | 0 <= m < MAX_HEIGHT ensures RowOk(s', m) && Nested(s', m) {
      GoodLevel(s, m);
      if m == l { LinkedRow(s, l, prev, x, i); } else { OtherRow(s, l, prev, x, i, m); }
      LinkedNested(s, l, prev, x, i, m);
    }
    GoodLevel(s, 0);
    if l == 0 { LinkedContents(s.keys, s.rows[0], x, i); }
  }

  lemma OtherRow(s: State, l: nat, prev: nat, x: nat, i: nat, m: nat)
    requires Sized(s) && l < MAX_HEIGHT && m < MAX_HEIGHT && m != l && RowOk(s, m)
    requires prev < |s.next| && l < |s.next[prev]| && i < |s.rows[l]|
    ensures RowOk(Linked(s, l, prev, x, i), m)
  {
    RowNodes(s, m);
    KeepsRow(s, Linked(s, l, prev, x, i), m);
  }

  lemma LinkedNested(s: State, l: nat, prev: nat, x: nat, i: nat, m: nat)
    requires Sized(s) && l < MAX_HEIGHT && m < MAX_HEIGHT && Nested(s, m) && Ready(s, l, prev, x, i)
    requires prev < |s.next| && l < |s.next[prev]|
    ensures Nested(Linked(s, l, prev, x, i), m)
  {
    var s', row := Linked(s, l, prev, x, i), s.rows[l];
    assert row == row[..i + 1] + row[i + 1..];
    if m > 0 {
      forall n | n in s'.rows[m] ensures n in s'.rows[m - 1] {
        if n != x || m != l { assert n in s.rows[m]; }
      }
    }
  }

  lemma LinkedContents(keys: seq<Key>, row: seq<nat>, x: nat, i: nat)
    requires i < |row| && x < |keys| && forall k :: 0 <= k < |row| ==> row[k] < |keys|
    ensures RowKeys(keys, RowWith(row, i, x)) == RowKeys(keys, row) + {keys[x]}
  {
    var row' := RowWith(row, i, x);
    forall k | k in RowKeys(keys, row) ensures k in RowKeys(keys, row') {
      var j :| 1 <= j < |row| && keys[row[j]] == k;
      assert row'[if j <= i then j else j + 1] == row[j];
    }
    assert row'[i + 1] == x;
    forall k | k in RowKeys(keys, row') ensures k in RowKeys(keys, row) + {keys[x]} {
      var j :| 1 <= j < |row'| && row'[j] < |keys| && keys[row'[j]] == k;
      if j != i + 1 { assert row[if j <= i then j else j - 1] == row'[j]; }
    }
  }

  // ---- Readers between the stores ----

  ghost predicate Stands(s: State, l: nat, x: nat, key: Key)
    requires Sized(s) && l < MAX_HEIGHT
  {
    exists i: nat :: Standing(s, l, x, key, i)
  }

  /** The stores of the writer. */
  datatype Store = Allocate(key: Key, height: nat) | Raise(height: nat) | Prepare(l: nat, prev: nat, x: nat)
                 | Publish(l: nat, prev: nat, x: nat, i: nat)

  ghost predicate CanStore(s: State, w: Store)
    requires Sized(s)
  {
    match w
    case Allocate(_, _) => true
    case Raise(height) => s.maxHeight <= height <= MAX_HEIGHT
    case Prepare(l, prev, x) => l < MAX_HEIGHT && prev < |s.next| && l < |s.next[prev]| && Unlisted(s, l, x)
    case Publish(l, prev, x, i) => l < MAX_HEIGHT && prev < |s.next| && l < |s.next[prev]| && Ready(s, l, prev, x, i)
  }

  ghost function Stored(s: State, w: Store): State
    requires Sized(s) && CanStore(s, w)
  {
    match w
    case Allocate(key, height) => Allocated(s, key, height)
    case Raise(height) => Raised(s, height)
    case Prepare(l, prev, x) => Prepared(s, l, prev, x)
    case Publish(l, prev, x, i) => Linked(s, l, prev, x, i)
  }

  /** A search for a key: the node and level it has come to, or what it has loaded last. */
  datatype Reader = Searching(l: nat, x: nat) | Done(x: nat, r: Link)

  /** One load of the reader, as in FindGreaterOrEqual and FindLessThan. */
  ghost predicate ReaderStep(s: State, key: Key, a: Reader, b: Reader) {
    && a.Searching? && a.x < |s.next| && a.l < |s.next[a.x]|
    && var next := s.next[a.x][a.l];
       b == if After(s.keys, key, next) then Searching(a.l, next.n) else if a.l > 0 then Searching(a.l - 1, a.x) else Done(a.x, next)
  }

  ghost predicate ReaderOk(s: State, key: Key, a: Reader)
    requires Sized(s)
  {
    a.Searching? ==> a.l < MAX_HEIGHT && Stands(s, a.l, a.x, key)
  }

  /** A search may start on any level, so a stale height does no harm. */
  lemma ReaderStarts(s: State, key: Key, l: nat)
    requires Good(s) && l < MAX_HEIGHT
    ensures ReaderOk(s, key, Searching(l, HEAD))
  {
    GoodLevel(s, l);
    assert Standing(s, l, HEAD, key, 0);
  }

  /** A reader that is on its way stays on its way; what it loads last is right at the moment of that load. */
  lemma ReaderGoesOn(s: State, key: Key, a: Reader, b: Reader)
    requires Good(s) && ReaderOk(s, key, a) && ReaderStep(s, key, a, b)
    ensures ReaderOk(s, key, b)
    ensures b.Done? ==> Sized(s) && RowOk(s, 0) && IsFirstAtLeast(s, key, b.r) && IsLastBefore(s, key, b.x)
  {
    var i: nat :| Standing(s, a.l, a.x, key, i);
    GoodLevel(s, a.l);
    StepRight(s, a.l, a.x, key, i);
    if After(s.keys, key, s.next[a.x][a.l]) {
    } else if a.l > 0 {
      var j := StepDown(s, a.l, a.x, key, i);
    } else {
      PredecessorDecides(s, a.x, key, i);
    }
  }

  /** Every store keeps the list good and its readers right; only a publishing store on level 0 shows a key. */
  lemma StoreKeepsReaders(s: State, w: Store, key: Key, a: Reader)
    requires Good(s) && CanStore(s, w) && ReaderOk(s, key, a)
    ensures Good(Stored(s, w)) && ReaderOk(Stored(s, w), key, a)
    ensures Contents(Stored(s, w)) == if w.Publish? && w.l == 0 then Contents(s) + {s.keys[w.x]} else Contents(s)
  {
    hide Contents, RowOk, Nested, Standing, Predecessor;
    match w
    case Allocate(k, height) =>
      AllocationKeepsGood(s, k, height);
      StandsLater(s, Stored(s, w), key, a);
    case Raise(height) =>
      RaisingKeepsGood(s, height);
      StandsLater(s, Stored(s, w), key, a);
    case Prepare(l, prev, x) =>
      PreparingKeepsGood(s, l, prev, x);
      StandsLater(s, Stored(s, w), key, a);
    case Publish(l, prev, x, i) =>
      LinkingKeepsGood(s, l, prev, x, i);
      StandsAfterLink(s, l, prev, x, i, key, a);
  }

  lemma StandsLater(s: State, t: State, key: Key, a: Reader)
    requires Good(s) && Good(t) && ReaderOk(s, key, a) && t.rows == s.rows && s.keys <= t.keys
    ensures ReaderOk(t, key, a)
  {
    if a.Searching? {
      var i: nat :| Standing(s, a.l, a.x, key, i);
      assert Standing(t, a.l, a.x, key, i);
    }
  }

  lemma StandsAfterLink(s: State, l: nat, prev: nat, x: nat, i: nat, key: Key, a: Reader)
    requires Good(s) && l < MAX_HEIGHT && prev < |s.next| && l < |s.next[prev]| && i < |s.rows[l]| && ReaderOk(s, key, a)
    ensures Sized(Linked(s, l, prev, x, i)) && ReaderOk(Linked(s, l, prev, x, i), key, a)
  {
    if a.Searching? {
      var k: nat :| Standing(s, a.l, a.x, key, k);
      assert Standing(Linked(s, l, prev, x, i), a.l, a.x, key, if a.l == l && k > i then k + 1 else k);
    }
  }

  // ---- Runs of one writer and any number of readers ----

  /** One store of the writer leads from a to b. */
  ghost predicate StoreStep(a: State, b: State) {
    Sized(a) && exists w :: CanStore(a, w) && b == Stored(a, w)
  }

  /** The states a writer goes through from a to b, store by store. */
  ghost predicate Trace(a: State, trace: seq<State>, b: State) {
    && trace != [] && trace[0] == a && trace[|trace| - 1] == b
    && forall i :: 0 <= i < |trace| - 1 ==> StoreStep(trace[i], trace[i + 1])
  }

  /** The contents are `before` up to some store, and from that store on they have the key too. */
  ghost predicate ShowsOnce(trace: seq<State>, before: set<Key>, key: Key) {
    exists m: nat :: 0 < m < |trace| && ShownFrom(trace, m, before, key)
  }

  ghost predicate ShownFrom(trace: seq<State>, m: nat, before: set<Key>, key: Key) {
    forall i :: 0 <= i < |trace| ==> Sized(trace[i]) && Contents(trace[i]) == if i < m then before else before + {key}
  }

  lemma TraceGoesOn(a: State, trace: seq<State>, b: State, c: State)
    requires Trace(a, trace, b) && StoreStep(b, c)
    ensures Trace(a, trace + [c], c)
  {
    hide StoreStep;
  }

  lemma TracesJoin(a: State, t: seq<State>, b: State, u: seq<State>, c: State)
    requires Trace(a, t, b) && Trace(b, u, c)
    ensures Trace(a, t + u[1..], c)
  {
    hide StoreStep;
    var v := t + u[1..];
    forall i | 0 <= i < |v| - 1 ensures StoreStep(v[i], v[i + 1]) {
      if i >= |t| - 1 { assert v[i] == u[i - (|t| - 1)] && v[i + 1] == u[i + 1 - (|t| - 1)]; }
    }
  }

  datatype Event = Write(w: Store) | Start(id: nat, key: Key, l: nat) | Load(id: nat)

  /** Readers by number: the key each looks for, and where it is. */
  datatype System = System(s: State, readers: map<nat, (Key, Reader)>)

  ghost predicate Next(a: System, e: Event, b: System) {
    match e
    case Write(w) => Sized(a.s) && CanStore(a.s, w) && b == a.(s := Stored(a.s, w))
    case Start(id, key, l) => id !in a.readers && l < MAX_HEIGHT && b == a.(readers := a.readers[id := (key, Searching(l, HEAD))])
    case Load(id) =>
      && id in a.readers && id in b.readers && b.readers[id].0 == a.readers[id].0
      && ReaderStep(a.s, a.readers[id].0, a.readers[id].1, b.readers[id].1)
      && b == a.(readers := a.readers[id := b.readers[id]])
  }

  ghost predicate IsRun(run: seq<System>, events: seq<Event>) {
    && |run| == |events| + 1 && Good(run[0].s) && run[0].readers == map[]
    && forall i :: 0 <= i < |events| ==> Next(run[i], events[i], run[i + 1])
  }

  ghost predicate AllRight(a: System) {
    Good(a.s) && forall id :: id in a.readers ==> ReaderOk(a.s, a.readers[id].0, a.readers[id].1)
  }

  lemma GoodIsSized(s: State)
    requires Good(s)
    ensures Sized(s)
  {
  }

  lemma NextKeepsAllRight(a: System, e: Event, b: System)
    requires AllRight(a) && Next(a, e, b)
    ensures AllRight(b)
    ensures Sized(a.s) && Sized(b.s)
    ensures Contents(a.s) <= Contents(b.s)
    ensures e.Load? && b.readers[e.id].1.Done? ==>
              var r := b.readers[e.id];
              RowOk(a.s, 0) && IsFirstAtLeast(a.s, r.0, r.1.r) && IsLastBefore(a.s, r.0, r.1.x)
  {
    hide Good, ReaderOk, Stored, CanStore, ReaderStep, Contents, RowOk, IsFirstAtLeast, IsLastBefore;
    GoodIsSized(a.s);
    match e
    case Write(w) =>
      StoreKeepsReaders(a.s, w, 0.0, Done(HEAD, Null)) by { NoReader(a.s, 0.0); }
      GoodIsSized(b.s);
      forall id | id in b.readers ensures ReaderOk(b.s, b.readers[id].0, b.readers[id].1) {
        StoreKeepsReaders(a.s, w, a.readers[id].0, a.readers[id].1);
      }
    case Start(id, key, l) =>
      ReaderStarts(a.s, key, l);
    case Load(id) =>
      ReaderGoesOn(a.s, a.readers[id].0, a.readers[id].1, b.readers[id].1);
  }

  lemma NoReader(s: State, key: Key)
    requires Sized(s)
    ensures ReaderOk(s, key, Done(HEAD, Null))
  {
  }

  /** However stores and loads are interleaved, the list stays good and every reader under way right. */
  lemma {:induction false} RunKeepsAllRight(run: seq<System>, events: seq<Event>, i: nat)
    requires IsRun(run, events) && i < |run|
    ensures AllRight(run[i])
  {
    hide Good, Next, ReaderOk;
    if i > 0 {
      RunKeepsAllRight(run, events, i - 1);
      NextKeepsAllRight(run[i - 1], events[i - 1], run[i]);
    }
  }

  /** In every run, a search ends with the first key at or after its own and the last one before, among the keys shown at its last load. */
  lemma ReadersAreRight(run: seq<System>, events: seq<Event>, i: nat)
    requires IsRun(run, events) && i < |events| && events[i].Load? && events[i].id in run[i + 1].readers
    requires run[i + 1].readers[events[i].id].1.Done?
    ensures var s, r := run[i].s, run[i + 1].readers[events[i].id];
            Sized(s) && RowOk(s, 0) && IsFirstAtLeast(s, r.0, r.1.r) && IsLastBefore(s, r.0, r.1.x)
  {
    hide Good, Next, ReaderOk, AllRight, IsFirstAtLeast, IsLastBefore, RowOk;
    RunKeepsAllRight(run, events, i);
    assert Next(run[i], events[i], run[i + 1]);
    NextKeepsAllRight(run[i], events[i], run[i + 1]);
  }

  /** A key once shown stays shown: no search that ends later misses it. */
  lemma {:induction false} ShownStaysShown(run: seq<System>, events: seq<Event>, i: nat, j: nat)
    requires IsRun(run, events) && i <= j < |run|
    ensures Sized(run[i].s) && Sized(run[j].s) && Contents(run[i].s) <= Contents(run[j].s)
    decreases j
  {
    hide Good, Next, ReaderOk, AllRight, Contents;
    RunKeepsAllRight(run, events, j);
    AllRightIsSized(run[j]);
    if i < j {
      ShownStaysShown(run, events, i, j - 1);
      RunKeepsAllRight(run, events, j - 1);
      NextKeepsAllRight(run[j - 1], events[j - 1], run[j]);
    }
  }

  lemma AllRightIsSized(a: System)
    requires AllRight(a)
    ensures Sized(a.s)
  {
  }

  // ---- The list ----

  /** What Insert knows of a level it has still to link: where the new node goes, and that no node there has its key. */
  ghost predicate Open(s: State, l: nat, prev: nat, x: nat, key: Key)
    requires Sized(s) && l < MAX_HEIGHT
  {
    && Unlisted(s, l, x) && s.keys[x] == key && HasPredecessor(s, l, prev, key) && FreeOf(s, l, key)
  }

  ghost predicate FreeOf(s: State, l: nat, key: Key)
    requires Sized(s) && l < MAX_HEIGHT
  {
    forall i :: 1 <= i < |s.rows[l]| && s.rows[l][i] < |s.keys| ==> s.keys[s.rows[l][i]] != key
  }

  lemma OpenIsReady(s: State, l: nat, prev: nat, x: nat, key: Key) returns (i: nat)
    requires Good(s) && l < s.maxHeight && Open(s, l, prev, x, key) && (l > 0 ==> x in s.rows[l - 1])
    ensures prev < |s.next| && l < |s.next[prev]| && i < |s.rows[l]| && Ready(Prepared(s, l, prev, x), l, prev, x, i)
  {
    GoodLevel(s, l);
    i :| Predecessor(s, l, prev, key, i);
    assert LinkIs(s, l, s.rows[l], i);
    var t := Prepared(s, l, prev, x);
    assert Predecessor(t, l, prev, key, i);
    assert prev in s.rows[l];
  }

  lemma {:induction false} FreeOnEveryLevel(s: State, l: nat, key: Key)
    requires Good(s) && l < MAX_HEIGHT && key !in Contents(s)
    ensures FreeOf(s, l, key) && forall n :: n in s.rows[l] ==> n in s.rows[0]
  {
    GoodLevel(s, l);
    GoodLevel(s, 0);
    if l > 0 { FreeOnEveryLevel(s, l - 1, key); }
    forall i | 1 <= i < |s.rows[l]| && s.rows[l][i] < |s.keys| ensures s.keys[s.rows[l][i]] != key {
      assert s.rows[l][i] in s.rows[l] && s.rows[l][i] in s.rows[0];
      var k :| 0 <= k < |s.rows[0]| && s.rows[0][k] == s.rows[l][i];
    }
  }

  lemma OpenStays(s: State, t: State, l: nat, prev: nat, x: nat, key: Key)
    requires Sized(s) && Sized(t) && l < MAX_HEIGHT && Open(s, l, prev, x, key)
    requires t.rows[l] == s.rows[l] && s.keys <= t.keys && x < |t.next| && |t.next[x]| > l
    requires forall i :: 0 <= i < |s.rows[l]| ==> s.rows[l][i] < |s.keys|
    ensures Open(t, l, prev, x, key)
  {
    var i: nat :| Predecessor(s, l, prev, key, i);
    assert Predecessor(t, l, prev, key, i);
  }

  lemma OpenAfterPrepare(s: State, l: nat, prev: nat, x: nat, m: nat, pm: nat, key: Key)
    requires Good(s) && l < MAX_HEIGHT && m < MAX_HEIGHT && prev < |s.next| && l < |s.next[prev]| && Unlisted(s, l, x)
    requires Open(s, m, pm, x, key)
    ensures Sized(Prepared(s, l, prev, x)) && Open(Prepared(s, l, prev, x), m, pm, x, key)
  {
    GoodLevel(s, m);
    OpenStays(s, Prepared(s, l, prev, x), m, pm, x, key);
  }

  lemma OpenAfterLink(s: State, l: nat, prev: nat, x: nat, i: nat, m: nat, pm: nat, key: Key)
    requires Good(s) && l < MAX_HEIGHT && m < MAX_HEIGHT && m != l && prev < |s.next| && l < |s.next[prev]| && i < |s.rows[l]|
    requires Open(s, m, pm, x, key)
    ensures Sized(Linked(s, l, prev, x, i)) && Open(Linked(s, l, prev, x, i), m, pm, x, key)
  {
    GoodLevel(s, m);
    OpenStays(s, Linked(s, l, prev, x, i), m, pm, x, key);
  }

  /** A freshly allocated node is open on every level below its height. */
  lemma OpenAtFirst(s: State, key: Key, height: nat, l: nat, prev: nat)
    requires Good(s) && key !in Contents(s) && l < height <= MAX_HEIGHT && HasPredecessor(s, l, prev, key)
    ensures Sized(Allocated(s, key, height)) && Open(Allocated(s, key, height), l, prev, |s.keys|, key)
  {
    var t := Allocated(s, key, height);
    GoodLevel(s, l);
    FreeOnEveryLevel(s, l, key);
    var i: nat :| Predecessor(s, l, prev, key, i);
    assert Predecessor(t, l, prev, key, i);
  }

  ghost predicate Gains(a: seq<nat>, b: seq<nat>, x: nat) {
    forall n :: n in b <==> n in a || n == x
  }

  /** Node x has come into every level below `height`, and into no other; nothing else has come or gone. */
  ghost predicate OnLevels(a: seq<seq<nat>>, b: seq<seq<nat>>, x: nat, height: nat) {
    && |a| == |b| == MAX_HEIGHT
    && (forall l :: 0 <= l < MAX_HEIGHT && l < height ==> Gains(a[l], b[l], x))
    && forall l :: height <= l < MAX_HEIGHT ==> b[l] == a[l]
  }

  lemma LevelGained(a: seq<seq<nat>>, b: seq<seq<nat>>, c: seq<seq<nat>>, x: nat, i: nat)
    requires OnLevels(a, b, x, i) && i < MAX_HEIGHT && |c| == MAX_HEIGHT
    requires Gains(b[i], c[i], x) && forall l :: 0 <= l < MAX_HEIGHT && l != i ==> c[l] == b[l]
    ensures OnLevels(a, c, x, i + 1)
  {
  }

  lemma NoLevelsYet(a: seq<seq<nat>>, x: nat)
    requires |a| == MAX_HEIGHT
    ensures OnLevels(a, a, x, 0)
  {
  }

  lemma RowGains(row: seq<nat>, k: nat, x: nat)
    requires k < |row|
    ensures Gains(row, RowWith(row, k, x), x)
  {
    var b := RowWith(row, k, x);
    forall n | n in row ensures n in b {
      var i :| 0 <= i < |row| && row[i] == n;
      assert b[if i <= k then i else i + 1] == n;
    }
    assert b[k + 1] == x;
  }

  class SkipList {
    var keys: seq<Key>
    var next: seq<seq<Link>>
    var maxHeight: nat
    ghost var rows: seq<seq<nat>>

    ghost function S(): State
      reads this
    {
      State(keys, next, maxHeight, rows)
    }

    ghost predicate Valid()
      reads this
    {
      Good(S())
    }

    constructor ()
      ensures Valid() && Contents(S()) == {}
    {
      keys, maxHeight := [0.0], 1;
      next := [seq(MAX_HEIGHT, _ => Null)];
      rows := seq(MAX_HEIGHT, _ => [HEAD]);
      new;
      forall l | 0 <= l < MAX_HEIGHT ensures RowOk(S(), l) && Nested(S(), l) {}
    }

    method FindGreaterOrEqual(key: Key, prev: array?<nat>) returns (r: Link)
      requires Valid() && (prev != null ==> prev.Length == MAX_HEIGHT)
      modifies if prev == null then {} else {prev}
      ensures Valid() && IsFirstAtLeast(S(), key, r)
      ensures prev != null ==> forall l :: 0 <= l < maxHeight ==> HasPredecessor(S(), l, prev[l], key)
    {
      hide RowOk, Standing, Nested;
      var x, level := HEAD, maxHeight - 1;
      ghost var i: nat := 0;
      ReaderStarts(S(), key, level);
      StandingAtHead(S(), key, level);
      while true
        invariant Valid() && 0 <= level < maxHeight && Standing(S(), level, x, key, i) && i < |rows[level]|
        invariant prev != null ==> forall l :: level < l < maxHeight ==> HasPredecessor(S(), l, prev[l], key)
        decreases level, |rows[level]| - i
      {
        GoodLevel(S(), level);
        StepRight(S(), level, x, key, i);
        var nx := next[x][level];
        if After(keys, key, nx) {
          x, i := nx.n, i + 1;
          StandingInRow(S(), level, x, key, i);
        } else {
          if prev != null {
            prev[level] := x;
          }
          if level == 0 {
            PredecessorDecides(S(), x, key, i);
            return nx;
          } else {
            i := StepDown(S(), level, x, key, i);
            level := level - 1;
            StandingInRow(S(), level, x, key, i);
          }
        }
      }
    }

    method FindLessThan(key: Key) returns (x: nat)
      requires Valid()
      ensures IsLastBefore(S(), key, x)
    {
      hide RowOk, Standing, Nested;
      var level := maxHeight - 1;
      x := HEAD;
      ghost var i: nat := 0;
      StandingAtHead(S(), key, level);
      while true
        invariant 0 <= level < maxHeight && Standing(S(), level, x, key, i) && i < |rows[level]|
        decreases level, |rows[level]| - i
      {
        GoodLevel(S(), level);
        StepRight(S(), level, x, key, i);
        var nx := next[x][level];
        if !After(keys, key, nx) {
          if level == 0 {
            PredecessorDecides(S(), x, key, i);
            return x;
          } else {
            i := StepDown(S(), level, x, key, i);
            level := level - 1;
            StandingInRow(S(), level, x, key, i);
          }
        } else {
          x, i := nx.n, i + 1;
          StandingInRow(S(), level, x, key, i);
        }
      }
    }

    method FindLast() returns (x: nat)
      requires Valid()
      ensures x == HEAD <==> Contents(S()) == {}
      ensures x != HEAD ==> x < |keys| && keys[x] in Contents(S()) && forall k :: k in Contents(S()) ==> k <= keys[x]
    {
      hide RowOk, Nested, Contents;
      var level := maxHeight - 1;
      x := HEAD;
      ghost var i: nat := 0;
      StandingAtHead(S(), 0.0, level);
      while true
        invariant 0 <= level < maxHeight && i < |rows[level]| && rows[level][i] == x
        decreases level, |rows[level]| - i
      {
        GoodLevel(S(), level);
        LinkOfRow(S(), level, i);
        var nx := next[x][level];
        if nx.Null? {
          if level == 0 {
            LastOfRow(S(), i);
            return x;
          } else {
            i := PlaceBelow(S(), level, x, i);
            level := level - 1;
          }
        } else {
          x, i := nx.n, i + 1;
        }
      }
    }

    method Contains(key: Key) returns (found: bool)
      requires Valid()
      ensures found <==> key in Contents(S())
    {
      var x := FindGreaterOrEqual(key, null);
      found := x.Node? && keys[x.n] == key;
    }

    /** Insert, for the height that RandomHeight gave. Every change is a store of the writer, and one of them shows the key. */
    method Insert(key: Key, height: nat) returns (ghost trace: seq<State>)
      requires Valid() && key !in Contents(S()) && 1 <= height <= MAX_HEIGHT
      modifies this
      ensures Valid() && Contents(S()) == old(Contents(S())) + {key}
      ensures Trace(old(S()), trace, S()) && ShowsOnce(trace, old(Contents(S())), key)
      ensures keys == old(keys) + [key] && OnLevels(old(rows), rows, |old(keys)|, height)
    {
      hide Trace, ShowsOnce, Contents, OnLevels;
      var prev := new nat[MAX_HEIGHT];
      var x := FindGreaterOrEqual(key, prev);
      ghost var was, first := S(), [S()];
      TraceStarts(was);
      GoodIsSized(was);
      if height > maxHeight {
        for i := maxHeight to height
          invariant Valid() && S() == old(S())
          invariant forall l :: 0 <= l < i ==> HasPredecessor(S(), l, prev[l], key)
        {
          EmptyLevel(S(), i, key);
          prev[i] := HEAD;
        }
        RaisingKeepsGood(S(), height);
        RaiseIsStore(S(), height);
        PredecessorsStay(S(), Raised(S(), height), prev[..height], key);
        maxHeight := height;
        TraceGoesOn(was, first, was, S());
        first := first + [S()];
        SameContents(was, S());
      }
      assert Unshown(first, Contents(was)) by { NothingShown(was, first); }
      ghost var s := S();
      trace := Publishing(key, height, prev[..height]);
      TracesJoin(was, first, s, trace, S());
      TraceEnds(s, trace, S());
      TraceEnds(was, first, s);
      ShownLater(first, trace, Contents(was), key);
      trace := first + trace[1..];
    }

    /** The node and its links, level by level from the bottom; the list is good after every store. */
    method Publishing(key: Key, height: nat, prev: seq<nat>) returns (ghost trace: seq<State>)
      requires Valid() && key !in Contents(S()) && 1 <= height <= maxHeight && |prev| == height
      requires forall l :: 0 <= l < height ==> HasPredecessor(S(), l, prev[l], key)
      modifies this
      ensures Valid() && Contents(S()) == old(Contents(S())) + {key}
      ensures Trace(old(S()), trace, S()) && ShowsOnce(trace, old(Contents(S())), key)
      ensures keys == old(keys) + [key] && OnLevels(old(rows), rows, |old(keys)|, height)
    {
      hide Good, Open, Contents, Trace, ShowsOnce, ShownFrom, OnLevels, Gains;
      ghost var was := S();
      GoodLevel(was, 0);
      AllocationKeepsGood(was, key, height);
      forall l | 0 <= l < height ensures Open(Allocated(was, key, height), l, prev[l], |was.keys|, key) {
        OpenAtFirst(was, key, height, l, prev[l]);
      }
      AllocateIsStore(was, key, height);
      TraceStarts(was);
      var x := |keys|;
      keys, next := keys + [key], next + [seq(height, _ => Null)];
      TraceGoesOn(was, [was], was, S());
      trace := [was, S()];
      assert [was] + [S()] == trace;
      NotShownYet(trace, Contents(was), key);
      NoLevelsYet(rows, x);
      for i := 0 to height
        invariant Valid() && Sized(S()) && x < |keys| && keys[x] == key && height <= maxHeight && (i > 0 ==> x in rows[i - 1])
        invariant Contents(S()) == if i == 0 then Contents(was) else Contents(was) + {key}
        invariant forall l :: i <= l < height ==> Open(S(), l, prev[l], x, key)
        invariant Trace(was, trace, S())
        invariant if i == 0 then ShownFrom(trace, |trace|, Contents(was), key) else ShowsOnce(trace, Contents(was), key)
        invariant OnLevels(old(rows), rows, x, i) && keys == old(keys) + [key]
      {
        ghost var before := S();
        ghost var stores := LinkLevel(i, prev[i], x, key, height, prev);
        TracesJoin(was, trace, before, stores, S());
        TraceEnds(was, trace, before);
        TraceEnds(before, stores, S());
        LevelShows(trace, stores, Contents(was), key, i);
        LevelGained(was.rows, before.rows, rows, x, i);
        trace := trace + stores[1..];
      }
    }

    /** The two stores of one level: the new node's link, which nobody sees yet, and then the link to the new node. */
    method LinkLevel(i: nat, p: nat, x: nat, key: Key, height: nat, ghost prev: seq<nat>) returns (ghost trace: seq<State>)
      requires Valid() && Sized(S()) && i < height <= maxHeight && |prev| == height && p == prev[i] && (i > 0 ==> x in rows[i - 1])
      requires x < |keys| && keys[x] == key && forall l :: i <= l < height ==> Open(S(), l, prev[l], x, key)
      modifies this
      ensures Valid() && Sized(S()) && keys == old(keys) && maxHeight == old(maxHeight) && x in rows[i]
      ensures Contents(S()) == if i == 0 then old(Contents(S())) + {key} else old(Contents(S()))
      ensures forall l :: i < l < height ==> Open(S(), l, prev[l], x, key)
      ensures Trace(old(S()), trace, S()) && |trace| == 3
      ensures Sized(trace[1]) && Contents(trace[1]) == old(Contents(S()))
      ensures Gains(old(rows[i]), rows[i], x) && forall l :: 0 <= l < MAX_HEIGHT && l != i ==> rows[l] == old(rows[l])
    {
      hide Good, Open, Contents, Ready, Trace;
      ghost var s := S();
      ghost var k := OpenIsReady(s, i, p, x, key);
      OpenParts(s, i, p, x, key);
      PreparingKeepsGood(s, i, p, x);
      PrepareIsStore(s, i, p, x);
      ghost var t := Prepared(s, i, p, x);
      GoodLevel(t, i);
      LinkingKeepsGood(t, i, p, x, k);
      PublishIsStore(t, i, p, x, k);
      forall l | i < l < height ensures Open(Linked(t, i, p, x, k), l, prev[l], x, key) {
        OpenAfterPrepare(s, i, p, x, l, prev[l], key);
        OpenAfterLink(t, i, p, x, k, l, prev[l], key);
      }
      TraceStarts(s);
      next := next[x := next[x][i := next[p][i]]];
      assert S() == t;
      TraceGoesOn(s, [s], s, S());
      trace := [s, S()];
      assert [s] + [S()] == trace;
      SameContents(s, t);
      next := next[p := next[p][i := Node(x)]];
      rows := rows[i := RowWith(rows[i], k, x)];
      assert S() == Linked(t, i, p, x, k);
      TraceGoesOn(s, trace, t, S());
      trace := trace + [S()];
      assert rows[i][k + 1] == x;
      RowGains(s.rows[i], k, x);
      GoodLevel(S(), i);
    }
  }

  lemma TraceEnds(a: State, trace: seq<State>, b: State)
    requires Trace(a, trace, b)
    ensures trace != [] && trace[0] == a && trace[|trace| - 1] == b
  {
  }

  lemma TraceStarts(s: State)
    ensures Trace(s, [s], s)
  {
  }

  lemma RaiseIsStore(s: State, height: nat)
    requires Sized(s) && s.maxHeight <= height <= MAX_HEIGHT
    ensures StoreStep(s, Raised(s, height))
  {
    assert CanStore(s, Raise(height)) && Raised(s, height) == Stored(s, Raise(height));
  }

  lemma AllocateIsStore(s: State, key: Key, height: nat)
    requires Sized(s)
    ensures StoreStep(s, Allocated(s, key, height))
  {
    assert CanStore(s, Allocate(key, height)) && Allocated(s, key, height) == Stored(s, Allocate(key, height));
  }

  lemma PrepareIsStore(s: State, l: nat, prev: nat, x: nat)
    requires Sized(s) && l < MAX_HEIGHT && prev < |s.next| && l < |s.next[prev]| && Unlisted(s, l, x)
    ensures StoreStep(s, Prepared(s, l, prev, x))
  {
    assert CanStore(s, Prepare(l, prev, x)) && Prepared(s, l, prev, x) == Stored(s, Prepare(l, prev, x));
  }

  lemma PublishIsStore(s: State, l: nat, prev: nat, x: nat, i: nat)
    requires Sized(s) && l < MAX_HEIGHT && prev < |s.next| && l < |s.next[prev]| && Ready(s, l, prev, x, i)
    ensures StoreStep(s, Linked(s, l, prev, x, i))
  {
    assert CanStore(s, Publish(l, prev, x, i)) && Linked(s, l, prev, x, i) == Stored(s, Publish(l, prev, x, i));
  }

  lemma SameContents(s: State, t: State)
    requires Sized(s) && Sized(t) && t.rows == s.rows && t.keys == s.keys
    ensures Contents(t) == Contents(s)
  {
  }

  ghost predicate Unshown(trace: seq<State>, before: set<Key>) {
    forall i :: 0 <= i < |trace| ==> Sized(trace[i]) && Contents(trace[i]) == before
  }

  /** Up to the new height no row and no key has changed. */
  lemma NothingShown(s: State, trace: seq<State>)
    requires Sized(s) && (trace == [s] || (|trace| == 2 && trace[0] == s && Sized(trace[1]) && Contents(trace[1]) == Contents(s)))
    ensures Unshown(trace, Contents(s))
  {
    hide Contents;
  }

  lemma ShownLater(first: seq<State>, trace: seq<State>, before: set<Key>, key: Key)
    requires first != [] && Unshown(first, before) && ShowsOnce(trace, before, key)
    ensures ShowsOnce(first + trace[1..], before, key)
  {
    hide Contents, Sized;
    var m: nat :| 0 < m < |trace| && ShownFrom(trace, m, before, key);
    var all := first + trace[1..];
    forall i | 0 <= i < |all|
      ensures Sized(all[i]) && Contents(all[i]) == if i < m + |first| - 1 then before else before + {key}
    {
      if i >= |first| { assert all[i] == trace[i - |first| + 1]; }
    }
    assert ShownFrom(all, m + |first| - 1, before, key);
  }

  lemma NotShownYet(trace: seq<State>, before: set<Key>, key: Key)
    requires forall i :: 0 <= i < |trace| ==> Sized(trace[i]) && Contents(trace[i]) == before
    ensures ShownFrom(trace, |trace|, before, key)
  {
  }

  /** Only the second store of level 0 shows the key. */
  lemma LevelShows(trace: seq<State>, stores: seq<State>, before: set<Key>, key: Key, i: nat)
    requires trace != [] && |stores| == 3 && stores[0] == trace[|trace| - 1]
    requires Sized(stores[0]) && Sized(stores[1]) && Sized(stores[2]) && Contents(stores[1]) == Contents(stores[0])
    requires Contents(stores[2]) == before + {key} && (i > 0 ==> Contents(stores[0]) == before + {key})
    requires if i == 0 then ShownFrom(trace, |trace|, before, key) else ShowsOnce(trace, before, key)
    ensures ShowsOnce(trace + stores[1..], before, key)
  {
    hide Contents;
    var all := trace + stores[1..];
    assert all[|trace|] == stores[1] && all[|trace| + 1] == stores[2];
    if i == 0 {
      assert ShownFrom(all, |trace| + 1, before, key);
    } else {
      var m: nat :| 0 < m < |trace| && ShownFrom(trace, m, before, key);
      assert ShownFrom(all, m, before, key);
    }
  }

  lemma OpenParts(s: State, l: nat, prev: nat, x: nat, key: Key)
    requires Sized(s) && l < MAX_HEIGHT && Open(s, l, prev, x, key)
    ensures Unlisted(s, l, x)
  {
  }

  lemma StandingAtHead(s: State, key: Key, l: nat)
    requires Good(s) && l < MAX_HEIGHT
    ensures Sized(s) && Standing(s, l, HEAD, key, 0) && |s.rows[l]| > 0
  {
    GoodLevel(s, l);
  }

  lemma LinkOfRow(s: State, l: nat, i: nat)
    requires Sized(s) && l < MAX_HEIGHT && RowOk(s, l) && i < |s.rows[l]|
    ensures s.rows[l][i] < |s.next| && l < |s.next[s.rows[l][i]]| && s.next[s.rows[l][i]][l] == LinkAfter(s.rows[l], i)
  {
    assert LinkIs(s, l, s.rows[l], i);
  }

  lemma PlaceBelow(s: State, l: nat, x: nat, i: nat) returns (j: nat)
    requires Sized(s) && 0 < l < MAX_HEIGHT && Nested(s, l) && i < |s.rows[l]| && s.rows[l][i] == x
    ensures j < |s.rows[l - 1]| && s.rows[l - 1][j] == x
  {
    assert x in s.rows[l];
    j :| 0 <= j < |s.rows[l - 1]| && s.rows[l - 1][j] == x;
  }

  lemma LastOfRow(s: State, i: nat)
    requires Sized(s) && RowOk(s, 0) && i + 1 == |s.rows[0]|
    ensures s.rows[0][i] == HEAD <==> Contents(s) == {}
    ensures s.rows[0][i] != HEAD ==> s.rows[0][i] < |s.keys| && s.keys[s.rows[0][i]] in Contents(s)
    ensures s.rows[0][i] != HEAD ==> forall k :: k in Contents(s) ==> k <= s.keys[s.rows[0][i]]
  {
    var row := s.rows[0];
    if i > 0 { assert s.keys[row[i]] in Contents(s); }
    forall k | k in Contents(s) ensures i > 0 && k <= s.keys[row[i]] {
      var j :| 1 <= j < |row| && s.keys[row[j]] == k;
      assert j == i || s.keys[row[j]] < s.keys[row[i]];
    }
  }

  lemma StandingInRow(s: State, l: nat, x: nat, key: Key, i: nat)
    requires Sized(s) && l < MAX_HEIGHT && Standing(s, l, x, key, i)
    ensures i < |s.rows[l]|
  {
  }

  lemma EmptyLevel(s: State, l: nat, key: Key)
    requires Good(s) && s.maxHeight <= l < MAX_HEIGHT
    ensures Sized(s) && Predecessor(s, l, HEAD, key, 0)
  {
  }

  lemma PredecessorsStay(s: State, t: State, prev: seq<nat>, key: Key)
    requires Sized(s) && Sized(t) && t.rows == s.rows && t.keys == s.keys && |prev| <= MAX_HEIGHT
    requires forall l :: 0 <= l < |prev| ==> HasPredecessor(s, l, prev[l], key)
    ensures forall l :: 0 <= l < |prev| ==> HasPredecessor(t, l, prev[l], key)
  {
    forall l | 0 <= l < |prev| ensures HasPredecessor(t, l, prev[l], key) {
      var k: nat :| Predecessor(s, l, prev[l], key, k);
      assert Predecessor(t, l, prev[l], key, k);
    }
  }
}
