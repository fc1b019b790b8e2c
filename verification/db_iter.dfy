/** The user-level iterator: a cursor over the live map at one sequence number (db_iter.cc). */
module DbIter {
  import opened Bytestrings
  import opened Format

  predicate Seen(es: seq<Entry>, s: nat, k: nat)
    requires k < |es|
  {
    es[k].k.sn <= s
  }

  /** Entry k is the newest visible one of its user key, and it is a value. */
  ghost predicate IsLive(es: seq<Entry>, s: nat, k: nat)
    requires k < |es|
  {
    && Seen(es, s, k) && es[k].k.kind.Value?
    && forall j :: 0 <= j < k && Seen(es, s, j) ==> es[j].k.user != es[k].k.user
  }

  /** The live entries below n, in order: what the iterator is an index into. */
  ghost function Live(es: seq<Entry>, s: nat, n: nat): seq<nat>
    requires n <= |es|
  {
    if n == 0 then [] else Live(es, s, n - 1) + if IsLive(es, s, n - 1) then [n - 1] else []
  }

  lemma {:induction false} LiveRank(es: seq<Entry>, s: nat, n: nat, k: nat)
    requires k < n <= |es| && IsLive(es, s, k)
    ensures |Live(es, s, k)| < |Live(es, s, n)| && Live(es, s, n)[|Live(es, s, k)|] == k
    ensures Live(es, s, k + 1) == Live(es, s, k) + [k]
  {
    if k < n - 1 { LiveRank(es, s, n - 1, k); }
  }

  lemma {:induction false} LiveMember(es: seq<Entry>, s: nat, n: nat, i: nat)
    requires n <= |es| && i < |Live(es, s, n)|
    ensures Live(es, s, n)[i] < n && IsLive(es, s, Live(es, s, n)[i]) && |Live(es, s, Live(es, s, n)[i])| == i
  {
    if i < |Live(es, s, n - 1)| { LiveMember(es, s, n - 1, i); }
  }

  ghost predicate NoneLive(es: seq<Entry>, s: nat, lo: nat, hi: nat) {
    forall k :: lo <= k < hi && k < |es| ==> !IsLive(es, s, k)
  }

  lemma {:induction false} LiveSkips(es: seq<Entry>, s: nat, lo: nat, hi: nat)
    requires lo <= hi <= |es| && NoneLive(es, s, lo, hi)
    ensures Live(es, s, lo) == Live(es, s, hi)
  {
    if lo < hi { LiveSkips(es, s, lo, hi - 1); }
  }

  /** The index range is the map a reader at s sees: keys rise strictly, and each is paired with the value it reads. */
  lemma LiveIsWhatReadersSee(es: seq<Entry>, s: nat, user: UserKey, v: Bytes)
    requires Sorted(es)
    ensures Reads(Entries(es), user, s, Some(v)) <==>
            exists i :: 0 <= i < |Live(es, s, |es|)| && LiveEntry(es, s, i).k.user == user && LiveEntry(es, s, i).val == v
  {
    var n := |es|;
    if r :| Newest(Entries(es), user, s, r) && Payload(r) == Some(v) {
      var k :| 0 <= k < n && es[k] == r.value;
      forall j | 0 <= j < k && Seen(es, s, j) ensures es[j].k.user != user {
        assert Less(es[j].k, es[k].k) && es[j] in Entries(es);
        assert Visible(es[k], user, s);
      }
      LiveRank(es, s, n, k);
      assert LiveEntry(es, s, |Live(es, s, k)|) == es[k];
    }
    if i :| 0 <= i < |Live(es, s, n)| && LiveEntry(es, s, i).k.user == user && LiveEntry(es, s, i).val == v {
      LiveIsNewest(es, s, i);
    }
  }

  lemma LiveIsNewest(es: seq<Entry>, s: nat, i: nat)
    requires Sorted(es) && i < |Live(es, s, |es|)|
    ensures Newest(Entries(es), LiveEntry(es, s, i).k.user, s, Some(LiveEntry(es, s, i)))
    ensures LiveEntry(es, s, i).k.kind.Value?
  {
    LiveMember(es, s, |es|, i);
    var k := Live(es, s, |es|)[i];
    forall e | e in Entries(es) && Visible(e, es[k].k.user, s) ensures e.k.sn <= es[k].k.sn {
      var j :| 0 <= j < |es| && es[j] == e;
      assert Seen(es, s, j);
      if j > k { assert Less(es[k].k, es[j].k); }
    }
  }

  ghost function LiveEntry(es: seq<Entry>, s: nat, i: nat): Entry
    requires i < |Live(es, s, |es|)|
  {
    LiveMember(es, s, |es|, i);
    es[Live(es, s, |es|)[i]]
  }

  lemma LiveKeysRise(es: seq<Entry>, s: nat, i: nat, j: nat)
    requires Sorted(es) && i < j < |Live(es, s, |es|)|
    ensures LiveEntry(es, s, i).k.user < LiveEntry(es, s, j).k.user
  {
    LiveMember(es, s, |es|, i);
    LiveMember(es, s, |es|, j);
    var a, b := Live(es, s, |es|)[i], Live(es, s, |es|)[j];
    if a < b { assert Less(es[a].k, es[b].k); } else if b < a { LiveRank(es, s, a, b); }
  }

  // ---- Scanning forward ----

  predicate Skipped(skip: Option<UserKey>, user: UserKey) {
    skip.Some? && user <= skip.value
  }

  /** From p on, entry k is the first one seen of an unskipped user key, and it is a value. */
  ghost predicate Acceptable(es: seq<Entry>, s: nat, p: nat, skip: Option<UserKey>, k: nat)
    requires k < |es|
  {
    && Seen(es, s, k) && es[k].k.kind.Value? && !Skipped(skip, es[k].k.user)
    && forall j :: p <= j < k && Seen(es, s, j) ==> es[j].k.user != es[k].k.user
  }

  /** A forward scan at p looking for the first live entry at or after b. */
  ghost predicate Ahead(es: seq<Entry>, s: nat, p: nat, skip: Option<UserKey>, b: nat) {
    && NoneLive(es, s, b, p)
    && (forall k :: p <= k < |es| && Seen(es, s, k) && skip.Some? ==> skip.value <= es[k].k.user)
    && forall k :: p <= k < |es| ==> (IsLive(es, s, k) && k >= b <==> Acceptable(es, s, p, skip, k))
  }

  lemma AheadUnseen(es: seq<Entry>, s: nat, p: nat, skip: Option<UserKey>, b: nat)
    requires Ahead(es, s, p, skip, b) && p < |es| && !Seen(es, s, p)
    ensures Ahead(es, s, p + 1, skip, b)
  {
    forall k | p + 1 <= k < |es| ensures Acceptable(es, s, p, skip, k) <==> Acceptable(es, s, p + 1, skip, k) {}
  }

  lemma AheadHides(es: seq<Entry>, s: nat, p: nat, skip: Option<UserKey>, b: nat)
    requires Sorted(es) && Ahead(es, s, p, skip, b) && p < |es| && Seen(es, s, p)
    requires es[p].k.kind.Deletion? || Skipped(skip, es[p].k.user)
    ensures Ahead(es, s, p + 1, Some(es[p].k.user), b)
  {
    assert !Acceptable(es, s, p, skip, p);
    forall k | p + 1 <= k < |es|
      ensures Acceptable(es, s, p, skip, k) <==> Acceptable(es, s, p + 1, Some(es[p].k.user), k)
      ensures es[p].k.user <= es[k].k.user
    {
      assert Less(es[p].k, es[k].k);
    }
  }

  lemma AheadFinds(es: seq<Entry>, s: nat, p: nat, skip: Option<UserKey>, b: nat)
    requires Ahead(es, s, p, skip, b) && p < |es| && Seen(es, s, p)
    requires es[p].k.kind.Value? && !Skipped(skip, es[p].k.user)
    ensures IsLive(es, s, p) && p >= b && NoneLive(es, s, b, p)
  {
    assert Acceptable(es, s, p, skip, p);
  }

  lemma AheadFromSeek(es: seq<Entry>, s: nat, p: nat, target: UserKey)
    requires Sorted(es) && p <= |es|
    requires forall i :: 0 <= i < p ==> Less(es[i].k, LookupKey(target, s))
    requires forall i :: p <= i < |es| ==> AtMost(LookupKey(target, s), es[i].k)
    ensures Ahead(es, s, p, None, p)
  {
    forall k | p <= k < |es| ensures IsLive(es, s, k) <==> Acceptable(es, s, p, None, k) {
      forall j | 0 <= j < p && Seen(es, s, j) ensures es[j].k.user < target <= es[k].k.user {
        SeekPosition(es[j].k, target, s);
        SeekPosition(es[k].k, target, s);
      }
    }
  }

  /** Everything from p to the live entry l that a reader can see is of l's user key. */
  ghost predicate Around(es: seq<Entry>, s: nat, p: nat, l: nat) {
    && p <= l < |es| && IsLive(es, s, l)
    && forall k :: p <= k <= l && Seen(es, s, k) ==> es[k].k.user == es[l].k.user
  }

  lemma AheadPast(es: seq<Entry>, s: nat, p: nat, l: nat)
    requires Sorted(es) && Around(es, s, p, l)
    ensures Ahead(es, s, p, Some(es[l].k.user), l + 1)
  {
    var user := es[l].k.user;
    forall k | p <= k < |es|
      ensures IsLive(es, s, k) && k >= l + 1 <==> Acceptable(es, s, p, Some(user), k)
      ensures Seen(es, s, k) ==> user <= es[k].k.user
    {
      PastLive(es, s, p, l, k);
    }
  }

  lemma PastLive(es: seq<Entry>, s: nat, p: nat, l: nat, k: nat)
    requires Sorted(es) && Around(es, s, p, l) && p <= k < |es|
    ensures IsLive(es, s, k) && k >= l + 1 <==> Acceptable(es, s, p, Some(es[l].k.user), k)
    ensures Seen(es, s, k) ==> es[l].k.user <= es[k].k.user
  {
    if k > l {
      assert Less(es[l].k, es[k].k);
      forall j | 0 <= j < p && Seen(es, s, j) ensures es[j].k.user <= es[l].k.user {
        assert Less(es[j].k, es[l].k);
      }
    }
  }

  // ---- Scanning backward ----

  /** A backward scan that has read everything after p, looking for the last live entry below b; c is what it holds. */
  ghost predicate Behind(es: seq<Entry>, s: nat, p: int, b: nat, c: Option<nat>) {
    && -1 <= p < |es| && b <= |es|
    && (forall k: nat :: p < k < b && c != Some(k) ==> !IsLive(es, s, k))
    && (c.Some? ==> p < c.value < b && Seen(es, s, c.value) && es[c.value].k.kind.Value?)
    && forall k: nat :: c.Some? && p < k < c.value ==> !Seen(es, s, k)
  }

  lemma BehindUnseen(es: seq<Entry>, s: nat, p: nat, b: nat, c: Option<nat>)
    requires p < |es| && Behind(es, s, p, b, c) && !Seen(es, s, p)
    ensures Behind(es, s, p - 1, b, c)
  {
  }

  lemma BehindReplaces(es: seq<Entry>, s: nat, p: nat, b: nat, c: Option<nat>)
    requires Sorted(es) && p < b && p < |es| && Behind(es, s, p, b, c) && Seen(es, s, p)
    requires c.Some? ==> es[p].k.user >= es[c.value].k.user
    ensures Behind(es, s, p - 1, b, if es[p].k.kind.Value? then Some(p) else None)
  {
    if c.Some? { assert Less(es[p].k, es[c.value].k); }
  }

  lemma BehindFinds(es: seq<Entry>, s: nat, p: int, b: nat, c: nat)
    requires Sorted(es) && Behind(es, s, p, b, Some(c)) && (p >= 0 ==> es[p].k.user < es[c].k.user)
    ensures IsLive(es, s, c) && NoneLive(es, s, c + 1, b) && Around(es, s, p + 1, c)
  {
    forall j | 0 <= j < c && Seen(es, s, j) ensures es[j].k.user != es[c].k.user {
      if j < p { assert Less(es[j].k, es[p].k); }
    }
  }

  lemma BehindAround(es: seq<Entry>, s: nat, p: nat, l: nat)
    requires Around(es, s, p, l)
    ensures Behind(es, s, p - 1, l, None)
  {
  }

  class Iter {
    const es: seq<Entry>
    const sequence: nat
    var pos: int
    var savedKey: Option<UserKey>
    var savedValue: Bytes
    var forward: bool
    var valid: bool
    ghost var at: nat

    /** When valid, it stands for the live entry number `at`; see the two directions in the source. */
    ghost predicate Valid()
      reads this
    {
      && Sorted(es) && -1 <= pos <= |es|
      && (valid ==> Stands(es, sequence, pos, forward, savedKey, savedValue, at))
    }

    constructor (es: seq<Entry>, sequence: nat)
      requires Sorted(es)
      ensures Valid() && !valid && this.es == es && this.sequence == sequence
    {
      this.es := es;
      this.sequence := sequence;
      pos, savedKey, savedValue, forward, valid, at := -1, None, [], true, false, 0;
    }

    method Key() returns (user: UserKey)
      requires Valid() && valid
      ensures at < |Live(es, sequence, |es|)| && user == LiveEntry(es, sequence, at).k.user
    {
      StandsAt(es, sequence, pos, forward, savedKey, savedValue, at);
      if forward { return es[pos].k.user; } else { return savedKey.value; }
    }

    method Value() returns (v: Bytes)
      requires Valid() && valid
      ensures at < |Live(es, sequence, |es|)| && v == LiveEntry(es, sequence, at).val
    {
      StandsAt(es, sequence, pos, forward, savedKey, savedValue, at);
      if forward { return es[pos].val; } else { return savedValue; }
    }

    /** Moves to the first live entry at or after b, if there is one. */
    method FindNextUserEntry(skipping: bool, skip: Option<UserKey>, ghost b: nat)
      requires Sorted(es) && 0 <= pos < |es| && forward && (skipping ==> skip.Some?) && b <= |es|
      requires Ahead(es, sequence, pos, if skipping then skip else None, b)
      modifies this
      ensures Valid() && forward && valid == (|Live(es, sequence, b)| < |Live(es, sequence, |es|)|)
      ensures valid ==> at == |Live(es, sequence, b)|
    {
      hide Ahead, IsLive, Sorted, Live, NoneLive;
      var skipping, skip := skipping, skip;
      while true
        invariant 0 <= pos < |es| && forward && (skipping ==> skip.Some?)
        invariant Ahead(es, sequence, pos, if skipping then skip else None, b)
        decreases |es| - pos
      {
        var k, hidden := es[pos].k, if skipping then skip else None;
        if k.sn <= sequence {
          if k.kind.Deletion? {
            AheadHides(es, sequence, pos, hidden, b);
            skipping, skip := true, Some(k.user);
          } else if skipping && k.user <= skip.value {
            AheadHides(es, sequence, pos, hidden, b);
            AheadSkipKept(es, sequence, pos, skip.value, b);
          } else {
            AheadFinds(es, sequence, pos, hidden, b);
            FoundAt(es, sequence, b, pos);
            valid, savedKey, at := true, None, |Live(es, sequence, b)|;
            return;
          }
        } else {
          AheadUnseen(es, sequence, pos, hidden, b);
        }
        pos := pos + 1;
        if pos >= |es| {
          break;
        }
      }
      AheadEnds(es, sequence, if skipping then skip else None, b);
      savedKey, valid := None, false;
    }

    /** Moves to the last live entry below b, if there is one. */
    method FindPrevUserEntry(ghost b: nat)
      requires Sorted(es) && !forward && pos < b && Behind(es, sequence, pos, b, None)
      modifies this
      ensures Valid() && valid == (0 < |Live(es, sequence, b)|)
      ensures valid ==> at == |Live(es, sequence, b)| - 1
    {
      hide Behind, IsLive, Sorted, Live, NoneLive, Around;
      var valueType := Deletion;
      ghost var c: Option<nat> := None;
      BehindBounds(es, sequence, pos, b, c);
      while pos >= 0
        invariant -1 <= pos < b <= |es| && !forward && Behind(es, sequence, pos, b, c) && c.Some? == valueType.Value?
        invariant c.Some? ==> c.value < b && savedKey == Some(es[c.value].k.user) && savedValue == es[c.value].val
        decreases pos
      {
        var k := es[pos].k;
        if k.sn <= sequence {
          if valueType != Deletion && k.user < savedKey.value {
            break;
          }
          BehindReplaces(es, sequence, pos, b, c);
          valueType := k.kind;
          if valueType == Deletion {
            savedKey, savedValue, c := None, [], None;
          } else {
            savedKey, savedValue, c := Some(k.user), es[pos].val, Some(pos);
          }
        } else {
          BehindUnseen(es, sequence, pos, b, c);
        }
        pos := pos - 1;
      }
      if valueType == Deletion {
        BehindEnds(es, sequence, b, c);
        valid, savedKey, savedValue, forward := false, None, [], true;
      } else {
        BehindFinds(es, sequence, pos, b, c.value);
        FoundBefore(es, sequence, b, c.value);
        BehindBounds(es, sequence, pos, b, c);
        valid, at := true, |Live(es, sequence, b)| - 1;
      }
    }

    method Seek(target: UserKey)
      requires Valid()
      modifies this
      ensures Valid() && (valid ==> CountsBelow(es, sequence, target, at))
      ensures !valid ==> CountsBelow(es, sequence, target, |Live(es, sequence, |es|)|)
    {
      hide Ahead, Live, NoneLive, CountsBelow, IsLive, Less;
      var key := LookupKey(target, sequence);
      forward, savedValue, savedKey := true, [], None;
      pos := SeekIndex(es, key);
      SeekCounts(es, sequence, target);
      if pos < |es| {
        SeekSplits(es, key);
        AheadFromSeek(es, sequence, pos, target);
        FindNextUserEntry(false, savedKey, pos);
      } else {
        valid := false;
      }
    }

    method SeekToFirst()
      requires Valid()
      modifies this
      ensures Valid() && valid == (0 < |Live(es, sequence, |es|)|) && (valid ==> at == 0)
    {
      forward, savedValue := true, [];
      pos := 0;
      if pos < |es| {
        AheadFromStart(es, sequence);
        FindNextUserEntry(false, savedKey, 0);
      } else {
        valid := false;
      }
    }

    method SeekToLast()
      requires Valid()
      modifies this
      ensures Valid() && valid == (0 < |Live(es, sequence, |es|)|)
      ensures valid ==> at == |Live(es, sequence, |es|)| - 1
    {
      forward, savedValue := false, [];
      pos := |es| - 1;
      BehindFromEnd(es, sequence);
      FindPrevUserEntry(|es|);
    }

    method Next()
      requires Valid() && valid
      modifies this
      ensures Valid() && valid == (old(at) + 1 < |Live(es, sequence, |es|)|) && (valid ==> at == old(at) + 1)
    {
      hide Ahead, Live, NoneLive, IsLive, Around;
      ghost var l := Live(es, sequence, |es|)[at];
      StandsAt(es, sequence, pos, forward, savedKey, savedValue, at);
      if !forward {
        forward := true;
        pos := if pos < 0 then 0 else pos + 1;
      } else {
        savedKey := Some(es[pos].k.user);
      }
      AheadPast(es, sequence, pos, l);
      FindNextUserEntry(true, savedKey, l + 1);
    }

    method Prev()
      requires Valid() && valid
      modifies this
      ensures Valid() && valid == (old(at) > 0) && (valid ==> at == old(at) - 1)
    {
      hide Behind, Live, NoneLive, IsLive, Around;
      ghost var l := Live(es, sequence, |es|)[at];
      StandsAt(es, sequence, pos, forward, savedKey, savedValue, at);
      if forward {
        savedKey := Some(es[pos].k.user);
        pos := pos - 1;
        while pos >= 0 && es[pos].k.user >= savedKey.value
          invariant -1 <= pos < l && savedKey == Some(es[l].k.user) && forward && valid
          invariant forall k :: pos < k < l ==> es[k].k.user == es[l].k.user
        {
          assert Less(es[pos].k, es[l].k);
          pos := pos - 1;
        }
        BehindTurns(es, sequence, pos, l);
        if pos < 0 {
          BehindEnds(es, sequence, l, None);
          valid, savedKey, savedValue := false, None, [];
          return;
        }
        forward := false;
      } else {
        BehindAround(es, sequence, pos + 1, l);
      }
      FindPrevUserEntry(l);
    }
  }

  lemma BehindBounds(es: seq<Entry>, s: nat, p: int, b: nat, c: Option<nat>)
    requires Behind(es, s, p, b, c)
    ensures -1 <= p < |es| && b <= |es| && (c.Some? ==> p < c.value < b)
  {
  }

  lemma AheadSkipKept(es: seq<Entry>, s: nat, p: nat, skip: UserKey, b: nat)
    requires Sorted(es) && p < |es| && Ahead(es, s, p, Some(skip), b) && Seen(es, s, p) && es[p].k.user <= skip
    ensures es[p].k.user == skip
  {
  }

  lemma AheadEnds(es: seq<Entry>, s: nat, skip: Option<UserKey>, b: nat)
    requires b <= |es| && Ahead(es, s, |es|, skip, b)
    ensures Live(es, s, b) == Live(es, s, |es|)
  {
    LiveSkips(es, s, b, |es|);
  }

  lemma FoundAt(es: seq<Entry>, s: nat, b: nat, p: nat)
    requires b <= p < |es| && IsLive(es, s, p) && NoneLive(es, s, b, p)
    ensures |Live(es, s, b)| < |Live(es, s, |es|)| && Live(es, s, |es|)[|Live(es, s, b)|] == p
  {
    LiveSkips(es, s, b, p);
    LiveRank(es, s, |es|, p);
  }

  ghost predicate Stands(es: seq<Entry>, s: nat, pos: int, forward: bool, savedKey: Option<UserKey>, savedValue: Bytes, at: nat) {
    && at < |Live(es, s, |es|)|
    && if forward then pos == Live(es, s, |es|)[at] else StandsBefore(es, s, pos, Live(es, s, |es|)[at], savedKey, savedValue)
  }

  /** Moving backward: the entry itself is saved, and everything between is invisible or older entries of its user key. */
  ghost predicate StandsBefore(es: seq<Entry>, s: nat, pos: int, l: nat, savedKey: Option<UserKey>, savedValue: Bytes) {
    && -1 <= pos < l < |es| && Around(es, s, pos + 1, l) && (pos >= 0 ==> es[pos].k.user < es[l].k.user)
    && savedKey == Some(es[l].k.user) && savedValue == es[l].val
  }

  lemma StandsAt(es: seq<Entry>, s: nat, pos: int, forward: bool, savedKey: Option<UserKey>, savedValue: Bytes, at: nat)
    requires Stands(es, s, pos, forward, savedKey, savedValue, at)
    ensures var l := Live(es, s, |es|)[at]; l < |es| && IsLive(es, s, l) && at == |Live(es, s, l)|
    ensures forward ==> 0 <= pos < |es| && Around(es, s, pos, pos)
    ensures savedKey.None? ==> forward
    ensures at + 1 == |Live(es, s, Live(es, s, |es|)[at] + 1)|
  {
    LiveMember(es, s, |es|, at);
    LiveRank(es, s, |es|, Live(es, s, |es|)[at]);
  }

  /** Iterator::Seek on the internal entries. */
  function SeekIndex(es: seq<Entry>, target: IKey): (p: nat)
    ensures p <= |es| && (forall i :: 0 <= i < p ==> Less(es[i].k, target)) && (p < |es| ==> AtMost(target, es[p].k))
  {
    if es != [] && Less(es[0].k, target) then
      var q := SeekIndex(es[1..], target);
      assert forall i :: 0 < i <= q ==> es[i] == es[1..][i - 1];
      q + 1
    else 0
  }

  lemma SeekSplits(es: seq<Entry>, target: IKey)
    requires Sorted(es)
    ensures forall i :: SeekIndex(es, target) <= i < |es| ==> AtMost(target, es[i].k)
  {
    var p := SeekIndex(es, target);
    forall i | p < i < |es| ensures AtMost(target, es[i].k) { assert Less(es[p].k, es[i].k); }
  }

  lemma {:induction false} LiveIsPrefix(es: seq<Entry>, s: nat, a: nat, b: nat)
    requires a <= b <= |es|
    ensures Live(es, s, a) <= Live(es, s, b)
  {
    if a < b { LiveIsPrefix(es, s, a, b - 1); }
  }

  lemma RankSplits(es: seq<Entry>, s: nat, p: nat, i: nat)
    requires p <= |es| && i < |Live(es, s, |es|)|
    ensures i < |Live(es, s, p)| <==> Live(es, s, |es|)[i] < p
  {
    LiveIsPrefix(es, s, p, |es|);
    LiveMember(es, s, |es|, i);
    if i < |Live(es, s, p)| { LiveMember(es, s, p, i); }
    var x := Live(es, s, |es|)[i];
    if x < p { LiveRank(es, s, p, x); }
  }

  /** n counts the live user keys below the target. */
  ghost predicate CountsBelow(es: seq<Entry>, s: nat, target: UserKey, n: nat) {
    && n <= |Live(es, s, |es|)|
    && forall i :: 0 <= i < |Live(es, s, |es|)| ==> (i < n <==> LiveEntry(es, s, i).k.user < target)
  }

  lemma SeekCounts(es: seq<Entry>, s: nat, target: UserKey)
    requires Sorted(es)
    ensures var p := SeekIndex(es, LookupKey(target, s)); p <= |es| && CountsBelow(es, s, target, |Live(es, s, p)|)
  {
    var p := SeekIndex(es, LookupKey(target, s));
    SeekSplits(es, LookupKey(target, s));
    LiveIsPrefix(es, s, p, |es|);
    forall i | 0 <= i < |Live(es, s, |es|)| ensures i < |Live(es, s, p)| <==> LiveEntry(es, s, i).k.user < target {
      RankSplits(es, s, p, i);
      LiveMember(es, s, |es|, i);
      SeekPosition(LiveEntry(es, s, i).k, target, s);
    }
  }

  lemma BehindEnds(es: seq<Entry>, s: nat, b: nat, c: Option<nat>)
    requires Sorted(es) && Behind(es, s, -1, b, c)
    ensures c.None? ==> Live(es, s, b) == []
    ensures c.Some? ==> c.value < |es| && IsLive(es, s, c.value) && NoneLive(es, s, c.value + 1, b) && Around(es, s, 0, c.value)
  {
    if c.None? { LiveSkips(es, s, 0, b); } else { BehindFinds(es, s, -1, b, c.value); }
  }

  lemma FoundBefore(es: seq<Entry>, s: nat, b: nat, c: nat)
    requires c < b <= |es| && IsLive(es, s, c) && NoneLive(es, s, c + 1, b)
    ensures 0 < |Live(es, s, b)| <= |Live(es, s, |es|)| && Live(es, s, |es|)[|Live(es, s, b)| - 1] == c
  {
    LiveRank(es, s, |es|, c);
    LiveSkips(es, s, c + 1, b);
    LiveIsPrefix(es, s, b, |es|);
  }

  lemma AheadFromStart(es: seq<Entry>, s: nat)
    ensures Ahead(es, s, 0, None, 0)
  {
  }

  lemma BehindFromEnd(es: seq<Entry>, s: nat)
    ensures Behind(es, s, |es| - 1, |es|, None)
  {
  }

  /** Prev, turning round: scanning back over the entries of the current user key meets no live entry. */
  lemma BehindTurns(es: seq<Entry>, s: nat, p: int, l: nat)
    requires -1 <= p < l < |es| && IsLive(es, s, l)
    requires forall k :: p < k < l ==> es[k].k.user == es[l].k.user
    ensures Behind(es, s, p, l, None)
  {
  }
}
