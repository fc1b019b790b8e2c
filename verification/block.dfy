/** Blocks of prefix-compressed entries: how they are built (block_builder.cc) and what is in them (block.cc). */
module Blocks {
  import opened Bytestrings
  import opened Coding

  datatype Pair = Pair(key: Bytes, val: Bytes)

  // ---- Entries ----

  function EntryBytes(shared: nat, p: Pair): Bytes
    requires shared <= |p.key|
  {
    PutVarint(shared) + (PutVarint(|p.key| - shared) + (PutVarint(|p.val|) + (p.key[shared..] + p.val)))
  }

  /** What DecodeEntry finds: the three lengths, and where the key delta starts. */
  datatype Header = Header(shared: nat, nonShared: nat, valueLength: nat, delta: nat)

  /** Three varints, read one after the other from position p, `limit` being the end. */
  function ThreeVarints(b: Bytes, p: nat, limit: nat): (r: Option<Header>)
    requires p <= limit <= |b|
    ensures r.Some? ==> p + 3 <= r.value.delta <= limit
  {
    match GetVarint32(b[p..limit])
    case None => None
    case Some(x) =>
      match GetVarint32(x.1)
      case None => None
      case Some(y) =>
        match GetVarint32(y.1)
        case None => None
        case Some(z) => Some(Header(x.0, y.0, z.0, limit - |z.1|))
  }

  /** The last check is done in 32 bits. */
  function Fits(h: Header, limit: nat): bool
    requires h.delta <= limit
  {
    (limit - h.delta) % TWO32 >= (h.nonShared + h.valueLength) % TWO32
  }

  function Decoded(b: Bytes, p: nat, limit: nat): Option<Header>
    requires p <= limit <= |b|
  {
    match ThreeVarints(b, p, limit)
    case None => None
    case Some(h) => if Fits(h, limit) then Some(h) else None
  }

  /** DecodeEntry, with its path for three one-byte lengths: it always agrees with reading three varints. */
  method DecodeEntry(b: Bytes, p: nat, limit: nat) returns (r: Option<Header>)
    requires p <= limit <= |b|
    ensures r == Decoded(b, p, limit)
  {
    hide GetVarint32, Fits;
    if limit - p < 3 {
      return None;
    }
    var shared, nonShared, valueLength := b[p], b[p + 1], b[p + 2];
    var h;
    if shared < 128 && nonShared < 128 && valueLength < 128 {
      OneByteEach(b, p, limit);
      h := Header(shared, nonShared, valueLength, p + 3);
    } else {
      var x := GetVarint32(b[p..limit]);
      if x.None? { return None; }
      var y := GetVarint32(x.value.1);
      if y.None? { return None; }
      var z := GetVarint32(y.value.1);
      if z.None? { return None; }
      h := Header(x.value.0, y.value.0, z.value.0, limit - |z.value.1|);
    }
    if !Fits(h, limit) {
      return None;
    }
    r := Some(h);
  }

  lemma OneByte(s: Bytes)
    requires s != [] && s[0] < 128
    ensures GetVarint32(s) == Some((s[0] as nat, s[1..]))
  {
  }

  lemma OneByteEach(b: Bytes, p: nat, limit: nat)
    requires p + 3 <= limit <= |b| && b[p] < 128 && b[p + 1] < 128 && b[p + 2] < 128
    ensures ThreeVarints(b, p, limit) == Some(Header(b[p], b[p + 1], b[p + 2], p + 3))
  {
    hide GetVarint32;
    var s := b[p..limit];
    OneByte(s);
    assert s[1..][0] == b[p + 1] && s[1..][1..][0] == b[p + 2];
    OneByte(s[1..]);
    OneByte(s[1..][1..]);
    assert |s[1..][1..][1..]| == limit - p - 3;
  }

  lemma HeaderDecodes(b: Bytes, p: nat, limit: nat, x: nat, y: nat, z: nat, t: Bytes)
    requires p <= limit <= |b| && x < TWO32 && y < TWO32 && z < TWO32
    requires b[p..limit] == PutVarint(x) + (PutVarint(y) + (PutVarint(z) + t))
    ensures |t| <= limit - p && ThreeVarints(b, p, limit) == Some(Header(x, y, z, limit - |t|)) && b[limit - |t|..limit] == t
  {
    hide GetVarint32, PutVarint;
    Varint32RoundTrip(x, PutVarint(y) + (PutVarint(z) + t));
    Varint32RoundTrip(y, PutVarint(z) + t);
    Varint32RoundTrip(z, t);
    assert b[p..limit] == (PutVarint(x) + PutVarint(y) + PutVarint(z)) + t;
    TailOf(b[p..limit], PutVarint(x) + PutVarint(y) + PutVarint(z), t, b, p, limit);
  }

  lemma SmallFits(h: Header, limit: nat)
    requires h.delta + h.nonShared + h.valueLength <= limit < TWO32
    ensures Fits(h, limit)
  {
  }

  /** An entry in its place decodes to its lengths, and its key and value lie where they should. */
  lemma EntryDecodes(b: Bytes, p: nat, limit: nat, shared: nat, q: Pair)
    requires shared <= |q.key| < TWO32 && p + |EntryBytes(shared, q)| <= limit <= |b| < TWO32
    requires b[p..p + |EntryBytes(shared, q)|] == EntryBytes(shared, q)
    ensures EntryFound(b, p, limit, shared, q)
  {
    hide ThreeVarints, PutVarint, Fits;
    var e := EntryBytes(shared, q);
    var rest, t := b[p + |e|..limit], q.key[shared..] + q.val;
    assert b[p..limit] == e + rest;
    assert e + rest == PutVarint(shared) + (PutVarint(|q.key| - shared) + (PutVarint(|q.val|) + (t + rest)));
    assert |e| >= |q.val|;
    HeaderDecodes(b, p, limit, shared, |q.key| - shared, |q.val|, t + rest);
    assert t + rest == q.key[shared..] + q.val + rest;
    DeltaAndValue(b, limit - |t + rest|, limit, q.key[shared..], q.val, rest);
    SmallFits(Header(shared, |q.key| - shared, |q.val|, limit - |t + rest|), limit);
  }

  ghost predicate EntryFound(b: Bytes, p: nat, limit: nat, shared: nat, q: Pair)
    requires shared <= |q.key| && p <= limit <= |b|
  {
    && Decoded(b, p, limit).Some?
    && var h := Decoded(b, p, limit).value;
       && h.shared == shared && h.nonShared == |q.key| - shared && h.valueLength == |q.val|
       && h.delta + h.nonShared + h.valueLength == p + |EntryBytes(shared, q)| <= limit
       && b[h.delta..h.delta + h.nonShared] == q.key[shared..]
       && b[h.delta + h.nonShared..h.delta + h.nonShared + h.valueLength] == q.val
  }

  lemma TailOf(s: Bytes, a: Bytes, t: Bytes, b: Bytes, p: nat, limit: nat)
    requires p <= limit <= |b| && s == b[p..limit] && s == a + t
    ensures |t| <= limit - p && b[limit - |t|..limit] == t
  {
    assert t == s[|a|..];
  }

  lemma SliceOfSlice(b: Bytes, d: nat, limit: nat, i: nat, j: nat)
    requires d <= limit <= |b| && i <= j <= limit - d
    ensures b[d..limit][i..j] == b[d + i..d + j]
  {
    assert forall k :: 0 <= k < j - i ==> b[d..limit][i..j][k] == b[d + i..d + j][k];
  }

  lemma DeltaAndValue(b: Bytes, d: nat, limit: nat, delta: Bytes, val: Bytes, rest: Bytes)
    requires d <= limit <= |b| && b[d..limit] == delta + val + rest
    ensures d + |delta| + |val| <= limit
    ensures b[d..d + |delta|] == delta && b[d + |delta|..d + |delta| + |val|] == val
  {
    assert |b[d..limit]| == limit - d;
    SliceOfSlice(b, d, limit, 0, |delta|);
    SliceOfSlice(b, d, limit, |delta|, |delta| + |val|);
  }

  // ---- Layout ----

  /** Where the entries of a block lie: entry i shares shs[i] bytes with the key before it and takes offs[i] to offs[i + 1]. */
  datatype Layout = Layout(shs: seq<nat>, offs: seq<nat>, rp: seq<nat>)

  ghost predicate EntryLaid(buffer: Bytes, kvs: seq<Pair>, l: Layout, i: nat)
    requires i < |kvs| == |l.shs| && |l.offs| == |kvs| + 1
  {
    && l.shs[i] <= |kvs[i].key| && (i == 0 ==> l.shs[i] == 0)
    && (i > 0 ==> l.shs[i] <= |kvs[i - 1].key| && kvs[i - 1].key[..l.shs[i]] == kvs[i].key[..l.shs[i]])
    && l.offs[i] + |EntryBytes(l.shs[i], kvs[i])| == l.offs[i + 1] <= |buffer|
    && buffer[l.offs[i]..l.offs[i + 1]] == EntryBytes(l.shs[i], kvs[i])
  }

  /** Restart k is entry rp[k], which shares nothing; the first entry is one. */
  ghost predicate Restarts(restarts: seq<nat>, n: nat, l: Layout)
    requires |l.shs| == n && |l.offs| == n + 1
  {
    && |restarts| == |l.rp| >= 1 && l.rp[0] == 0
    && (forall k :: 0 <= k < |l.rp| ==> l.rp[k] <= n && restarts[k] == l.offs[l.rp[k]])
    && (forall k :: 0 <= k < |l.rp| && n > 0 ==> l.rp[k] < n && l.shs[l.rp[k]] == 0)
    && (n == 0 ==> |l.rp| == 1)
    && forall j, k :: 0 <= j < k < |l.rp| ==> l.rp[j] < l.rp[k]
  }

  ghost predicate Laid(buffer: Bytes, kvs: seq<Pair>, restarts: seq<nat>, l: Layout) {
    && |l.shs| == |kvs| && |l.offs| == |kvs| + 1 && l.offs[0] == 0 && l.offs[|kvs|] == |buffer|
    && (forall i :: 0 <= i < |kvs| ==> EntryLaid(buffer, kvs, l, i))
    && Restarts(restarts, |kvs|, l)
  }

  /** Every interval-th entry is a restart, and `counter` entries have come since the last one. */
  ghost predicate Regular(rp: seq<nat>, n: nat, interval: nat, counter: nat) {
    && rp != [] && rp[0] == 0 && (forall k :: 0 < k < |rp| ==> rp[k] == rp[k - 1] + interval)
    && n == rp[|rp| - 1] + counter
  }

  /** Entry i shares all that it can with the key before it. */
  ghost predicate SharesAll(kvs: seq<Pair>, l: Layout, i: nat)
    requires 0 < i < |kvs| == |l.shs|
  {
    var sh, a, b := l.shs[i], kvs[i - 1].key, kvs[i].key;
    sh <= |a| && sh <= |b| && a[..sh] == b[..sh] && (sh == |a| || sh == |b| || a[sh] != b[sh])
  }

  ghost predicate Compressed(kvs: seq<Pair>, l: Layout) {
    |l.shs| == |kvs| && forall i :: 0 < i < |kvs| && i !in l.rp ==> SharesAll(kvs, l, i)
  }

  // ---- Builder ----

  class BlockBuilder {
    const interval: nat
    var buffer: Bytes
    var restarts: seq<nat>
    var counter: nat
    var lastKey: Bytes
    ghost var kvs: seq<Pair>
    ghost var layout: Layout

    ghost predicate Valid()
      reads this
    {
      && interval >= 1 && counter <= interval && Laid(buffer, kvs, restarts, layout)
      && Regular(layout.rp, |kvs|, interval, counter) && Compressed(kvs, layout)
      && (kvs == [] ==> lastKey == [] && counter == 0) && (kvs != [] ==> lastKey == kvs[|kvs| - 1].key)
    }

    constructor (interval: nat)
      requires interval >= 1
      ensures Valid() && kvs == [] && this.interval == interval
    {
      this.interval := interval;
      buffer, restarts, counter, lastKey := [], [0], 0, [];
      kvs, layout := [], Layout([], [0], [0]);
    }

    method Reset()
      requires Valid()
      modifies this
      ensures Valid() && kvs == []
    {
      buffer, restarts, counter, lastKey := [], [0], 0, [];
      kvs, layout := [], Layout([], [0], [0]);
    }

    method Finish() returns (block: Bytes)
      requires Valid()
      ensures block == Finished(buffer, restarts)
    {
      block := buffer;
      for i := 0 to |restarts|
        invariant block == buffer + PutFixed32s(restarts[..i])
      {
        assert restarts[..i + 1][..i] == restarts[..i];
        block := block + PutFixed(4, restarts[i]);
      }
      assert restarts[..|restarts|] == restarts;
      block := block + PutFixed(4, |restarts|);
    }

    /** CurrentSizeEstimate: the size of the block if it were finished now. */
    function SizeEstimate(): nat
      reads this
    {
      |buffer| + 4 * |restarts| + 4
    }

    method SharedPrefix(key: Bytes) returns (shared: nat)
      ensures shared <= |key| && shared <= |lastKey| && lastKey[..shared] == key[..shared] && shared == CommonPrefix(lastKey, key)
      ensures shared < |key| && shared < |lastKey| ==> lastKey[shared] != key[shared]
    {
      shared := 0;
      var minLength := if |lastKey| < |key| then |lastKey| else |key|;
      assert lastKey[0..] == lastKey && key[0..] == key;
      while shared < minLength && lastKey[shared] == key[shared]
        invariant shared <= minLength && lastKey[..shared] == key[..shared]
        invariant CommonPrefix(lastKey, key) == shared + CommonPrefix(lastKey[shared..], key[shared..])
      {
        assert lastKey[shared..][1..] == lastKey[shared + 1..] && key[shared..][1..] == key[shared + 1..];
        shared := shared + 1;
      }
    }

    method Add(p: Pair)
      requires Valid()
      modifies this
      ensures Valid() && kvs == old(kvs) + [p]
      ensures restarts == if old(counter) < interval then old(restarts) else old(restarts) + [|old(buffer)|]
      ensures counter == (if old(counter) < interval then old(counter) else 0) + 1
      ensures layout.shs == old(layout.shs) + [if old(counter) < interval then CommonPrefix(old(lastKey), p.key) else 0]
    {
      hide EntryBytes, Laid, Regular, Compressed;
      ghost var oldBuffer, oldRestarts, oldLayout, oldCounter := buffer, restarts, layout, counter;
      var shared := 0;
      if counter < interval {
        shared := SharedPrefix(p.key);
      } else {
        restarts := restarts + [|buffer|];
        counter := 0;
      }
      var nonShared := |p.key| - shared;
      ghost var restarted := restarts != oldRestarts;
      AddLays(oldBuffer, kvs, oldRestarts, layout, p, shared, restarted);
      AddStaysRegular(layout.rp, |kvs|, interval, oldCounter);
      AddCompresses(kvs, layout, |oldBuffer|, shared, p, restarted);
      var entry := PutEntry(shared, p);
      buffer := buffer + entry;
      lastKey := lastKey[..if shared <= |lastKey| then shared else |lastKey|] + p.key[shared..];
      kvs, layout := kvs + [p], Extended(oldLayout, |oldBuffer|, shared, p, |kvs|, restarted);
      counter := counter + 1;
    }
  }

  // ---- Restart array ----

  function RestartPoint(block: Bytes, restarts: nat, index: nat): nat
    requires restarts + 4 * index + 4 <= |block|
  {
    GetFixed(block[restarts + 4 * index..restarts + 4 * index + 4])
  }

  /** A finished block: entries, restart array, and its length. */
  function Finished(buffer: Bytes, restarts: seq<nat>): Bytes {
    buffer + PutFixed32s(restarts) + PutFixed(4, |restarts|)
  }

  /** Block::Block: the length of the restart array is in the last four bytes; None is the error marker. */
  function OpenBlock(block: Bytes): Option<(nat, nat)> {
    if |block| < 4 then None
    else
      var num := GetFixed(block[|block| - 4..]);
      if num > (|block| - 4) / 4 then None else Some((|block| - (1 + num) * 4, num))
  }

  lemma FinishedOpens(buffer: Bytes, restarts: seq<nat>)
    requires |Finished(buffer, restarts)| < TWO32 && forall k :: 0 <= k < |restarts| ==> restarts[k] < TWO32
    ensures OpenBlock(Finished(buffer, restarts)) == Some((|buffer|, |restarts|))
    ensures forall k :: 0 <= k < |restarts| ==> RestartPoint(Finished(buffer, restarts), |buffer|, k) == restarts[k]
    ensures Finished(buffer, restarts)[..|buffer|] == buffer
  {
    hide PutFixed, GetFixed, PutFixed32s;
    var block := Finished(buffer, restarts);
    assert block[|block| - 4..] == PutFixed(4, |restarts|);
    PowersOf256();
    FixedRoundTrip(4, |restarts|);
    forall k | 0 <= k < |restarts| ensures RestartPoint(block, |buffer|, k) == restarts[k] {
      Fixed32At(restarts, k);
      assert block[|buffer| + 4 * k..|buffer| + 4 * k + 4] == PutFixed32s(restarts)[4 * k..4 * k + 4];
    }
  }

  method PutEntry(shared: nat, p: Pair) returns (b: Bytes)
    requires shared <= |p.key|
    ensures b == EntryBytes(shared, p)
  {
    b := PutVarint(shared);
    b := b + PutVarint(|p.key| - shared);
    b := b + PutVarint(|p.val|);
    b := b + p.key[shared..];
    b := b + p.val;
    assert b == EntryBytes(shared, p);
  }

  function Extended(l: Layout, size: nat, shared: nat, p: Pair, n: nat, restarted: bool): Layout
    requires shared <= |p.key|
  {
    Layout(l.shs + [shared], l.offs + [size + |EntryBytes(shared, p)|], if restarted then l.rp + [n] else l.rp)
  }

  lemma AddStaysRegular(rp: seq<nat>, n: nat, interval: nat, counter: nat)
    requires Regular(rp, n, interval, counter) && counter <= interval
    ensures if counter < interval then Regular(rp, n + 1, interval, counter + 1) else Regular(rp + [n], n + 1, interval, 1)
  {
  }

  lemma AddCompresses(kvs: seq<Pair>, l: Layout, size: nat, shared: nat, p: Pair, restarted: bool)
    requires Compressed(kvs, l) && shared <= |p.key|
    requires !restarted && kvs != [] ==>
      var a := kvs[|kvs| - 1].key;
      shared <= |a| && a[..shared] == p.key[..shared] && (shared == |a| || shared == |p.key| || a[shared] != p.key[shared])
    ensures Compressed(kvs + [p], Extended(l, size, shared, p, |kvs|, restarted))
  {
    hide EntryBytes;
    var kvs', l' := kvs + [p], Extended(l, size, shared, p, |kvs|, restarted);
    forall i | 0 < i < |kvs'| && i !in l'.rp ensures SharesAll(kvs', l', i) {
      if i < |kvs| { assert SharesAll(kvs, l, i); }
    }
  }

  /** The layout after one more entry. */
  lemma AddLays(buffer: Bytes, kvs: seq<Pair>, restarts: seq<nat>, l: Layout, p: Pair, shared: nat, restarted: bool)
    requires Laid(buffer, kvs, restarts, l) && shared <= |p.key|
    requires kvs == [] ==> shared == 0 && !restarted
    requires kvs != [] ==> shared <= |kvs[|kvs| - 1].key| && kvs[|kvs| - 1].key[..shared] == p.key[..shared]
    requires restarted ==> shared == 0
    ensures Laid(buffer + EntryBytes(shared, p), kvs + [p], if restarted then restarts + [|buffer|] else restarts,
                 Extended(l, |buffer|, shared, p, |kvs|, restarted))
  {
    hide EntryBytes;
    var b', kvs', l' := buffer + EntryBytes(shared, p), kvs + [p], Extended(l, |buffer|, shared, p, |kvs|, restarted);
    forall i | 0 <= i < |kvs'| ensures EntryLaid(b', kvs', l', i) {
      if i < |kvs| {
        assert EntryLaid(buffer, kvs, l, i);
        assert b'[l.offs[i]..l.offs[i + 1]] == buffer[l.offs[i]..l.offs[i + 1]];
      } else {
        assert b'[|buffer|..] == EntryBytes(shared, p);
      }
    }
  }
}
