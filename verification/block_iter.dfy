/** Iterating over a block: a cursor on the entries that were added to it (block.cc). */
module BlockIters {
  import opened Bytestrings
  import opened Coding
  import opened Blocks
  import opened Comparators

  ghost predicate Rising(rank: Order, kvs: seq<Pair>) {
    forall i, j :: 0 <= i < j < |kvs| ==> rank(kvs[i].key) < rank(kvs[j].key)
  }

  /** A block whose first `restarts` bytes hold the entries, and whose restart array says where the restarts are. */
  ghost predicate Readable(block: Bytes, restarts: nat, num: nat, kvs: seq<Pair>, l: Layout) {
    && |block| < TWO32 && restarts + 4 * num <= |block| && num == |l.rp| >= 1
    && |l.shs| == |kvs| && |l.offs| == |kvs| + 1 && l.offs[0] == 0 && l.offs[|kvs|] == restarts
    && (forall i :: 0 <= i < |kvs| ==> EntryLaid(block[..restarts], kvs, l, i))
    && (forall k :: 0 <= k < num ==> l.rp[k] <= |kvs|)
    && Restarts(Points(l), |kvs|, l)
    && forall k :: 0 <= k < num ==> RestartPoint(block, restarts, k) == l.offs[l.rp[k]]
  }

  function Points(l: Layout): seq<nat> {
    seq(|l.rp|, k requires 0 <= k < |l.rp| => if l.rp[k] < |l.offs| then l.offs[l.rp[k]] else 0)
  }

  /** What the builder finishes can be read. */
  lemma FinishedIsReadable(buffer: Bytes, kvs: seq<Pair>, restarts: seq<nat>, l: Layout)
    requires Laid(buffer, kvs, restarts, l) && |Finished(buffer, restarts)| < TWO32
    ensures OpenBlock(Finished(buffer, restarts)) == Some((|buffer|, |restarts|))
    ensures Readable(Finished(buffer, restarts), |buffer|, |restarts|, kvs, l)
  {
    hide EntryBytes, PutFixed32s, Finished;
    FinishedSize(buffer, restarts);
    forall k | 0 <= k < |restarts| ensures restarts[k] < TWO32 { OffsetsBelow(buffer, kvs, restarts, l, l.rp[k]); }
    FinishedOpens(buffer, restarts);
    assert Points(l) == restarts;
  }

  lemma FinishedSize(buffer: Bytes, restarts: seq<nat>)
    ensures |Finished(buffer, restarts)| == |buffer| + 4 * |restarts| + 4
  {
  }

  lemma OffsetsBelow(buffer: Bytes, kvs: seq<Pair>, restarts: seq<nat>, l: Layout, i: nat)
    requires Laid(buffer, kvs, restarts, l) && i <= |kvs|
    ensures l.offs[i] <= |buffer|
  {
    hide EntryBytes;
    if i < |kvs| { assert EntryLaid(buffer, kvs, l, i); }
  }

  lemma EntrySize(shared: nat, q: Pair)
    requires shared <= |q.key|
    ensures |EntryBytes(shared, q)| >= 3 + |q.key| - shared
  {
  }

  lemma {:induction false} OffsetsRise(block: Bytes, restarts: nat, num: nat, kvs: seq<Pair>, l: Layout, i: nat, j: nat)
    requires Readable(block, restarts, num, kvs, l) && i < j <= |kvs|
    ensures l.offs[i] < l.offs[j]
  {
    hide EntryBytes, Restarts, RestartPoint;
    assert EntryLaid(block[..restarts], kvs, l, j - 1);
    EntrySize(l.shs[j - 1], kvs[j - 1]);
    if i < j - 1 { OffsetsRise(block, restarts, num, kvs, l, i, j - 1); }
  }

  /** A key is no longer than the bytes up to the end of its entry. */
  lemma {:induction false} KeysAreShort(block: Bytes, restarts: nat, num: nat, kvs: seq<Pair>, l: Layout, i: nat)
    requires Readable(block, restarts, num, kvs, l) && i < |kvs|
    ensures |kvs[i].key| <= l.offs[i + 1] <= restarts
  {
    hide EntryBytes, Restarts, RestartPoint;
    assert EntryLaid(block[..restarts], kvs, l, i);
    EntrySize(l.shs[i], kvs[i]);
    if i > 0 { KeysAreShort(block, restarts, num, kvs, l, i - 1); }
  }

  /** Decoding at the offset of entry i. */
  lemma EntryIsFound(block: Bytes, restarts: nat, num: nat, kvs: seq<Pair>, l: Layout, i: nat)
    requires Readable(block, restarts, num, kvs, l) && i < |kvs|
    ensures l.shs[i] <= |kvs[i].key| && l.offs[i] < restarts <= |block| && EntryFound(block, l.offs[i], restarts, l.shs[i], kvs[i])
    ensures l.offs[i] + |EntryBytes(l.shs[i], kvs[i])| == l.offs[i + 1]
  {
    hide EntryBytes, Restarts, RestartPoint, Decoded;
    OffsetsRise(block, restarts, num, kvs, l, i, |kvs|);
    KeysAreShort(block, restarts, num, kvs, l, i);
    assert EntryLaid(block[..restarts], kvs, l, i);
    assert block[..restarts][l.offs[i]..l.offs[i + 1]] == block[l.offs[i]..l.offs[i + 1]];
    EntryDecodes(block, l.offs[i], restarts, l.shs[i], kvs[i]);
  }

  /** What decoding at the offset of entry i yields, and the key it makes with the bytes kept of the last one. */
  lemma EntryParses(block: Bytes, restarts: nat, num: nat, kvs: seq<Pair>, l: Layout, key: Bytes, i: nat)
    requires Readable(block, restarts, num, kvs, l) && i < |kvs|
    requires l.shs[i] == 0 || (i > 0 && key == kvs[i - 1].key)
    ensures l.offs[i] < restarts <= |block| && Decoded(block, l.offs[i], restarts).Some?
    ensures var h := Decoded(block, l.offs[i], restarts).value;
      && h.shared <= |key| && h.delta + h.nonShared + h.valueLength == l.offs[i + 1] <= restarts
      && key[..h.shared] + block[h.delta..h.delta + h.nonShared] == kvs[i].key
      && block[h.delta + h.nonShared..l.offs[i + 1]] == kvs[i].val
  {
    hide Readable, EntryBytes, Decoded;
    ReadableSizes(block, restarts, num, kvs, l);
    EntryIsFound(block, restarts, num, kvs, l, i);
    SharedIsThere(block, restarts, num, kvs, l, i);
    JoinedKey(kvs, l, i);
  }

  lemma ReadableSizes(block: Bytes, restarts: nat, num: nat, kvs: seq<Pair>, l: Layout)
    requires Readable(block, restarts, num, kvs, l)
    ensures |l.shs| == |kvs| && |l.offs| == |kvs| + 1
  {
  }

  /** Where the last parse ended: before entry i, with a key the entry can build on. */
  ghost predicate ReadyAt(kvs: seq<Pair>, l: Layout, key: Bytes, valueEnd: nat, restartIndex: nat, i: nat)
    requires |l.shs| == |kvs| && |l.offs| == |kvs| + 1
  {
    && i <= |kvs| && valueEnd == l.offs[i] && restartIndex < |l.rp| && l.rp[restartIndex] <= i
    && (i < |kvs| ==> l.shs[i] == 0 || (i > 0 && key == kvs[i - 1].key))
  }

  class Iter {
    const block: Bytes
    const restarts: nat
    const num: nat
    const rank: Order
    ghost const kvs: seq<Pair>
    ghost const layout: Layout
    var current: nat
    var restartIndex: nat
    var key: Bytes
    var valueStart: nat
    var valueEnd: nat
    ghost var at: nat

    ghost predicate Ok() {
      Readable(block, restarts, num, kvs, layout) && Rising(rank, kvs)
    }

    predicate Valid()
      reads this
    {
      current < restarts
    }

    /** On entry `at`, or at the end. */
    ghost predicate Inv()
      reads this
    {
      && Ok() && current <= restarts && (Valid() ==> OnEntry(at))
    }

    ghost predicate OnEntry(i: nat)
      requires Ok()
      reads this
    {
      && i < |kvs| && current == layout.offs[i] && key == kvs[i].key && valueStart <= valueEnd == layout.offs[i + 1] <= |block|
      && block[valueStart..valueEnd] == kvs[i].val && restartIndex < num && layout.rp[restartIndex] <= i
    }

    constructor (block: Bytes, restarts: nat, num: nat, rank: Order, ghost kvs: seq<Pair>, ghost layout: Layout)
      requires Readable(block, restarts, num, kvs, layout) && Rising(rank, kvs)
      ensures Inv() && !Valid() && this.kvs == kvs && this.block == block && this.rank == rank
    {
      this.block, this.restarts, this.num, this.rank, this.kvs, this.layout := block, restarts, num, rank, kvs, layout;
      current, restartIndex, key, valueStart, valueEnd, at := restarts, num, [], 0, 0, 0;
    }

    method Key() returns (k: Bytes)
      requires Inv() && Valid()
      ensures at < |kvs| && k == kvs[at].key
    {
      k := key;
    }

    method Value() returns (v: Bytes)
      requires Inv() && Valid()
      ensures at < |kvs| && v == kvs[at].val
    {
      v := block[valueStart..valueEnd];
    }

    method GetRestartPoint(index: nat) returns (p: nat)
      requires Ok() && index < num
      ensures layout.rp[index] <= |kvs| && p == layout.offs[layout.rp[index]]
    {
      hide EntryLaid, Restarts, Points;
      p := RestartPoint(block, restarts, index);
    }

    method SeekToRestartPoint(index: nat)
      requires Ok() && index < num
      modifies this
      ensures Ok() && restartIndex == index && ReadyAt(kvs, layout, key, valueEnd, restartIndex, layout.rp[index])
    {
      hide EntryLaid, Points;
      key, restartIndex := [], index;
      var offset := GetRestartPoint(index);
      valueStart, valueEnd := offset, offset;
    }

    /** Parses entry i, or comes to the end. */
    method ParseNextKey(ghost i: nat) returns (more: bool)
      requires Ok() && ReadyAt(kvs, layout, key, valueEnd, restartIndex, i)
      modifies this
      ensures Inv() && more == (i < |kvs|) && more == Valid() && (more ==> at == i)
    {
      hide Rising, EntryLaid, Restarts, Points, RestartPoint, Decoded, EntryBytes, EntryFound;
      EndOffset(block, restarts, num, kvs, layout, i);
      current := valueEnd;
      if current >= restarts {
        current, restartIndex := restarts, num;
        return false;
      }
      EntryParses(block, restarts, num, kvs, layout, key, i);
      var h := DecodeEntry(block, current, restarts);
      if h.None? || |key| < h.value.shared {
        assert false;
      }
      key := key[..h.value.shared] + block[h.value.delta..h.value.delta + h.value.nonShared];
      valueStart := h.value.delta + h.value.nonShared;
      valueEnd := valueStart + h.value.valueLength;
      at := i;
      more := true;
      AdvanceRestart(i);
    }

    /** The restart index follows the current entry. */
    method AdvanceRestart(ghost i: nat)
      requires Ok() && i < |kvs| && current == layout.offs[i] && restartIndex < num && layout.rp[restartIndex] <= i
      modifies this`restartIndex
      ensures restartIndex < num && layout.rp[restartIndex] <= i
    {
      hide Rising, EntryLaid, Restarts, Points, RestartPoint;
      while restartIndex + 1 < num
        invariant restartIndex < num && layout.rp[restartIndex] <= i
        decreases num - restartIndex
      {
        var point := GetRestartPoint(restartIndex + 1);
        if point >= current {
          break;
        }
        OffsetsCompare(block, restarts, num, kvs, layout, layout.rp[restartIndex + 1], i);
        restartIndex := restartIndex + 1;
      }
    }

    method Next()
      requires Inv() && Valid()
      modifies this
      ensures Inv() && Valid() == (old(at) + 1 < |kvs|) && (Valid() ==> at == old(at) + 1)
    {
      var more := ParseNextKey(at + 1);
    }

    method Prev()
      requires Inv() && Valid()
      modifies this
      ensures Inv() && Valid() == (old(at) > 0) && (Valid() ==> at == old(at) - 1)
    {
      hide Rising, EntryLaid, Points, RestartPoint;
      ghost var was := at;
      var original := current;
      var point := GetRestartPoint(restartIndex);
      while point >= original
        invariant Ok() && restartIndex < num && layout.rp[restartIndex] <= |kvs| && point == layout.offs[layout.rp[restartIndex]]
        invariant was < |kvs| && original == layout.offs[was]
        decreases restartIndex
      {
        OffsetsCompare(block, restarts, num, kvs, layout, layout.rp[restartIndex], was);
        if restartIndex == 0 {
          current, restartIndex := restarts, num;
          return;
        }
        restartIndex := restartIndex - 1;
        point := GetRestartPoint(restartIndex);
      }
      OffsetsCompare(block, restarts, num, kvs, layout, layout.rp[restartIndex], was);
      SeekToRestartPoint(restartIndex);
      ghost var i := layout.rp[restartIndex];
      var more := ParseNextKey(i);
      while more && valueEnd < original
        invariant Inv() && i < was < |kvs| && original == layout.offs[was] && more && Valid() && at == i
        decreases was - i
      {
        OffsetsCompare(block, restarts, num, kvs, layout, i + 1, was);
        i := i + 1;
        more := ParseNextKey(i);
      }
      OffsetsCompare(block, restarts, num, kvs, layout, i + 1, was);
    }

    method SeekToFirst()
      requires Inv()
      modifies this
      ensures Inv() && Valid() == (|kvs| > 0) && (Valid() ==> at == 0)
    {
      hide EntryLaid, Points, RestartPoint, Rising;
      FirstRestart(block, restarts, num, kvs, layout);
      SeekToRestartPoint(0);
      var more := ParseNextKey(0);
    }

    method SeekToLast()
      requires Inv()
      modifies this
      ensures Inv() && Valid() == (|kvs| > 0) && (Valid() ==> at == |kvs| - 1)
    {
      hide EntryLaid, Points, RestartPoint, Rising;
      SeekToRestartPoint(num - 1);
      ghost var i := layout.rp[num - 1];
      var more := ParseNextKey(i);
      while more && valueEnd < restarts
        invariant Inv() && more == Valid() == (i < |kvs|) && (more ==> at == i) && i <= |kvs| && (|kvs| > 0 ==> i < |kvs|)
        decreases |kvs| - i
      {
        EndOffset(block, restarts, num, kvs, layout, i + 1);
        i := i + 1;
        more := ParseNextKey(i);
      }
      if more { EndOffset(block, restarts, num, kvs, layout, i + 1); }
    }

    /** The last restart whose key is before the target, if there is one. */
    method FindRestart(target: Bytes) returns (left: nat)
      requires Ok() && |kvs| > 0
      ensures left < num && layout.rp[left] < |kvs| && (left == 0 || rank(kvs[layout.rp[left]].key) < rank(target))
    {
      hide EntryLaid, Points, RestartPoint, Rising, Decoded, EntryBytes;
      var right := num - 1;
      left := 0;
      while left < right
        invariant left <= right < num && (left == 0 || (layout.rp[left] < |kvs| && rank(kvs[layout.rp[left]].key) < rank(target)))
        decreases right - left
      {
        var mid := (left + right + 1) / 2;
        var regionOffset := GetRestartPoint(mid);
        ghost var i := layout.rp[mid];
        EntryIsFound(block, restarts, num, kvs, layout, i);
        var h := DecodeEntry(block, regionOffset, restarts);
        if h.None? || h.value.shared != 0 {
          assert false;
        }
        var midKey := block[h.value.delta..h.value.delta + h.value.nonShared];
        assert midKey == kvs[i].key;
        if rank(midKey) < rank(target) {
          left := mid;
        } else {
          right := mid - 1;
        }
      }
    }

    /** To the first key at or after the target. */
    method Seek(target: Bytes)
      requires Inv()
      modifies this
      ensures Inv() && (Valid() ==> rank(kvs[at].key) >= rank(target) && forall j :: 0 <= j < at ==> rank(kvs[j].key) < rank(target))
      ensures !Valid() ==> forall j :: 0 <= j < |kvs| ==> rank(kvs[j].key) < rank(target)
    {
      hide EntryLaid, Points, RestartPoint;
      var left := 0;
      if restarts > 0 {
        EndOffset(block, restarts, num, kvs, layout, 0);
        left := FindRestart(target);
      }
      ghost var i := layout.rp[left];
      EarlierKeys(rank, kvs, i, target);
      SeekToRestartPoint(left);
      while true
        invariant Ok() && ReadyAt(kvs, layout, key, valueEnd, restartIndex, i)
        invariant forall j :: 0 <= j < i ==> rank(kvs[j].key) < rank(target)
        decreases |kvs| - i
      {
        var more := ParseNextKey(i);
        if !more || rank(key) >= rank(target) {
          return;
        }
        i := i + 1;
      }
    }
  }

  lemma FirstRestart(block: Bytes, restarts: nat, num: nat, kvs: seq<Pair>, l: Layout)
    requires Readable(block, restarts, num, kvs, l)
    ensures l.rp[0] == 0
  {
  }

  lemma EarlierKeys(rank: Order, kvs: seq<Pair>, i: nat, target: Bytes)
    requires Rising(rank, kvs) && i <= |kvs| && (i == 0 || i == |kvs| || rank(kvs[i].key) < rank(target))
    requires i == |kvs| ==> i == 0
    ensures forall j :: 0 <= j < i ==> rank(kvs[j].key) < rank(target)
  {
  }

  lemma EndOffset(block: Bytes, restarts: nat, num: nat, kvs: seq<Pair>, l: Layout, i: nat)
    requires Readable(block, restarts, num, kvs, l) && i <= |kvs|
    ensures l.offs[i] <= restarts && (l.offs[i] == restarts <==> i == |kvs|)
  {
    hide EntryLaid, Restarts, RestartPoint;
    if i < |kvs| { OffsetsRise(block, restarts, num, kvs, l, i, |kvs|); }
  }

  lemma OffsetsCompare(block: Bytes, restarts: nat, num: nat, kvs: seq<Pair>, l: Layout, i: nat, j: nat)
    requires Readable(block, restarts, num, kvs, l) && i <= |kvs| && j <= |kvs|
    ensures l.offs[i] < l.offs[j] <==> i < j
  {
    hide EntryLaid, Restarts, RestartPoint;
    if i < j { OffsetsRise(block, restarts, num, kvs, l, i, j); }
    if j < i { OffsetsRise(block, restarts, num, kvs, l, j, i); }
  }

  lemma SharedIsThere(block: Bytes, restarts: nat, num: nat, kvs: seq<Pair>, l: Layout, i: nat)
    requires Readable(block, restarts, num, kvs, l) && i < |kvs|
    ensures l.shs[i] <= |kvs[i].key| && (i == 0 ==> l.shs[i] == 0)
    ensures i > 0 ==> l.shs[i] <= |kvs[i - 1].key| && kvs[i - 1].key[..l.shs[i]] == kvs[i].key[..l.shs[i]]
  {
    assert EntryLaid(block[..restarts], kvs, l, i);
  }

  lemma JoinedKey(kvs: seq<Pair>, l: Layout, i: nat)
    requires i < |kvs| == |l.shs| && l.shs[i] <= |kvs[i].key|
    ensures kvs[i].key[..l.shs[i]] + kvs[i].key[l.shs[i]..] == kvs[i].key
  {
  }

  method Build(interval: nat, kvs: seq<Pair>) returns (builder: BlockBuilder, block: Bytes)
    requires interval >= 1
    ensures fresh(builder) && Laid(builder.buffer, kvs, builder.restarts, builder.layout)
    ensures Regular(builder.layout.rp, |kvs|, interval, builder.counter) && Compressed(kvs, builder.layout)
    ensures block == Finished(builder.buffer, builder.restarts)
  {
    hide Laid, EntryBytes, Finished, PutFixed32s, Regular, Compressed;
    builder := new BlockBuilder(interval);
    for i := 0 to |kvs|
      invariant builder.Valid() && fresh(builder) && builder.kvs == kvs[..i]
    {
      builder.Add(kvs[i]);
      assert kvs[..i + 1] == kvs[..i] + [kvs[i]];
    }
    assert kvs[..|kvs|] == kvs;
    block := builder.Finish();
  }

  method ReadAll(iter: Iter) returns (out: seq<Pair>)
    requires iter.Inv()
    modifies iter
    ensures out == iter.kvs
  {
    hide Readable, Rising;
    out := [];
    iter.SeekToFirst();
    while iter.Valid()
      invariant iter.Inv()
      invariant if iter.Valid() then iter.at == |out| < |iter.kvs| && out == iter.kvs[..|out|] else out == iter.kvs
      decreases |iter.kvs| - |out|
    {
      var k := iter.Key();
      var v := iter.Value();
      assert iter.kvs[..|out| + 1] == iter.kvs[..|out|] + [iter.kvs[|out|]];
      out := out + [Pair(k, v)];
      iter.Next();
    }
  }

  /** A finished block of these entries. */
  ghost predicate IsBlockOf(block: Bytes, kvs: seq<Pair>) {
    exists buffer, restarts, l :: Laid(buffer, kvs, restarts, l) && block == Finished(buffer, restarts)
  }

  /** More than any block of these entries takes: lengths, restart point, key and value of each, and the end of the restart array. */
  function Weight(kvs: seq<Pair>): nat {
    if kvs == [] then 8 else Weight(kvs[..|kvs| - 1]) + 19 + |kvs[|kvs| - 1].key| + |kvs[|kvs| - 1].val|
  }

  lemma EntryWeight(shared: nat, q: Pair)
    requires shared <= |q.key| < TWO32 && |q.val| < TWO32
    ensures |EntryBytes(shared, q)| <= 15 + |q.key| + |q.val|
  {
    hide PutVarint;
    Varint32RoundTrip(shared, []);
    Varint32RoundTrip(|q.key| - shared, []);
    Varint32RoundTrip(|q.val|, []);
  }

  lemma {:induction false} OffsetWeight(buffer: Bytes, kvs: seq<Pair>, restarts: seq<nat>, l: Layout, n: nat)
    requires Laid(buffer, kvs, restarts, l) && n <= |kvs| && Weight(kvs[..n]) < TWO32
    ensures l.offs[n] + 4 * n + 8 <= Weight(kvs[..n])
  {
    hide EntryBytes, Restarts;
    if n > 0 {
      assert kvs[..n][..n - 1] == kvs[..n - 1];
      OffsetWeight(buffer, kvs, restarts, l, n - 1);
      assert EntryLaid(buffer, kvs, l, n - 1);
      EntryWeight(l.shs[n - 1], kvs[n - 1]);
    }
  }

  lemma {:induction false} RestartsBelow(restarts: seq<nat>, n: nat, l: Layout, k: nat)
    requires |l.shs| == n && |l.offs| == n + 1 && Restarts(restarts, n, l) && k < |restarts|
    ensures l.rp[k] >= k && (n > 0 ==> k < n) && (n == 0 ==> k == 0)
  {
    if k > 0 { RestartsBelow(restarts, n, l, k - 1); }
  }

  /** Entries that weigh less than 2^32 bytes make a block that can be read. */
  lemma LightBlocksAreSmall(block: Bytes, kvs: seq<Pair>)
    requires IsBlockOf(block, kvs) && Weight(kvs) < TWO32
    ensures |block| <= Weight(kvs)
  {
    hide EntryBytes, Finished;
    var buffer, restarts, l :| Laid(buffer, kvs, restarts, l) && block == Finished(buffer, restarts);
    assert kvs[..|kvs|] == kvs;
    OffsetWeight(buffer, kvs, restarts, l, |kvs|);
    RestartsBelow(restarts, |kvs|, l, |restarts| - 1);
    FinishedSize(buffer, restarts);
  }

  /**
   * Building a block of rising keys and reading it from the start: the entries come out as they went in. A block of
   * 2^32 bytes or more has no offsets to be read by; entries that weigh less never make one.
   */
  method BuildAndRead(rank: Order, interval: nat, kvs: seq<Pair>) returns (block: Bytes, out: seq<Pair>, ok: bool)
    requires interval >= 1 && Rising(rank, kvs)
    ensures IsBlockOf(block, kvs)
    ensures ok <==> |block| < TWO32
    ensures ok ==> out == kvs
    ensures Weight(kvs) < TWO32 ==> ok
  {
    hide Laid, Readable, Finished, Rising, Weight;
    var builder;
    builder, block := Build(interval, kvs);
    out, ok := [], |block| < TWO32;
    assert IsBlockOf(block, kvs);
    if Weight(kvs) < TWO32 { LightBlocksAreSmall(block, kvs); }
    if ok {
      FinishedIsReadable(builder.buffer, kvs, builder.restarts, builder.layout);
      var open := OpenBlock(block);
      var iter := new Iter(block, open.value.0, open.value.1, rank, kvs, builder.layout);
      out := ReadAll(iter);
    }
  }
}
