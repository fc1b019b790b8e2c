/** Opening a table file and looking a key up in it (table/table.cc). */
module TableReaders {
  import opened Bytestrings
  import opened Coding
  import opened Blocks
  import opened BlockIters
  import opened Comparators
  import opened Crc32c
  import opened FilterBlocks
  import opened TableFormat
  import opened TableImages
  import IK = InternalKeys

  /** A block's bytes and where its restart array is. */
  datatype OpenedBlock = OpenedBlock(block: Bytes, restarts: nat, num: nat)

  /** The iterator of a block that holds these entries. */
  method NewIterator(b: OpenedBlock, rank: Order, ghost p: Part) returns (iter: Iter)
    requires BlockIs(b, p) && Rising(rank, p.kvs)
    ensures fresh(iter) && iter.Inv() && iter.kvs == p.kvs && iter.rank == rank
  {
    hide Readable, Rising;
    iter := new Iter(b.block, b.restarts, b.num, rank, p.kvs, p.layout);
  }

  ghost predicate BlockIs(b: OpenedBlock, p: Part) {
    Readable(b.block, b.restarts, b.num, p.kvs, p.layout)
  }

  /** Reads a block that was written: its entries can be iterated. */
  method OpenPart(crc: Crc, verify: bool, file: Bytes, h: Handle, ghost p: Part) returns (b: OpenedBlock)
    requires PartOk(crc, file, p) && h == p.handle && h.size < TWO32
    ensures BlockIs(b, p)
  {
    hide Laid, LiesAt, Finished, Readable;
    PartIsRead(crc, verify, file, p);
    var contents := ReadBlock(crc, verify, file, h);
    var open := OpenBlock(contents.value);
    b := OpenedBlock(contents.value, open.value.0, open.value.1);
  }

  lemma PartIsRead(crc: Crc, verify: bool, file: Bytes, p: Part)
    requires PartOk(crc, file, p) && p.handle.size < TWO32
    ensures var c := ReadBlock(crc, verify, file, p.handle);
      && c.Some? && OpenBlock(c.value).Some?
      && Readable(c.value, OpenBlock(c.value).value.0, OpenBlock(c.value).value.1, p.kvs, p.layout)
  {
    hide Laid, LiesAt, Finished, Readable, OpenBlock;
    var c := Finished(p.buffer, p.restarts);
    SizeAt(crc, file, p.handle, c);
    StoredIsRead(crc, verify, file, p.handle, c);
    FinishedIsReadable(p.buffer, p.kvs, p.restarts, p.layout);
  }

  lemma SizeAt(crc: Crc, file: Bytes, h: Handle, contents: Bytes)
    requires LiesAt(crc, file, h, contents)
    ensures h.size == |contents| && h.offset + h.size + TRAILER <= |file|
  {
  }

  class Table {
    const o: Options
    const file: Bytes
    const verify: bool
    const index: OpenedBlock
    const filter: Option<Reader>
    ghost const image: Image

    ghost predicate Valid() {
      && Sound(o) && IsTable(o, file, image) && Addressable(file, image)
      && BlockIs(index, image.index) && FilterIs(filter, image)
    }

    constructor (o: Options, file: Bytes, verify: bool, index: OpenedBlock, filter: Option<Reader>, ghost image: Image)
      requires Sound(o) && IsTable(o, file, image) && Addressable(file, image)
      requires BlockIs(index, image.index) && FilterIs(filter, image)
      ensures Valid() && this.image == image && this.o == o
    {
      this.o, this.file, this.verify, this.index, this.filter, this.image := o, file, verify, index, filter, image;
    }

    /** The search in the block that the index selects. */
    method SearchBlock(k: Bytes, h: Handle, ghost p: nat) returns (hit: Option<Pair>)
      requires Valid() && IK.IsKey(k) && p < |image.parts| && Selected(o, image, k, p) && h == image.parts[p].handle
      ensures forall i :: IsFirst(o.rank, image.entries, k, i) ==> Delivered(o.order, image.entries, k, i, hit)
      ensures hit.Some? ==> hit.value in image.parts[p].kvs
    {
      hide Sound, IsTable, Addressable, Readable, FilterIs, Selected, IsFirst, Delivered, PartOk, SepsOk, IK.IsKey;
      PartAddress(o, file, image, p);
      var b := OpenPart(o.crc, verify, file, h, image.parts[p]);
      PartRises(o, file, image, p);
      var biter := NewIterator(b, o.rank, image.parts[p]);
      biter.Seek(k);
      if biter.Valid() {
        var key := biter.Key();
        var val := biter.Value();
        hit := Some(Pair(key, val));
        assert hit.value == image.parts[p].kvs[biter.at];
        BlockHit(o, file, image, k, p, biter.at);
      } else {
        hit := None;
        BlockMiss(o, file, image, k, p);
      }
    }

    /**
     * What a lookup delivers is the first entry at or after k; and it delivers that entry whenever the user keys are the
     * same. It comes from a block that the filter accepts.
     */
    method InternalGet(k: Bytes) returns (hit: Option<Pair>)
      requires Valid() && IK.IsKey(k)
      ensures forall i :: IsFirst(o.rank, image.entries, k, i) ==> Delivered(o.order, image.entries, k, i, hit)
      ensures hit.Some? ==> exists p: nat :: p < |image.parts| && hit.value in image.parts[p].kvs && Accepted(o, filter, image.parts[p], k)
    {
      hide Sound, IsTable, Addressable, Readable, FilterIs, KeyMayMatch, Selected, IsFirst, Delivered, PartOk, SepsOk, IK.IsKey;
      IndexRises(o, file, image);
      var iiter := NewIterator(index, o.rank, image.index);
      iiter.Seek(k);
      hit := None;
      if iiter.Valid() {
        var v := iiter.Value();
        ghost var p := iiter.at;
        IndexSelects(o, file, image, k, p);
        var decoded := DecodeHandle(v);
        if filter.Some? && decoded.Some? {
          FilterOpens(o, file, filter, image);
          if !KeyMayMatch(o.policy.value, filter.value, decoded.value.0.offset, k) {
            RejectedIsAbsent(o, file, image, filter, k, p);
            return;
          }
        }
        assert Accepted(o, filter, image.parts[p], k);
        hit := SearchBlock(k, decoded.value.0, p);
      } else {
        NothingSelected(o, file, image, k);
      }
    }
  }

  lemma FilterOpens(o: Options, file: Bytes, filter: Option<Reader>, t: Image)
    requires IsTable(o, file, t) && filter.Some? && FilterIs(filter, t)
    ensures o.policy.Some? && var r := filter.value; (r.num > 0 ==> r.offset + 4 * r.num + 5 <= |r.data|)
  {
    hide PartOk, Cut, SepsOk, IsEntries, PartsOk, LiesAt, HoldsFilters, Filtered, FooterOk, IndexOk;
  }

  ghost predicate FilterIs(filter: Option<Reader>, t: Image) {
    && filter.Some? == t.filter.Some?
    && (filter.Some? ==> filter.value == OpenFilter(t.filter.value.contents))
  }

  /** The filter of the block, if there is one, does not say that the key is missing. */
  ghost predicate Accepted(o: Options, filter: Option<Reader>, p: Part, k: Bytes) {
    filter.Some? ==>
      var r := filter.value;
      o.policy.Some? && (r.num > 0 ==> r.offset + 4 * r.num + 5 <= |r.data|) && KeyMayMatch(o.policy.value, r, p.handle.offset, k)
  }

  /** The outcome of a lookup, i being the position of the first entry at or after k. */
  ghost predicate Delivered(order: Order, entries: seq<Pair>, k: Bytes, i: nat, hit: Option<Pair>)
  {
    && (hit.Some? ==> i < |entries| && hit.value == entries[i])
    && (i < |entries| && order(IK.UserPart(entries[i].key)) == order(IK.UserPart(k)) ==> hit == Some(entries[i]))
  }

  // ---- What the index selects ----

  /** Block p: everything before it is before k, and k is not after its index key. */
  ghost predicate Selected(o: Options, t: Image, k: Bytes, p: nat) {
    && p < |t.parts| == |t.seps| && |t.cuts| == |t.parts| + 1
    && CutAt(t.entries, t.cuts, t.parts, p) && SepOk(o, t.entries, t.cuts[p + 1], t.seps[p])
    && o.rank(k) <= o.rank(t.seps[p])
    && forall j :: 0 <= j < t.cuts[p] && j < |t.entries| ==> o.rank(t.entries[j].key) < o.rank(k)
  }

  lemma IndexRises(o: Options, file: Bytes, t: Image)
    requires IsTable(o, file, t)
    ensures Rising(o.rank, t.index.kvs)
  {
    hide PartOk, FilterPartOk, FooterOk, SepOk;
    forall i, j | 0 <= i < j < |t.index.kvs| ensures o.rank(t.index.kvs[i].key) < o.rank(t.index.kvs[j].key) {
      SepsRise(o, t.entries, t.cuts, t.parts, t.seps, i, j);
    }
  }

  lemma PartRises(o: Options, file: Bytes, t: Image, p: nat)
    requires IsTable(o, file, t) && p < |t.parts|
    ensures Rising(o.rank, t.parts[p].kvs)
  {
    hide PartOk, FilterPartOk, FooterOk, SepOk;
    assert CutAt(t.entries, t.cuts, t.parts, p);
  }

  lemma PartAddress(o: Options, file: Bytes, t: Image, p: nat)
    requires IsTable(o, file, t) && Addressable(file, t) && p < |t.parts|
    ensures PartOk(o.crc, file, t.parts[p]) && t.parts[p].handle.size < TWO32
  {
    hide PartOk, FilterPartOk, FooterOk, SepOk;
  }

  lemma HandleIsNarrow(o: Options, file: Bytes, p: Part)
    requires PartOk(o.crc, file, p) && |file| < TWO64
    ensures Narrow(p.handle)
  {
    hide Laid;
  }

  lemma IndexSelects(o: Options, file: Bytes, t: Image, k: Bytes, p: nat)
    requires IsTable(o, file, t) && Addressable(file, t) && p < |t.index.kvs|
    requires o.rank(k) <= o.rank(t.index.kvs[p].key)
    requires forall j :: 0 <= j < p ==> o.rank(t.index.kvs[j].key) < o.rank(k)
    ensures p < |t.parts| && Selected(o, t, k, p)
    ensures DecodeHandle(t.index.kvs[p].val) == Some((t.parts[p].handle, []))
  {
    hide PartOk, FilterPartOk, FooterOk, SepOk, EncodeHandle, DecodeHandle;
    PartAddress(o, file, t, p);
    HandleIsNarrow(o, file, t.parts[p]);
    HandleRoundTrip(t.parts[p].handle, []);
    assert EncodeHandle(t.parts[p].handle) + [] == EncodeHandle(t.parts[p].handle);
    assert SepOk(o, t.entries, t.cuts[p + 1], t.seps[p]) && CutAt(t.entries, t.cuts, t.parts, p);
    if p > 0 {
      assert t.index.kvs[p - 1].key == t.seps[p - 1] && SepOk(o, t.entries, t.cuts[p], t.seps[p - 1]);
      BlockBefore(o, t.entries, t.cuts[p], t.seps[p - 1], k);
    }
  }

  lemma FirstIsUnique(rank: Order, entries: seq<Pair>, k: Bytes, i: nat, j: nat)
    requires IsFirst(rank, entries, k, i) && IsFirst(rank, entries, k, j)
    ensures i == j
  {
  }

  lemma BlockHit(o: Options, file: Bytes, t: Image, k: Bytes, p: nat, at: nat)
    requires IsTable(o, file, t) && Selected(o, t, k, p) && at < |t.parts[p].kvs|
    requires o.rank(k) <= o.rank(t.parts[p].kvs[at].key)
    requires forall j :: 0 <= j < at ==> o.rank(t.parts[p].kvs[j].key) < o.rank(k)
    ensures forall i :: IsFirst(o.rank, t.entries, k, i) ==> Delivered(o.order, t.entries, k, i, Some(t.parts[p].kvs[at]))
  {
    hide IsTable, SepOk;
    var n := t.cuts[p] + at;
    forall j | 0 <= j < n ensures o.rank(t.entries[j].key) < o.rank(k) {
      if j >= t.cuts[p] { assert t.parts[p].kvs[j - t.cuts[p]] == t.entries[j]; }
    }
    assert IsFirst(o.rank, t.entries, k, n);
    forall i | IsFirst(o.rank, t.entries, k, i) ensures i == n { FirstIsUnique(o.rank, t.entries, k, i, n); }
  }

  /** When nothing in the selected block is at or after k, the first entry at or after k is the next block's, of another user key. */
  lemma {:induction false} BlockMiss(o: Options, file: Bytes, t: Image, k: Bytes, p: nat)
    requires Sound(o) && IsTable(o, file, t) && Selected(o, t, k, p) && IK.IsKey(k)
    requires forall j :: 0 <= j < |t.parts[p].kvs| ==> o.rank(t.parts[p].kvs[j].key) < o.rank(k)
    ensures forall i :: IsFirst(o.rank, t.entries, k, i) ==> Delivered(o.order, t.entries, k, i, None)
  {
    hide Separates, Succeeds, NeverRejects, Cut, SepsOk, IndexOk, PartOk, PartsOk, FilterPartOk, FooterOk, IK.Lifts;
    hide Rising;
    var n := t.cuts[p + 1];
    forall j | 0 <= j < n ensures o.rank(t.entries[j].key) < o.rank(k) {
      if j >= t.cuts[p] { assert t.parts[p].kvs[j - t.cuts[p]] == t.entries[j]; }
    }
    SepIsBeforeNext(o, t.entries, n, t.seps[p]);
    forall i | IsFirst(o.rank, t.entries, k, i) ensures Delivered(o.order, t.entries, k, i, None) {
      if n < |t.entries| {
        assert IsFirst(o.rank, t.entries, k, n);
        FirstIsUnique(o.rank, t.entries, k, i, n);
        NextIsAnotherKey(o, t.entries, n, t.seps[p], k);
      }
    }
  }

  lemma SepIsBeforeNext(o: Options, entries: seq<Pair>, cut: nat, sep: Bytes)
    requires SepOk(o, entries, cut, sep)
    ensures cut < |entries| ==> o.rank(sep) < o.rank(entries[cut].key)
  {
  }

  /** A rejected block does not hold k's user key. */
  lemma RejectedIsAbsent(o: Options, file: Bytes, t: Image, filter: Option<Reader>, k: Bytes, p: nat)
    requires Sound(o) && IsTable(o, file, t) && Addressable(file, t) && Selected(o, t, k, p) && IK.IsKey(k)
    requires FilterIs(filter, t) && filter.Some? && o.policy.Some?
    requires !KeyMayMatch(o.policy.value, filter.value, t.parts[p].handle.offset, k)
    ensures forall i :: IsFirst(o.rank, t.entries, k, i) ==> Delivered(o.order, t.entries, k, i, None)
  {
    hide KeyMayMatch, OpenFilter, IsTable, Sound, Addressable, IsFirst, Delivered, SepOk;
    forall i: nat | IsFirst(o.rank, t.entries, k, i) ensures Delivered(o.order, t.entries, k, i, None) {
      if i < |t.entries| && o.order(IK.UserPart(t.entries[i].key)) == o.order(IK.UserPart(k)) {
        FirstIsInBlock(o, file, t, k, p, i);
        NotRejected(o, file, t, k, p, i - t.cuts[p]);
        assert false;
      }
      NothingDelivered(o.order, t.entries, k, i);
    }
  }

  lemma NothingDelivered(order: Order, entries: seq<Pair>, k: Bytes, i: nat)
    requires !(i < |entries| && order(IK.UserPart(entries[i].key)) == order(IK.UserPart(k)))
    ensures Delivered(order, entries, k, i, None)
  {
  }

  /** The first entry at or after k is in the selected block when it has k's user key. */
  lemma FirstIsInBlock(o: Options, file: Bytes, t: Image, k: Bytes, p: nat, i: nat)
    requires Sound(o) && IsTable(o, file, t) && Selected(o, t, k, p) && IK.IsKey(k)
    requires IsFirst(o.rank, t.entries, k, i) && i < |t.entries|
    requires o.order(IK.UserPart(t.entries[i].key)) == o.order(IK.UserPart(k))
    ensures t.cuts[p] <= i < t.cuts[p + 1] && t.parts[p].kvs[i - t.cuts[p]] == t.entries[i]
  {
    hide Separates, Succeeds, NeverRejects, Cut, SepsOk, IndexOk, PartOk, PartsOk, FilterPartOk, FooterOk, IK.Lifts;
    hide Rising, SepOk;
    var n := t.cuts[p + 1];
    if i >= n {
      SepIsBeforeNext(o, t.entries, n, t.seps[p]);
      assert n == i by { FirstByNext(o.rank, t.entries, k, i, n, t.seps[p]); }
      LastIsBefore(o.rank, t.entries, k, n);
      NextIsAnotherKey(o, t.entries, n, t.seps[p], k);
    }
  }

  lemma LastIsBefore(rank: Order, entries: seq<Pair>, k: Bytes, n: nat)
    requires IsFirst(rank, entries, k, n) && 0 < n
    ensures rank(entries[n - 1].key) < rank(k)
  {
  }

  lemma FirstByNext(rank: Order, entries: seq<Pair>, k: Bytes, i: nat, n: nat, sep: Bytes)
    requires IsFirst(rank, entries, k, i) && n <= i < |entries| && rank(k) <= rank(sep) < rank(entries[n].key)
    ensures n == i
  {
  }

  lemma NotRejected(o: Options, file: Bytes, t: Image, k: Bytes, p: nat, j: nat)
    requires Sound(o) && IsTable(o, file, t) && Addressable(file, t) && t.filter.Some? && o.policy.Some?
    requires p < |t.parts| && j < |t.parts[p].kvs|
    requires o.order(IK.UserPart(t.parts[p].kvs[j].key)) == o.order(IK.UserPart(k))
    ensures KeyMayMatch(o.policy.value, OpenFilter(t.filter.value.contents), t.parts[p].handle.offset, k)
  {
    hide KeyMayMatch, OpenFilter, HoldsFilters, PartOk, PartsOk, SepsOk, Cut, IsEntries, FooterOk, IndexOk, Separates, Succeeds, IK.Lifts;
    hide NeverRejects, Stored, IK.UserPart;
    var f := t.filter.value;
    assert PartFiltered(f.filters, t.parts[p]);
    var offset, key := t.parts[p].handle.offset, t.parts[p].kvs[j].key;
    assert InFilter(f.filters, offset, key);
    var x: nat :| x < |f.filters[offset / BASE]| && f.filters[offset / BASE][x] == key;
    NoFalseNegatives(o.order, o.policy.value, f.contents, f.filters, offset, x, k);
  }

  /** When every index key is before k, so is every entry. */
  lemma NothingSelected(o: Options, file: Bytes, t: Image, k: Bytes)
    requires IsTable(o, file, t)
    requires forall j :: 0 <= j < |t.index.kvs| ==> o.rank(t.index.kvs[j].key) < o.rank(k)
    ensures forall i :: IsFirst(o.rank, t.entries, k, i) ==> Delivered(o.order, t.entries, k, i, None)
  {
    hide PartOk, FilterPartOk, FooterOk, SepOk;
    var n := |t.parts|;
    if n > 0 {
      assert t.index.kvs[n - 1].key == t.seps[n - 1] && SepOk(o, t.entries, t.cuts[n], t.seps[n - 1]);
      BlockBefore(o, t.entries, t.cuts[n], t.seps[n - 1], k);
    }
    forall i | IsFirst(o.rank, t.entries, k, i) ensures i == |t.entries| { }
  }

  // ---- Opening ----

  /** The footer leads to the index and the metaindex, and that to the filter. */
  method Open(o: Options, file: Bytes, verify: bool, ghost image: Image) returns (t: Table)
    requires Sound(o) && IsTable(o, file, image) && Addressable(file, image)
    ensures fresh(t) && t.Valid() && t.image == image && t.o == o
  {
    hide Sound, IsTable, Addressable, BlockIs, PartOk, LiesAt, FilterIs;
    FooterLeads(o, file, image);
    var footer := DecodeFooter(file[|file| - FOOTER..]);
    var index := OpenPart(o.crc, verify, file, footer.value.1, image.index);
    var filter := None;
    if o.policy.Some? {
      var meta := OpenPart(o.crc, verify, file, footer.value.0, image.meta);
      filter := ReadMeta(o, file, verify, meta, image);
    }
    NoPolicyNoFilter(o, file, image, filter);
    t := new Table(o, file, verify, index, filter, image);
  }

  method ReadMeta(o: Options, file: Bytes, verify: bool, meta: OpenedBlock, ghost image: Image) returns (filter: Option<Reader>)
    requires IsTable(o, file, image) && Addressable(file, image) && BlockIs(meta, image.meta) && o.policy.Some?
    ensures filter.Some? && FilterIs(filter, image)
  {
    hide IsTable, Addressable, BlockIs, LiesAt, FilterKey, OpenFilter, HoldsFilters, Bytewise;
    MetaLeads(o, file, image);
    var key := FilterKey(o.policyName);
    var iter := NewIterator(meta, Bytewise, image.meta);
    iter.Seek(key);
    assert iter.kvs[0].key == key;
    if !iter.Valid() { assert false; }
    var found := iter.Key();
    if found != key { assert false; }
    var v := iter.Value();
    var h := DecodeHandle(v);
    FilterIsRead(o, file, verify, image);
    var block := ReadBlock(o.crc, verify, file, h.value.0);
    filter := Some(OpenFilter(block.value));
  }

  lemma FooterLeads(o: Options, file: Bytes, t: Image)
    requires IsTable(o, file, t) && Addressable(file, t)
    ensures |file| >= FOOTER && DecodeFooter(file[|file| - FOOTER..]) == Some((t.meta.handle, t.index.handle))
    ensures PartOk(o.crc, file, t.index) && PartOk(o.crc, file, t.meta)
    ensures t.index.handle.size < TWO32 && t.meta.handle.size < TWO32
  {
    hide PartOk, FilterPartOk, EncodeFooter, DecodeFooter, Cut, SepsOk, IsEntries, PartsOk;
    HandleIsNarrow(o, file, t.index);
    HandleIsNarrow(o, file, t.meta);
    FooterRoundTrip(t.meta.handle, t.index.handle);
  }

  lemma NoPolicyNoFilter(o: Options, file: Bytes, t: Image, filter: Option<Reader>)
    requires IsTable(o, file, t) && (if o.policy.Some? then FilterIs(filter, t) else filter.None?)
    ensures FilterIs(filter, t)
  {
    hide PartOk, Cut, SepsOk, IsEntries, PartsOk, LiesAt, HoldsFilters, Filtered, FooterOk, IndexOk;
  }

  lemma MetaLeads(o: Options, file: Bytes, t: Image)
    requires IsTable(o, file, t) && Addressable(file, t) && o.policy.Some?
    ensures t.filter.Some? && t.meta.kvs == [Pair(FilterKey(o.policyName), EncodeHandle(t.filter.value.handle))]
    ensures Rising(Bytewise, t.meta.kvs)
    ensures DecodeHandle(EncodeHandle(t.filter.value.handle)) == Some((t.filter.value.handle, []))
  {
    hide PartOk, Cut, SepsOk, IsEntries, PartsOk, HoldsFilters, Filtered, FooterOk, IndexOk, EncodeHandle, DecodeHandle, Bytewise, Stored;
    var h := t.filter.value.handle;
    HandleRoundTrip(h, []);
    assert EncodeHandle(h) + [] == EncodeHandle(h);
  }

  lemma FilterIsRead(o: Options, file: Bytes, verify: bool, t: Image)
    requires IsTable(o, file, t) && o.policy.Some?
    ensures t.filter.Some? && ReadBlock(o.crc, verify, file, t.filter.value.handle) == Some(t.filter.value.contents)
  {
    hide PartOk, Cut, SepsOk, IsEntries, PartsOk, HoldsFilters, Filtered, FooterOk, IndexOk, LiesAt, ReadBlock;
    StoredIsRead(o.crc, verify, file, t.filter.value.handle, t.filter.value.contents);
  }
}
