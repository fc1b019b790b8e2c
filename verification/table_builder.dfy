/** Writing a table file entry by entry (table/table_builder.cc). */
module TableBuilders {
  import opened Bytestrings
  import opened Coding
  import opened Blocks
  import opened BlockIters
  import opened Comparators
  import opened FilterBlocks
  import opened TableFormat
  import opened TableImages
  import IK = InternalKeys

  /** What was added, and how it is split into written blocks; the entries after the last cut are still in the open block. */
  datatype Work = Work(entries: seq<Pair>, cuts: seq<nat>, parts: seq<Part>, seps: seq<Bytes>)

  /** The open block's entries. */
  ghost function Open(w: Work): seq<Pair> {
    if 0 < |w.cuts| && w.cuts[|w.cuts| - 1] <= |w.entries| then w.entries[w.cuts[|w.cuts| - 1]..] else []
  }

  ghost predicate WorkOk(o: Options, w: Work) {
    IsEntries(o, w.entries) && Cut(w.entries, w.cuts, w.parts) && SepsOk(o, w.entries, w.cuts, w.seps)
  }

  /** The index entry of a written block waits for the next key. */
  ghost predicate PendingOk(w: Work, pending: bool) {
    && |w.seps| + (if pending then 1 else 0) == |w.parts|
    && (pending <==> w.parts != [] && Open(w) == [])
  }

  /** The filters made so far and the one that is growing. */
  ghost function All(filters: seq<seq<Bytes>>, pending: seq<Bytes>): seq<seq<Bytes>> {
    filters + [pending]
  }

  ghost predicate FiltersOk(w: Work, offset: nat, filters: seq<seq<Bytes>>, pending: seq<Bytes>) {
    && |filters| == offset / BASE
    && Filtered(All(filters, pending), w.parts)
    && forall j :: 0 <= j < |Open(w)| ==> Open(w)[j].key in pending
  }

  // ---- Adding an entry ----

  ghost function Added(w: Work, e: Pair): Work {
    w.(entries := w.entries + [e])
  }

  ghost predicate IsNext(o: Options, w: Work, e: Pair) {
    IK.IsKey(e.key) && (w.entries != [] ==> o.rank(w.entries[|w.entries| - 1].key) < o.rank(e.key))
  }

  lemma {:induction false} EntryAdded(o: Options, w: Work, e: Pair)
    requires WorkOk(o, w) && IsNext(o, w, e) && PendingOk(w, false)
    ensures WorkOk(o, Added(w, e)) && PendingOk(Added(w, e), false) && Open(Added(w, e)) == Open(w) + [e]
  {
    hide SepOk;
    var t := Added(w, e);
    forall i | 0 <= i < |w.entries| ensures o.rank(w.entries[i].key) < o.rank(e.key) {
      assert i < |w.entries| - 1 ==> o.rank(w.entries[i].key) < o.rank(w.entries[|w.entries| - 1].key);
    }
    forall i | 0 <= i < |w.parts| ensures CutAt(t.entries, t.cuts, t.parts, i) {
      assert CutAt(w.entries, w.cuts, w.parts, i);
    }
    forall i | 0 <= i < |w.seps| ensures SepOk(o, t.entries, t.cuts[i + 1], t.seps[i]) {
      SepStays(o, w, e, i);
    }
  }

  lemma {:induction false} SepStays(o: Options, w: Work, e: Pair, i: nat)
    requires WorkOk(o, w) && IsNext(o, w, e) && PendingOk(w, false) && i < |w.seps|
    ensures SepOk(o, Added(w, e).entries, w.cuts[i + 1], w.seps[i])
  {
    hide SepOk;
    CutsRise(w.entries, w.cuts, w.parts, i + 1, |w.parts|);
    assert w.cuts[i + 1] < |w.entries|;
    SepOkLater(o, w.entries, e, w.cuts[i + 1], w.seps[i]);
  }

  /** The first entry of a block: the index key of the block before it comes between. */
  lemma {:induction false} SepAdded(o: Options, w: Work, e: Pair)
    requires Sound(o) && WorkOk(o, w) && PendingOk(w, true) && IsNext(o, w, e)
    ensures w.entries != [] && IK.IsKey(w.entries[|w.entries| - 1].key)
    ensures var sep := IK.FindShortestSeparator(o.order, o.sep, w.entries[|w.entries| - 1].key, e.key);
      var t := Added(w, e).(seps := w.seps + [sep]);
      && WorkOk(o, t) && PendingOk(t, false) && Open(t) == [e] && |t.seps| == |w.parts|
  {
    hide SepOk, Separates, Succeeds, NeverRejects, IK.FindShortestSeparator, IK.UserPart, IK.TagPart, IK.KeyLess;
    LastCut(o, w);
    var n := |w.entries|;
    var last := w.entries[n - 1].key;
    var sep := IK.FindShortestSeparator(o.order, o.sep, last, e.key);
    SepBetween(o, last, e.key);
    var t := Added(w, e).(seps := w.seps + [sep]);
    forall i | 0 <= i < n ensures o.rank(w.entries[i].key) < o.rank(e.key) {
      assert i < n - 1 ==> o.rank(w.entries[i].key) < o.rank(last);
    }
    forall i | 0 <= i < |w.parts| ensures CutAt(t.entries, t.cuts, t.parts, i) {
      assert CutAt(w.entries, w.cuts, w.parts, i);
    }
    assert t.entries[n - 1].key == last && t.entries[n].key == e.key;
    assert SepIsShort(o, t.entries, n, sep);
    forall i | 0 <= i < |t.seps| ensures SepOk(o, t.entries, t.cuts[i + 1], t.seps[i]) {
      if i < |w.seps| {
        EarlierSepStays(o, w, e, i);
      } else {
        NewSepOk(o, t.entries, n, sep);
      }
    }
  }

  lemma LastCut(o: Options, w: Work)
    requires WorkOk(o, w) && PendingOk(w, true)
    ensures w.entries != [] && w.cuts[|w.parts|] == |w.entries| && IK.IsKey(w.entries[|w.entries| - 1].key)
  {
    hide Rising, SepsOk;
    assert CutAt(w.entries, w.cuts, w.parts, |w.parts| - 1);
    assert |Open(w)| == |w.entries| - w.cuts[|w.parts|];
  }

  lemma {:induction false} EarlierSepStays(o: Options, w: Work, e: Pair, i: nat)
    requires WorkOk(o, w) && PendingOk(w, true) && i < |w.seps|
    ensures SepOk(o, Added(w, e).entries, w.cuts[i + 1], w.seps[i])
  {
    hide SepOk;
    CutsRise(w.entries, w.cuts, w.parts, i + 1, |w.parts|);
    SepOkLater(o, w.entries, e, w.cuts[i + 1], w.seps[i]);
  }

  lemma SepBetween(o: Options, last: Bytes, key: Bytes)
    requires Sound(o) && IK.IsKey(last) && IK.IsKey(key) && o.rank(last) < o.rank(key)
    ensures var sep := IK.FindShortestSeparator(o.order, o.sep, last, key);
      && IK.IsKey(sep) && o.rank(last) <= o.rank(sep) < o.rank(key)
      && (sep == last || o.order(IK.UserPart(sep)) < o.order(IK.UserPart(key)))
  {
    hide Separates, Succeeds, NeverRejects, IK.FindShortestSeparator, IK.UserPart, IK.KeyLess;
    IK.SeparatorLies(o.order, o.sep, last, key);
  }

  lemma NewSepOk(o: Options, entries: seq<Pair>, n: nat, sep: Bytes)
    requires 0 < n < |entries| && IK.IsKey(sep)
    requires o.rank(entries[n - 1].key) <= o.rank(sep) < o.rank(entries[n].key)
    requires sep == entries[n - 1].key || o.order(IK.UserPart(sep)) < o.order(IK.UserPart(entries[n].key))
    requires SepIsShort(o, entries, n, sep)
    ensures SepOk(o, entries, n, sep)
  {
    hide SepIsShort;
  }

  lemma SepOkLater(o: Options, entries: seq<Pair>, e: Pair, cut: nat, sep: Bytes)
    requires SepOk(o, entries, cut, sep) && cut < |entries|
    ensures SepOk(o, entries + [e], cut, sep)
  {
    hide IK.FindShortestSeparator, IK.FindShortSuccessor, IK.UserPart;
    assert (entries + [e])[cut - 1] == entries[cut - 1] && (entries + [e])[cut] == entries[cut];
  }

  lemma IndexGrows(seps: seq<Bytes>, parts: seq<Part>, sep: Bytes)
    requires |seps| < |parts|
    ensures IndexPairs(seps + [sep], parts) == IndexPairs(seps, parts) + [Pair(sep, EncodeHandle(parts[|seps|].handle))]
  {
    hide EncodeHandle;
  }

  /** More parts do not change the index so far. */
  lemma IndexStays(seps: seq<Bytes>, parts: seq<Part>, p: Part)
    requires |seps| <= |parts|
    ensures IndexPairs(seps, parts + [p]) == IndexPairs(seps, parts)
  {
    hide EncodeHandle;
  }

  // ---- Closing a block ----

  ghost function Closed(w: Work, p: Part): Work {
    w.(cuts := w.cuts + [|w.entries|], parts := w.parts + [p])
  }

  lemma {:induction false} BlockClosed(o: Options, w: Work, p: Part)
    requires WorkOk(o, w) && PendingOk(w, false) && Open(w) != [] && p.kvs == Open(w)
    ensures WorkOk(o, Closed(w, p)) && PendingOk(Closed(w, p), true) && Open(Closed(w, p)) == []
  {
    hide SepOk;
    var t := Closed(w, p);
    forall i | 0 <= i < |t.parts| ensures CutAt(t.entries, t.cuts, t.parts, i) {
      if i < |w.parts| { assert CutAt(w.entries, w.cuts, w.parts, i); }
    }
    forall i | 0 <= i < |t.seps| ensures SepOk(o, t.entries, t.cuts[i + 1], t.seps[i]) {
      assert SepOk(o, w.entries, w.cuts[i + 1], w.seps[i]);
    }
  }

  // ---- Filters while the file grows ----

  ghost predicate Grows(a: seq<seq<Bytes>>, b: seq<seq<Bytes>>) {
    |a| <= |b| && forall i :: 0 <= i < |a| ==> a[i] <= b[i]
  }

  lemma InFilterStays(a: seq<seq<Bytes>>, b: seq<seq<Bytes>>, offset: nat, key: Bytes)
    requires Grows(a, b) && InFilter(a, offset, key)
    ensures InFilter(b, offset, key)
  {
    var i := offset / BASE;
    assert a[i] <= b[i];
    var x: nat :| x < |a[i]| && a[i][x] == key;
    assert b[i][x] == key;
  }

  lemma FilteredStays(a: seq<seq<Bytes>>, b: seq<seq<Bytes>>, parts: seq<Part>)
    requires Grows(a, b) && Filtered(a, parts)
    ensures Filtered(b, parts)
  {
    hide InFilter;
    forall i | 0 <= i < |parts| ensures PartFiltered(b, parts[i]) {
      assert PartFiltered(a, parts[i]);
      forall j | 0 <= j < |parts[i].kvs| ensures InFilter(b, parts[i].handle.offset, parts[i].kvs[j].key) {
        InFilterStays(a, b, parts[i].handle.offset, parts[i].kvs[j].key);
      }
    }
  }

  /** A key more in the open block and in the growing filter. */
  lemma {:induction false} KeyFiltered(w: Work, t: Work, offset: nat, filters: seq<seq<Bytes>>, pending: seq<Bytes>, e: Pair)
    requires FiltersOk(w, offset, filters, pending) && t.parts == w.parts && Open(t) == Open(w) + [e]
    ensures FiltersOk(t, offset, filters, pending + [e.key])
  {
    hide Filtered, Open;
    assert Grows(All(filters, pending), All(filters, pending + [e.key]));
    FilteredStays(All(filters, pending), All(filters, pending + [e.key]), w.parts);
    forall j | 0 <= j < |Open(t)| ensures Open(t)[j].key in pending + [e.key] {
      if j < |Open(w)| { assert Open(w)[j].key in pending; }
    }
  }

  /** The closed block's keys are in the filter its offset selects, before and after the filters move on. */
  lemma {:induction false} BlockFiltered(w: Work, p: Part, offset: nat, offset': nat, filters: seq<seq<Bytes>>, pending: seq<Bytes>,
                        filters': seq<seq<Bytes>>, pending': seq<Bytes>)
    requires FiltersOk(w, offset, filters, pending) && p.kvs == Open(w) && p.handle.offset == offset
    requires |filters'| == offset' / BASE && |filters'| >= |filters| && filters'[..|filters|] == filters
    requires if |filters'| == |filters| then pending' == pending else pending' == [] && filters'[|filters|] == pending
    requires Open(Closed(w, p)) == []
    ensures FiltersOk(Closed(w, p), offset', filters', pending')
  {
    hide Open, Filtered;
    var a, b := All(filters, pending), All(filters', pending');
    forall i | 0 <= i < |a| ensures a[i] <= b[i] {
      if i < |filters| { assert filters'[..|filters|][i] == filters[i]; }
    }
    assert Grows(a, b);
    assert PartFiltered(a, p);
    PartsFiltered(a, w.parts, p);
    FilteredStays(a, b, w.parts + [p]);
  }

  lemma {:induction false} PartsFiltered(a: seq<seq<Bytes>>, parts: seq<Part>, p: Part)
    requires Filtered(a, parts) && PartFiltered(a, p)
    ensures Filtered(a, parts + [p])
  {
    hide PartFiltered;
  }

  /** An empty growing filter is not written, and nothing was in it. */
  lemma {:induction false} FinalFilters(w: Work, offset: nat, filters: seq<seq<Bytes>>, pending: seq<Bytes>)
    requires FiltersOk(w, offset, filters, pending)
    ensures Filtered(if pending == [] then filters else filters + [pending], w.parts)
  {
    hide Open;
    if pending == [] {
      forall i | 0 <= i < |w.parts| ensures PartFiltered(filters, w.parts[i]) {
        assert PartFiltered(All(filters, pending), w.parts[i]);
      }
    }
  }

  // ---- The builder ----

  lemma EmptyBuffer(b: Bytes, kvs: seq<Pair>, restarts: seq<nat>, l: Layout)
    requires Laid(b, kvs, restarts, l)
    ensures b == [] <==> kvs == []
  {
    if kvs != [] {
      assert EntryLaid(b, kvs, l, |kvs| - 1);
      EntrySize(l.shs[|kvs| - 1], kvs[|kvs| - 1]);
    }
  }

  lemma {:induction false} PartsStay(o: Options, file: Bytes, more: Bytes, parts: seq<Part>)
    requires PartsOk(o.crc, file, parts)
    ensures PartsOk(o.crc, file + more, parts)
  {
    hide Laid, LiesAt, Finished;
    forall i | 0 <= i < |parts| ensures PartOk(o.crc, file + more, parts[i]) {
      PartStays(o, file, more, parts[i]);
    }
  }

  lemma {:induction false} PartsGrow(o: Options, file: Bytes, parts: seq<Part>, p: Part)
    requires PartsOk(o.crc, file, parts) && PartOk(o.crc, file, p)
    ensures PartsOk(o.crc, file, parts + [p])
  {
    hide PartOk;
  }

  lemma PartStays(o: Options, file: Bytes, more: Bytes, p: Part)
    requires PartOk(o.crc, file, p)
    ensures PartOk(o.crc, file + more, p)
  {
    hide Laid, LiesAt, Finished;
    StaysAt(o.crc, file, more, p.handle, Finished(p.buffer, p.restarts));
  }

  /** The last block's index key may be any short key not before its last entry. */
  lemma {:induction false} LastSepAdded(o: Options, w: Work)
    requires Sound(o) && WorkOk(o, w) && PendingOk(w, true)
    ensures w.entries != [] && IK.IsKey(w.entries[|w.entries| - 1].key) && |w.seps| + 1 == |w.parts|
    ensures var sep := IK.FindShortSuccessor(o.order, o.succ, w.entries[|w.entries| - 1].key);
      SepsOk(o, w.entries, w.cuts, w.seps + [sep])
  {
    hide SepOk, Separates, Succeeds, NeverRejects, IK.FindShortSuccessor, IK.KeyLess, Rising;
    LastCut(o, w);
    var last := w.entries[|w.entries| - 1].key;
    var sep := IK.FindShortSuccessor(o.order, o.succ, last);
    IK.SuccessorLies(o.order, o.succ, last);
    assert SepIsShort(o, w.entries, |w.entries|, sep);
    LastSepOk(o, w.entries, sep);
    forall i | 0 <= i < |w.seps| + 1 ensures SepOk(o, w.entries, w.cuts[i + 1], (w.seps + [sep])[i]) {
      assert i < |w.seps| ==> SepOk(o, w.entries, w.cuts[i + 1], w.seps[i]);
    }
  }

  lemma LastSepOk(o: Options, entries: seq<Pair>, sep: Bytes)
    requires entries != [] && IK.IsKey(sep) && o.rank(entries[|entries| - 1].key) <= o.rank(sep)
    requires SepIsShort(o, entries, |entries|, sep)
    ensures SepOk(o, entries, |entries|, sep)
  {
    hide SepIsShort;
  }

  lemma NothingYet(o: Options)
    ensures var w := Work([], [0], [], []);
      && WorkOk(o, w) && PendingOk(w, false) && PartsOk(o.crc, [], []) && Open(w) == [] && IndexPairs([], []) == []
      && forall filters: seq<seq<Bytes>> :: |filters| == 0 ==> FiltersOk(w, 0, filters, [])
  {
  }

  class TableBuilder {
    const o: Options
    const data: BlockBuilder
    const index: BlockBuilder
    const filter: FilterBlockBuilder?
    var file: Bytes
    var offset: nat
    var lastKey: Bytes
    var pendingIndexEntry: bool
    var pendingHandle: Handle
    ghost var w: Work

    ghost function Footprint(): set<object>
      reads this
    {
      {this, data, index} + if filter == null then {} else {filter}
    }

    ghost predicate Valid()
      reads Footprint()
    {
      && data != index && data.Valid() && index.Valid() && Sound(o)
      && offset == |file| && WorkOk(o, w) && PendingOk(w, pendingIndexEntry) && PartsOk(o.crc, file, w.parts)
      && data.kvs == Open(w) && index.kvs == IndexPairs(w.seps, w.parts)
      && (w.entries != [] ==> lastKey == w.entries[|w.entries| - 1].key)
      && (pendingIndexEntry ==> pendingHandle == w.parts[|w.parts| - 1].handle)
      && FilterValid(w)
    }

    ghost predicate FilterValid(w: Work)
      reads this`offset, filter
    {
      && (o.policy.Some? <==> filter != null)
      && (filter != null ==>
            filter.Valid() && filter.policy == o.policy.value && FiltersOk(w, offset, filter.filters, filter.pending))
    }

    constructor (o: Options)
      requires Sound(o)
      ensures Valid() && fresh(Footprint()) && w.entries == [] && this.o == o
    {
      hide Regular, Compressed, WorkOk, PendingOk, PartsOk, FiltersOk, Sound, Open, IndexPairs, Laid, Generated, Flat;
      NothingYet(o);
      IntervalOk(o);
      var f: FilterBlockBuilder? := null;
      if o.policy.Some? {
        f := new FilterBlockBuilder(o.policy.value);
        f.StartBlock(0);
      }
      this.o, filter := o, f;
      data := new BlockBuilder(o.interval);
      index := new BlockBuilder(1);
      file, offset, lastKey, pendingIndexEntry, pendingHandle := [], 0, [], false, Handle(0, 0);
      w := Work([], [0], [], []);
    }

    /** WriteRawBlock. */
    method WriteRaw(contents: Bytes) returns (h: Handle)
      requires offset == |file|
      modifies `file, `offset
      ensures h == Handle(old(offset), |contents|) && file == old(file) + Stored(o.crc, contents) && offset == |file|
      ensures LiesAt(o.crc, file, h, contents)
    {
      hide Stored;
      h := Handle(offset, |contents|);
      NewLiesAt(o.crc, file, contents);
      file := file + Stored(o.crc, contents);
      offset := offset + |contents| + TRAILER;
    }

    method WriteBlock(block: BlockBuilder) returns (h: Handle, ghost p: Part)
      requires offset == |file| && block.Valid()
      modifies `file, `offset, block
      ensures block.Valid() && block.kvs == [] && offset == |file| > |old(file)| && old(file) <= file
      ensures p.kvs == old(block.kvs) && p.handle == h && h.offset == old(offset) && PartOk(o.crc, file, p)
      ensures |file| == |old(file)| + old(block.SizeEstimate()) + TRAILER
    {
      hide Regular, Compressed, Laid, Stored, Finished, LiesAt;
      FinishedSize(block.buffer, block.restarts);
      var raw := block.Finish();
      ghost var kvs, buffer, restarts, layout := block.kvs, block.buffer, block.restarts, block.layout;
      h := WriteRaw(raw);
      p := Part(kvs, buffer, restarts, layout, h);
      block.Reset();
    }

    method Flush()
      requires Valid()
      modifies Footprint()
      ensures Valid() && w.entries == old(w.entries) && Open(w) == [] && Footprint() == old(Footprint())
      ensures if old(data.buffer) == [] then file == old(file) else |file| == |old(file)| + old(data.SizeEstimate()) + TRAILER
    {
      hide Regular, Compressed, Laid, Stored, Finished, LiesAt, WorkOk, PartsOk, Sound, FiltersOk, Open;
      EmptyBuffer(data.buffer, data.kvs, data.restarts, data.layout);
      if data.buffer == [] {
        return;
      }
      NotPending(w, pendingIndexEntry);
      ghost var was, oldFile := w, file;
      ghost var p;
      pendingHandle, p := WriteBlock(data);
      pendingIndexEntry := true;
      BlockClosed(o, w, p);
      assert file == oldFile + file[|oldFile|..];
      PartsStay(o, oldFile, file[|oldFile|..], w.parts);
      PartsGrow(o, file, w.parts, p);
      IndexStays(w.seps, w.parts, p);
      w := Closed(w, p);
      if filter != null {
        FilterCountOk(was, p.handle.offset, filter.filters, filter.pending, offset);
        ghost var fs, ps := filter.filters, filter.pending;
        filter.StartBlock(offset);
        BlockFiltered(was, p, p.handle.offset, offset, fs, ps, filter.filters, filter.pending);
      }
    }

    /** The index entry of the last block, once the next key is known. */
    method AddIndexEntry(key: Bytes)
      requires pendingIndexEntry && index.Valid() && w.entries != [] && IK.IsKey(lastKey) && IK.IsKey(key)
      requires |w.seps| + 1 == |w.parts| && index.kvs == IndexPairs(w.seps, w.parts) && pendingHandle == w.parts[|w.parts| - 1].handle
      modifies index, `lastKey, `pendingIndexEntry
      ensures index.Valid() && !pendingIndexEntry && lastKey == IK.FindShortestSeparator(o.order, o.sep, old(lastKey), key)
      ensures index.kvs == IndexPairs(w.seps + [lastKey], w.parts)
    {
      hide Regular, Compressed, EncodeHandle, IK.FindShortestSeparator;
      lastKey := IK.FindShortestSeparator(o.order, o.sep, lastKey, key);
      IndexGrows(w.seps, w.parts, lastKey);
      index.Add(Pair(lastKey, EncodeHandle(pendingHandle)));
      pendingIndexEntry := false;
    }

    /** The part of Add that takes the entry into the open block. */
    method AddToBlock(key: Bytes, val: Bytes)
      requires Valid() && IsNext(o, w, Pair(key, val))
      modifies Footprint()
      ensures Valid() && w.entries == old(w.entries) + [Pair(key, val)] && Footprint() == old(Footprint())
      ensures file == old(file)
    {
      hide Regular, Compressed, Laid, Stored, LiesAt, WorkOk, PartsOk, Sound, FiltersOk, Generated, Flat, Open, IK.FindShortestSeparator;
      ghost var e, was := Pair(key, val), w;
      if pendingIndexEntry {
        SepAdded(o, w, e);
        AddIndexEntry(key);
        w := Added(w, e).(seps := w.seps + [lastKey]);
      } else {
        EntryAdded(o, w, e);
        w := Added(w, e);
      }
      AddFilterKey(was, w, Pair(key, val));
      lastKey := key;
      data.Add(Pair(key, val));
    }

    /** The key goes into the filter that is growing. */
    method AddFilterKey(ghost was: Work, ghost now: Work, e: Pair)
      requires FilterValid(was) && now.parts == was.parts && Open(now) == Open(was) + [e]
      modifies if filter == null then {} else {filter}
      ensures FilterValid(now)
    {
      hide FiltersOk, Open, Generated, Flat;
      if filter != null {
        KeyFiltered(was, now, offset, filter.filters, filter.pending, e);
        filter.AddKey(e.key);
      }
    }

    /**
     * Keys must rise; the entry is in the table from now on. The open block stays below the block size, and a block is
     * written only when it has reached it.
     */
    method Add(key: Bytes, val: Bytes)
      requires Valid() && IsNext(o, w, Pair(key, val))
      modifies Footprint()
      ensures Valid() && w.entries == old(w.entries) + [Pair(key, val)] && Footprint() == old(Footprint())
      ensures Open(w) == [] || data.SizeEstimate() < o.blockSize
      ensures file == old(file) || |file| >= |old(file)| + o.blockSize + TRAILER
    {
      hide Valid, Open;
      AddToBlock(key, val);
      if data.SizeEstimate() >= o.blockSize {
        Flush();
      }
    }

    method WriteFilter() returns (h: Handle, ghost f: Option<FilterPart>)
      requires Valid()
      modifies `file, `offset, if filter == null then {} else {filter}
      ensures offset == |file| && old(file) <= file
      ensures if filter == null then o.policy.None? && f.None? && file == old(file) else
                && o.policy.Some? && f.Some? && f.value.handle == h && LiesAt(o.crc, file, h, f.value.contents)
                && HoldsFilters(o.policy.value, f.value.contents, f.value.filters) && Filtered(f.value.filters, w.parts)
    {
      hide Regular, Compressed, Laid, Stored, LiesAt, WorkOk, PartsOk, PendingOk, Sound, FiltersOk, Open, HoldsFilters, Filtered;
      h, f := Handle(0, 0), None;
      if filter != null {
        FinalFilters(w, offset, filter.filters, filter.pending);
        var contents;
        ghost var fs;
        contents, fs := filter.Finish();
        h := WriteRaw(contents);
        f := Some(FilterPart(h, contents, fs));
      }
    }

    method WriteMeta(filterHandle: Handle) returns (h: Handle, ghost p: Part)
      requires offset == |file| && o.interval >= 1
      modifies `file, `offset
      ensures offset == |file| && old(file) <= file && PartOk(o.crc, file, p) && p.handle == h
      ensures p.kvs == if filter == null then [] else [Pair(FilterKey(o.policyName), EncodeHandle(filterHandle))]
    {
      hide Regular, Compressed, Laid, PartOk, FilterKey, EncodeHandle;
      var meta := new BlockBuilder(o.interval);
      if filter != null {
        meta.Add(Pair(FilterKey(o.policyName), EncodeHandle(filterHandle)));
      }
      h, p := WriteBlock(meta);
    }

    method WriteIndex() returns (h: Handle, ghost p: Part, ghost seps: seq<Bytes>)
      requires WorkOk(o, w) && PendingOk(w, pendingIndexEntry) && Open(w) == [] && Sound(o) && offset == |file|
      requires index.Valid() && index.kvs == IndexPairs(w.seps, w.parts)
      requires w.entries != [] ==> lastKey == w.entries[|w.entries| - 1].key
      requires pendingIndexEntry ==> pendingHandle == w.parts[|w.parts| - 1].handle
      modifies `file, `offset, `lastKey, `pendingIndexEntry, index
      ensures offset == |file| && old(file) <= file && PartOk(o.crc, file, p) && p.handle == h
      ensures |seps| == |w.parts| && p.kvs == IndexPairs(seps, w.parts) && SepsOk(o, w.entries, w.cuts, seps)
    {
      hide Regular, Compressed, Laid, PartOk, WorkOk, Sound, PendingOk, Open, SepsOk;
      hide IK.FindShortSuccessor, EncodeHandle, IndexPairs;
      seps := w.seps;
      NothingOpen(o, w, pendingIndexEntry);
      if pendingIndexEntry {
        LastSepAdded(o, w);
        lastKey := IK.FindShortSuccessor(o.order, o.succ, lastKey);
        IndexGrows(w.seps, w.parts, lastKey);
        index.Add(Pair(lastKey, EncodeHandle(pendingHandle)));
        seps := seps + [lastKey];
        pendingIndexEntry := false;
      }
      h, p := WriteBlock(index);
    }

    /** The filter block, the metaindex, the index and the footer: the file is then a table of everything that was added. */
    method Finish() returns (ghost t: Image)
      requires Valid()
      modifies Footprint()
      ensures IsTable(o, file, t) && t.entries == old(w.entries)
    {
      hide Regular, Compressed, Laid, LiesAt, WorkOk, PartsOk, PartOk, Sound, FiltersOk, Open, SepsOk, HoldsFilters, Filtered;
      hide PendingOk, EncodeFooter, FilterKey, EncodeHandle, IndexPairs, IsTable;
      Flush();
      NothingOpen(o, w, pendingIndexEntry);
      IntervalOk(o);
      ghost var file0 := file;
      var filterHandle;
      ghost var f;
      filterHandle, f := WriteFilter();
      ghost var file1 := file;
      var metaHandle;
      ghost var metaPart;
      metaHandle, metaPart := WriteMeta(filterHandle);
      ghost var file2 := file;
      var indexHandle;
      ghost var indexPart, seps;
      indexHandle, indexPart, seps := WriteIndex();
      ghost var file3 := file;
      file := file + EncodeFooter(metaHandle, indexHandle);
      offset := offset + |EncodeFooter(metaHandle, indexHandle)|;
      t := Image(w.entries, w.cuts, w.parts, seps, indexPart, metaPart, f);
      Completed(o, w, file0, file1, file2, file3, file, t);
    }
  }

  lemma IntervalOk(o: Options)
    requires Sound(o)
    ensures o.interval >= 1
  {
    hide IK.Lifts, Separates, Succeeds, NeverRejects;
  }

  lemma NotPending(w: Work, pending: bool)
    requires PendingOk(w, pending) && Open(w) != []
    ensures !pending && |w.seps| == |w.parts|
  {
    hide Open;
  }

  lemma FilterCountOk(w: Work, offset: nat, filters: seq<seq<Bytes>>, pending: seq<Bytes>, offset': nat)
    requires FiltersOk(w, offset, filters, pending) && offset <= offset'
    ensures offset' / BASE >= |filters|
  {
    hide Filtered, Open;
  }

  /** With no open block, either everything is written and waits for its index entry, or there is nothing. */
  lemma NothingOpen(o: Options, w: Work, pending: bool)
    requires WorkOk(o, w) && PendingOk(w, pending) && Open(w) == []
    ensures |w.parts| < |w.cuts| && w.cuts[|w.parts|] == |w.entries| && SepsOk(o, w.entries, w.cuts, w.seps)
    ensures !pending ==> |w.seps| == |w.parts|
  {
    hide SepsOk, Rising;
  }

  /** Everything written on the way is still where it was in the finished file. */
  lemma Completed(o: Options, w: Work, file0: Bytes, file1: Bytes, file2: Bytes, file3: Bytes, file: Bytes, t: Image)
    requires WorkOk(o, w) && t.entries == w.entries && t.cuts == w.cuts && t.parts == w.parts
    requires |t.parts| < |t.cuts| && t.cuts[|t.parts|] == |t.entries| && SepsOk(o, t.entries, t.cuts, t.seps) && IndexOk(t)
    requires file0 <= file1 <= file2 <= file3 <= file && file == file3 + EncodeFooter(t.meta.handle, t.index.handle)
    requires PartsOk(o.crc, file0, t.parts) && PartOk(o.crc, file2, t.meta) && PartOk(o.crc, file3, t.index)
    requires FilterPartOk(o, file1, t)
    ensures IsTable(o, file, t)
  {
    hide Laid, Stored, LiesAt, PartsOk, PartOk, SepsOk, Rising, EncodeHandle, HoldsFilters, Filtered;
    PartsLater(o, file0, file, t.parts);
    PartLater(o, file2, file, t.meta);
    PartLater(o, file3, file, t.index);
    FilterLater(o, file1, file, t);
    FooterSize(t.meta.handle, t.index.handle);
    assert file[|file3|..] == EncodeFooter(t.meta.handle, t.index.handle);
  }

  lemma FooterSize(meta: Handle, index: Handle)
    ensures |EncodeFooter(meta, index)| == FOOTER
  {
    hide EncodeHandle;
  }

  lemma {:induction false} PartsLater(o: Options, a: Bytes, b: Bytes, parts: seq<Part>)
    requires PartsOk(o.crc, a, parts) && a <= b
    ensures PartsOk(o.crc, b, parts)
  {
    hide PartsOk;
    assert b == a + b[|a|..];
    PartsStay(o, a, b[|a|..], parts);
  }

  lemma PartLater(o: Options, a: Bytes, b: Bytes, p: Part)
    requires PartOk(o.crc, a, p) && a <= b
    ensures PartOk(o.crc, b, p)
  {
    hide PartOk;
    assert b == a + b[|a|..];
    PartStays(o, a, b[|a|..], p);
  }

  lemma FilterLater(o: Options, a: Bytes, b: Bytes, t: Image)
    requires FilterPartOk(o, a, t) && a <= b
    ensures FilterPartOk(o, b, t)
  {
    hide LiesAt, HoldsFilters, Filtered, EncodeHandle;
    assert b == a + b[|a|..];
    if o.policy.Some? {
      StaysAt(o.crc, a, b[|a|..], t.filter.value.handle, t.filter.value.contents);
    }
  }

  lemma NextOfRising(o: Options, entries: seq<Pair>, n: nat, w: Work)
    requires IsEntries(o, entries) && n < |entries| && w.entries == entries[..n]
    ensures IsNext(o, w, entries[n]) && entries[..n + 1] == entries[..n] + [entries[n]]
  {
  }

  /** A table file of any rising entries. */
  method Build(o: Options, entries: seq<Pair>) returns (file: Bytes)
    requires Sound(o) && IsEntries(o, entries)
    ensures exists t :: IsTable(o, file, t) && t.entries == entries
  {
    hide *;
    var b := new TableBuilder(o);
    for n := 0 to |entries|
      invariant b.Valid() && b.o == o && fresh(b) && fresh(b.Footprint()) && b.w.entries == entries[..n]
    {
      NextOfRising(o, entries, n, b.w);
      b.Add(entries[n].key, entries[n].val);
    }
    assert entries[..|entries|] == entries;
    ghost var t := b.Finish();
    file := b.file;
  }
}
