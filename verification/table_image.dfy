/** What a finished table file holds: data blocks, an index with shortened keys, a filter, and the footer. */
module TableImages {
  import opened Bytestrings
  import opened Blocks
  import opened BlockIters
  import opened Comparators
  import opened Crc32c
  import opened FilterBlocks
  import opened TableFormat
  import IK = InternalKeys

  datatype Options = Options(
    order: Order,
    rank: Order,
    sep: (Bytes, Bytes) -> Bytes,
    succ: Bytes -> Bytes,
    policy: Option<Policy>,
    policyName: Bytes,
    crc: Crc,
    blockSize: nat,
    interval: nat
  )

  /** What the comparator and the policy have to promise. */
  ghost predicate Sound(o: Options) {
    && IK.Lifts(o.order, o.rank) && Separates(o.order, o.sep) && Succeeds(o.order, o.succ)
    && (o.policy.Some? ==> NeverRejects(o.order, o.policy.value))
    && o.interval >= 1
  }

  /** A block that was written: its entries, how they are laid out, and where it is. */
  datatype Part = Part(kvs: seq<Pair>, buffer: Bytes, restarts: seq<nat>, layout: Layout, handle: Handle)

  ghost predicate PartOk(crc: Crc, file: Bytes, p: Part) {
    Laid(p.buffer, p.kvs, p.restarts, p.layout) && LiesAt(crc, file, p.handle, Finished(p.buffer, p.restarts))
  }

  ghost predicate PartsOk(crc: Crc, file: Bytes, parts: seq<Part>) {
    forall i :: 0 <= i < |parts| ==> PartOk(crc, file, parts[i])
  }

  /** Rising internal keys. */
  ghost predicate IsEntries(o: Options, entries: seq<Pair>) {
    Rising(o.rank, entries) && forall i :: 0 <= i < |entries| ==> IK.IsKey(entries[i].key)
  }

  /** Part i holds entries cuts[i] to cuts[i + 1], at least one. */
  ghost predicate Cut(entries: seq<Pair>, cuts: seq<nat>, parts: seq<Part>) {
    && |cuts| == |parts| + 1 && cuts[0] == 0 && cuts[|parts|] <= |entries|
    && forall i :: 0 <= i < |parts| ==> CutAt(entries, cuts, parts, i)
  }

  ghost predicate CutAt(entries: seq<Pair>, cuts: seq<nat>, parts: seq<Part>, i: nat)
    requires i < |parts| && |cuts| == |parts| + 1
  {
    cuts[i] < cuts[i + 1] <= |entries| && parts[i].kvs == entries[cuts[i]..cuts[i + 1]]
  }

  /** An index key: not before the last entry of its block, before the next entry, and apart from the next user key if it was shortened. */
  ghost predicate SepOk(o: Options, entries: seq<Pair>, cut: nat, sep: Bytes) {
    && 0 < cut <= |entries| && IK.IsKey(sep)
    && o.rank(entries[cut - 1].key) <= o.rank(sep)
    && (cut < |entries| ==>
          && o.rank(sep) < o.rank(entries[cut].key)
          && (sep == entries[cut - 1].key || o.order(IK.UserPart(sep)) < o.order(IK.UserPart(entries[cut].key))))
    && SepIsShort(o, entries, cut, sep)
  }

  /** It is the separator of the two entries, or after the last entry its successor. */
  ghost predicate SepIsShort(o: Options, entries: seq<Pair>, cut: nat, sep: Bytes)
    requires 0 < cut <= |entries|
  {
    && IK.IsKey(entries[cut - 1].key) && (cut < |entries| ==> IK.IsKey(entries[cut].key))
    && sep == if cut < |entries| then IK.FindShortestSeparator(o.order, o.sep, entries[cut - 1].key, entries[cut].key)
              else IK.FindShortSuccessor(o.order, o.succ, entries[cut - 1].key)
  }

  ghost predicate SepsOk(o: Options, entries: seq<Pair>, cuts: seq<nat>, seps: seq<Bytes>) {
    |seps| < |cuts| && forall i :: 0 <= i < |seps| ==> SepOk(o, entries, cuts[i + 1], seps[i])
  }

  ghost function IndexPairs(seps: seq<Bytes>, parts: seq<Part>): (kvs: seq<Pair>)
    requires |seps| <= |parts|
    ensures |kvs| == |seps|
  {
    seq(|seps|, i requires 0 <= i < |seps| => Pair(seps[i], EncodeHandle(parts[i].handle)))
  }

  ghost predicate InFilter(all: seq<seq<Bytes>>, offset: nat, key: Bytes) {
    offset / BASE < |all| && key in all[offset / BASE]
  }

  ghost predicate PartFiltered(all: seq<seq<Bytes>>, p: Part) {
    forall j :: 0 <= j < |p.kvs| ==> InFilter(all, p.handle.offset, p.kvs[j].key)
  }

  /** Every key of a block is in the filter its offset selects. */
  ghost predicate Filtered(all: seq<seq<Bytes>>, parts: seq<Part>) {
    forall i :: 0 <= i < |parts| ==> PartFiltered(all, parts[i])
  }

  /** The metaindex key: "filter." and the policy's name. */
  function FilterKey(name: Bytes): Bytes {
    [102, 105, 108, 116, 101, 114, 46] + name
  }

  datatype FilterPart = FilterPart(handle: Handle, contents: Bytes, filters: seq<seq<Bytes>>)

  datatype Image = Image(
    entries: seq<Pair>,
    cuts: seq<nat>,
    parts: seq<Part>,
    seps: seq<Bytes>,
    index: Part,
    meta: Part,
    filter: Option<FilterPart>
  )

  ghost predicate FilterPartOk(o: Options, file: Bytes, t: Image) {
    match o.policy
    case None => t.filter.None? && t.meta.kvs == []
    case Some(policy) =>
      && t.filter.Some?
      && var f := t.filter.value;
         && t.meta.kvs == [Pair(FilterKey(o.policyName), EncodeHandle(f.handle))]
         && LiesAt(o.crc, file, f.handle, f.contents) && HoldsFilters(policy, f.contents, f.filters)
         && Filtered(f.filters, t.parts)
  }

  ghost predicate IndexOk(t: Image) {
    |t.seps| == |t.parts| && t.index.kvs == IndexPairs(t.seps, t.parts)
  }

  ghost predicate FooterOk(file: Bytes, t: Image) {
    |file| >= FOOTER && file[|file| - FOOTER..] == EncodeFooter(t.meta.handle, t.index.handle)
  }

  ghost predicate IsTable(o: Options, file: Bytes, t: Image) {
    && IsEntries(o, t.entries) && Cut(t.entries, t.cuts, t.parts) && t.cuts[|t.parts|] == |t.entries|
    && SepsOk(o, t.entries, t.cuts, t.seps) && IndexOk(t)
    && PartsOk(o.crc, file, t.parts) && PartOk(o.crc, file, t.index) && PartOk(o.crc, file, t.meta)
    && FilterPartOk(o, file, t) && FooterOk(file, t)
  }

  /** Block::Iter and the filter keep offsets in 32 bits, handles theirs in 64. */
  ghost predicate Addressable(file: Bytes, t: Image) {
    && |file| < TWO64 && t.index.handle.size < TWO32 && t.meta.handle.size < TWO32
    && (t.filter.Some? ==> t.filter.value.handle.size < TWO32)
    && forall i :: 0 <= i < |t.parts| ==> t.parts[i].handle.size < TWO32
  }

  /** The position of the first entry at or after k. */
  ghost predicate IsFirst(rank: Order, entries: seq<Pair>, k: Bytes, i: nat) {
    && i <= |entries|
    && (forall j :: 0 <= j < i ==> rank(entries[j].key) < rank(k))
    && (i < |entries| ==> rank(k) <= rank(entries[i].key))
  }

  // ---- Order of index keys and entries ----

  lemma {:induction false} CutsRise(entries: seq<Pair>, cuts: seq<nat>, parts: seq<Part>, i: nat, j: nat)
    requires Cut(entries, cuts, parts) && i <= j <= |parts|
    ensures cuts[i] <= cuts[j] && (i < j ==> cuts[i] < cuts[j])
  {
    if i < j {
      assert CutAt(entries, cuts, parts, j - 1);
      CutsRise(entries, cuts, parts, i, j - 1);
    }
  }

  /** Index keys rise. */
  lemma {:induction false} SepsRise(o: Options, entries: seq<Pair>, cuts: seq<nat>, parts: seq<Part>, seps: seq<Bytes>, i: nat, j: nat)
    requires Rising(o.rank, entries) && Cut(entries, cuts, parts) && SepsOk(o, entries, cuts, seps) && i < j < |seps|
    ensures o.rank(seps[i]) < o.rank(seps[j])
  {
    hide SepIsShort;
    CutsRise(entries, cuts, parts, i + 1, j + 1);
    var c, d := cuts[i + 1], cuts[j + 1];
    assert SepOk(o, entries, c, seps[i]) && SepOk(o, entries, d, seps[j]);
    assert c < d - 1 ==> o.rank(entries[c].key) < o.rank(entries[d - 1].key);
  }

  /** An index key before k has its whole block before k. */
  lemma BlockBefore(o: Options, entries: seq<Pair>, cut: nat, sep: Bytes, k: Bytes)
    requires Rising(o.rank, entries) && SepOk(o, entries, cut, sep) && o.rank(sep) < o.rank(k)
    ensures forall j :: 0 <= j < cut ==> o.rank(entries[j].key) < o.rank(k)
  {
    hide SepIsShort;
    forall j | 0 <= j < cut ensures o.rank(entries[j].key) < o.rank(k) {
      assert j < cut - 1 ==> o.rank(entries[j].key) < o.rank(entries[cut - 1].key);
    }
  }

  /** When the block the index selects ends before k, the next entry has another user key. */
  lemma NextIsAnotherKey(o: Options, entries: seq<Pair>, cut: nat, sep: Bytes, k: Bytes)
    requires IK.Lifts(o.order, o.rank) && IsEntries(o, entries) && SepOk(o, entries, cut, sep) && IK.IsKey(k)
    requires o.rank(entries[cut - 1].key) < o.rank(k) <= o.rank(sep) && cut < |entries|
    ensures o.order(IK.UserPart(entries[cut].key)) != o.order(IK.UserPart(k))
  {
    hide SepIsShort, IK.UserPart, IK.TagPart, Rising;
    assert !IK.KeyLess(o.order, sep, k);
  }
}
