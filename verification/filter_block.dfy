/** Filters for the keys of a table, one for every two kilobytes of block offsets (table/filter_block.cc). */
module FilterBlocks {
  import opened Bytestrings
  import opened Coding
  import opened Comparators
  import opened InternalKeys

  /** A filter policy on user keys. */
  datatype Policy = Policy(create: seq<Bytes> -> Bytes, mayMatch: (Bytes, Bytes) -> bool)

  /** What a policy promises, for a comparator's notion of the same key: a key it was given is never rejected. */
  ghost predicate NeverRejects(order: Order, p: Policy) {
    forall keys, i, k {:trigger keys[i], p.mayMatch(k, p.create(keys))} ::
      0 <= i < |keys| && order(k) == order(keys[i]) ==> p.mayMatch(k, p.create(keys))
  }

  function UserParts(keys: seq<Bytes>): (us: seq<Bytes>)
    ensures |us| == |keys|
  {
    seq(|keys|, i requires 0 <= i < |keys| => UserPart(keys[i]))
  }

  /** InternalFilterPolicy: filters are made from the user keys alone. */
  function CreateFilter(p: Policy, keys: seq<Bytes>): Bytes {
    p.create(UserParts(keys))
  }

  function MayMatch(p: Policy, key: Bytes, filter: Bytes): bool {
    p.mayMatch(UserPart(key), filter)
  }

  lemma AddedMayMatch(order: Order, p: Policy, keys: seq<Bytes>, i: nat, key: Bytes)
    requires NeverRejects(order, p) && i < |keys| && order(UserPart(key)) == order(UserPart(keys[i]))
    ensures MayMatch(p, key, CreateFilter(p, keys))
  {
    assert UserParts(keys)[i] == UserPart(keys[i]);
  }

  const BASE_LG: byte := 11
  const BASE: nat := 2048

  /** x >> n. */
  function Shifted(x: nat, n: nat): nat {
    if n == 0 then x else Shifted(x / 2, n - 1)
  }

  lemma ShiftedByFour(x: nat, n: nat)
    ensures Shifted(x, n + 4) == Shifted(x / 16, n)
  {
    assert Shifted(x, n + 4) == Shifted(x / 2, n + 3);
    assert Shifted(x / 2, n + 3) == Shifted(x / 4, n + 2);
    assert Shifted(x / 4, n + 2) == Shifted(x / 8, n + 1);
    assert Shifted(x / 8, n + 1) == Shifted(x / 16, n);
  }

  lemma ShiftedByBase(x: nat)
    ensures Shifted(x, BASE_LG) == x / BASE
  {
    ShiftedByFour(x, 7);
    ShiftedByFour(x / 16, 3);
    assert Shifted(x / 256, 3) == Shifted(x / 512, 2);
    assert Shifted(x / 512, 2) == Shifted(x / 1024, 1);
    assert Shifted(x / 1024, 1) == Shifted(x / 2048, 0);
  }

  // ---- The builder ----

  /** Keys one after the other in one string, and where each starts. */
  ghost predicate Flat(keys: Bytes, start: seq<nat>, pending: seq<Bytes>) {
    && |start| == |pending| && (start == [] ==> keys == [])
    && forall i :: 0 <= i < |start| ==> KeyLies(keys, start, pending, i)
  }

  ghost predicate KeyLies(keys: Bytes, start: seq<nat>, pending: seq<Bytes>, i: nat)
    requires i < |start| == |pending|
  {
    && start[i] + |pending[i]| == (if i + 1 < |start| then start[i + 1] else |keys|) <= |keys|
    && keys[start[i]..start[i] + |pending[i]|] == pending[i]
  }

  /** Filter i lies between two offsets; a stretch without keys has none. */
  ghost predicate FilterLies(p: Policy, result: Bytes, offsets: seq<nat>, filters: seq<seq<Bytes>>, i: nat)
    requires i < |offsets| == |filters|
  {
    var end := if i + 1 < |offsets| then offsets[i + 1] else |result|;
    && offsets[i] <= end <= |result|
    && result[offsets[i]..end] == (if filters[i] == [] then [] else CreateFilter(p, filters[i]))
  }

  ghost predicate Generated(p: Policy, result: Bytes, offsets: seq<nat>, filters: seq<seq<Bytes>>) {
    |offsets| == |filters| && forall i :: 0 <= i < |offsets| ==> FilterLies(p, result, offsets, filters, i)
  }

  function FilterBlock(result: Bytes, offsets: seq<nat>): Bytes {
    result + (PutFixed32s(offsets) + (PutFixed(4, |result|) + [BASE_LG]))
  }

  /** A finished filter block for these lists of keys. */
  ghost predicate HoldsFilters(p: Policy, contents: Bytes, filters: seq<seq<Bytes>>) {
    exists result, offsets :: Generated(p, result, offsets, filters) && contents == FilterBlock(result, offsets)
  }

  class FilterBlockBuilder {
    const policy: Policy
    var keys: Bytes
    var start: seq<nat>
    var result: Bytes
    var offsets: seq<nat>
    ghost var filters: seq<seq<Bytes>>
    ghost var pending: seq<Bytes>

    ghost predicate Valid()
      reads this
    {
      Flat(keys, start, pending) && Generated(policy, result, offsets, filters)
    }

    constructor (policy: Policy)
      ensures Valid() && filters == [] && pending == [] && this.policy == policy
    {
      this.policy := policy;
      keys, start, result, offsets := [], [], [], [];
      filters, pending := [], [];
    }

    /** The keys so far belong to the filter of the block that was open; a filter is made for every stretch that ends. */
    method StartBlock(blockOffset: nat)
      requires Valid() && blockOffset / BASE >= |filters|
      modifies this
      ensures Valid() && |filters| == blockOffset / BASE && |filters| >= |old(filters)|
      ensures filters[..|old(filters)|] == old(filters)
      ensures if |filters| == |old(filters)| then pending == old(pending)
              else pending == [] && filters[|old(filters)|] == old(pending)
    {
      hide Flat, Generated;
      var filterIndex := blockOffset / BASE;
      FilterCount(policy, result, offsets, filters);
      while filterIndex > |offsets|
        invariant Valid() && |old(filters)| <= |offsets| == |filters| <= filterIndex
        invariant filters[..|old(filters)|] == old(filters)
        invariant if |filters| == |old(filters)| then pending == old(pending)
                  else pending == [] && filters[|old(filters)|] == old(pending)
        decreases filterIndex - |offsets|
      {
        GenerateFilter();
      }
    }

    method AddKey(key: Bytes)
      requires Valid()
      modifies this
      ensures Valid() && filters == old(filters) && pending == old(pending) + [key]
    {
      hide Generated;
      FlatGrows(keys, start, pending, key);
      start := start + [|keys|];
      keys := keys + key;
      pending := pending + [key];
    }

    method GenerateFilter()
      requires Valid()
      modifies this
      ensures Valid() && filters == old(filters) + [old(pending)] && pending == []
      ensures |offsets| == |filters|
    {
      hide Flat, KeyLies, Generated, UserParts;
      var tmp := [];
      FilterCount(policy, result, offsets, filters);
      FlatCount(keys, start, pending);
      if start == [] {
        GeneratedGrows(policy, result, offsets, filters, [], []);
        assert result + [] == result && pending == [];
        offsets := offsets + [|result|];
        filters := filters + [pending];
        FilterCount(policy, result, offsets, filters);
        return;
      }
      var ends := start + [|keys|];
      for i := 0 to |start|
        modifies {}
        invariant tmp == pending[..i]
      {
        KeyTaken(keys, start, pending, i);
        var length := ends[i + 1] - ends[i];
        tmp := tmp + [keys[start[i]..start[i] + length]];
      }
      assert tmp == pending;
      GeneratedGrows(policy, result, offsets, filters, pending, CreateFilter(policy, pending));
      offsets := offsets + [|result|];
      result := result + CreateFilter(policy, tmp);
      filters := filters + [pending];
      keys, start, pending := [], [], [];
      FlatNone();
      FilterCount(policy, result, offsets, filters);
    }

    /** What is left gets its filter; then come the offsets, where they start, and the base. */
    method Finish() returns (contents: Bytes, ghost all: seq<seq<Bytes>>)
      requires Valid()
      modifies this
      ensures HoldsFilters(policy, contents, all)
      ensures all == if old(pending) == [] then old(filters) else old(filters) + [old(pending)]
    {
      hide Flat, Generated, PutFixed;
      FlatCount(keys, start, pending);
      if start != [] {
        GenerateFilter();
      }
      all := filters;
      var arrayOffset := |result|;
      contents := result;
      for i := 0 to |offsets|
        modifies {}
        invariant contents == result + PutFixed32s(offsets[..i])
      {
        assert offsets[..i + 1][..i] == offsets[..i];
        contents := contents + PutFixed(4, offsets[i]);
      }
      assert offsets[..|offsets|] == offsets;
      contents := contents + PutFixed(4, arrayOffset);
      contents := contents + [BASE_LG];
      assert contents == FilterBlock(result, offsets);
    }
  }

  lemma FlatNone()
    ensures Flat([], [], [])
  {
  }

  lemma FlatCount(keys: Bytes, start: seq<nat>, pending: seq<Bytes>)
    requires Flat(keys, start, pending)
    ensures |start| == |pending|
  {
  }

  lemma FilterCount(p: Policy, result: Bytes, offsets: seq<nat>, filters: seq<seq<Bytes>>)
    requires Generated(p, result, offsets, filters)
    ensures |offsets| == |filters|
  {
  }

  lemma {:induction false} FlatGrows(keys: Bytes, start: seq<nat>, pending: seq<Bytes>, key: Bytes)
    requires Flat(keys, start, pending)
    ensures Flat(keys + key, start + [|keys|], pending + [key])
  {
    var keys', start', pending' := keys + key, start + [|keys|], pending + [key];
    forall i | 0 <= i < |start'| ensures KeyLies(keys', start', pending', i) {
      if i < |start| {
        assert KeyLies(keys, start, pending, i);
        assert keys'[start[i]..start[i] + |pending[i]|] == keys[start[i]..start[i] + |pending[i]|];
      }
    }
  }

  lemma KeyTaken(keys: Bytes, start: seq<nat>, pending: seq<Bytes>, i: nat)
    requires Flat(keys, start, pending) && i < |start|
    ensures |start| == |pending| && pending[..i + 1] == pending[..i] + [pending[i]]
    ensures var ends := start + [|keys|];
      && ends[i] <= ends[i + 1] <= |keys|
      && keys[start[i]..start[i] + (ends[i + 1] - ends[i])] == pending[i]
  {
    assert KeyLies(keys, start, pending, i);
  }

  lemma {:induction false} GeneratedGrows(p: Policy, result: Bytes, offsets: seq<nat>, filters: seq<seq<Bytes>>, keys: seq<Bytes>, filter: Bytes)
    requires Generated(p, result, offsets, filters) && filter == (if keys == [] then [] else CreateFilter(p, keys))
    ensures Generated(p, result + filter, offsets + [|result|], filters + [keys])
  {
    hide CreateFilter;
    var result', offsets', filters' := result + filter, offsets + [|result|], filters + [keys];
    forall i | 0 <= i < |offsets'| ensures FilterLies(p, result', offsets', filters', i) {
      if i < |offsets| {
        assert FilterLies(p, result, offsets, filters, i);
        var end := if i + 1 < |offsets| then offsets[i + 1] else |result|;
        assert result'[offsets[i]..end] == result[offsets[i]..end];
      }
    }
  }

  // ---- The reader ----

  /** Where the offset array starts, how many offsets there are, and the base; nothing when the block is malformed. */
  datatype Reader = Reader(data: Bytes, offset: nat, num: nat, baseLg: byte)

  function OpenFilter(contents: Bytes): (r: Reader)
    ensures r.data == contents && (r.num > 0 ==> r.offset + 4 * r.num + 5 <= |contents|)
  {
    var n := |contents|;
    if n < 5 then Reader(contents, 0, 0, 0)
    else
      var lastWord := GetFixed(contents[n - 5..n - 1]);
      if lastWord > n - 5 then Reader(contents, 0, 0, contents[n - 1])
      else Reader(contents, lastWord, (n - 5 - lastWord) / 4, contents[n - 1])
  }

  /** Whatever looks wrong counts as a match. */
  function KeyMayMatch(p: Policy, r: Reader, blockOffset: nat, key: Bytes): bool
    requires r.num > 0 ==> r.offset + 4 * r.num + 5 <= |r.data|
  {
    var index := Shifted(blockOffset, r.baseLg);
    if index >= r.num then true
    else
      var start := GetFixed(r.data[r.offset + 4 * index..r.offset + 4 * index + 4]);
      var limit := GetFixed(r.data[r.offset + 4 * index + 4..r.offset + 4 * index + 8]);
      if start <= limit <= r.offset then MayMatch(p, key, r.data[start..limit])
      else start != limit
  }

  lemma FilterBlockOpens(result: Bytes, offsets: seq<nat>)
    requires |FilterBlock(result, offsets)| < TWO32
    ensures var c := FilterBlock(result, offsets);
      && OpenFilter(c) == Reader(c, |result|, |offsets|, BASE_LG)
      && |c| == |result| + 4 * |offsets| + 5 && c[..|result|] == result
  {
    hide PutFixed32s, PutFixed, GetFixed;
    var c := FilterBlock(result, offsets);
    PowersOf256();
    FixedRoundTrip(4, |result|);
    assert c[|c| - 5..|c| - 1] == PutFixed(4, |result|);
    assert c[|c| - 1] == BASE_LG;
  }

  /** The offset of filter i, and after the last the end of the filters, which is written right behind. */
  lemma OffsetRead(result: Bytes, offsets: seq<nat>, i: nat)
    requires |FilterBlock(result, offsets)| < TWO32 && i <= |offsets|
    requires forall k :: 0 <= k < |offsets| ==> offsets[k] <= |result|
    ensures var c := FilterBlock(result, offsets);
      && |result| + 4 * i + 4 <= |c|
      && GetFixed(c[|result| + 4 * i..|result| + 4 * i + 4]) == if i < |offsets| then offsets[i] else |result|
  {
    hide PutFixed32s, PutFixed, GetFixed;
    var c := FilterBlock(result, offsets);
    if i < |offsets| {
      Fixed32At(offsets, i);
      assert c[|result| + 4 * i..|result| + 4 * i + 4] == PutFixed32s(offsets)[4 * i..4 * i + 4];
    } else {
      PowersOf256();
      FixedRoundTrip(4, |result|);
      assert c[|result| + 4 * i..|result| + 4 * i + 4] == PutFixed(4, |result|);
    }
  }

  lemma SliceOfTake(s: Bytes, n: nat, i: nat, j: nat)
    requires i <= j <= n <= |s|
    ensures s[..n][i..j] == s[i..j]
  {
  }

  /** The two offsets a lookup reads, and the filter between them. */
  lemma StretchIsRead(p: Policy, result: Bytes, offsets: seq<nat>, filters: seq<seq<Bytes>>, i: nat)
    requires Generated(p, result, offsets, filters) && |FilterBlock(result, offsets)| < TWO32 && i < |filters|
    ensures var c := FilterBlock(result, offsets);
      && |result| + 4 * i + 8 <= |c|
      && var start, limit := GetFixed(c[|result| + 4 * i..|result| + 4 * i + 4]), GetFixed(c[|result| + 4 * i + 4..|result| + 4 * i + 8]);
         && start <= limit <= |result|
         && c[start..limit] == if filters[i] == [] then [] else CreateFilter(p, filters[i])
  {
    hide FilterBlock, PutFixed32s, GetFixed, CreateFilter, OpenFilter;
    FilterBlockOpens(result, offsets);
    assert FilterLies(p, result, offsets, filters, i);
    forall k | 0 <= k < |offsets| ensures offsets[k] <= |result| { assert FilterLies(p, result, offsets, filters, k); }
    OffsetRead(result, offsets, i);
    OffsetRead(result, offsets, i + 1);
    SliceOfTake(FilterBlock(result, offsets), |result|, offsets[i], if i + 1 < |offsets| then offsets[i + 1] else |result|);
  }

  /** Looking up a block's filter asks the policy about the keys added for the block's stretch, and accepts what has none. */
  lemma FilterIsFound(p: Policy, contents: Bytes, filters: seq<seq<Bytes>>, blockOffset: nat, key: Bytes)
    requires HoldsFilters(p, contents, filters) && |contents| < TWO32
    ensures KeyMayMatch(p, OpenFilter(contents), blockOffset, key) ==
      var i := blockOffset / BASE;
      if i >= |filters| then true
      else MayMatch(p, key, if filters[i] == [] then [] else CreateFilter(p, filters[i]))
  {
    hide FilterBlock, PutFixed32s, GetFixed, MayMatch, CreateFilter, OpenFilter, Shifted, FilterLies;
    var result, offsets :| Generated(p, result, offsets, filters) && contents == FilterBlock(result, offsets);
    FilterBlockOpens(result, offsets);
    ShiftedByBase(blockOffset);
    if blockOffset / BASE < |filters| { StretchIsRead(p, result, offsets, filters, blockOffset / BASE); }
  }

  /** A key added while a block was open is never rejected for that block. */
  lemma NoFalseNegatives(order: Order, p: Policy, contents: Bytes, filters: seq<seq<Bytes>>, blockOffset: nat, i: nat, key: Bytes)
    requires NeverRejects(order, p) && HoldsFilters(p, contents, filters) && |contents| < TWO32
    requires blockOffset / BASE < |filters| && i < |filters[blockOffset / BASE]|
    requires order(UserPart(key)) == order(UserPart(filters[blockOffset / BASE][i]))
    ensures KeyMayMatch(p, OpenFilter(contents), blockOffset, key)
  {
    hide KeyMayMatch, HoldsFilters, OpenFilter, MayMatch, CreateFilter;
    FilterIsFound(p, contents, filters, blockOffset, key);
    AddedMayMatch(order, p, filters[blockOffset / BASE], i, key);
  }
}
