/** What peers with another encoder or another descriptor may rely on (pb_decode.c). */
module NanopbCompat {
  import opened Bytestrings
  import opened Coding
  import opened NanopbVarint
  import opened NanopbSchema
  import opened NanopbDecode
  import opened NanopbRoundTrip
  import opened NanopbItems

  // ---- Arrays ----

  /** The array entries an item of field i brings. */
  function EntriesOf(item: Item): seq<Value> {
    if item.Plain? then [item.v] else if item.Packed? then item.vs else []
  }

  function AllEntries(items: seq<Item>): seq<Value> {
    if items == [] then [] else EntriesOf(items[0]) + AllEntries(items[1..])
  }

  /** Single entries and packed runs of entries of field i. */
  ghost predicate PiecesOf(items: seq<Item>, i: nat) {
    forall k :: 0 <= k < |items| ==> (items[k].Plain? || items[k].Packed?) && items[k].i == i
  }

  lemma {:induction false} PiecesMerge(fs: seq<Field>, slots: seq<Slot>, items: seq<Item>, i: nat)
    requires ItemsOk(fs, items) && i < |fs| == |slots| && fs[i].h.Repeated? && PiecesOf(items, i) && slots[i].Many?
    requires |slots[i].vs| + |AllEntries(items)| <= fs[i].h.max
    ensures MergeAll(fs, slots, items) == Some(slots[i := Many(slots[i].vs + AllEntries(items))])
    decreases |items|
  {
    hide ItemOk, TagsOk;
    if items == [] {
      assert slots[i].vs + AllEntries(items) == slots[i].vs;
      assert slots[i := slots[i]] == slots;
    } else {
      var vs := EntriesOf(items[0]);
      assert items[0].i == i && ItemOk(fs, items[0]);
      AppendSets(fs, slots, i, vs);
      assert PiecesOf(items[1..], i);
      var next := slots[i := Many(slots[i].vs + vs)];
      assert Merge(fs, slots, items[0]) == Some(next);
      PiecesMerge(fs, next, items[1..], i);
      assert slots[i].vs + vs + AllEntries(items[1..]) == slots[i].vs + AllEntries(items);
      assert next[i := Many(slots[i].vs + AllEntries(items))] == slots[i := Many(slots[i].vs + AllEntries(items))];
    }
  }

  lemma AppendSets(fs: seq<Field>, slots: seq<Slot>, i: nat, vs: seq<Value>)
    requires i < |fs| == |slots| && fs[i].h.Repeated? && slots[i].Many? && |slots[i].vs| + |vs| <= fs[i].h.max
    ensures Append(fs, slots, i, vs) == Some(slots[i := Many(slots[i].vs + vs)])
  {
    assert Set(fs, slots, i, Many(slots[i].vs + vs)) == slots[i := Many(slots[i].vs + vs)];
  }

  /** Single entries and packed runs, in any order, are the array of all their entries. */
  lemma {:induction false} ArrayPiecesAppend(fs: seq<Field>, i: nat, items: seq<Item>)
    requires ItemsOk(fs, items) && i < |fs| && fs[i].h.Repeated? && PiecesOf(items, i)
    requires (forall j :: 0 <= j < |fs| ==> !fs[j].h.Required?) && |AllEntries(items)| <= fs[i].h.max
    ensures Decode(fs, ItemsBytes(fs, items)) == Some(Defaults(fs)[i := Many(AllEntries(items))])
  {
    hide ItemsOk, ItemsBytes, Decode, MergeAll, RequiredBefore;
    DecodeMerges(fs, items);
    DefaultsAt(fs, i);
    PiecesMerge(fs, Defaults(fs), items, i);
    assert [] + AllEntries(items) == AllEntries(items);
  }

  /** The unpacked form of an array: a key before every entry. */
  function UnpackedBytes(f: Field, ns: seq<int>): Bytes
    requires Packable(f.l) && forall n :: n in ns ==> InRange(f.l, n)
  {
    if ns == [] then [] else Key(f.tag, WireType(f.l)) + EncodeNumber(f.l, ns[0]) + UnpackedBytes(f, ns[1..])
  }

  function Singles(i: nat, ns: seq<int>): seq<Item> {
    seq(|ns|, k requires 0 <= k < |ns| => Plain(i, Num(ns[k])))
  }

  function Numbers(ns: seq<int>): seq<Value> {
    seq(|ns|, k requires 0 <= k < |ns| => Num(ns[k]))
  }

  lemma {:induction false} SinglesAreUnpacked(fs: seq<Field>, i: nat, ns: seq<int>)
    requires i < |fs| && Packable(fs[i].l) && forall n :: n in ns ==> InRange(fs[i].l, n)
    ensures ItemsBytes(fs, Singles(i, ns)) == UnpackedBytes(fs[i], ns) && AllEntries(Singles(i, ns)) == Numbers(ns)
  {
    hide Key, InRange, EncodeNumber;
    if ns != [] {
      assert Singles(i, ns)[0] == Plain(i, Num(ns[0])) && Singles(i, ns)[1..] == Singles(i, ns[1..]);
      SinglesAreUnpacked(fs, i, ns[1..]);
      assert Numbers(ns) == [Num(ns[0])] + Numbers(ns[1..]);
    }
  }

  /** A peer that does not pack sends the same array. */
  lemma {:induction false} UnpackedArrayIsRead(fs: seq<Field>, i: nat, ns: seq<int>)
    requires TagsOk(fs) && i < |fs| && fs[i].h.Repeated? && Packable(fs[i].l) && |ns| <= fs[i].h.max
    requires (forall n :: n in ns ==> InRange(fs[i].l, n)) && forall j :: 0 <= j < |fs| ==> !fs[j].h.Required?
    ensures Decode(fs, UnpackedBytes(fs[i], ns)) == Some(Defaults(fs)[i := Many(Numbers(ns))])
  {
    hide UnpackedBytes, ItemsBytes, Decode, TagsOk, InRange, Singles, Numbers;
    SinglesAreUnpacked(fs, i, ns);
    assert ItemsOk(fs, Singles(i, ns)) && PiecesOf(Singles(i, ns), i) && |Numbers(ns)| == |ns| by { SinglesAreOk(fs, i, ns); }
    ArrayPiecesAppend(fs, i, Singles(i, ns));
  }

  lemma SinglesAreOk(fs: seq<Field>, i: nat, ns: seq<int>)
    requires TagsOk(fs) && i < |fs| && Packable(fs[i].l) && forall n :: n in ns ==> InRange(fs[i].l, n)
    ensures ItemsOk(fs, Singles(i, ns)) && PiecesOf(Singles(i, ns), i) && |Numbers(ns)| == |ns|
  {
    hide TagsOk, InRange;
    forall k | 0 <= k < |ns| ensures ItemOk(fs, Singles(i, ns)[k]) { assert InRange(fs[i].l, ns[k]); }
  }

  /** One entry more than the array holds and the message is refused. */
  lemma {:induction false} OverfullArrayFails(fs: seq<Field>, slots: seq<Slot>, items: seq<Item>, i: nat)
    requires ItemsOk(fs, items) && i < |fs| == |slots| && fs[i].h.Repeated? && PiecesOf(items, i) && slots[i].Many?
    requires |slots[i].vs| <= fs[i].h.max < |slots[i].vs| + |AllEntries(items)|
    ensures MergeAll(fs, slots, items) == None
    decreases |items|
  {
    hide ItemOk, TagsOk;
    var vs := EntriesOf(items[0]);
    assert items[0].i == i && ItemOk(fs, items[0]);
    if |slots[i].vs| + |vs| <= fs[i].h.max {
      AppendSets(fs, slots, i, vs);
      assert PiecesOf(items[1..], i);
      OverfullArrayFails(fs, slots[i := Many(slots[i].vs + vs)], items[1..], i);
    }
  }

  lemma {:induction false} TooManyEntriesFail(fs: seq<Field>, i: nat, items: seq<Item>)
    requires ItemsOk(fs, items) && i < |fs| && fs[i].h.Repeated? && PiecesOf(items, i) && |AllEntries(items)| > fs[i].h.max
    ensures Decode(fs, ItemsBytes(fs, items)) == None
  {
    hide ItemsOk, ItemsBytes, Decode, MergeAll, HasRequired;
    DecodeMerges(fs, items);
    DefaultsAt(fs, i);
    OverfullArrayFails(fs, Defaults(fs), items, i);
  }

  // ---- The last one counts ----

  lemma {:induction false} MergeConcat(fs: seq<Field>, slots: seq<Slot>, a: seq<Item>, b: seq<Item>)
    requires |slots| == |fs| && ItemsOk(fs, a + b)
    ensures ItemsOk(fs, a) && ItemsOk(fs, b)
    ensures var r := MergeAll(fs, slots, a);
      MergeAll(fs, slots, a + b) == if r.None? then None else MergeAll(fs, r.value, b)
    decreases |a|
  {
    hide Merge, ItemOk, TagsOk;
    forall k | 0 <= k < |a| ensures ItemOk(fs, a[k]) { assert (a + b)[k] == a[k]; }
    forall k | 0 <= k < |b| ensures ItemOk(fs, b[k]) { assert (a + b)[|a| + k] == b[k]; }
    if a == [] {
      assert a + b == b;
    } else {
      assert (a + b)[0] == a[0] && (a + b)[1..] == a[1..] + b;
      var r := Merge(fs, slots, a[0]);
      if r.Some? { MergeConcat(fs, r.value, a[1..], b); }
    }
  }

  /** Of several values of a field that is no array the last one counts, and of a oneof the field that came last. */
  lemma {:induction false} LastValueCounts(fs: seq<Field>, items: seq<Item>, i: nat, v: Value)
    requires ItemsOk(fs, items + [Plain(i, v)]) && i < |fs| && !fs[i].h.Repeated?
    requires Decode(fs, ItemsBytes(fs, items + [Plain(i, v)])).Some?
    ensures var r := Decode(fs, ItemsBytes(fs, items + [Plain(i, v)])).value;
      && |r| == |fs| && r[i] == One(v)
      && forall j :: 0 <= j < |fs| && j != i && fs[i].h.Oneof? && fs[j].h == fs[i].h ==> r[j] == Absent
  {
    hide ItemsOk, ItemsBytes, Decode, HasRequired, MergeAll;
    DecodeMerges(fs, items + [Plain(i, v)]);
    MergeConcat(fs, Defaults(fs), items, [Plain(i, v)]);
    OneMerge(fs, MergeAll(fs, Defaults(fs), items).value, Plain(i, v));
  }

  lemma OneMerge(fs: seq<Field>, slots: seq<Slot>, item: Item)
    requires |slots| == |fs| && ItemsOk(fs, [item])
    ensures [item][0] == item && ItemOk(fs, item) && MergeAll(fs, slots, [item]) == Merge(fs, slots, item)
  {
    hide Merge, ItemOk, TagsOk;
    assert [item][0] == item && [item][1..] == [];
  }

  // ---- Submessages merge ----

  /** A submessage sent in two pieces, in a field that is no array: the second piece goes on where the first has ended. */
  lemma PiecesOfOne(fs: seq<Field>, slots: seq<Slot>, i: nat, a: seq<Item>, b: seq<Item>)
    requires |slots| == |fs| && i < |fs| && fs[i].l.Submsg? && !fs[i].h.Repeated?
    requires ItemOk(fs, Nested(i, a)) && ItemOk(fs, Nested(i, b)) && ItemOk(fs, Nested(i, a + b))
    requires HasRequired(fs[i].l.fields, a) && HasRequired(fs[i].l.fields, b)
    ensures var r := Merge(fs, slots, Nested(i, a));
      Merge(fs, slots, Nested(i, a + b)) == if r.None? then None else Merge(fs, r.value, Nested(i, b))
  {
    hide ItemsOk, ItemsBytes, MergeAll;
    var sub, start := fs[i].l.fields, StartOf(fs[i], slots[i]);
    RequiredOfBoth(sub, a, b);
    MergeConcat(sub, start, a, b);
    var r1 := MergeAll(sub, start, a);
    if r1.Some? {
      var s1 := Set(fs, slots, i, One(Msg(r1.value)));
      assert StartOf(fs[i], s1[i]) == r1.value;
      var r2 := MergeAll(sub, r1.value, b);
      if r2.Some? { assert Set(fs, s1, i, One(Msg(r2.value))) == Set(fs, slots, i, One(Msg(r2.value))); }
    }
  }

  lemma RequiredOfBoth(fs: seq<Field>, a: seq<Item>, b: seq<Item>)
    requires HasRequired(fs, a) && HasRequired(fs, b)
    ensures HasRequired(fs, a + b)
  {
    forall j: nat | Mentioned(a, j) ensures Mentioned(a + b, j) {
      var k :| 0 <= k < |a| && !a[k].Foreign? && a[k].i == j;
      assert (a + b)[k] == a[k];
    }
  }

  /** Wherever they come, the two pieces decode to what the whole decodes to. */
  lemma {:induction false} SplitSubmessageMerges(fs: seq<Field>, before: seq<Item>, i: nat, a: seq<Item>, b: seq<Item>)
    requires i < |fs| && fs[i].l.Submsg? && !fs[i].h.Repeated?
    requires ItemsOk(fs, before + [Nested(i, a), Nested(i, b)]) && ItemsOk(fs, before + [Nested(i, a + b)])
    requires HasRequired(fs[i].l.fields, a) && HasRequired(fs[i].l.fields, b)
    ensures Decode(fs, ItemsBytes(fs, before + [Nested(i, a), Nested(i, b)])) == Decode(fs, ItemsBytes(fs, before + [Nested(i, a + b)]))
  {
    hide ItemBytes, Decode, HasRequired, MergeAll, Merge, ItemOk, TagsOk;
    var one, two := [Nested(i, a + b)], [Nested(i, a)] + [Nested(i, b)];
    assert two == [Nested(i, a), Nested(i, b)];
    DecodeMerges(fs, before + one);
    DecodeMerges(fs, before + two);
    SameRequired(fs, before, i, a, b);
    MergeConcat(fs, Defaults(fs), before, one);
    MergeConcat(fs, Defaults(fs), before, two);
    var start := MergeAll(fs, Defaults(fs), before);
    if start.Some? {
      OneMerge(fs, start.value, Nested(i, a + b));
      MergeConcat(fs, start.value, [Nested(i, a)], [Nested(i, b)]);
      OneMerge(fs, start.value, Nested(i, a));
      var r := Merge(fs, start.value, Nested(i, a));
      if r.Some? { OneMerge(fs, r.value, Nested(i, b)); }
      assert [Nested(i, b)][0] == Nested(i, b);
      PiecesOfOne(fs, start.value, i, a, b);
    }
  }

  lemma SameRequired(fs: seq<Field>, before: seq<Item>, i: nat, a: seq<Item>, b: seq<Item>)
    ensures HasRequired(fs, before + [Nested(i, a), Nested(i, b)]) <==> HasRequired(fs, before + [Nested(i, a + b)])
  {
    var one, two := before + [Nested(i, a + b)], before + [Nested(i, a), Nested(i, b)];
    assert one[|before|].i == i && two[|before|].i == i && two[|before| + 1].i == i;
    forall j: nat ensures Mentioned(one, j) <==> Mentioned(two, j) {
      if k: nat :| k < |one| && !one[k].Foreign? && one[k].i == j { assert two[k].i == j && !two[k].Foreign?; }
      if k: nat :| k < |two| && !two[k].Foreign? && two[k].i == j {
        var m := if k <= |before| then k else |before|;
        assert one[m].i == j && !one[m].Foreign?;
      }
    }
  }

  // ---- A reader with an older descriptor ----

  function Without<T>(s: seq<T>, k: nat): (r: seq<T>)
    requires k < |s|
    ensures |r| == |s| - 1
    ensures forall j :: 0 <= j < |r| ==> r[j] == if j < k then s[j] else s[j + 1]
  {
    s[..k] + s[k + 1..]
  }

  /** The word a varint field carries: two's complement for int32 and int64, ZigZag for sint32 and sint64. */
  function WordOf(l: LType, n: int): int {
    if l.SInt? then (if n < 0 then -2 * n - 1 else 2 * n) else if n < 0 then n + TWO64 else n
  }

  lemma {:induction false} WordIsWritten(l: LType, n: int)
    requires InRange(l, n) && !l.Fixed32? && !l.Fixed64?
    ensures WordOf(l, n) >= 0 && EncodeNumber(l, n) == PutVarint(WordOf(l, n))
  {
    hide PutVarint;
  }

  /** A field the reader does not have, as the reader meets it. */
  ghost function AsForeign(fs: seq<Field>, item: Item): Item
    requires ItemOk(fs, item)
  {
    match item
    case Plain(i, v) =>
      if v.Data? then Foreign(UnknownString(fs[i].tag, v.b))
      else if fs[i].l.Fixed32? then Foreign(Unknown32(fs[i].tag, PutFixed(4, v.n)))
      else if fs[i].l.Fixed64? then Foreign(Unknown64(fs[i].tag, PutFixed(8, v.n)))
      else
        WordIsWritten(fs[i].l, v.n);
        Foreign(UnknownVarint(fs[i].tag, WordOf(fs[i].l, v.n)))
    case Packed(i, vs) => Foreign(UnknownString(fs[i].tag, NumbersBytes(fs[i].l, vs)))
    case Nested(i, items) => Foreign(UnknownString(fs[i].tag, ItemsBytes(fs[i].l.fields, items)))
    case Foreign(_) => item
  }

  function Shift(i: nat, k: nat): nat {
    if i < k || i == 0 then i else i - 1
  }

  /** An item of fs for a reader that lacks field k. */
  ghost function OldItem(fs: seq<Field>, k: nat, item: Item): Item
    requires ItemOk(fs, item)
  {
    match item
    case Plain(i, v) => if i == k then AsForeign(fs, item) else Plain(Shift(i, k), v)
    case Packed(i, vs) => if i == k then AsForeign(fs, item) else Packed(Shift(i, k), vs)
    case Nested(i, items) => if i == k then AsForeign(fs, item) else Nested(Shift(i, k), items)
    case Foreign(_) => item
  }

  lemma WithoutAt<T>(s: seq<T>, k: nat, i: nat)
    requires k < |s| && i < |s| && i != k
    ensures Shift(i, k) < |Without(s, k)| == |s| - 1 && Without(s, k)[Shift(i, k)] == s[i]
  {
  }

  lemma TagsStayOk(fs: seq<Field>, k: nat)
    requires TagsOk(fs) && k < |fs|
    ensures TagsOk(Without(fs, k)) && forall j :: 0 <= j < |fs| - 1 ==> Without(fs, k)[j].tag != fs[k].tag
  {
  }

  lemma ForeignIsUnknown(fs: seq<Field>, k: nat, item: Item)
    requires TagsOk(fs) && ItemOk(fs, item) && k < |fs| && !item.Foreign? && item.i == k
    ensures AsForeign(fs, item).Foreign? && IsUnknown(Without(fs, k), AsForeign(fs, item).u)
    ensures UnknownBytes(AsForeign(fs, item).u) == ItemBytes(fs, item)
  {
    hide TagsOk, ItemsOk, ItemsBytes, NumbersBytes, PutVarint, Key, Without;
    TagsStayOk(fs, k);
    assert 0 < fs[k].tag < TAG_LIMIT by { TagIsOk(fs, k); }
    match item
    case Plain(i, v) =>
      if !v.Data? && !fs[i].l.Fixed32? && !fs[i].l.Fixed64? { WordIsWritten(fs[i].l, v.n); }
    case _ =>
  }

  lemma TagIsOk(fs: seq<Field>, k: nat)
    requires TagsOk(fs) && k < |fs|
    ensures 0 < fs[k].tag < TAG_LIMIT
  {
  }

  lemma OldItemIsSame(fs: seq<Field>, k: nat, item: Item)
    requires TagsOk(fs) && ItemOk(fs, item) && k < |fs|
    ensures ItemOk(Without(fs, k), OldItem(fs, k, item))
    ensures ItemBytes(Without(fs, k), OldItem(fs, k, item)) == ItemBytes(fs, item)
  {
    hide TagsOk, ItemsOk, ItemsBytes, NumbersBytes, ValueBytes, WithLength, FitsValue, AsForeign, UnknownBytes, Key;
    if item.Foreign? {
    } else if item.i == k {
      ForeignIsUnknown(fs, k, item);
    } else {
      assert Without(fs, k)[Shift(item.i, k)] == fs[item.i];
    }
  }

  ghost function OldItems(fs: seq<Field>, k: nat, items: seq<Item>): (r: seq<Item>)
    requires ItemsOk(fs, items)
    ensures |r| == |items|
  {
    seq(|items|, n requires 0 <= n < |items| => OldItem(fs, k, items[n]))
  }

  lemma {:induction false} OldItemsAreSame(fs: seq<Field>, k: nat, items: seq<Item>)
    requires ItemsOk(fs, items) && k < |fs|
    ensures ItemsOk(Without(fs, k), OldItems(fs, k, items))
    ensures ItemsBytes(Without(fs, k), OldItems(fs, k, items)) == ItemsBytes(fs, items)
    decreases |items|
  {
    hide TagsOk, ItemOk, ItemBytes, OldItem, Without;
    TagsStayOk(fs, k);
    forall n | 0 <= n < |items| ensures ItemOk(Without(fs, k), OldItems(fs, k, items)[n]) { OldItemIsSame(fs, k, items[n]); }
    if items != [] {
      OldItemsAreSame(fs, k, items[1..]);
      OldItemIsSame(fs, k, items[0]);
      assert OldItems(fs, k, items)[1..] == OldItems(fs, k, items[1..]);
    }
  }

  lemma SetWithout(fs: seq<Field>, slots: seq<Slot>, k: nat, i: nat, slot: Slot)
    requires i < |fs| == |slots| && k < |fs| && !fs[k].h.Oneof?
    ensures i == k ==> Without(Set(fs, slots, i, slot), k) == Without(slots, k)
    ensures i != k ==> Without(Set(fs, slots, i, slot), k) == Set(Without(fs, k), Without(slots, k), Shift(i, k), slot)
  {
    var a := Without(Set(fs, slots, i, slot), k);
    if i != k {
      var b := Set(Without(fs, k), Without(slots, k), Shift(i, k), slot);
      forall j | 0 <= j < |fs| - 1 ensures a[j] == b[j] {}
    } else {
      forall j | 0 <= j < |fs| - 1 ensures a[j] == Without(slots, k)[j] {}
    }
  }

  lemma PutWithout(fs: seq<Field>, slots: seq<Slot>, k: nat, i: nat, vs: seq<Value>, v: Value)
    requires i < |fs| == |slots| && k < |fs| && !fs[k].h.Oneof? && i != k
    ensures fs[i].h.Repeated? && Append(fs, slots, i, vs).Some? ==>
              Append(Without(fs, k), Without(slots, k), Shift(i, k), vs) == Some(Without(Append(fs, slots, i, vs).value, k))
    ensures Put(fs, slots, i, v).Some? ==>
              Put(Without(fs, k), Without(slots, k), Shift(i, k), v) == Some(Without(Put(fs, slots, i, v).value, k))
  {
    hide Set, Without;
    WithoutAt(fs, k, i);
    WithoutAt(slots, k, i);
    SetWithout(fs, slots, k, i, Many(ArrayOf(slots[i]) + vs));
    SetWithout(fs, slots, k, i, Many(ArrayOf(slots[i]) + [v]));
    SetWithout(fs, slots, k, i, One(v));
  }

  lemma OldMerge(fs: seq<Field>, slots: seq<Slot>, k: nat, item: Item)
    requires TagsOk(fs) && ItemOk(fs, item) && k < |fs| == |slots| && !fs[k].h.Oneof? && Merge(fs, slots, item).Some?
    ensures ItemOk(Without(fs, k), OldItem(fs, k, item))
    ensures Merge(Without(fs, k), Without(slots, k), OldItem(fs, k, item)) == Some(Without(Merge(fs, slots, item).value, k))
  {
    hide TagsOk, ItemsOk, FitsValue, NumbersBytes, ItemsBytes, Message, Set, IsUnknown, StartOf, Without, AsForeign, Put, Append, ItemBytes;
    OldItemIsSame(fs, k, item);
    if item.Foreign? {
    } else if item.i == k {
      ForeignIsUnknown(fs, k, item);
      OwnMerge(fs, slots, k, item);
    } else {
      WithoutAt(fs, k, item.i);
      WithoutAt(slots, k, item.i);
      match item
      case Plain(i, v) => PutWithout(fs, slots, k, i, [], v);
      case Packed(i, vs) => PutWithout(fs, slots, k, i, vs, Num(0));
      case Nested(i, items) =>
        var r := Message(fs[i].l.fields, StartOf(fs[i], slots[i]), items);
        PutWithout(fs, slots, k, i, [], Msg(r.value));
      case _ =>
    }
  }

  /** An item of field k changes no other slot. */
  lemma OwnMerge(fs: seq<Field>, slots: seq<Slot>, k: nat, item: Item)
    requires ItemOk(fs, item) && k < |fs| == |slots| && !fs[k].h.Oneof? && Merge(fs, slots, item).Some?
    requires !item.Foreign? && item.i == k
    ensures Without(Merge(fs, slots, item).value, k) == Without(slots, k)
  {
    hide ItemsOk, FitsValue, NumbersBytes, ItemsBytes, Message, Without;
    var r := Merge(fs, slots, item).value;
    forall j | 0 <= j < |fs| && j != k ensures r[j] == slots[j] {}
    SameElsewhere(r, slots, k);
  }

  lemma SameElsewhere(a: seq<Slot>, b: seq<Slot>, k: nat)
    requires k < |a| == |b| && forall j :: 0 <= j < |a| && j != k ==> a[j] == b[j]
    ensures Without(a, k) == Without(b, k)
  {
  }

  lemma {:induction false} OldMergeAll(fs: seq<Field>, slots: seq<Slot>, k: nat, items: seq<Item>)
    requires ItemsOk(fs, items) && k < |fs| == |slots| && !fs[k].h.Oneof? && MergeAll(fs, slots, items).Some?
    ensures ItemsOk(Without(fs, k), OldItems(fs, k, items))
    ensures MergeAll(Without(fs, k), Without(slots, k), OldItems(fs, k, items)) == Some(Without(MergeAll(fs, slots, items).value, k))
    decreases |items|
  {
    hide TagsOk, ItemOk, Merge, Without, OldItem, ItemsBytes;
    OldItemsAreSame(fs, k, items);
    if items != [] {
      OldMerge(fs, slots, k, items[0]);
      OldMergeAll(fs, Merge(fs, slots, items[0]).value, k, items[1..]);
      assert OldItems(fs, k, items)[1..] == OldItems(fs, k, items[1..]);
    }
  }

  lemma {:induction false} RequiredBeforeWithout(fs: seq<Field>, k: nat, i: nat)
    requires k < |fs| && !fs[k].h.Required? && i <= |fs|
    ensures i <= k ==> RequiredBefore(Without(fs, k), i) == RequiredBefore(fs, i)
    ensures i > k ==> RequiredBefore(Without(fs, k), i - 1) == RequiredBefore(fs, i)
  {
    if i > 0 { RequiredBeforeWithout(fs, k, i - 1); }
  }

  lemma OldRequired(fs: seq<Field>, k: nat, items: seq<Item>)
    requires ItemsOk(fs, items) && k < |fs| && !fs[k].h.Required? && HasRequired(fs, items)
    ensures HasRequired(Without(fs, k), OldItems(fs, k, items))
  {
    hide ItemOk, TagsOk, RequiredBefore, AsForeign, Without;
    var gs := Without(fs, k);
    forall j | 0 <= j < |gs| && gs[j].h.Required? && RequiredBefore(gs, j) < 64 ensures Mentioned(OldItems(fs, k, items), j) {
      var i := if j < k then j else j + 1;
      RequiredBeforeWithout(fs, k, i);
      WithoutAt(fs, k, i);
      assert Mentioned(items, i);
      var n :| 0 <= n < |items| && !items[n].Foreign? && items[n].i == i;
      assert OldItems(fs, k, items)[n] == OldItem(fs, k, items[n]);
    }
  }

  lemma {:induction false} DefaultsWithout(fs: seq<Field>, k: nat)
    requires k < |fs|
    ensures Defaults(Without(fs, k)) == Without(Defaults(fs), k)
  {
    var a, b := Defaults(Without(fs, k)), Without(Defaults(fs), k);
    forall j | 0 <= j < |a| ensures a[j] == b[j] {
      DefaultsAt(Without(fs, k), j);
      DefaultsAt(fs, if j < k then j else j + 1);
    }
  }

  /**
   * A reader whose descriptor lacks a field that is not required and in no oneof reads what a newer writer sends as the
   * newer reader does, all but that field.
   */
  lemma {:induction false} OldReaderAgrees(fs: seq<Field>, k: nat, items: seq<Item>)
    requires ItemsOk(fs, items) && k < |fs| && !fs[k].h.Required? && !fs[k].h.Oneof?
    requires Decode(fs, ItemsBytes(fs, items)).Some?
    ensures |Decode(fs, ItemsBytes(fs, items)).value| == |fs|
    ensures Decode(Without(fs, k), ItemsBytes(fs, items)) == Some(Without(Decode(fs, ItemsBytes(fs, items)).value, k))
  {
    hide ItemsOk, ItemsBytes, Decode, HasRequired, MergeAll, Without, OldItems;
    DecodeMerges(fs, items);
    OldItemsAreSame(fs, k, items);
    DecodeMerges(Without(fs, k), OldItems(fs, k, items));
    OldRequired(fs, k, items);
    OldMergeAll(fs, Defaults(fs), k, items);
    DefaultsWithout(fs, k);
  }

  // ---- What the encoder writes is such a list of items ----

  function ValueItem(l: LType, i: nat, v: Value): Item
    decreases v, 1
  {
    if l.Submsg? && v.Msg? then Nested(i, ItemsFrom(l.fields, v.slots, 0)) else Plain(i, v)
  }

  function Each(l: LType, i: nat, vs: seq<Value>): seq<Item>
    decreases vs
  {
    if vs == [] then [] else [ValueItem(l, i, vs[0])] + Each(l, i, vs[1..])
  }

  function FieldItems(f: Field, i: nat, slot: Slot): seq<Item>
    decreases slot, 1
  {
    match slot
    case Absent => []
    case One(v) => if f.h.Singular? && IsDefault(f.l, v) then [] else [ValueItem(f.l, i, v)]
    case Many(vs) => if vs == [] then [] else if Packable(f.l) then [Packed(i, vs)] else Each(f.l, i, vs)
  }

  /** The fields from n on, in order. */
  function ItemsFrom(fs: seq<Field>, slots: seq<Slot>, n: nat): seq<Item>
    decreases slots, |slots| - n
  {
    if n >= |slots| || n >= |fs| then [] else FieldItems(fs[n], n, slots[n]) + ItemsFrom(fs, slots, n + 1)
  }

  ghost predicate IsEncoding(fs: seq<Field>, items: seq<Item>, b: Option<Bytes>) {
    ItemsOk(fs, items) && b == Some(ItemsBytes(fs, items))
  }

  predicate Fine(b: Option<Bytes>) {
    b.Some? && |b.value| < TWO32
  }

  lemma {:induction false} BytesConcat(fs: seq<Field>, a: seq<Item>, b: seq<Item>)
    ensures ItemsBytes(fs, a + b) == ItemsBytes(fs, a) + ItemsBytes(fs, b)
    decreases |a|
  {
    hide ItemBytes;
    if a == [] {
      assert a + b == b;
    } else {
      assert (a + b)[0] == a[0] && (a + b)[1..] == a[1..] + b;
      BytesConcat(fs, a[1..], b);
    }
  }

  lemma EncodingConcat(fs: seq<Field>, a: seq<Item>, x: Option<Bytes>, b: seq<Item>, y: Option<Bytes>)
    requires IsEncoding(fs, a, x) && IsEncoding(fs, b, y)
    ensures IsEncoding(fs, a + b, Then(x, y))
  {
    hide ItemOk, TagsOk, ItemsBytes;
    BytesConcat(fs, a, b);
  }

  lemma OneItemBytes(fs: seq<Field>, item: Item)
    requires TagsOk(fs) && ItemOk(fs, item)
    ensures IsEncoding(fs, [item], Some(ItemBytes(fs, item)))
  {
    hide ItemOk, TagsOk, ItemBytes;
    assert [item][0] == item && [item][1..] == [] && ItemsBytes(fs, []) == [];
    assert ItemBytes(fs, item) + [] == ItemBytes(fs, item);
    forall k | 0 <= k < |[item]| ensures ItemOk(fs, [item][k]) {}
  }

  lemma NoItemsBytes(fs: seq<Field>)
    requires TagsOk(fs)
    ensures IsEncoding(fs, [], Some([]))
  {
  }

  lemma {:induction false} NumbersAreItems(l: LType, vs: seq<Value>)
    requires Packable(l) && forall v :: v in vs ==> FitsValue(l, v)
    ensures EncodeItems(l, [], vs) == Some(NumbersBytes(l, vs))
  {
    hide EncodeNumber, InRange;
    if vs != [] {
      assert FitsValue(l, vs[0]);
      NumbersAreItems(l, vs[1..]);
      assert [] + EncodeNumber(l, vs[0].n) == EncodeNumber(l, vs[0].n);
    }
  }

  lemma {:induction false} ValueIsItem(fs: seq<Field>, i: nat, v: Value)
    requires TagsOk(fs) && i < |fs| && FitsValue(fs[i].l, v) && Fine(EncodeValue(fs[i].l, v))
    ensures IsEncoding(fs, [ValueItem(fs[i].l, i, v)], Then(Some(Key(fs[i].tag, WireType(fs[i].l))), EncodeValue(fs[i].l, v)))
    decreases v, 1
  {
    hide Key, PutVarint, EncodeFields, ItemsFrom, FitsFields, ItemsOk, ItemsBytes, TagsOk, EncodeNumber, IsEncoding;
    var l, item := fs[i].l, ValueItem(fs[i].l, i, v);
    if l.Submsg? {
      assert EncodeFields(l.fields, v.slots).Some? && |EncodeFields(l.fields, v.slots).value| < TWO32;
      FieldsAreItems(l.fields, v.slots, 0);
      assert l.fields[0..] == l.fields && v.slots[0..] == v.slots;
      EncodingParts(l.fields, ItemsFrom(l.fields, v.slots, 0), EncodeFields(l.fields, v.slots));
    }
    OneItemBytes(fs, item);
  }

  lemma EncodingParts(fs: seq<Field>, items: seq<Item>, b: Option<Bytes>)
    requires IsEncoding(fs, items, b)
    ensures ItemsOk(fs, items) && b == Some(ItemsBytes(fs, items))
  {
  }

  lemma {:induction false} EachIsItem(fs: seq<Field>, i: nat, vs: seq<Value>)
    requires TagsOk(fs) && i < |fs| && (forall v :: v in vs ==> FitsValue(fs[i].l, v))
    requires Fine(EncodeItems(fs[i].l, Key(fs[i].tag, WireType(fs[i].l)), vs))
    ensures IsEncoding(fs, Each(fs[i].l, i, vs), EncodeItems(fs[i].l, Key(fs[i].tag, WireType(fs[i].l)), vs))
    decreases vs
  {
    hide Key, FitsValue, EncodeValue, ValueItem, TagsOk, IsEncoding;
    if vs == [] {
      NoItemsBytes(fs);
    } else {
      var key := Key(fs[i].tag, WireType(fs[i].l));
      ValueIsItem(fs, i, vs[0]);
      EachIsItem(fs, i, vs[1..]);
      EncodingConcat(fs, [ValueItem(fs[i].l, i, vs[0])], Then(Some(key), EncodeValue(fs[i].l, vs[0])),
                     Each(fs[i].l, i, vs[1..]), EncodeItems(fs[i].l, key, vs[1..]));
    }
  }

  lemma {:induction false} FieldIsItems(fs: seq<Field>, i: nat, slot: Slot)
    requires TagsOk(fs) && i < |fs| && FitsSlot(fs[i], slot) && Fine(EncodeField(fs[i], slot))
    ensures IsEncoding(fs, FieldItems(fs[i], i, slot), EncodeField(fs[i], slot))
    decreases slot, 1
  {
    hide Key, FitsValue, EncodeValue, EncodeItems, ValueItem, TagsOk, IsEncoding, Each, IsDefault, PutVarint, NumbersBytes;
    var f := fs[i];
    match slot
    case Absent => NoItemsBytes(fs);
    case One(v) => if f.h.Singular? && IsDefault(f.l, v) { NoItemsBytes(fs); } else { ValueIsItem(fs, i, v); }
    case Many(vs) =>
      if vs == [] {
        NoItemsBytes(fs);
      } else if Packable(f.l) {
        NumbersAreItems(f.l, vs);
        OneItemBytes(fs, Packed(i, vs));
      } else {
        EachIsItem(fs, i, vs);
      }
  }

  lemma {:induction false} FieldsAreItems(fs: seq<Field>, slots: seq<Slot>, n: nat)
    requires FitsFields(fs, slots) && n <= |fs| && Fine(EncodeFields(fs[n..], slots[n..]))
    ensures IsEncoding(fs, ItemsFrom(fs, slots, n), EncodeFields(fs[n..], slots[n..]))
    decreases slots, |slots| - n
  {
    hide TagsOk, Exclusive, FitsSlot, EncodeField, FieldItems, IsEncoding;
    if n == |fs| {
      NoItemsBytes(fs);
    } else {
      assert fs[n..][1..] == fs[n + 1..] && slots[n..][1..] == slots[n + 1..];
      FieldIsItems(fs, n, slots[n]);
      FieldsAreItems(fs, slots, n + 1);
      EncodingConcat(fs, FieldItems(fs[n], n, slots[n]), EncodeField(fs[n], slots[n]),
                     ItemsFrom(fs, slots, n + 1), EncodeFields(fs[n + 1..], slots[n + 1..]));
    }
  }

  /** What an encoder with a newer descriptor writes, a reader with the older one takes for the same message without the new field. */
  lemma {:induction false} OldReaderReadsEncoded(fs: seq<Field>, slots: seq<Slot>, k: nat)
    requires FitsFields(fs, slots) && k < |fs| && !fs[k].h.Required? && !fs[k].h.Oneof?
    ensures EncodeFields(fs, slots).Some? && |slots| == |fs|
    ensures |EncodeFields(fs, slots).value| < TWO32 ==>
              Decode(Without(fs, k), EncodeFields(fs, slots).value) == Some(Without(slots, k))
  {
    hide EncodeFields, TagsOk, Exclusive, FitsSlot, Decode, Without, IsEncoding;
    DecodeUndoesEncode(fs, slots);
    if |EncodeFields(fs, slots).value| < TWO32 {
      assert fs[0..] == fs && slots[0..] == slots;
      FieldsAreItems(fs, slots, 0);
      EncodingParts(fs, ItemsFrom(fs, slots, 0), EncodeFields(fs, slots));
      OldReaderAgrees(fs, k, ItemsFrom(fs, slots, 0));
    }
  }

  // ---- What is refused ----

  /** The number that a word stands for; of a word for a field of less than 64 bits only the lower half counts. */
  function Carried(l: LType, w: nat): int {
    if l.UInt? then w
    else if l.SInt? then (if w % 2 == 0 then w / 2 else -((w + 1) / 2))
    else if l == Int(8) then (if w < TWO63 then w else w - TWO64)
    else if w % TWO32 < TWO31 then w % TWO32 else w % TWO32 - TWO32
  }

  lemma CutIsId(n: int, size: nat)
    requires size in {1, 2, 4, 8} && -TWO63 <= n < TWO63
    ensures SignedCut(n, size) == n <==> -SignedLimit(size) <= n < SignedLimit(size)
  {
  }

  lemma CutIsCarried(w: nat, size: nat)
    requires w < TWO64 && size in {1, 2, 4, 8}
    ensures SignedCut(w, if size == 8 then 8 else 4) == Carried(Int(size), w) && -TWO63 <= Carried(Int(size), w) < TWO63
  {
  }

  lemma UnZigZagIsCarried(w: nat, size: nat)
    requires w < TWO64
    ensures UnZigZag(w) == Carried(SInt(size), w) && -TWO63 <= UnZigZag(w) < TWO63
  {
  }

  lemma WordIsTaken(l: LType, w: nat)
    requires (l.Int? || l.UInt? || l.SInt?) && l.size in {1, 2, 4, 8} && w < TWO64
    ensures FromWord(l, w) == if InRange(l, Carried(l, w)) then Some(Carried(l, w)) else None
  {
    hide UnZigZag, SignedCut, SignedLimit;
    match l
    case Int(size) =>
      CutIsCarried(w, size);
      hide Carried;
      CutIsId(Carried(l, w), size);
    case SInt(size) =>
      UnZigZagIsCarried(w, size);
      hide Carried;
      CutIsId(Carried(l, w), size);
    case _ =>
  }

  /** A varint field takes the number if its memory can hold it; anything else fails the message. */
  lemma {:induction false} VarintFieldIsRead(l: LType, w: nat, rest: Bytes, was: Value)
    requires (l.Int? || l.UInt? || l.SInt?) && l.size in {1, 2, 4, 8} && w < TWO64
    ensures DecodeValue(l, PutVarint(w) + rest, was) == if InRange(l, Carried(l, w)) then Some((Num(Carried(l, w)), rest)) else None
  {
    hide PutVarint, FromWord, InRange, Carried;
    Varint64RoundTrip(w, rest);
    WordIsTaken(l, w);
  }

  /** A number beyond an unsigned field's width, or a string or byte array beyond its buffer, fails the message. */
  lemma {:induction false} UnsignedOverflowFails(fs: seq<Field>, i: nat, w: nat, rest: Bytes, slots: seq<Slot>, seen: set<nat>)
    requires |slots| == |fs| && TagsOk(fs) && i < |fs| && fs[i].l.UInt? && w < TWO64 && w >= 2 * SignedLimit(fs[i].l.size)
    ensures DecodeLoop(fs, Key(fs[i].tag, WT_VARINT) + (PutVarint(w) + rest), slots, seen) == None
  {
    hide DecodeLoop, Key, PutVarint, TagsOk, Store;
    LoopMeetsField(fs, i, WT_VARINT, PutVarint(w) + rest, slots, seen);
    Varint64RoundTrip(w, rest);
  }

  lemma {:induction false} DataOverflowFails(fs: seq<Field>, i: nat, b: Bytes, rest: Bytes, slots: seq<Slot>, seen: set<nat>)
    requires |slots| == |fs| && TagsOk(fs) && i < |fs| && |b| < TWO32
    requires match fs[i].l
             case ByteArray(cap) => |b| > cap
             case Text(cap) => |b| >= cap
             case FixedBytes(len) => |b| != len && b != []
             case _ => false
    ensures DecodeLoop(fs, Key(fs[i].tag, WT_STRING) + (PutVarint(|b|) + b + rest), slots, seen) == None
  {
    hide DecodeLoop, Key, PutVarint, TagsOk, Varint32, Store, TakeString;
    LoopMeetsField(fs, i, WT_STRING, PutVarint(|b|) + b + rest, slots, seen);
    LengthRoundTrip(b, rest);
  }

  /** A required field that no item is of, one of the first 64, fails the message. */
  lemma {:induction false} MissingRequiredFails(fs: seq<Field>, items: seq<Item>, i: nat)
    requires ItemsOk(fs, items) && i < |fs| && fs[i].h.Required? && RequiredBefore(fs, i) < 64
    requires forall k :: 0 <= k < |items| ==> items[k].Foreign? || items[k].i != i
    ensures Decode(fs, ItemsBytes(fs, items)) == None
  {
    hide ItemsOk, ItemsBytes, Decode, MergeAll, RequiredBefore;
    DecodeMerges(fs, items);
    assert !Mentioned(items, i);
  }

  /** A message that stops inside a string, a submessage or a packed array is refused. */
  lemma {:induction false} TruncatedFails(fs: seq<Field>, i: nat, n: nat, b: Bytes, slots: seq<Slot>, seen: set<nat>)
    requires |slots| == |fs| && TagsOk(fs) && i < |fs| && |b| < n < TWO32 && WireType(fs[i].l) == WT_STRING
    requires fs[i].l.FixedBytes? ==> fs[i].l.len == n
    ensures DecodeLoop(fs, Key(fs[i].tag, WT_STRING) + (PutVarint(n) + b), slots, seen) == None
  {
    hide DecodeLoop, Key, PutVarint, TagsOk, Varint32, Store, DecodeNoInit;
    LoopMeetsField(fs, i, WT_STRING, PutVarint(n) + b, slots, seen);
    Varint32Ranges(n, b);
  }

  /** Types with a value that is never written: no field in them is required, no fixed-length data has bytes. */
  predicate CanBeOmitted(l: LType)
    decreases l
  {
    match l
    case Submsg(fs) => forall i :: 0 <= i < |fs| ==> !fs[i].h.Required? && (fs[i].h.Singular? ==> CanBeOmitted(fs[i].l))
    case FixedBytes(len) => len == 0
    case _ => true
  }

  lemma {:induction false} OmittedCanBe(l: LType, v: Value)
    requires IsDefault(l, v)
    ensures CanBeOmitted(l)
    decreases l
  {
    if l.Submsg? {
      forall i | 0 <= i < |l.fields| ensures !l.fields[i].h.Required? && (l.fields[i].h.Singular? ==> CanBeOmitted(l.fields[i].l)) {
        assert IsDefaultSlot(l.fields[i], v.slots[i]);
        if l.fields[i].h.Singular? { OmittedCanBe(l.fields[i].l, v.slots[i].v); }
      }
    }
  }

  lemma {:induction false} DefaultIsDefault(l: LType)
    requires CanBeOmitted(l)
    ensures IsDefault(l, DefaultValue(l))
    decreases l
  {
    if l.Submsg? {
      forall i | 0 <= i < |l.fields| ensures IsDefaultSlot(l.fields[i], Defaults(l.fields)[i]) {
        DefaultsAt(l.fields, i);
        if l.fields[i].h.Singular? { DefaultIsDefault(l.fields[i].l); }
      }
    }
  }

  /** A field without presence is left out of the message exactly when it has its default value, and its type can be left out. */
  lemma {:induction false} DefaultIsOmitted(f: Field, v: Value)
    requires f.h.Singular? && FitsValue(f.l, v)
    ensures EncodeField(f, One(v)) == Some([]) <==> CanBeOmitted(f.l) && v == DefaultValue(f.l)
  {
    hide EncodeValue, PutVarint, CanBeOmitted, DefaultValue, FitsValue;
    if IsDefault(f.l, v) {
      OmittedCanBe(f.l, v);
      DefaultIsUnique(f.l, v);
    } else {
      KeyIsLong(f.tag, WireType(f.l));
    }
    if CanBeOmitted(f.l) { DefaultIsDefault(f.l); }
  }

  lemma KeyIsLong(tag: nat, wireType: nat)
    ensures Key(tag, wireType) != []
  {
  }

  /** An array of numbers is written with one key and one length, whatever its count. */
  lemma {:induction false} PackedArrayIsOne(f: Field, vs: seq<Value>)
    requires f.h.Repeated? && Packable(f.l) && 0 < |vs| <= f.h.max && forall v :: v in vs ==> FitsValue(f.l, v)
    ensures var b := NumbersBytes(f.l, vs);
      EncodeField(f, Many(vs)) == Some(Key(f.tag, WT_STRING) + (PutVarint(|b|) + b))
  {
    hide Key, PutVarint, NumbersBytes, EncodeItems;
    NumbersAreItems(f.l, vs);
  }

  predicate StorableValue(l: LType, v: Value)
    decreases l
  {
    match l
    case Submsg(fs) => v.Msg? && |v.slots| == |fs| && forall i :: 0 <= i < |fs| ==> StorableSlot(fs[i], v.slots[i])
    case ByteArray(cap) => v.Data? && |v.b| <= cap
    case Text(cap) => v.Data? && |v.b| <= cap && NUL !in v.b
    case FixedBytes(len) => v.Data? && |v.b| == len
    case _ => v.Num? && InRange(l, v.n)
  }

  /** What the memory of a field can hold: an array of at most its size, nothing only where there may be nothing. */
  predicate StorableSlot(f: Field, slot: Slot)
    decreases f
  {
    match slot
    case Absent => f.h.Optional? || f.h.Oneof?
    case One(v) => !f.h.Repeated? && ((f.h.Singular? && IsDefault(f.l, v)) || StorableValue(f.l, v))
    case Many(vs) => f.h.Repeated? && |vs| <= f.h.max && forall v :: v in vs ==> StorableValue(f.l, v)
  }

  lemma {:induction false} ValueEncodes(l: LType, v: Value)
    ensures EncodeValue(l, v).Some? <==> StorableValue(l, v)
    decreases l, 0, 0
  {
    hide EncodeFields, EncodeNumber, PutVarint;
    if l.Submsg? && v.Msg? { EncodesIffStorable(l.fields, v.slots); }
  }

  lemma {:induction false} ItemsEncode(l: LType, key: Bytes, vs: seq<Value>)
    ensures EncodeItems(l, key, vs).Some? <==> forall v :: v in vs ==> StorableValue(l, v)
    decreases l, 1, |vs|
  {
    hide EncodeValue, StorableValue;
    if vs != [] {
      ValueEncodes(l, vs[0]);
      ItemsEncode(l, key, vs[1..]);
      assert vs == [vs[0]] + vs[1..];
    }
  }

  lemma {:induction false} FieldEncodes(f: Field, slot: Slot)
    ensures EncodeField(f, slot).Some? <==> StorableSlot(f, slot)
    decreases f, 0, 0
  {
    hide EncodeValue, EncodeItems, StorableValue, IsDefault, Key, PutVarint;
    match slot
    case Absent =>
    case One(v) => ValueEncodes(f.l, v);
    case Many(vs) =>
      ItemsEncode(f.l, [], vs);
      ItemsEncode(f.l, Key(f.tag, WireType(f.l)), vs);
  }

  /** A message is refused exactly when a field holds what its memory cannot. */
  lemma {:induction false} EncodesIffStorable(fs: seq<Field>, slots: seq<Slot>)
    ensures EncodeFields(fs, slots).Some? <==> |fs| == |slots| && forall i :: 0 <= i < |fs| ==> StorableSlot(fs[i], slots[i])
    decreases fs, 0, 0
  {
    hide EncodeField, StorableSlot;
    if fs != [] && |fs| == |slots| {
      FieldEncodes(fs[0], slots[0]);
      EncodesIffStorable(fs[1..], slots[1..]);
      assert fs == [fs[0]] + fs[1..] && slots == [slots[0]] + slots[1..];
    }
  }

  /** Fields are written in the order of the descriptor. */
  lemma {:induction false} FieldsInOrder(fs: seq<Field>, gs: seq<Field>, slots: seq<Slot>, more: seq<Slot>)
    requires |fs| == |slots|
    ensures EncodeFields(fs + gs, slots + more) == Then(EncodeFields(fs, slots), EncodeFields(gs, more))
    decreases |fs|
  {
    hide EncodeField;
    if fs == [] {
      assert fs + gs == gs && slots + more == more;
      NothingBefore(EncodeFields(gs, more));
    } else {
      assert (fs + gs)[0] == fs[0] && (fs + gs)[1..] == fs[1..] + gs;
      assert (slots + more)[0] == slots[0] && (slots + more)[1..] == slots[1..] + more;
      FieldsInOrder(fs[1..], gs, slots[1..], more);
      ThenIsAssociative(EncodeField(fs[0], slots[0]), EncodeFields(fs[1..], slots[1..]), EncodeFields(gs, more));
    }
  }

  lemma NothingBefore(a: Option<Bytes>)
    ensures Then(Some([]), a) == a
  {
    if a.Some? { assert [] + a.value == a.value; }
  }

  lemma ThenIsAssociative(a: Option<Bytes>, b: Option<Bytes>, c: Option<Bytes>)
    ensures Then(Then(a, b), c) == Then(a, Then(b, c))
  {
    if a.Some? && b.Some? && c.Some? { assert a.value + b.value + c.value == a.value + (b.value + c.value); }
  }
}
