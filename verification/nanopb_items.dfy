/** What decoding makes of any list of well-formed fields, in any order and at any depth (pb_decode.c). */
module NanopbItems {
  import opened Bytestrings
  import opened Coding
  import opened NanopbVarint
  import opened NanopbSchema
  import opened NanopbDecode
  import opened NanopbRoundTrip

  /** One field on the wire: a value, a packed array, a submessage of such fields, or a field the descriptor does not have. */
  datatype Item =
    | Plain(i: nat, v: Value)
    | Packed(i: nat, vs: seq<Value>)
    | Nested(i: nat, items: seq<Item>)
    | Foreign(u: Unknown)

  function NumbersBytes(l: LType, vs: seq<Value>): Bytes {
    if vs == [] then []
    else (if vs[0].Num? && InRange(l, vs[0].n) then EncodeNumber(l, vs[0].n) else []) + NumbersBytes(l, vs[1..])
  }

  function ValueBytes(l: LType, v: Value): Bytes {
    if v.Num? && InRange(l, v.n) then EncodeNumber(l, v.n) else if v.Data? then PutVarint(|v.b|) + v.b else []
  }

  function WithLength(b: Bytes): Bytes {
    PutVarint(|b|) + b
  }

  function ItemBytes(fs: seq<Field>, item: Item): Bytes
    decreases item
  {
    match item
    case Plain(i, v) => if i < |fs| then Key(fs[i].tag, WireType(fs[i].l)) + ValueBytes(fs[i].l, v) else []
    case Packed(i, vs) => if i < |fs| then Key(fs[i].tag, WT_STRING) + WithLength(NumbersBytes(fs[i].l, vs)) else []
    case Nested(i, items) =>
      if i < |fs| && fs[i].l.Submsg? then Key(fs[i].tag, WT_STRING) + WithLength(ItemsBytes(fs[i].l.fields, items)) else []
    case Foreign(u) => UnknownBytes(u)
  }

  function ItemsBytes(fs: seq<Field>, items: seq<Item>): Bytes
    decreases items
  {
    if items == [] then [] else ItemBytes(fs, items[0]) + ItemsBytes(fs, items[1..])
  }

  /** The item can stand in a message of this descriptor. */
  ghost predicate ItemOk(fs: seq<Field>, item: Item)
    decreases item
  {
    match item
    case Plain(i, v) => i < |fs| && !fs[i].l.Submsg? && FitsValue(fs[i].l, v) && (v.Data? ==> |v.b| < TWO32)
    case Packed(i, vs) =>
      && i < |fs| && fs[i].h.Repeated? && Packable(fs[i].l) && (forall v :: v in vs ==> FitsValue(fs[i].l, v))
      && |NumbersBytes(fs[i].l, vs)| < TWO32
    case Nested(i, items) =>
      && i < |fs| && fs[i].l.Submsg? && ItemsOk(fs[i].l.fields, items) && |ItemsBytes(fs[i].l.fields, items)| < TWO32
    case Foreign(u) => IsUnknown(fs, u)
  }

  ghost predicate ItemsOk(fs: seq<Field>, items: seq<Item>)
    decreases items
  {
    TagsOk(fs) && forall k :: 0 <= k < |items| ==> ItemOk(fs, items[k])
  }

  // ---- What the items mean ----

  /** Slot i is set; of a oneof only the field set last stays. */
  function Set(fs: seq<Field>, slots: seq<Slot>, i: nat, slot: Slot): (r: seq<Slot>)
    requires i < |fs| == |slots|
    ensures |r| == |fs|
  {
    seq(|fs|, j requires 0 <= j < |fs| =>
      if j == i then slot
      else if fs[j].h.Oneof? && fs[i].h.Oneof? && fs[j].h.union == fs[i].h.union then Absent
      else slots[j])
  }

  function ArrayOf(slot: Slot): seq<Value> {
    if slot.Many? then slot.vs else []
  }

  /** Entries are appended to the array, if they fit. */
  function Append(fs: seq<Field>, slots: seq<Slot>, i: nat, vs: seq<Value>): (r: Option<seq<Slot>>)
    requires i < |fs| == |slots| && fs[i].h.Repeated?
    ensures r.Some? ==> |r.value| == |fs|
  {
    var all := ArrayOf(slots[i]) + vs;
    if vs != [] && |all| > fs[i].h.max then None else Some(Set(fs, slots, i, Many(all)))
  }

  /** An array gets another entry, any other field the new value. */
  function Put(fs: seq<Field>, slots: seq<Slot>, i: nat, v: Value): (r: Option<seq<Slot>>)
    requires i < |fs| == |slots|
    ensures r.Some? ==> |r.value| == |fs|
  {
    if fs[i].h.Repeated? then Append(fs, slots, i, [v]) else Some(Set(fs, slots, i, One(v)))
  }

  /** Where a submessage starts from: array entries from the defaults, others from what is there. */
  function StartOf(f: Field, slot: Slot): (r: seq<Slot>)
    requires f.l.Submsg?
    ensures |r| == |f.l.fields|
  {
    if !f.h.Repeated? && slot.One? && slot.v.Msg? && |slot.v.slots| == |f.l.fields| then slot.v.slots else Defaults(f.l.fields)
  }

  /** Every required field among the first 64 has an item. */
  ghost predicate HasRequired(fs: seq<Field>, items: seq<Item>) {
    forall i :: 0 <= i < |fs| && fs[i].h.Required? && RequiredBefore(fs, i) < 64 ==> Mentioned(items, i)
  }

  ghost predicate Mentioned(items: seq<Item>, i: nat) {
    exists k :: 0 <= k < |items| && !items[k].Foreign? && items[k].i == i
  }

  ghost function Merge(fs: seq<Field>, slots: seq<Slot>, item: Item): (r: Option<seq<Slot>>)
    requires |slots| == |fs| && ItemOk(fs, item)
    ensures r.Some? ==> |r.value| == |fs|
    decreases item
  {
    match item
    case Plain(i, v) => Put(fs, slots, i, v)
    case Packed(i, vs) => Append(fs, slots, i, vs)
    case Nested(i, items) =>
      var r := Message(fs[i].l.fields, StartOf(fs[i], slots[i]), items);
      if r.None? then None else Put(fs, slots, i, Msg(r.value))
    case Foreign(_) => Some(slots)
  }

  ghost function MergeAll(fs: seq<Field>, slots: seq<Slot>, items: seq<Item>): (r: Option<seq<Slot>>)
    requires |slots| == |fs| && ItemsOk(fs, items)
    ensures r.Some? ==> |r.value| == |fs|
    decreases items, 0
  {
    if items == [] then Some(slots)
    else
      var r := Merge(fs, slots, items[0]);
      if r.None? then None else MergeAll(fs, r.value, items[1..])
  }

  /** A message: all its items in order, and none of the required fields missing. */
  ghost function Message(fs: seq<Field>, slots: seq<Slot>, items: seq<Item>): (r: Option<seq<Slot>>)
    requires |slots| == |fs| && ItemsOk(fs, items)
    ensures r.Some? ==> |r.value| == |fs|
    decreases items, 1
  {
    if HasRequired(fs, items) then MergeAll(fs, slots, items) else None
  }

  // ---- The decoder agrees ----

  function SeenBy(items: seq<Item>): set<nat> {
    set k | 0 <= k < |items| && !items[k].Foreign? :: items[k].i
  }

  function SeenOf(item: Item): set<nat> {
    if item.Foreign? then {} else {item.i}
  }

  lemma SeenUnfolds(items: seq<Item>)
    requires items != []
    ensures SeenBy(items) == SeenOf(items[0]) + SeenBy(items[1..])
  {
    forall n | n in SeenBy(items) ensures n in SeenOf(items[0]) + SeenBy(items[1..]) {
      var k :| 0 <= k < |items| && !items[k].Foreign? && items[k].i == n;
      if k > 0 { assert items[1..][k - 1] == items[k]; }
    }
    forall n | n in SeenBy(items[1..]) ensures n in SeenBy(items) {
      var k :| 0 <= k < |items[1..]| && !items[1..][k].Foreign? && items[1..][k].i == n;
      assert items[k + 1] == items[1..][k];
    }
  }

  lemma RequiredIsSeen(fs: seq<Field>, items: seq<Item>)
    ensures HasRequired(fs, items) <==> AllRequiredSeen(fs, SeenBy(items))
  {
    forall i: nat ensures Mentioned(items, i) <==> i in SeenBy(items) {}
    hide Mentioned, SeenBy, RequiredBefore;
  }

  lemma SetIsStore(fs: seq<Field>, slots: seq<Slot>, i: nat, slot: Slot)
    requires i < |fs| == |slots|
    ensures Set(fs, slots, i, slot) == Store(fs, i, slots, slot)
  {
  }

  /** What the loop does with one item. */
  ghost predicate ItemRead(fs: seq<Field>, slots: seq<Slot>, item: Item, rest: Bytes, seen: set<nat>)
    requires |slots| == |fs| && ItemOk(fs, item)
  {
    var r := Merge(fs, slots, item);
    DecodeLoop(fs, ItemBytes(fs, item) + rest, slots, seen) ==
    if r.None? then None else DecodeLoop(fs, rest, r.value, seen + SeenOf(item))
  }

  lemma ValueIsRead(l: LType, v: Value, rest: Bytes, was: Value)
    requires !l.Submsg? && FitsValue(l, v) && (v.Data? ==> |v.b| < TWO32)
    ensures DecodeValue(l, ValueBytes(l, v) + rest, was) == Some((v, rest))
  {
    hide DecodeNumber, DecodeData, EncodeNumber, PutVarint;
    if Packable(l) {
      NumberRoundTrip(l, v.n, rest);
    } else {
      DataRoundTrip(l, v, rest);
    }
  }

  lemma PlainIsRead(fs: seq<Field>, slots: seq<Slot>, item: Item, rest: Bytes, seen: set<nat>)
    requires |slots| == |fs| && TagsOk(fs) && ItemOk(fs, item) && item.Plain?
    ensures ItemRead(fs, slots, item, rest, seen)
  {
    hide DecodeLoop, DecodeValue, Key, TagsOk, FitsValue, ValueBytes, Store, Set, Content, TakeString, DecodePacked;
    var i, v, f := item.i, item.v, fs[item.i];
    var body := ValueBytes(f.l, v) + rest;
    assert ItemBytes(fs, item) + rest == Key(f.tag, WireType(f.l)) + body;
    LoopMeetsField(fs, i, WireType(f.l), body, slots, seen);
    ValueIsRead(f.l, v, rest, Content(f.l, slots[i]));
    ValueIsRead(f.l, v, rest, DefaultValue(f.l));
    SetIsStore(fs, slots, i, One(v));
    SetIsStore(fs, slots, i, Many(ArrayOf(slots[i]) + [v]));
  }

  lemma {:induction false} PackedIsDecoded(l: LType, done: seq<Value>, vs: seq<Value>, max: nat)
    requires Packable(l) && (forall v :: v in vs ==> FitsValue(l, v))
    ensures DecodePacked(l, NumbersBytes(l, vs), done, max) == if vs != [] && |done| + |vs| > max then None else Some(done + vs)
    decreases |vs|
  {
    hide DecodeNumber, EncodeNumber, InRange;
    if vs == [] {
      assert done + vs == done;
    } else {
      assert FitsValue(l, vs[0]);
      var b, rest := EncodeNumber(l, vs[0].n), NumbersBytes(l, vs[1..]);
      NumberRoundTrip(l, vs[0].n, rest);
      NumberNeedsBytes(l, b + rest);
      if |done| < max {
        PackedIsDecoded(l, done + [vs[0]], vs[1..], max);
        assert done + [vs[0]] + vs[1..] == done + vs;
      }
    }
  }

  lemma PackedIsRead(fs: seq<Field>, slots: seq<Slot>, item: Item, rest: Bytes, seen: set<nat>)
    requires |slots| == |fs| && TagsOk(fs) && ItemOk(fs, item) && item.Packed?
    ensures ItemRead(fs, slots, item, rest, seen)
  {
    hide DecodeLoop, DecodeValue, Key, TagsOk, FitsValue, NumbersBytes, Store, Set, TakeString, DecodePacked, PutVarint;
    var i, f, b := item.i, fs[item.i], NumbersBytes(fs[item.i].l, item.vs);
    assert ItemBytes(fs, item) + rest == Key(f.tag, WT_STRING) + (PutVarint(|b|) + b + rest);
    LoopMeetsField(fs, i, WT_STRING, PutVarint(|b|) + b + rest, slots, seen);
    LengthRoundTrip(b, rest);
    PackedIsDecoded(f.l, ArrayOf(slots[i]), item.vs, f.h.max);
    SetIsStore(fs, slots, i, Many(ArrayOf(slots[i]) + item.vs));
  }

  lemma {:induction false} NestedIsRead(fs: seq<Field>, slots: seq<Slot>, item: Item, rest: Bytes, seen: set<nat>)
    requires |slots| == |fs| && TagsOk(fs) && ItemOk(fs, item) && item.Nested?
    ensures ItemRead(fs, slots, item, rest, seen)
    decreases item, 0
  {
    hide DecodeLoop, Key, TagsOk, Store, Set, TakeString, DecodePacked, PutVarint, DecodeNoInit, ItemsBytes, ItemsOk, Message, Defaults, Merge, ItemBytes;
    var i, f, start := item.i, fs[item.i], StartOf(fs[item.i], slots[item.i]);
    var b := ItemsBytes(f.l.fields, item.items);
    NestedUnfolds(fs, slots, item);
    assert ItemBytes(fs, item) + rest == Key(f.tag, WT_STRING) + (PutVarint(|b|) + b + rest);
    LoopMeetsField(fs, i, WT_STRING, PutVarint(|b|) + b + rest, slots, seen);
    LengthRoundTrip(b, rest);
    MessageIsRead(f.l.fields, start, item.items);
    StartIsContent(f, slots[i]);
    var r := Message(f.l.fields, start, item.items);
    if r.Some? {
      SetIsStore(fs, slots, i, One(Msg(r.value)));
      SetIsStore(fs, slots, i, Many(ArrayOf(slots[i]) + [Msg(r.value)]));
    }
  }

  lemma NestedUnfolds(fs: seq<Field>, slots: seq<Slot>, item: Item)
    requires |slots| == |fs| && ItemOk(fs, item) && item.Nested?
    ensures ItemBytes(fs, item) == Key(fs[item.i].tag, WT_STRING) + WithLength(ItemsBytes(fs[item.i].l.fields, item.items))
    ensures var r := Message(fs[item.i].l.fields, StartOf(fs[item.i], slots[item.i]), item.items);
            Merge(fs, slots, item) == if r.None? then None else Put(fs, slots, item.i, Msg(r.value))
  {
    hide Message, ItemsBytes, Key, WithLength, ItemsOk, Put;
  }

  lemma StartIsContent(f: Field, slot: Slot)
    requires f.l.Submsg?
    ensures !f.h.Repeated? ==> StartOf(f, slot) == SlotsOf(f.l.fields, Content(f.l, slot))
    ensures f.h.Repeated? ==> StartOf(f, slot) == SlotsOf(f.l.fields, DefaultValue(f.l))
  {
    hide Defaults;
  }

  lemma {:induction false} ItemIsRead(fs: seq<Field>, slots: seq<Slot>, item: Item, rest: Bytes, seen: set<nat>)
    requires |slots| == |fs| && TagsOk(fs) && ItemOk(fs, item)
    ensures ItemRead(fs, slots, item, rest, seen)
    decreases item, 1
  {
    hide DecodeLoop, TagsOk, IsUnknown, UnknownBytes;
    match item
    case Plain(_, _) => hide *; PlainIsRead(fs, slots, item, rest, seen);
    case Packed(_, _) => hide *; PackedIsRead(fs, slots, item, rest, seen);
    case Nested(_, _) => hide *; NestedIsRead(fs, slots, item, rest, seen);
    case Foreign(u) =>
      LoopSkipsUnknown(fs, u, rest, slots, seen);
      assert seen + SeenOf(item) == seen;
  }

  lemma {:induction false} LoopReadsItems(fs: seq<Field>, slots: seq<Slot>, items: seq<Item>, seen: set<nat>)
    requires |slots| == |fs| && ItemsOk(fs, items)
    ensures var r := MergeAll(fs, slots, items);
      DecodeLoop(fs, ItemsBytes(fs, items), slots, seen) == if r.None? then None else Some((r.value, seen + SeenBy(items)))
    decreases items, 0
  {
    hide DecodeLoop, TagsOk, ItemOk, ItemBytes, Merge, SeenBy, SeenOf;
    if items == [] {
      NothingLeft(fs, slots, seen);
      assert seen + SeenBy([]) == seen by { NothingSeen(); }
    } else {
      ItemIsRead(fs, slots, items[0], ItemsBytes(fs, items[1..]), seen);
      SeenUnfolds(items);
      var r := Merge(fs, slots, items[0]);
      if r.Some? {
        LoopReadsItems(fs, r.value, items[1..], seen + SeenOf(items[0]));
        assert seen + SeenOf(items[0]) + SeenBy(items[1..]) == seen + SeenBy(items);
      }
    }
  }

  lemma NothingLeft(fs: seq<Field>, slots: seq<Slot>, seen: set<nat>)
    requires |slots| == |fs|
    ensures DecodeLoop(fs, [], slots, seen) == Some((slots, seen))
  {
  }

  lemma NothingSeen()
    ensures SeenBy([]) == {}
  {
  }

  lemma {:induction false} MessageIsRead(fs: seq<Field>, slots: seq<Slot>, items: seq<Item>)
    requires |slots| == |fs| && ItemsOk(fs, items)
    ensures DecodeNoInit(fs, ItemsBytes(fs, items), slots) == Message(fs, slots, items)
    decreases items, 1
  {
    hide DecodeLoop, ItemsOk, ItemsBytes, MergeAll, HasRequired, AllRequiredSeen;
    LoopReadsItems(fs, slots, items, {});
    RequiredIsSeen(fs, items);
    assert {} + SeenBy(items) == SeenBy(items);
  }

  /**
   * Whatever well-formed fields a message has, in whatever order and at whatever depth: decoding gives what merging
   * them one after the other gives, and fails exactly when an array overflows or a required field is missing.
   */
  lemma {:induction false} DecodeMerges(fs: seq<Field>, items: seq<Item>)
    requires ItemsOk(fs, items)
    ensures Decode(fs, ItemsBytes(fs, items)) == Message(fs, Defaults(fs), items)
  {
    hide DecodeNoInit, ItemsOk, ItemsBytes, Message, Defaults;
    MessageIsRead(fs, Defaults(fs), items);
  }
}
