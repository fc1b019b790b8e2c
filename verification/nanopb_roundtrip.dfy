/** Decoding undoes encoding, whatever unknown fields stand between the fields (pb_encode.c, pb_decode.c). */
module NanopbRoundTrip {
  import opened Bytestrings
  import opened Coding
  import opened NanopbVarint
  import opened NanopbSchema
  import opened NanopbDecode
  import opened NanopbEncode
  import opened NanopbReader

  // ---- Values that fit their fields ----

  const TAG_LIMIT: nat := 0x2000_0000

  ghost predicate FitsValue(l: LType, v: Value)
    decreases l, 0
  {
    match l
    case Submsg(fs) => v.Msg? && FitsFields(fs, v.slots)
    case ByteArray(cap) => v.Data? && |v.b| <= cap
    case Text(cap) => v.Data? && |v.b| < cap && NUL !in v.b
    case FixedBytes(len) => v.Data? && |v.b| == len
    case _ => v.Num? && InRange(l, v.n)
  }

  ghost predicate FitsSlot(f: Field, slot: Slot)
    decreases f, 0
  {
    match slot
    case Absent => f.h.Optional? || f.h.Oneof?
    case One(v) => !f.h.Repeated? && FitsValue(f.l, v)
    case Many(vs) => f.h.Repeated? && |vs| <= f.h.max && forall v :: v in vs ==> FitsValue(f.l, v)
  }

  /** Distinct nonzero tags; every slot fits; at most one field of a oneof is there. */
  ghost predicate FitsFields(fs: seq<Field>, slots: seq<Slot>)
    decreases fs, 0
  {
    && |fs| == |slots| && TagsOk(fs) && (forall i :: 0 <= i < |fs| ==> FitsSlot(fs[i], slots[i]))
    && Exclusive(fs, slots)
  }

  ghost predicate TagsOk(fs: seq<Field>) {
    && (forall i :: 0 <= i < |fs| ==> 0 < fs[i].tag < TAG_LIMIT)
    && forall i, j :: 0 <= i < j < |fs| ==> fs[i].tag != fs[j].tag
  }

  ghost predicate Exclusive(fs: seq<Field>, slots: seq<Slot>)
    requires |fs| == |slots|
  {
    forall i, j | 0 <= i < |fs| && 0 <= j < |fs| && i != j && fs[i].h.Oneof? && fs[j].h == fs[i].h ::
      slots[i].Absent? || slots[j].Absent?
  }

  /** In proto3 the value that is not written is the default value. */
  lemma {:induction false} DefaultIsUnique(l: LType, v: Value)
    requires FitsValue(l, v) && IsDefault(l, v)
    ensures v == DefaultValue(l)
    decreases l
  {
    match l
    case Submsg(fs) => DefaultsAreUnique(fs, v.slots);
    case FixedBytes(len) => assert v.b == Zeros(len);
    case _ =>
  }

  lemma {:induction false} DefaultSlotIsUnique(f: Field, slot: Slot)
    requires FitsSlot(f, slot) && IsDefaultSlot(f, slot)
    ensures slot == DefaultSlot(f)
    decreases f
  {
    if f.h.Singular? { DefaultIsUnique(f.l, slot.v); }
  }

  lemma {:induction false} DefaultsAreUnique(fs: seq<Field>, slots: seq<Slot>)
    requires |fs| == |slots| && (forall i :: 0 <= i < |fs| ==> FitsSlot(fs[i], slots[i]) && IsDefaultSlot(fs[i], slots[i]))
    ensures slots == Defaults(fs)
    decreases fs
  {
    if fs != [] {
      DefaultSlotIsUnique(fs[0], slots[0]);
      DefaultsAreUnique(fs[1..], slots[1..]);
      assert slots == [slots[0]] + slots[1..];
    }
  }

  lemma {:induction false} DefaultsAt(fs: seq<Field>, i: nat)
    requires i < |fs|
    ensures Defaults(fs)[i] == DefaultSlot(fs[i])
  {
    if i > 0 { DefaultsAt(fs[1..], i - 1); }
  }

  // ---- Unknown fields ----

  datatype Unknown =
    | UnknownVarint(tag: nat, n: nat)
    | Unknown64(tag: nat, b: Bytes)
    | UnknownString(tag: nat, b: Bytes)
    | Unknown32(tag: nat, b: Bytes)

  function UnknownBytes(u: Unknown): Bytes {
    match u
    case UnknownVarint(tag, n) => Key(tag, WT_VARINT) + PutVarint(n)
    case Unknown64(tag, b) => Key(tag, WT_64BIT) + b
    case UnknownString(tag, b) => Key(tag, WT_STRING) + (PutVarint(|b|) + b)
    case Unknown32(tag, b) => Key(tag, WT_32BIT) + b
  }

  /** A well-formed field whose tag the descriptor does not have. */
  ghost predicate IsUnknown(fs: seq<Field>, u: Unknown) {
    && 0 < u.tag < TAG_LIMIT && (forall i :: 0 <= i < |fs| ==> fs[i].tag != u.tag)
    && match u
       case UnknownVarint(_, n) => true
       case Unknown64(_, b) => |b| == 8
       case UnknownString(_, b) => |b| < TWO32
       case Unknown32(_, b) => |b| == 4
  }

  ghost predicate AreUnknown(fs: seq<Field>, us: seq<Unknown>) {
    forall i :: 0 <= i < |us| ==> IsUnknown(fs, us[i])
  }

  function UnknownsBytes(us: seq<Unknown>): Bytes {
    if us == [] then [] else UnknownBytes(us[0]) + UnknownsBytes(us[1..])
  }

  /** The unknown fields at each place of a message: before a field, before an array item, at the end; at every depth. */
  type Noise = seq<nat> -> seq<Unknown>

  ghost predicate NoiseFor(fs: seq<Field>, noise: Noise, path: seq<nat>)
    decreases fs
  {
    && (forall i :: 0 <= i <= |fs| ==> AreUnknown(fs, noise(path + [i])))
    && (forall i, j: nat :: 0 <= i < |fs| ==> AreUnknown(fs, noise(path + [i] + [j])))
    && forall i :: 0 <= i < |fs| ==> NoiseInside(fs[i], noise, path + [i])
  }

  ghost predicate NoiseInside(f: Field, noise: Noise, path: seq<nat>)
    decreases f
  {
    f.l.Submsg? ==> forall j: nat :: NoiseFor(f.l.fields, noise, path + [j])
  }

  function NoisyValue(l: LType, v: Value, noise: Noise, path: seq<nat>): Option<Bytes>
    decreases l, 0, 0
  {
    if l.Submsg? then if v.Msg? then Prefixed(NoisyFields(l.fields, v.slots, 0, noise, path)) else None
    else EncodeValue(l, v)
  }

  function NoisyItems(l: LType, key: Bytes, vs: seq<Value>, j: nat, noise: Noise, path: seq<nat>): Option<Bytes>
    decreases l, 1, |vs|
  {
    if vs == [] then Some([])
    else Then(Then(Some(UnknownsBytes(noise(path + [j])) + key), NoisyValue(l, vs[0], noise, path + [j])),
              NoisyItems(l, key, vs[1..], j + 1, noise, path))
  }

  function NoisyField(f: Field, slot: Slot, noise: Noise, path: seq<nat>): Option<Bytes>
    decreases f, 0, 0
  {
    var key := Key(f.tag, WireType(f.l));
    match slot
    case One(v) =>
      if f.h.Repeated? || (f.h.Singular? && IsDefault(f.l, v)) then EncodeField(f, slot)
      else Then(Some(key), NoisyValue(f.l, v, noise, path + [0]))
    case Many(vs) =>
      if !f.h.Repeated? || |vs| > f.h.max || Packable(f.l) then EncodeField(f, slot) else NoisyItems(f.l, key, vs, 0, noise, path)
    case Absent => EncodeField(f, slot)
  }

  /** The encoding of a message with unknown fields put in. */
  function NoisyFields(fs: seq<Field>, slots: seq<Slot>, i: nat, noise: Noise, path: seq<nat>): Option<Bytes>
    decreases fs, 0, 0
  {
    var unknown := Some(UnknownsBytes(noise(path + [i])));
    if |fs| != |slots| then None
    else if fs == [] then unknown
    else Then(unknown, Then(NoisyField(fs[0], slots[0], noise, path + [i]), NoisyFields(fs[1..], slots[1..], i + 1, noise, path)))
  }

  // ---- Numbers and byte strings ----

  lemma MulAtLeast(k: int, m: int)
    requires m > 0
    ensures k >= 1 ==> k * m >= m
    ensures k <= -1 ==> k * m <= -m
  {
    if k >= 1 { assert (k - 1) * m >= 0; }
    if k <= -1 { assert (-k - 1) * m >= 0; }
  }

  lemma RemainderIs(w: int, q: int, r: int, m: int)
    requires 0 <= r < m && w == q * m + r
    ensures w % m == r
  {
    var k := w / m - q;
    assert k * m == r - w % m by { assert k * m == w / m * m - q * m; }
    MulAtLeast(k, m);
  }

  lemma CutOf(w: int, q: int, n: int, size: nat)
    requires size in {1, 2, 4, 8} && -SignedLimit(size) <= n < SignedLimit(size) && w == q * (2 * SignedLimit(size)) + n
    ensures SignedCut(w, size) == n
  {
    var m := 2 * SignedLimit(size);
    hide SignedLimit;
    if n >= 0 {
      RemainderIs(w, q, n, m);
    } else {
      assert w == (q - 1) * m + (m + n);
      RemainderIs(w, q - 1, m + n, m);
    }
  }

  lemma CutIsIdentity(n: int, size: nat)
    requires size in {1, 2, 4, 8} && -SignedLimit(size) <= n < SignedLimit(size)
    ensures SignedCut(n, size) == n
    ensures size != 8 ==> SignedCut(n, 4) == n && SignedCut(TWO64 + n, 4) == n
    ensures size == 8 ==> SignedCut(TWO64 + n, 8) == n
  {
    hide SignedCut;
    CutOf(n, 0, n, size);
    if size == 8 {
      CutOf(TWO64 + n, 1, n, 8);
    } else {
      CutOf(n, 0, n, 4);
      CutOf(TWO64 + n, TWO32, n, 4);
    }
  }

  lemma NumberOfWord(l: LType, n: int)
    requires (l.Int? || l.UInt? || l.SInt?) && InRange(l, n)
    ensures var w := if l.Int? then Word64(n) else if l.SInt? then ZigZag(n) else n;
            0 <= w < TWO64 && FromWord(l, w) == Some(n)
  {
    hide SignedCut;
    if !l.UInt? { CutIsIdentity(n, l.size); }
    if l.SInt? { ZigZagRoundTrip(n); }
  }

  lemma TakeOfAppend(a: Bytes, rest: Bytes)
    ensures Take(a + rest, |a|) == Some((a, rest))
  {
  }

  lemma NumberRoundTrip(l: LType, n: int, rest: Bytes)
    requires InRange(l, n)
    ensures DecodeNumber(l, EncodeNumber(l, n) + rest) == Some((Num(n), rest))
  {
    hide Varint32, PutVarint, FromWord, PutFixed, GetFixed, Take, ZigZag;
    if l.Bool? {
      Varint32Ranges(n, rest);
    } else if l.Fixed32? || l.Fixed64? {
      var width := if l.Fixed32? then 4 else 8;
      PowersOf256();
      FixedRoundTrip(width, n);
      TakeOfAppend(PutFixed(width, n), rest);
    } else {
      NumberOfWord(l, n);
      Varint64RoundTrip(if l.Int? then Word64(n) else if l.SInt? then ZigZag(n) else n, rest);
    }
  }

  lemma {:induction false} UpToNulOfText(b: Bytes)
    requires NUL !in b
    ensures UpToNul(b) == b
  {
    if b != [] { UpToNulOfText(b[1..]); }
  }

  /** What the 32-bit length reader makes of a length-prefixed string. */
  lemma {:induction false} LengthRoundTrip(b: Bytes, rest: Bytes)
    requires |b| < TWO32
    ensures Varint32(PutVarint(|b|) + b + rest) == Some((|b|, b + rest))
    ensures TakeString(PutVarint(|b|) + b + rest) == Some((b, rest))
  {
    hide Varint32, PutVarint;
    Varint32Ranges(|b|, b + rest);
    assert PutVarint(|b|) + b + rest == PutVarint(|b|) + (b + rest);
  }

  lemma {:induction false} DataRoundTrip(l: LType, v: Value, rest: Bytes)
    requires FitsValue(l, v) && !Packable(l) && !l.Submsg? && |v.b| < TWO32
    ensures DecodeData(l, PutVarint(|v.b|) + v.b + rest) == Some((v, rest))
  {
    hide Varint32, PutVarint;
    LengthRoundTrip(v.b, rest);
    assert (v.b + rest)[..|v.b|] == v.b && (v.b + rest)[|v.b|..] == rest;
    if l.Text? { UpToNulOfText(v.b); }
    if l.FixedBytes? && |v.b| == 0 { assert v.b == Zeros(0) && v.b + rest == rest; }
  }

  // ---- Skipping unknown fields ----

  lemma {:induction false} SkipOfVarint(n: nat, rest: Bytes)
    ensures SkipVarint(PutVarint(n) + rest) == Some(rest)
  {
    var s := PutVarint(n) + rest;
    if n < 128 {
      assert s[1..] == rest;
    } else {
      assert s[1..] == PutVarint(n / 128) + rest;
      SkipOfVarint(n / 128, rest);
    }
  }

  lemma KeyRoundTrip(tag: nat, wireType: nat, rest: Bytes)
    requires 0 < tag < TAG_LIMIT && wireType < 8
    ensures Varint32(Key(tag, wireType) + rest) == Some((8 * tag + wireType, rest))
    ensures (8 * tag + wireType) / 8 == tag && (8 * tag + wireType) % 8 == wireType && Key(tag, wireType) + rest != []
  {
    hide Varint32, PutVarint;
    Varint32Ranges(8 * tag + wireType, rest);
  }

  lemma UnknownIsSkipped(u: Unknown, rest: Bytes)
    requires 0 < u.tag < TAG_LIMIT && IsUnknown([], u)
    ensures exists w: nat, payload :: w < 8 && UnknownBytes(u) == Key(u.tag, w) + payload && SkipField(w, payload + rest) == Some(rest)
  {
    hide Key, PutVarint, SkipVarint, Take, TakeString;
    match u
    case UnknownVarint(_, n) =>
      SkipOfVarint(n, rest);
      assert WT_VARINT < 8 && UnknownBytes(u) == Key(u.tag, WT_VARINT) + PutVarint(n) && SkipField(WT_VARINT, PutVarint(n) + rest) == Some(rest);
    case Unknown64(_, b) =>
      TakeOfAppend(b, rest);
      assert WT_64BIT < 8 && UnknownBytes(u) == Key(u.tag, WT_64BIT) + b && SkipField(WT_64BIT, b + rest) == Some(rest);
    case UnknownString(_, b) =>
      LengthRoundTrip(b, rest);
      assert WT_STRING < 8 && UnknownBytes(u) == Key(u.tag, WT_STRING) + (PutVarint(|b|) + b);
      assert SkipField(WT_STRING, PutVarint(|b|) + b + rest) == Some(rest);
    case Unknown32(_, b) =>
      TakeOfAppend(b, rest);
      assert WT_32BIT < 8 && UnknownBytes(u) == Key(u.tag, WT_32BIT) + b && SkipField(WT_32BIT, b + rest) == Some(rest);
  }

  lemma LoopMeetsKey(fs: seq<Field>, tag: nat, w: nat, t: Bytes, slots: seq<Slot>, seen: set<nat>)
    requires |slots| == |fs| && 0 < tag < TAG_LIMIT && w < 8
    ensures var i := IndexOf(fs, tag);
            DecodeLoop(fs, Key(tag, w) + t, slots, seen) ==
            if i == |fs| then
              (match SkipField(w, t) case None => None case Some(rest) => DecodeLoop(fs, rest, slots, seen))
            else
              (match DecodeField(fs, i, w, t, slots) case None => None case Some(q) => DecodeLoop(fs, q.1, q.0, seen + {i}))
  {
    hide Varint32, Key, SkipField, DecodeField, IndexOf;
    KeyRoundTrip(tag, w, t);
  }

  lemma LoopSkipsUnknown(fs: seq<Field>, u: Unknown, rest: Bytes, slots: seq<Slot>, seen: set<nat>)
    requires |slots| == |fs| && IsUnknown(fs, u)
    ensures DecodeLoop(fs, UnknownBytes(u) + rest, slots, seen) == DecodeLoop(fs, rest, slots, seen)
  {
    hide Key, SkipField, DecodeField, DecodeLoop, UnknownBytes;
    UnknownIsSkipped(u, rest);
    var w: nat, payload :| w < 8 && UnknownBytes(u) == Key(u.tag, w) + payload && SkipField(w, payload + rest) == Some(rest);
    assert UnknownBytes(u) + rest == Key(u.tag, w) + (payload + rest);
    assert IndexOf(fs, u.tag) == |fs|;
    LoopMeetsKey(fs, u.tag, w, payload + rest, slots, seen);
  }

  lemma {:induction false} LoopSkipsUnknowns(fs: seq<Field>, us: seq<Unknown>, rest: Bytes, slots: seq<Slot>, seen: set<nat>)
    requires |slots| == |fs| && AreUnknown(fs, us)
    ensures DecodeLoop(fs, UnknownsBytes(us) + rest, slots, seen) == DecodeLoop(fs, rest, slots, seen)
  {
    hide DecodeLoop, UnknownBytes, IsUnknown;
    if us == [] {
      assert UnknownsBytes(us) + rest == rest;
    } else {
      assert UnknownsBytes(us) + rest == UnknownBytes(us[0]) + (UnknownsBytes(us[1..]) + rest);
      LoopSkipsUnknown(fs, us[0], UnknownsBytes(us[1..]) + rest, slots, seen);
      LoopSkipsUnknowns(fs, us[1..], rest, slots, seen);
    }
  }

  // ---- Messages ----

  /** The message under construction when the first i fields have been read. */
  function Partial(fs: seq<Field>, slots: seq<Slot>, i: nat): (r: seq<Slot>)
    requires i <= |fs| == |slots|
    ensures |r| == |fs| && forall j :: 0 <= j < |fs| ==> r[j] == if j < i then slots[j] else Defaults(fs)[j]
  {
    slots[..i] + Defaults(fs)[i..]
  }

  predicate Emits(f: Field, slot: Slot) {
    match slot
    case Absent => false
    case One(v) => !(f.h.Singular? && IsDefault(f.l, v))
    case Many(vs) => vs != []
  }

  lemma TagIsFound(fs: seq<Field>, i: nat)
    requires TagsOk(fs) && i < |fs|
    ensures IndexOf(fs, fs[i].tag) == i
  {
    assert forall k :: 0 <= k < i ==> fs[k].tag != fs[i].tag;
  }

  lemma LoopMeetsField(fs: seq<Field>, i: nat, w: nat, t: Bytes, slots: seq<Slot>, seen: set<nat>)
    requires |slots| == |fs| && TagsOk(fs) && i < |fs| && w < 8
    ensures DecodeLoop(fs, Key(fs[i].tag, w) + t, slots, seen) ==
            (match DecodeField(fs, i, w, t, slots) case None => None case Some(q) => DecodeLoop(fs, q.1, q.0, seen + {i}))
  {
    hide DecodeLoop, DecodeField, Key, SkipField, IndexOf;
    TagIsFound(fs, i);
    LoopMeetsKey(fs, fs[i].tag, w, t, slots, seen);
  }

  /** Storing field i turns the first i fields read into the first i + 1. */
  lemma StoreIsNext(fs: seq<Field>, slots: seq<Slot>, i: nat)
    requires |fs| == |slots| && i < |fs| && Exclusive(fs, slots) && slots[i] != Absent
    requires forall j :: 0 <= j < |fs| ==> FitsSlot(fs[j], slots[j])
    ensures Store(fs, i, Partial(fs, slots, i), slots[i]) == Partial(fs, slots, i + 1)
  {
    hide FitsSlot;
    forall j | 0 <= j < |fs| ensures Store(fs, i, Partial(fs, slots, i), slots[i])[j] == Partial(fs, slots, i + 1)[j] {
      DefaultsAt(fs, j);
      if j != i && fs[i].h.Oneof? && fs[j].h == fs[i].h { assert slots[j].Absent?; }
    }
  }

  lemma ContentIsDefault(fs: seq<Field>, slots: seq<Slot>, i: nat)
    requires |fs| == |slots| && i < |fs| && !fs[i].h.Repeated?
    ensures Content(fs[i].l, Partial(fs, slots, i)[i]) == DefaultValue(fs[i].l)
  {
    DefaultsAt(fs, i);
  }

  lemma LoopReadsOne(fs: seq<Field>, slots: seq<Slot>, i: nat, b: Bytes, rest: Bytes, seen: set<nat>)
    requires FitsFields(fs, slots) && i < |fs| && slots[i].One?
    requires DecodeValue(fs[i].l, b + rest, DefaultValue(fs[i].l)) == Some((slots[i].v, rest))
    ensures DecodeLoop(fs, Key(fs[i].tag, WireType(fs[i].l)) + b + rest, Partial(fs, slots, i), seen) ==
            DecodeLoop(fs, rest, Partial(fs, slots, i + 1), seen + {i})
  {
    hide DecodeLoop, DecodeValue, Key, Partial, Store, Content, TagsOk, Exclusive, FitsValue;
    var key := Key(fs[i].tag, WireType(fs[i].l));
    assert key + b + rest == key + (b + rest);
    assert FitsSlot(fs[i], slots[i]);
    LoopMeetsField(fs, i, WireType(fs[i].l), b + rest, Partial(fs, slots, i), seen);
    ContentIsDefault(fs, slots, i);
    StoreIsNext(fs, slots, i);
  }

  lemma {:induction false} PackedRoundTrip(l: LType, done: seq<Value>, vs: seq<Value>, max: nat)
    requires Packable(l) && |done| + |vs| <= max && forall v :: v in vs ==> FitsValue(l, v)
    ensures EncodeItems(l, [], vs).Some? && DecodePacked(l, EncodeItems(l, [], vs).value, done, max) == Some(done + vs)
    decreases |vs|
  {
    hide DecodeNumber, EncodeNumber, InRange;
    if vs == [] {
      assert done + vs == done;
    } else {
      assert FitsValue(l, vs[0]);
      var b := EncodeNumber(l, vs[0].n);
      PackedRoundTrip(l, done + [vs[0]], vs[1..], max);
      var rest := EncodeItems(l, [], vs[1..]).value;
      NumberRoundTrip(l, vs[0].n, rest);
      assert EncodeValue(l, vs[0]) == Some(b) && [] + b == b;
      assert EncodeItems(l, [], vs) == Some(b + rest);
      assert b + rest != [] by { NumberNeedsBytes(l, b + rest); }
      assert done + [vs[0]] + vs[1..] == done + vs;
    }
  }

  lemma NumberNeedsBytes(l: LType, s: Bytes)
    requires DecodeNumber(l, s).Some?
    ensures s != []
  {
  }

  lemma LoopReadsPacked(fs: seq<Field>, slots: seq<Slot>, i: nat, b: Bytes, rest: Bytes, seen: set<nat>)
    requires FitsFields(fs, slots) && i < |fs| && slots[i].Many? && slots[i].vs != [] && Packable(fs[i].l)
    requires EncodeItems(fs[i].l, [], slots[i].vs) == Some(b) && |b| < TWO32
    ensures DecodeLoop(fs, Key(fs[i].tag, WT_STRING) + (PutVarint(|b|) + b) + rest, Partial(fs, slots, i), seen) ==
            DecodeLoop(fs, rest, Partial(fs, slots, i + 1), seen + {i})
  {
    hide DecodeLoop, DecodeValue, Key, Partial, Store, TagsOk, Exclusive, FitsValue, EncodeItems, DecodePacked, TakeString, PutVarint;
    var key, body := Key(fs[i].tag, WT_STRING), PutVarint(|b|) + b;
    assert key + body + rest == key + (body + rest);
    assert FitsSlot(fs[i], slots[i]);
    DefaultsAt(fs, i);
    LoopMeetsField(fs, i, WT_STRING, body + rest, Partial(fs, slots, i), seen);
    LengthRoundTrip(b, rest);
    PackedRoundTrip(fs[i].l, [], slots[i].vs, fs[i].h.max);
    assert [] + slots[i].vs == slots[i].vs;
    StoreIsNext(fs, slots, i);
  }

  /** Whether the bytes are few enough for the 32-bit lengths inside them. */
  predicate Short(b: Option<Bytes>) {
    b.Some? && |b.value| < TWO32
  }

  lemma {:induction false} ValueRoundTrip(l: LType, v: Value, noise: Noise, path: seq<nat>, rest: Bytes)
    requires FitsValue(l, v) && (l.Submsg? ==> NoiseFor(l.fields, noise, path)) && Short(NoisyValue(l, v, noise, path))
    ensures DecodeValue(l, NoisyValue(l, v, noise, path).value + rest, DefaultValue(l)) == Some((v, rest))
    decreases l, 1
  {
    hide DecodeNumber, EncodeNumber, DecodeData, DecodeNoInit, NoisyFields, NoiseFor, FitsFields, PutVarint, TakeString, Defaults;
    if l.Submsg? {
      MessageRoundTrip(l.fields, v.slots, noise, path);
      LengthRoundTrip(NoisyFields(l.fields, v.slots, 0, noise, path).value, rest);
    } else if Packable(l) {
      NumberRoundTrip(l, v.n, rest);
    } else {
      DataRoundTrip(l, v, rest);
    }
  }

  lemma {:induction false} FieldValueRoundTrip(f: Field, v: Value, noise: Noise, path: seq<nat>, rest: Bytes)
    requires FitsValue(f.l, v) && (f.l.Submsg? ==> NoiseFor(f.l.fields, noise, path)) && Short(NoisyValue(f.l, v, noise, path))
    ensures DecodeValue(f.l, NoisyValue(f.l, v, noise, path).value + rest, DefaultValue(f.l)) == Some((v, rest))
    decreases f, 1
  {
    ValueRoundTrip(f.l, v, noise, path, rest);
  }

  lemma NoiseAt(fs: seq<Field>, noise: Noise, path: seq<nat>, i: nat, j: nat)
    requires NoiseFor(fs, noise, path) && i < |fs|
    ensures AreUnknown(fs, noise(path + [i] + [j]))
    ensures fs[i].l.Submsg? ==> NoiseFor(fs[i].l.fields, noise, path + [i] + [j])
  {
    assert NoiseInside(fs[i], noise, path + [i]);
  }

  /** Reading item j of an unpacked array, and the unknown fields before it. */
  lemma {:induction false} LoopReadsItem(fs: seq<Field>, slots: seq<Slot>, i: nat, j: nat, us: seq<Unknown>, b: Bytes, rest: Bytes, st: seq<Slot>, seen: set<nat>)
    requires FitsFields(fs, slots) && i < |fs| && slots[i].Many? && j < |slots[i].vs| && !Packable(fs[i].l)
    requires AreUnknown(fs, us) && |st| == |fs| && st[i] == Many(slots[i].vs[..j])
    requires DecodeValue(fs[i].l, b + rest, DefaultValue(fs[i].l)) == Some((slots[i].vs[j], rest))
    ensures DecodeLoop(fs, UnknownsBytes(us) + Key(fs[i].tag, WireType(fs[i].l)) + b + rest, st, seen) ==
            DecodeLoop(fs, rest, Store(fs, i, st, Many(slots[i].vs[..j + 1])), seen + {i})
  {
    hide DecodeLoop, DecodeValue, Key, Store, TagsOk, Exclusive, FitsValue, AreUnknown, UnknownsBytes;
    var key, vs := Key(fs[i].tag, WireType(fs[i].l)), slots[i].vs;
    assert FitsSlot(fs[i], slots[i]);
    assert UnknownsBytes(us) + key + b + rest == UnknownsBytes(us) + (key + (b + rest));
    LoopSkipsUnknowns(fs, us, key + (b + rest), st, seen);
    LoopMeetsField(fs, i, WireType(fs[i].l), b + rest, st, seen);
    assert vs[..j] + [vs[j]] == vs[..j + 1];
  }

  lemma StoreTwice(fs: seq<Field>, i: nat, st: seq<Slot>, a: Slot, b: Slot)
    requires i < |fs| == |st| && fs[i].h.Repeated?
    ensures Store(fs, i, Store(fs, i, st, a), b) == Store(fs, i, st, b)
  {
  }

  lemma {:induction false} LoopReadsItems(fs: seq<Field>, slots: seq<Slot>, i: nat, j: nat, noise: Noise, path: seq<nat>, rest: Bytes,
                                          st: seq<Slot>, seen: set<nat>)
    requires |fs| == |slots| && FitsFields(fs, slots) && i < |fs| && slots[i].Many? && j < |slots[i].vs| && !Packable(fs[i].l)
    requires NoiseFor(fs, noise, path) && |st| == |fs| && st[i] == Many(slots[i].vs[..j])
    requires Short(NoisyItems(fs[i].l, Key(fs[i].tag, WireType(fs[i].l)), slots[i].vs[j..], j, noise, path + [i]))
    ensures DecodeLoop(fs, NoisyItems(fs[i].l, Key(fs[i].tag, WireType(fs[i].l)), slots[i].vs[j..], j, noise, path + [i]).value + rest, st, seen)
         == DecodeLoop(fs, rest, Store(fs, i, st, slots[i]), seen + {i})
    decreases fs, 0, 0, |slots[i].vs| - j
  {
    hide DecodeLoop, DecodeValue, Key, FitsFields, NoiseFor, NoisyValue, NoisyItems, Store, AreUnknown;
    var l, vs, key := fs[i].l, slots[i].vs, Key(fs[i].tag, WireType(fs[i].l));
    LoopReadsNextItem(fs, slots, i, j, noise, path, rest, st, seen);
    ItemFits(fs, slots, i, j);
    StoreTwice(fs, i, st, Many(vs[..j + 1]), slots[i]);
    if j + 1 < |vs| {
      LoopReadsItems(fs, slots, i, j + 1, noise, path, rest, Store(fs, i, st, Many(vs[..j + 1])), seen + {i});
      assert seen + {i} + {i} == seen + {i};
    } else {
      assert vs[..j + 1] == vs && vs[j + 1..] == [] && [] + rest == rest;
      NoItems(l, key, j + 1, noise, path + [i]);
    }
  }

  /** One item of an unpacked array is read, with the items behind it left. */
  lemma {:induction false} LoopReadsNextItem(fs: seq<Field>, slots: seq<Slot>, i: nat, j: nat, noise: Noise, path: seq<nat>, rest: Bytes,
                                             st: seq<Slot>, seen: set<nat>)
    requires |fs| == |slots| && FitsFields(fs, slots) && i < |fs| && slots[i].Many? && j < |slots[i].vs| && !Packable(fs[i].l)
    requires NoiseFor(fs, noise, path) && |st| == |fs| && st[i] == Many(slots[i].vs[..j])
    requires Short(NoisyItems(fs[i].l, Key(fs[i].tag, WireType(fs[i].l)), slots[i].vs[j..], j, noise, path + [i]))
    ensures var key, st' := Key(fs[i].tag, WireType(fs[i].l)), Store(fs, i, st, Many(slots[i].vs[..j + 1]));
      var more := NoisyItems(fs[i].l, key, slots[i].vs[j + 1..], j + 1, noise, path + [i]);
      && Short(more) && |st'| == |fs| && st'[i] == Many(slots[i].vs[..j + 1])
      && DecodeLoop(fs, NoisyItems(fs[i].l, key, slots[i].vs[j..], j, noise, path + [i]).value + rest, st, seen)
         == DecodeLoop(fs, more.value + rest, st', seen + {i})
    decreases fs, 0, 0, 0
  {
    hide DecodeLoop, DecodeValue, Key, FitsFields, NoiseFor, NoisyValue, NoisyItems, AreUnknown;
    var l, vs, key := fs[i].l, slots[i].vs, Key(fs[i].tag, WireType(fs[i].l));
    var us, v := noise(path + [i] + [j]), NoisyValue(l, vs[j], noise, path + [i] + [j]);
    var more := NoisyItems(l, key, vs[j + 1..], j + 1, noise, path + [i]);
    ItemsParts(l, key, vs, j, noise, path + [i], rest);
    NoiseAt(fs, noise, path, i, j);
    ItemFits(fs, slots, i, j);
    FieldValueRoundTrip(fs[i], vs[j], noise, path + [i] + [j], more.value + rest);
    LoopReadsItem(fs, slots, i, j, us, v.value, more.value + rest, st, seen);
  }

  lemma NoItems(l: LType, key: Bytes, j: nat, noise: Noise, path: seq<nat>)
    ensures NoisyItems(l, key, [], j, noise, path) == Some([])
  {
  }

  lemma ItemsUnfold(l: LType, key: Bytes, vs: seq<Value>, j: nat, noise: Noise, path: seq<nat>)
    requires vs != []
    ensures NoisyItems(l, key, vs, j, noise, path) ==
            Then(Then(Some(UnknownsBytes(noise(path + [j])) + key), NoisyValue(l, vs[0], noise, path + [j])),
                 NoisyItems(l, key, vs[1..], j + 1, noise, path))
  {
    hide UnknownsBytes, NoisyValue, Then;
  }

  lemma ItemsParts(l: LType, key: Bytes, vs: seq<Value>, j: nat, noise: Noise, path: seq<nat>, rest: Bytes)
    requires j < |vs| && Short(NoisyItems(l, key, vs[j..], j, noise, path))
    ensures Short(NoisyValue(l, vs[j], noise, path + [j])) && Short(NoisyItems(l, key, vs[j + 1..], j + 1, noise, path))
    ensures NoisyItems(l, key, vs[j..], j, noise, path).value + rest ==
            UnknownsBytes(noise(path + [j])) + key + NoisyValue(l, vs[j], noise, path + [j]).value
            + (NoisyItems(l, key, vs[j + 1..], j + 1, noise, path).value + rest)
  {
    hide UnknownsBytes, NoisyValue, NoisyItems;
    assert vs[j..][1..] == vs[j + 1..];
    ItemsUnfold(l, key, vs[j..], j, noise, path);
    var v, more := NoisyValue(l, vs[j], noise, path + [j]), NoisyItems(l, key, vs[j + 1..], j + 1, noise, path);
    assert v.Some? && more.Some?;
    Regroup(UnknownsBytes(noise(path + [j])) + key, v.value, more.value, rest);
  }

  lemma Regroup(a: Bytes, b: Bytes, c: Bytes, rest: Bytes)
    ensures a + b + c + rest == a + b + (c + rest)
  {
  }

  lemma ItemFits(fs: seq<Field>, slots: seq<Slot>, i: nat, j: nat)
    requires FitsFields(fs, slots) && i < |fs| && slots[i].Many? && j < |slots[i].vs|
    ensures fs[i].h.Repeated? && FitsValue(fs[i].l, slots[i].vs[j])
  {
    assert FitsSlot(fs[i], slots[i]);
  }

  /** Reading the bytes of field i. */
  lemma {:induction false} LoopReadsField(fs: seq<Field>, slots: seq<Slot>, i: nat, noise: Noise, path: seq<nat>, rest: Bytes, seen: set<nat>)
    requires |fs| == |slots| && FitsFields(fs, slots) && i < |fs| && NoiseFor(fs, noise, path)
    requires Short(NoisyField(fs[i], slots[i], noise, path + [i]))
    ensures DecodeLoop(fs, NoisyField(fs[i], slots[i], noise, path + [i]).value + rest, Partial(fs, slots, i), seen) ==
            DecodeLoop(fs, rest, Partial(fs, slots, i + 1), if Emits(fs[i], slots[i]) then seen + {i} else seen)
    decreases fs, 0, 1
  {
    hide DecodeLoop, DecodeValue, Key, NoiseFor, NoisyValue, NoisyItems, Partial, EncodeValue, EncodeItems, FitsValue, PutVarint, Store;
    hide TagsOk, Exclusive, FitsFields;
    FieldFits(fs, slots, i);
    var f, slot := fs[i], slots[i];
    DefaultsAt(fs, i);
    if !Emits(f, slot) {
      SilentField(fs, slots, i, noise, path);
      assert [] + rest == rest;
    } else if slot.One? {
      NoiseAt(fs, noise, path, i, 0);
      FieldValueRoundTrip(f, slot.v, noise, path + [i] + [0], rest);
      LoopReadsOne(fs, slots, i, NoisyValue(f.l, slot.v, noise, path + [i] + [0]).value, rest, seen);
    } else if Packable(f.l) {
      LoopReadsPacked(fs, slots, i, EncodeItems(f.l, [], slot.vs).value, rest, seen);
    } else {
      assert slot.vs[0..] == slot.vs && slot.vs[..0] == [];
      LoopReadsItems(fs, slots, i, 0, noise, path, rest, Partial(fs, slots, i), seen);
      StoreIsNext(fs, slots, i);
    }
  }

  lemma FieldFits(fs: seq<Field>, slots: seq<Slot>, i: nat)
    requires FitsFields(fs, slots) && i < |fs|
    ensures |fs| == |slots| && FitsSlot(fs[i], slots[i]) && Exclusive(fs, slots)
    ensures forall j :: 0 <= j < |fs| ==> FitsSlot(fs[j], slots[j])
  {
  }

  /** A field that is not written holds its default, and reading nothing leaves it there. */
  lemma SilentField(fs: seq<Field>, slots: seq<Slot>, i: nat, noise: Noise, path: seq<nat>)
    requires |fs| == |slots| && i < |fs| && FitsSlot(fs[i], slots[i]) && !Emits(fs[i], slots[i])
    ensures NoisyField(fs[i], slots[i], noise, path + [i]) == Some([]) && Partial(fs, slots, i) == Partial(fs, slots, i + 1)
  {
    DefaultsAt(fs, i);
    if slots[i].One? { DefaultIsUnique(fs[i].l, slots[i].v); }
    assert slots[i] == Defaults(fs)[i];
  }

  lemma FieldsParts(fs: seq<Field>, slots: seq<Slot>, i: nat, noise: Noise, path: seq<nat>)
    requires i < |fs| == |slots| && Short(NoisyFields(fs[i..], slots[i..], i, noise, path))
    ensures Short(NoisyField(fs[i], slots[i], noise, path + [i])) && Short(NoisyFields(fs[i + 1..], slots[i + 1..], i + 1, noise, path))
    ensures NoisyFields(fs[i..], slots[i..], i, noise, path).value ==
            UnknownsBytes(noise(path + [i])) + (NoisyField(fs[i], slots[i], noise, path + [i]).value
            + NoisyFields(fs[i + 1..], slots[i + 1..], i + 1, noise, path).value)
  {
    assert fs[i..][1..] == fs[i + 1..] && slots[i..][1..] == slots[i + 1..];
  }

  lemma {:induction false} LoopReadsFields(fs: seq<Field>, slots: seq<Slot>, i: nat, noise: Noise, path: seq<nat>, seen: set<nat>)
    requires |fs| == |slots| && FitsFields(fs, slots) && i <= |fs| && NoiseFor(fs, noise, path)
    requires Short(NoisyFields(fs[i..], slots[i..], i, noise, path))
    ensures var r := DecodeLoop(fs, NoisyFields(fs[i..], slots[i..], i, noise, path).value, Partial(fs, slots, i), seen);
            && r.Some? && r.value.0 == slots && seen <= r.value.1
            && forall j :: i <= j < |fs| && fs[j].h.Required? ==> j in r.value.1
    decreases fs, 0, 2 + |fs| - i
  {
    hide DecodeLoop, NoisyFields, NoisyField, FitsFields, Partial, Emits, NoiseFor;
    NoiseBefore(fs, noise, path, i);
    if i == |fs| {
      LastUnknowns(fs, slots, noise, path, seen);
    } else {
      FieldsParts(fs, slots, i, noise, path);
      var field, more := NoisyField(fs[i], slots[i], noise, path + [i]).value, NoisyFields(fs[i + 1..], slots[i + 1..], i + 1, noise, path).value;
      LoopSkipsUnknowns(fs, noise(path + [i]), field + more, Partial(fs, slots, i), seen);
      LoopReadsField(fs, slots, i, noise, path, more, seen);
      LoopReadsFields(fs, slots, i + 1, noise, path, if Emits(fs[i], slots[i]) then seen + {i} else seen);
      RequiredEmits(fs, slots, i);
    }
  }

  lemma NoiseBefore(fs: seq<Field>, noise: Noise, path: seq<nat>, i: nat)
    requires NoiseFor(fs, noise, path) && i <= |fs|
    ensures AreUnknown(fs, noise(path + [i]))
  {
  }

  lemma RequiredEmits(fs: seq<Field>, slots: seq<Slot>, i: nat)
    requires FitsFields(fs, slots) && i < |fs|
    ensures fs[i].h.Required? ==> Emits(fs[i], slots[i])
  {
    assert FitsSlot(fs[i], slots[i]);
  }

  lemma LastUnknowns(fs: seq<Field>, slots: seq<Slot>, noise: Noise, path: seq<nat>, seen: set<nat>)
    requires |fs| == |slots| && AreUnknown(fs, noise(path + [|fs|]))
    ensures NoisyFields(fs[|fs|..], slots[|fs|..], |fs|, noise, path) == Some(UnknownsBytes(noise(path + [|fs|])))
    ensures DecodeLoop(fs, UnknownsBytes(noise(path + [|fs|])), Partial(fs, slots, |fs|), seen) == Some((slots, seen))
  {
    var us := noise(path + [|fs|]);
    LoopSkipsUnknowns(fs, us, [], Partial(fs, slots, |fs|), seen);
    assert UnknownsBytes(us) + [] == UnknownsBytes(us) && Partial(fs, slots, |fs|) == slots;
  }

  lemma {:induction false} MessageRoundTrip(fs: seq<Field>, slots: seq<Slot>, noise: Noise, path: seq<nat>)
    requires FitsFields(fs, slots) && NoiseFor(fs, noise, path) && Short(NoisyFields(fs, slots, 0, noise, path))
    ensures DecodeNoInit(fs, NoisyFields(fs, slots, 0, noise, path).value, Defaults(fs)) == Some(slots)
    decreases fs, 1
  {
    hide DecodeLoop, NoisyFields, NoiseFor, RequiredBefore;
    assert fs[0..] == fs && slots[0..] == slots && Partial(fs, slots, 0) == Defaults(fs);
    LoopReadsFields(fs, slots, 0, noise, path, {});
  }

  // ---- The encoding exists, and is the noisy encoding without noise ----

  lemma {:induction false} ValueExists(l: LType, v: Value, noise: Noise, path: seq<nat>)
    requires FitsValue(l, v)
    ensures NoisyValue(l, v, noise, path).Some?
    decreases l, 0
  {
    if l.Submsg? { FieldsExist(l.fields, v.slots, 0, noise, path); }
  }

  lemma {:induction false} ItemsExist(l: LType, key: Bytes, vs: seq<Value>, j: nat, noise: Noise, path: seq<nat>)
    requires forall v :: v in vs ==> FitsValue(l, v)
    ensures NoisyItems(l, key, vs, j, noise, path).Some?
    decreases l, 1, |vs|
  {
    hide FitsValue, NoisyValue, UnknownsBytes;
    if vs != [] {
      ValueExists(l, vs[0], noise, path + [j]);
      ItemsExist(l, key, vs[1..], j + 1, noise, path);
    }
  }

  lemma {:induction false} FieldExists(f: Field, slot: Slot, noise: Noise, path: seq<nat>)
    requires FitsSlot(f, slot)
    ensures NoisyField(f, slot, noise, path).Some?
    decreases f, 0
  {
    match slot
    case Absent =>
    case One(v) => ValueExists(f.l, v, noise, path + [0]);
    case Many(vs) =>
      if Packable(f.l) {
        PackedRoundTrip(f.l, [], vs, f.h.max);
      } else {
        ItemsExist(f.l, Key(f.tag, WireType(f.l)), vs, 0, noise, path);
      }
  }

  lemma {:induction false} FieldsExist(fs: seq<Field>, slots: seq<Slot>, i: nat, noise: Noise, path: seq<nat>)
    requires |fs| == |slots| && forall k :: 0 <= k < |fs| ==> FitsSlot(fs[k], slots[k])
    ensures NoisyFields(fs, slots, i, noise, path).Some?
    decreases fs, 0
  {
    if fs != [] {
      FieldExists(fs[0], slots[0], noise, path + [i]);
      FieldsExist(fs[1..], slots[1..], i + 1, noise, path);
    }
  }

  function Quiet(): Noise {
    p => []
  }

  lemma {:induction false} QuietValue(l: LType, v: Value, path: seq<nat>)
    ensures NoisyValue(l, v, Quiet(), path) == EncodeValue(l, v)
    decreases l, 0
  {
    if l.Submsg? && v.Msg? { QuietFields(l.fields, v.slots, 0, path); }
  }

  lemma {:induction false} QuietItems(l: LType, key: Bytes, vs: seq<Value>, j: nat, path: seq<nat>)
    ensures NoisyItems(l, key, vs, j, Quiet(), path) == EncodeItems(l, key, vs)
    decreases l, 1, |vs|
  {
    if vs != [] {
      QuietValue(l, vs[0], path + [j]);
      QuietItems(l, key, vs[1..], j + 1, path);
      assert [] + key == key;
    }
  }

  lemma {:induction false} QuietField(f: Field, slot: Slot, path: seq<nat>)
    ensures NoisyField(f, slot, Quiet(), path) == EncodeField(f, slot)
    decreases f, 0
  {
    match slot
    case Absent =>
    case One(v) => QuietValue(f.l, v, path + [0]);
    case Many(vs) => QuietItems(f.l, Key(f.tag, WireType(f.l)), vs, 0, path);
  }

  lemma {:induction false} QuietFields(fs: seq<Field>, slots: seq<Slot>, i: nat, path: seq<nat>)
    ensures NoisyFields(fs, slots, i, Quiet(), path) == EncodeFields(fs, slots)
    decreases fs, 0
  {
    if |fs| == |slots| && fs != [] {
      QuietField(fs[0], slots[0], path + [i]);
      QuietFields(fs[1..], slots[1..], i + 1, path);
      var t := Then(EncodeField(fs[0], slots[0]), EncodeFields(fs[1..], slots[1..]));
      assert t.Some? ==> [] + t.value == t.value;
    }
  }

  /** Every message that fits its descriptor is encoded, and decoding the bytes gives it back. */
  lemma DecodeUndoesEncode(fs: seq<Field>, slots: seq<Slot>)
    requires FitsFields(fs, slots)
    ensures EncodeFields(fs, slots).Some?
    ensures |EncodeFields(fs, slots).value| < TWO32 ==> Decode(fs, EncodeFields(fs, slots).value) == Some(slots)
  {
    hide EncodeFields, NoisyFields, DecodeNoInit, DecodeLoop;
    QuietFields(fs, slots, 0, []);
    FieldsExist(fs, slots, 0, Quiet(), []);
    QuietIsNoise(fs, []);
    if |EncodeFields(fs, slots).value| < TWO32 { MessageRoundTrip(fs, slots, Quiet(), []); }
  }

  lemma {:induction false} QuietIsNoise(fs: seq<Field>, path: seq<nat>)
    ensures NoiseFor(fs, Quiet(), path)
    decreases fs
  {
    forall i | 0 <= i < |fs| ensures NoiseInside(fs[i], Quiet(), path + [i]) { QuietInside(fs[i], path + [i]); }
  }

  lemma {:induction false} QuietInside(f: Field, path: seq<nat>)
    ensures NoiseInside(f, Quiet(), path)
    decreases f
  {
    if f.l.Submsg? {
      forall j: nat ensures NoiseFor(f.l.fields, Quiet(), path + [j]) { QuietIsNoise(f.l.fields, path + [j]); }
    }
  }

  /** Well-formed unknown fields, put in anywhere between the fields and at any depth, change nothing. */
  lemma UnknownFieldsChangeNothing(fs: seq<Field>, slots: seq<Slot>, noise: Noise)
    requires FitsFields(fs, slots) && NoiseFor(fs, noise, [])
    ensures NoisyFields(fs, slots, 0, noise, []).Some?
    ensures |NoisyFields(fs, slots, 0, noise, []).value| < TWO32 ==> Decode(fs, NoisyFields(fs, slots, 0, noise, []).value) == Some(slots)
  {
    hide NoisyFields, DecodeNoInit, DecodeLoop, NoiseFor;
    FieldsExist(fs, slots, 0, noise, []);
    if |NoisyFields(fs, slots, 0, noise, []).value| < TWO32 { MessageRoundTrip(fs, slots, noise, []); }
  }

  /** A string that fills its buffer is written, but is read back only if the buffer had room for its terminator. */
  lemma {:induction false} TextNeedsTerminator(b: Bytes, cap: nat, rest: Bytes)
    requires IsText(b, cap) && |b| < TWO32
    ensures EncodeValue(Text(cap), Data(b)) == Some(PutVarint(|b|) + b)
    ensures DecodeData(Text(cap), PutVarint(|b|) + b + rest) == if |b| < cap then Some((Data(b), rest)) else None
  {
    hide Varint32, PutVarint;
    LengthRoundTrip(b, rest);
    assert (b + rest)[..|b|] == b && (b + rest)[|b|..] == rest;
    UpToNulOfText(b);
  }

  /** The encoder and the decoder themselves, one after the other. */
  method EncodeThenDecode(buf: array<byte>, fs: seq<Field>, slots: seq<Slot>) returns (ok: bool, slots': seq<Slot>)
    requires FitsFields(fs, slots) && MachineFields(fs, slots) && DistinctAll(fs)
    modifies buf
    ensures EncodeFields(fs, slots).Some?
    ensures |EncodeFields(fs, slots).value| <= buf.Length && |EncodeFields(fs, slots).value| < TWO32 ==> ok && slots' == slots
  {
    hide *;
    DecodeUndoesEncode(fs, slots);
    slots' := [];
    var written;
    ok, written := EncodeToBuffer(buf, fs, slots);
    if ok {
      ok, slots' := DecodeMessage(buf[..written], fs);
    }
  }
}
