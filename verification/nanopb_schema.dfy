/** Message descriptors, message values, and the bytes nanopb writes for them (pb.h, pb_encode.c). */
module NanopbSchema {
  import opened Bytestrings
  import opened Coding
  import opened NanopbVarint

  /** The data type of a field; `size`, `cap` and `len` are the sizes of its memory. */
  datatype LType =
    | Bool | Int(size: nat) | UInt(size: nat) | SInt(size: nat) | Fixed32 | Fixed64
    | ByteArray(cap: nat) | Text(cap: nat) | Submsg(fields: seq<Field>) | FixedBytes(len: nat)

  /** Singular is the proto3 field without a has_ member. A oneof names the union it is in. */
  datatype HType = Required | Optional | Singular | Repeated(max: nat) | Oneof(union: nat)

  datatype Field = Field(tag: nat, h: HType, l: LType)

  datatype Value = Num(n: int) | Data(b: Bytes) | Msg(slots: seq<Slot>)

  /** What the struct holds for a field: nothing, one value, or an array with its count. */
  datatype Slot = Absent | One(v: Value) | Many(vs: seq<Value>)

  const WT_VARINT: nat := 0
  const WT_64BIT: nat := 1
  const WT_STRING: nat := 2
  const WT_32BIT: nat := 5

  const NUL: byte := 0

  predicate Packable(l: LType) {
    l.Bool? || l.Int? || l.UInt? || l.SInt? || l.Fixed32? || l.Fixed64?
  }

  /** Two to the number of value bits of an integer of `size` bytes, the sign bit not counted. */
  function SignedLimit(size: nat): int {
    if size == 1 then 0x80 else if size == 2 then 0x8000 else if size == 4 then TWO31 else if size == 8 then TWO63 else 0
  }

  /** The numbers the memory of a packable field can hold; other sizes are "invalid data_size". */
  predicate InRange(l: LType, n: int) {
    match l
    case Bool => 0 <= n <= 1
    case Int(size) => -SignedLimit(size) <= n < SignedLimit(size)
    case SInt(size) => -SignedLimit(size) <= n < SignedLimit(size)
    case UInt(size) => 0 <= n < 2 * SignedLimit(size)
    case Fixed32 => 0 <= n < TWO32
    case Fixed64 => 0 <= n < TWO64
    case _ => false
  }

  function EncodeNumber(l: LType, n: int): Bytes
    requires InRange(l, n)
  {
    match l
    case Bool => PutVarint(n)
    case Int(_) => PutVarint(Word64(n))
    case UInt(_) => PutVarint(n)
    case SInt(_) => PutVarint(ZigZag(n))
    case Fixed32 => PutFixed(4, n)
    case _ => PutFixed(8, n)
  }

  /** A string in its buffer: no terminator inside it, and no more bytes than the buffer has. */
  predicate IsText(b: Bytes, cap: nat) {
    |b| <= cap && NUL !in b
  }

  function WireType(l: LType): nat {
    if l.Fixed32? then WT_32BIT else if l.Fixed64? then WT_64BIT else if Packable(l) then WT_VARINT else WT_STRING
  }

  function Key(tag: nat, wireType: nat): Bytes {
    PutVarint(8 * tag + wireType)
  }

  /** Two encodings one after the other, if neither fails. */
  function Then(a: Option<Bytes>, b: Option<Bytes>): Option<Bytes> {
    if a.Some? && b.Some? then Some(a.value + b.value) else None
  }

  function Prefixed(a: Option<Bytes>): Option<Bytes> {
    if a.Some? then Some(PutVarint(|a.value|) + a.value) else None
  }

  function EncodeValue(l: LType, v: Value): Option<Bytes>
    decreases l, 0, 0
  {
    match l
    case Submsg(fs) => if v.Msg? then Prefixed(EncodeFields(fs, v.slots)) else None
    case ByteArray(cap) => if v.Data? && |v.b| <= cap then Prefixed(Some(v.b)) else None
    case Text(cap) => if v.Data? && IsText(v.b, cap) then Prefixed(Some(v.b)) else None
    case FixedBytes(len) => if v.Data? && |v.b| == len then Prefixed(Some(v.b)) else None
    case _ => if v.Num? && InRange(l, v.n) then Some(EncodeNumber(l, v.n)) else None
  }

  /** Each value with `key` before it. */
  function EncodeItems(l: LType, key: Bytes, vs: seq<Value>): Option<Bytes>
    decreases l, 1, |vs|
  {
    if vs == [] then Some([]) else Then(Then(Some(key), EncodeValue(l, vs[0])), EncodeItems(l, key, vs[1..]))
  }

  function EncodeField(f: Field, slot: Slot): Option<Bytes>
    decreases f, 0, 0
  {
    var key := Key(f.tag, WireType(f.l));
    match slot
    case Absent => if f.h.Optional? || f.h.Oneof? then Some([]) else None
    case One(v) =>
      if f.h.Repeated? then None
      else if f.h.Singular? && IsDefault(f.l, v) then Some([])
      else Then(Some(key), EncodeValue(f.l, v))
    case Many(vs) =>
      if !f.h.Repeated? then None
      else if vs == [] then Some([])
      else if |vs| > f.h.max then None
      else if Packable(f.l) then Then(Some(Key(f.tag, WT_STRING)), Prefixed(EncodeItems(f.l, [], vs)))
      else EncodeItems(f.l, key, vs)
  }

  /** pb_encode. */
  function EncodeFields(fs: seq<Field>, slots: seq<Slot>): Option<Bytes>
    decreases fs, 0, 0
  {
    if |fs| != |slots| then None
    else if fs == [] then Some([])
    else Then(EncodeField(fs[0], slots[0]), EncodeFields(fs[1..], slots[1..]))
  }

  /** pb_check_proto3_default_value on a field's data. */
  predicate IsDefault(l: LType, v: Value)
    decreases l
  {
    match l
    case Submsg(fs) => v.Msg? && |v.slots| == |fs| && forall i :: 0 <= i < |fs| ==> IsDefaultSlot(fs[i], v.slots[i])
    case ByteArray(_) => v == Data([])
    case Text(_) => v == Data([])
    case FixedBytes(len) => len == 0
    case _ => v == Num(0)
  }

  predicate IsDefaultSlot(f: Field, slot: Slot)
    decreases f
  {
    match f.h
    case Required => false
    case Repeated(_) => slot == Many([])
    case Singular => slot.One? && IsDefault(f.l, slot.v)
    case _ => slot.Absent?
  }

  /** pb_message_set_to_defaults on a field's data. */
  function DefaultValue(l: LType): Value
    decreases l
  {
    match l
    case Submsg(fs) => Msg(Defaults(fs))
    case ByteArray(_) => Data([])
    case Text(_) => Data([])
    case FixedBytes(len) => Data(Zeros(len))
    case _ => Num(0)
  }

  function DefaultSlot(f: Field): Slot
    decreases f
  {
    match f.h
    case Required => One(DefaultValue(f.l))
    case Singular => One(DefaultValue(f.l))
    case Repeated(_) => Many([])
    case _ => Absent
  }

  function Defaults(fs: seq<Field>): (s: seq<Slot>)
    ensures |s| == |fs|
    decreases fs
  {
    if fs == [] then [] else [DefaultSlot(fs[0])] + Defaults(fs[1..])
  }
}
