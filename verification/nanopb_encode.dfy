/** The encoder: output streams, the sizing pass, and the field encoders (pb_encode.c). */
module NanopbEncode {
  import opened Bytestrings
  import opened Coding
  import opened NanopbVarint
  import opened NanopbSchema

  /** A stream's count of bytes, and what its buffer holds up to the write position. */
  datatype Mark = Mark(written: nat, contents: Bytes)

  /** What every encoder promises: it succeeds when the bytes exist and fit, then exactly they are written. */
  ghost predicate Emitted(ok: bool, sizing: bool, max: nat, bytes: Option<Bytes>, a: Mark, b: Mark) {
    && ok == (bytes.Some? && (sizing || a.written + |bytes.value| <= max))
    && (ok ==> b == Mark(a.written + |bytes.value|, if sizing then a.contents else a.contents + bytes.value))
    && a.written <= b.written && a.contents <= b.contents && (sizing || b.written <= max)
  }

  lemma EmittedThen(ok: bool, sizing: bool, max: nat, p: Option<Bytes>, q: Option<Bytes>, a: Mark, b: Mark, c: Mark)
    requires Emitted(true, sizing, max, p, a, b) && Emitted(ok, sizing, max, q, b, c)
    ensures Emitted(ok, sizing, max, Then(p, q), a, c)
  {
    if ok { assert a.contents + p.value + q.value == a.contents + (p.value + q.value); }
  }

  lemma EmittedFails(sizing: bool, max: nat, p: Option<Bytes>, q: Option<Bytes>, a: Mark, b: Mark)
    requires Emitted(false, sizing, max, p, a, b)
    ensures Emitted(false, sizing, max, Then(p, q), a, b)
  {
  }

  lemma EmittedNothing(sizing: bool, max: nat, a: Mark)
    requires sizing || a.written <= max
    ensures Emitted(true, sizing, max, Some([]), a, a)
  {
  }

  class OStream {
    const sizing: bool
    const buf: array<byte>
    const maxSize: nat
    var at: nat
    var bytesWritten: nat

    ghost predicate Valid()
      reads this
    {
      sizing || (bytesWritten <= maxSize && at + (maxSize - bytesWritten) <= buf.Length)
    }

    ghost function Here(): Mark
      requires Valid()
      reads this, buf
    {
      Mark(bytesWritten, if sizing then [] else buf[..at])
    }

    /** PB_OSTREAM_SIZING. */
    constructor Sizing()
      ensures Valid() && sizing && Here() == Mark(0, []) && fresh(buf)
    {
      sizing, maxSize, at, bytesWritten := true, 0, 0, 0;
      buf := new byte[0];
    }

    /** pb_ostream_from_buffer on the `size` bytes that start at `at`. */
    constructor FromBuffer(buf: array<byte>, at: nat, size: nat)
      requires at + size <= buf.Length
      ensures Valid() && !sizing && this.buf == buf && maxSize == size && this.at == at && bytesWritten == 0
    {
      this.sizing, this.buf, this.maxSize, this.at, this.bytesWritten := false, buf, size, at, 0;
    }

    method BufWrite(data: Bytes)
      requires !sizing && at + |data| <= buf.Length
      modifies this`at, buf
      ensures at == old(at) + |data| && buf[..at] == old(buf[..at]) + data
    {
      var dest := at;
      at := dest + |data|;
      for i := 0 to |data|
        invariant at == dest + |data| && buf[..dest + i] == old(buf[..at]) + data[..i]
      {
        buf[dest + i] := data[i];
        assert buf[..dest + i + 1] == buf[..dest + i] + [data[i]] && data[..i + 1] == data[..i] + [data[i]];
      }
      assert data[..|data|] == data;
    }

    /** pb_write. */
    method Write(data: Bytes) returns (ok: bool)
      requires Valid()
      modifies this, buf
      ensures Valid() && Emitted(ok, sizing, maxSize, Some(data), old(Here()), Here())
    {
      if |data| > 0 && !sizing {
        if bytesWritten + |data| > maxSize {
          return false;
        }
        BufWrite(data);
      }
      bytesWritten := bytesWritten + |data|;
      ok := true;
    }

    /** pb_write of `count` bytes on a sizing stream, which looks at no data. */
    method Skip(count: nat)
      requires Valid() && sizing
      modifies this
      ensures Valid() && Here() == Mark(old(bytesWritten) + count, [])
    {
      bytesWritten := bytesWritten + count;
    }

    method EncodeVarint(value: nat) returns (ok: bool)
      requires Valid() && value < TWO64
      modifies this, buf
      ensures Valid() && Emitted(ok, sizing, maxSize, Some(PutVarint(value)), old(Here()), Here())
    {
      if value <= 0x7F {
        ok := Write([value]);
        return;
      }
      var bytes := VarintBytes(value);
      ok := Write(bytes);
    }
  }

  /** `done` is the start of the encoding of value, v what is left of it; the last byte still carries its high bit. */
  ghost predicate Filled(value: nat, done: Bytes, v: nat) {
    if v > 0 then PutVarint(value) == done + PutVarint(v)
    else done != [] && done[|done| - 1] >= 128 && PutVarint(value) == done[..|done| - 1] + [done[|done| - 1] - 128]
  }

  lemma FillsByte(value: nat, done: Bytes, v: nat)
    requires v > 0 && value < TWO64 && Filled(value, done, v)
    ensures |done| < 10 && Filled(value, done + [v % 128 + 128], v / 128)
  {
    Varint64RoundTrip(value, []);
    if v >= 128 {
      assert done + PutVarint(v) == done + [v % 128 + 128] + PutVarint(v / 128);
    }
  }

  lemma FilledStarts(value: nat)
    requires value > 0
    ensures Filled(value, [], value)
  {
  }

  lemma FilledEnds(value: nat, done: Bytes)
    requires Filled(value, done, 0)
    ensures done != [] && PutVarint(value) == done[..|done| - 1] + [done[|done| - 1] % 128]
  {
  }

  /** The loop of pb_encode_varint that fills its ten-byte buffer. */
  method VarintBytes(value: nat) returns (bytes: Bytes)
    requires 0x7F < value < TWO64
    ensures bytes == PutVarint(value)
  {
    hide Filled, PutVarint;
    var buffer := new byte[10];
    var i: nat, v: nat := 0, value;
    assert Filled(value, [], value) by { FilledStarts(value); }
    assert buffer[..0] == [];
    while v != 0
      invariant i <= 10 && Filled(value, buffer[..i], v)
      decreases v
    {
      FillsByte(value, buffer[..i], v);
      ghost var done := buffer[..i];
      buffer[i] := v % 128 + 128;
      assert buffer[..i + 1] == done + [v % 128 + 128];
      v := v / 128;
      i := i + 1;
    }
    ghost var done := buffer[..i];
    FilledEnds(value, done);
    buffer[i - 1] := buffer[i - 1] % 128;
    bytes := buffer[..i];
    assert bytes == done[..i - 1] + [done[i - 1] % 128];
  }

  method EncodeTag(s: OStream, wireType: nat, tag: nat) returns (ok: bool)
    requires s.Valid() && wireType < 8 && tag < TWO32
    modifies s, s.buf
    ensures s.Valid() && Emitted(ok, s.sizing, s.maxSize, Some(Key(tag, wireType)), old(s.Here()), s.Here())
  {
    ok := s.EncodeVarint(tag * 8 + wireType);
  }

  /** pb_encode_string. */
  method EncodeString(s: OStream, data: Bytes) returns (ok: bool)
    requires s.Valid() && |data| < TWO64
    modifies s, s.buf
    ensures s.Valid() && Emitted(ok, s.sizing, s.maxSize, Prefixed(Some(data)), old(s.Here()), s.Here())
  {
    ghost var a := s.Here();
    ok := s.EncodeVarint(|data|);
    ghost var b := s.Here();
    if !ok {
      EmittedFails(s.sizing, s.maxSize, Some(PutVarint(|data|)), Some(data), a, b);
      return;
    }
    ok := s.Write(data);
    EmittedThen(ok, s.sizing, s.maxSize, Some(PutVarint(|data|)), Some(data), a, b, s.Here());
  }

  lemma ThenAssoc(a: Option<Bytes>, b: Option<Bytes>, c: Option<Bytes>)
    ensures Then(Then(a, b), c) == Then(a, Then(b, c))
    ensures Then(a, Some([])) == a && Then(Some([]), a) == a
  {
    if a.Some? && b.Some? && c.Some? { assert a.value + b.value + c.value == a.value + (b.value + c.value); }
    if a.Some? { assert a.value + [] == a.value && [] + a.value == a.value; }
  }

  /** One more piece, or the failure of the whole, in a loop that has written `done` and has `rest` to come. */
  lemma EmittedNext(ok: bool, sizing: bool, max: nat, done: Bytes, piece: Option<Bytes>, rest: Option<Bytes>, a: Mark, b: Mark, c: Mark)
    requires Emitted(true, sizing, max, Some(done), a, b) && Emitted(ok, sizing, max, piece, b, c)
    ensures ok ==> piece.Some? && Emitted(true, sizing, max, Some(done + piece.value), a, c)
    ensures ok ==> Then(Some(done), Then(piece, rest)) == Then(Some(done + piece.value), rest)
    ensures !ok ==> Emitted(false, sizing, max, Then(Some(done), Then(piece, rest)), a, c)
  {
    EmittedThen(ok, sizing, max, Some(done), piece, a, b, c);
    ThenAssoc(Some(done), piece, rest);
    if !ok { EmittedFails(sizing, max, Then(Some(done), piece), rest, a, c); }
  }

  // ---- Messages ----

  /** Tags and fixed-width fields are words of their width, and no encoding that exists outgrows a 64-bit size. */
  ghost predicate MachineValue(l: LType, v: Value)
    decreases l, 0
  {
    && (EncodeValue(l, v).Some? ==> |EncodeValue(l, v).value| < TWO64)
    && (l.Fixed32? || l.Fixed64? ==> v.Num? && InRange(l, v.n))
    && (l.Submsg? && v.Msg? ==> MachineFields(l.fields, v.slots))
  }

  ghost predicate MachineItems(l: LType, vs: seq<Value>)
    decreases l, 1
  {
    && (EncodeItems(l, [], vs).Some? ==> |EncodeItems(l, [], vs).value| < TWO64)
    && forall v :: v in vs ==> MachineValue(l, v)
  }

  ghost predicate MachineSlot(f: Field, slot: Slot)
    decreases f, 0
  {
    && f.tag < TWO32
    && match slot
       case Absent => true
       case One(v) => MachineValue(f.l, v)
       case Many(vs) => MachineItems(f.l, vs)
  }

  ghost predicate MachineFields(fs: seq<Field>, slots: seq<Slot>)
    decreases fs, 0
  {
    |fs| == |slots| && forall i :: 0 <= i < |fs| ==> MachineSlot(fs[i], slots[i])
  }

  method EncodeNumberTo(s: OStream, l: LType, n: int) returns (ok: bool)
    requires s.Valid() && InRange(l, n)
    modifies s, s.buf
    ensures s.Valid() && Emitted(ok, s.sizing, s.maxSize, Some(EncodeNumber(l, n)), old(s.Here()), s.Here())
  {
    if l.Fixed32? {
      ok := s.Write(PutFixed(4, n));
    } else if l.Fixed64? {
      ok := s.Write(PutFixed(8, n));
    } else {
      ok := s.EncodeVarint(if l.Int? then Word64(n) else if l.SInt? then ZigZag(n) else n);
    }
  }

  lemma NothingEncoded(sizing: bool, max: nat, a: Mark)
    requires sizing || a.written <= max
    ensures Emitted(false, sizing, max, None, a, a)
  {
  }

  lemma DataLength(l: LType, v: Value)
    requires MachineValue(l, v) && v.Data? && EncodeValue(l, v).Some?
    ensures |v.b| < TWO64
  {
  }

  /** PB_ENCODERS. A value the memory of the field cannot hold has no encoding. */
  method EncodeValueTo(s: OStream, l: LType, v: Value) returns (ok: bool)
    requires s.Valid() && MachineValue(l, v)
    modifies s, s.buf
    ensures s.Valid() && Emitted(ok, s.sizing, s.maxSize, EncodeValue(l, v), old(s.Here()), s.Here())
    decreases l, 0
  {
    hide Emitted, EncodeNumber, MachineValue, MachineFields;
    if l.Submsg? && v.Msg? {
      ok := EncodeSubmessage(s, l.fields, v.slots) by { SubmsgIsMachine(l, v); }
    } else if l.ByteArray? && v.Data? && |v.b| <= l.cap {
      ok := EncodeString(s, v.b) by { DataLength(l, v); }
    } else if l.Text? && v.Data? && IsText(v.b, l.cap) {
      ok := EncodeString(s, v.b) by { DataLength(l, v); }
    } else if l.FixedBytes? && v.Data? && |v.b| == l.len {
      ok := EncodeString(s, v.b) by { DataLength(l, v); }
    } else if v.Num? && InRange(l, v.n) {
      ok := EncodeNumberTo(s, l, v.n);
    } else {
      NothingEncoded(s.sizing, s.maxSize, s.Here());
      ok := false;
    }
  }

  lemma SubmsgIsMachine(l: LType, v: Value)
    requires MachineValue(l, v) && l.Submsg? && v.Msg?
    ensures MachineFields(l.fields, v.slots)
    ensures EncodeFields(l.fields, v.slots).Some? ==> |EncodeFields(l.fields, v.slots).value| < TWO64
  {
  }

  /** pb_encode_submessage: the sizing pass, the length, and the second pass. */
  method EncodeSubmessage(s: OStream, fs: seq<Field>, slots: seq<Slot>) returns (ok: bool)
    requires s.Valid() && MachineFields(fs, slots)
    requires EncodeFields(fs, slots).Some? ==> |EncodeFields(fs, slots).value| < TWO64
    modifies s, s.buf
    ensures s.Valid() && Emitted(ok, s.sizing, s.maxSize, Prefixed(EncodeFields(fs, slots)), old(s.Here()), s.Here())
    decreases fs, 3
  {
    hide EncodeFields, MachineFields;
    ghost var a, bytes := s.Here(), EncodeFields(fs, slots);
    var substream := new OStream.Sizing();
    ok := Encode(substream, fs, slots);
    if !ok {
      return;
    }
    var size := substream.bytesWritten;
    ok := s.EncodeVarint(size);
    ghost var b := s.Here();
    if !ok {
      return;
    }
    if s.sizing {
      s.Skip(size);
      return;
    }
    ok := WriteSized(s, fs, slots, size);
    EmittedThen(ok, s.sizing, s.maxSize, Some(PutVarint(size)), bytes, a, b, s.Here());
  }

  /** The second pass, through a substream of just the size found: the size cannot have changed. */
  method WriteSized(s: OStream, fs: seq<Field>, slots: seq<Slot>, size: nat) returns (ok: bool)
    requires s.Valid() && !s.sizing && MachineFields(fs, slots)
    requires EncodeFields(fs, slots).Some? && size == |EncodeFields(fs, slots).value|
    modifies s, s.buf
    ensures s.Valid() && Emitted(ok, false, s.maxSize, EncodeFields(fs, slots), old(s.Here()), s.Here())
    decreases fs, 2
  {
    hide EncodeFields, MachineFields;
    if s.bytesWritten + size > s.maxSize {
      ok := false;
      return;
    }
    var substream := new OStream.FromBuffer(s.buf, s.at, size);
    assert substream.Here() == Mark(0, s.Here().contents);
    ok := Encode(substream, fs, slots);
    s.bytesWritten := s.bytesWritten + substream.bytesWritten;
    s.at := substream.at;
    assert substream.Here().contents == s.buf[..s.at];
    if substream.bytesWritten != size {
      assert false;
    }
  }

  /** The loop over array entries; with an empty key it writes packed data. */
  method EncodeItemsTo(s: OStream, l: LType, tagged: bool, tag: nat, vs: seq<Value>) returns (ok: bool)
    requires s.Valid() && tag < TWO32 && forall v :: v in vs ==> MachineValue(l, v)
    modifies s, s.buf
    ensures s.Valid()
    ensures Emitted(ok, s.sizing, s.maxSize, EncodeItems(l, if tagged then Key(tag, WireType(l)) else [], vs), old(s.Here()), s.Here())
    decreases l, 2
  {
    hide Emitted, EncodeValue, EncodeItems, MachineValue, Key, WireType;
    ghost var key, a, done := if tagged then Key(tag, WireType(l)) else [], s.Here(), [];
    EmittedNothing(s.sizing, s.maxSize, a);
    ThenAssoc(EncodeItems(l, key, vs), Some([]), Some([]));
    assert vs[0..] == vs;
    for i := 0 to |vs|
      invariant s.Valid() && Emitted(true, s.sizing, s.maxSize, Some(done), a, s.Here())
      invariant Then(Some(done), EncodeItems(l, key, vs[i..])) == EncodeItems(l, key, vs)
    {
      ghost var b := s.Here();
      ok := EncodeItem(s, l, tagged, tag, vs[i]);
      ItemsUnfold(l, key, vs, i);
      EmittedNext(ok, s.sizing, s.maxSize, done, Then(Some(key), EncodeValue(l, vs[i])), EncodeItems(l, key, vs[i + 1..]), a, b, s.Here());
      if !ok {
        return;
      }
      done := done + Then(Some(key), EncodeValue(l, vs[i])).value;
    }
    ItemsEnd(l, key);
    assert vs[|vs|..] == [];
    ThenAssoc(Some(done), Some([]), Some([]));
    ok := true;
  }

  lemma ItemsUnfold(l: LType, key: Bytes, vs: seq<Value>, i: nat)
    requires i < |vs|
    ensures EncodeItems(l, key, vs[i..]) == Then(Then(Some(key), EncodeValue(l, vs[i])), EncodeItems(l, key, vs[i + 1..]))
  {
    assert vs[i..][1..] == vs[i + 1..];
  }

  lemma ItemsEnd(l: LType, key: Bytes)
    ensures EncodeItems(l, key, []) == Some([])
  {
  }

  method EncodeItem(s: OStream, l: LType, tagged: bool, tag: nat, v: Value) returns (ok: bool)
    requires s.Valid() && tag < TWO32 && MachineValue(l, v)
    modifies s, s.buf
    ensures s.Valid()
    ensures Emitted(ok, s.sizing, s.maxSize, Then(Some(if tagged then Key(tag, WireType(l)) else []), EncodeValue(l, v)),
                    old(s.Here()), s.Here())
    decreases l, 1
  {
    hide Emitted, EncodeValue, MachineValue, Key;
    ghost var key, a := if tagged then Key(tag, WireType(l)) else [], s.Here();
    ok := true;
    EmittedNothing(s.sizing, s.maxSize, a);
    if tagged {
      ok := EncodeTag(s, WireType(l), tag);
    }
    ghost var b := s.Here();
    if !ok {
      EmittedFails(s.sizing, s.maxSize, Some(key), EncodeValue(l, v), a, b);
      return;
    }
    ok := EncodeValueTo(s, l, v);
    EmittedThen(ok, s.sizing, s.maxSize, Some(key), EncodeValue(l, v), a, b, s.Here());
  }

  /** pb_encode. */
  method Encode(s: OStream, fs: seq<Field>, slots: seq<Slot>) returns (ok: bool)
    requires s.Valid() && MachineFields(fs, slots)
    modifies s, s.buf
    ensures s.Valid() && Emitted(ok, s.sizing, s.maxSize, EncodeFields(fs, slots), old(s.Here()), s.Here())
    decreases fs, 1
  {
    hide Emitted, EncodeFields, EncodeField, MachineSlot;
    ghost var a, done := s.Here(), [];
    EmittedNothing(s.sizing, s.maxSize, a);
    ThenAssoc(EncodeFields(fs, slots), Some([]), Some([]));
    assert fs[0..] == fs && slots[0..] == slots;
    for i := 0 to |fs|
      invariant s.Valid() && Emitted(true, s.sizing, s.maxSize, Some(done), a, s.Here())
      invariant Then(Some(done), EncodeFields(fs[i..], slots[i..])) == EncodeFields(fs, slots)
    {
      ghost var b := s.Here();
      ok := EncodeBasicField(s, fs[i], slots[i]);
      FieldsUnfold(fs, slots, i);
      EmittedNext(ok, s.sizing, s.maxSize, done, EncodeField(fs[i], slots[i]), EncodeFields(fs[i + 1..], slots[i + 1..]), a, b, s.Here());
      if !ok {
        return;
      }
      done := done + EncodeField(fs[i], slots[i]).value;
    }
    FieldsEnd();
    assert fs[|fs|..] == [] && slots[|fs|..] == [];
    ThenAssoc(Some(done), Some([]), Some([]));
    ok := true;
  }

  lemma FieldsUnfold(fs: seq<Field>, slots: seq<Slot>, i: nat)
    requires i < |fs| == |slots|
    ensures EncodeFields(fs[i..], slots[i..]) == Then(EncodeField(fs[i], slots[i]), EncodeFields(fs[i + 1..], slots[i + 1..]))
  {
    assert fs[i..][1..] == fs[i + 1..] && slots[i..][1..] == slots[i + 1..];
  }

  lemma FieldsEnd()
    ensures EncodeFields([], []) == Some([])
  {
  }

  /** encode_basic_field. */
  method EncodeBasicField(s: OStream, f: Field, slot: Slot) returns (ok: bool)
    requires s.Valid() && MachineSlot(f, slot)
    modifies s, s.buf
    ensures s.Valid() && Emitted(ok, s.sizing, s.maxSize, EncodeField(f, slot), old(s.Here()), s.Here())
    decreases f, 1
  {
    hide Emitted, EncodeValue, EncodeItems, MachineValue, Key;
    match slot
    case Absent =>
      ok := f.h.Optional? || f.h.Oneof?;
      EmittedNothing(s.sizing, s.maxSize, s.Here());
      NothingEncoded(s.sizing, s.maxSize, s.Here());
    case One(v) =>
      if f.h.Repeated? {
        NothingEncoded(s.sizing, s.maxSize, s.Here());
        ok := false;
      } else if f.h.Singular? && IsDefault(f.l, v) {
        EmittedNothing(s.sizing, s.maxSize, s.Here());
        ok := true;
      } else {
        ok := EncodeItem(s, f.l, true, f.tag, v);
      }
    case Many(vs) =>
      if !f.h.Repeated? {
        NothingEncoded(s.sizing, s.maxSize, s.Here());
        ok := false;
      } else {
        ok := EncodeArray(s, f, vs);
      }
  }

  /** encode_array: packed where the type allows it, and sized before it is written. */
  method EncodeArray(s: OStream, f: Field, vs: seq<Value>) returns (ok: bool)
    requires s.Valid() && f.h.Repeated? && MachineSlot(f, Many(vs))
    modifies s, s.buf
    ensures s.Valid() && Emitted(ok, s.sizing, s.maxSize, EncodeField(f, Many(vs)), old(s.Here()), s.Here())
    decreases f, 0
  {
    hide Emitted, EncodeValue, EncodeItems, MachineValue, Key;
    if vs == [] {
      EmittedNothing(s.sizing, s.maxSize, s.Here());
      ok := true;
    } else if |vs| > f.h.max {
      NothingEncoded(s.sizing, s.maxSize, s.Here());
      ok := false;
    } else if Packable(f.l) {
      ghost var a := s.Here();
      ok := EncodeTag(s, WT_STRING, f.tag);
      ghost var b := s.Here();
      ghost var key, body := Some(Key(f.tag, WT_STRING)), Prefixed(EncodeItems(f.l, [], vs));
      if !ok {
        EmittedFails(s.sizing, s.maxSize, key, body, a, b);
        return;
      }
      ok := EncodePacked(s, f.l, vs);
      EmittedThen(ok, s.sizing, s.maxSize, key, body, a, b, s.Here());
    } else {
      ok := EncodeItemsTo(s, f.l, true, f.tag, vs);
    }
  }

  /** The total size of a packed array: a product for fixed-width types, a sizing pass for the others. */
  method PackedSize(l: LType, vs: seq<Value>) returns (ok: bool, size: nat)
    requires forall v :: v in vs ==> MachineValue(l, v)
    ensures ok == EncodeItems(l, [], vs).Some? && (ok ==> size == |EncodeItems(l, [], vs).value|)
    decreases l, 3
  {
    hide EncodeItems, MachineValue;
    ok := true;
    FixedItems(l, vs);
    if l.Fixed32? {
      size := 4 * |vs|;
    } else if l.Fixed64? {
      size := 8 * |vs|;
    } else {
      var sizestream := new OStream.Sizing();
      ok := EncodeItemsTo(sizestream, l, false, 0, vs);
      size := sizestream.bytesWritten;
    }
  }

  lemma {:induction false} FixedItems(l: LType, vs: seq<Value>)
    requires forall v :: v in vs ==> MachineValue(l, v)
    ensures l.Fixed32? ==> EncodeItems(l, [], vs).Some? && |EncodeItems(l, [], vs).value| == 4 * |vs|
    ensures l.Fixed64? ==> EncodeItems(l, [], vs).Some? && |EncodeItems(l, [], vs).value| == 8 * |vs|
  {
    if vs != [] {
      assert MachineValue(l, vs[0]);
      FixedItems(l, vs[1..]);
    }
  }

  method EncodePacked(s: OStream, l: LType, vs: seq<Value>) returns (ok: bool)
    requires s.Valid() && MachineItems(l, vs)
    modifies s, s.buf
    ensures s.Valid() && Emitted(ok, s.sizing, s.maxSize, Prefixed(EncodeItems(l, [], vs)), old(s.Here()), s.Here())
    decreases l, 4
  {
    hide EncodeItems, MachineValue;
    ghost var a := s.Here();
    var size;
    ok, size := PackedSize(l, vs);
    if !ok {
      return;
    }
    ok := s.EncodeVarint(size);
    ghost var b := s.Here();
    if !ok {
      return;
    }
    if s.sizing {
      s.Skip(size);
      return;
    }
    ok := EncodeItemsTo(s, l, false, 0, vs);
    EmittedThen(ok, s.sizing, s.maxSize, Some(PutVarint(size)), EncodeItems(l, [], vs), a, b, s.Here());
  }

  // ---- What the encoder promises ----

  /** pb_get_encoded_size. */
  method GetEncodedSize(fs: seq<Field>, slots: seq<Slot>) returns (ok: bool, size: nat)
    requires MachineFields(fs, slots)
    ensures ok == EncodeFields(fs, slots).Some? && (ok ==> size == |EncodeFields(fs, slots).value|)
  {
    hide EncodeFields;
    var stream := new OStream.Sizing();
    ok := Encode(stream, fs, slots);
    size := stream.bytesWritten;
  }

  /** Encoding into a buffer succeeds exactly when the sizing pass does and its total fits; then both counts agree. */
  method EncodeToBuffer(buf: array<byte>, fs: seq<Field>, slots: seq<Slot>) returns (ok: bool, written: nat)
    requires MachineFields(fs, slots)
    modifies buf
    ensures ok == (EncodeFields(fs, slots).Some? && |EncodeFields(fs, slots).value| <= buf.Length)
    ensures ok ==> written == |EncodeFields(fs, slots).value| && buf[..written] == EncodeFields(fs, slots).value
  {
    hide EncodeFields;
    var stream := new OStream.FromBuffer(buf, 0, buf.Length);
    ok := Encode(stream, fs, slots);
    written := stream.bytesWritten;
    assert ok ==> stream.Here().contents == [] + EncodeFields(fs, slots).value;
  }
}
