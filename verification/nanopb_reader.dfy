/** The decoder's field iterator, required-field bitmap and loops, proved against what the bytes mean (pb_decode.c, pb_common.c). */
module NanopbReader {
  import opened Bytestrings
  import opened Coding
  import opened NanopbVarint
  import opened NanopbSchema
  import opened NanopbDecode
  import opened NanopbIStream

  /** A reader of one piece either fails as it should, or leaves in `rest` what follows the piece. */
  ghost predicate Read1<T>(ok: bool, v: T, rest: Bytes, r: Option<(T, Bytes)>) {
    ok == r.Some? && (ok ==> r.value == (v, rest))
  }

  // ---- Skipping ----

  method SkipVarintBytes(s: IStream) returns (ok: bool)
    requires s.Valid()
    modifies s
    ensures s.Valid() && s.End() == old(s.End()) && ok == SkipVarint(old(s.Rest())).Some? && (ok ==> s.Rest() == SkipVarint(old(s.Rest())).value)
  {
    while true
      invariant s.Valid() && s.End() == old(s.End()) && SkipVarint(old(s.Rest())) == SkipVarint(s.Rest())
      decreases s.bytesLeft
    {
      var b;
      ok, b := s.Read(1);
      if !ok || b[0] < 128 {
        return;
      }
    }
  }

  /** pb_make_string_substream: the parent keeps its position and gives the bytes away. */
  method MakeStringSubstream(s: IStream) returns (ok: bool, sub: IStream)
    requires s.Valid()
    modifies s
    ensures s.Valid() && fresh(sub) && sub.Valid() && ok == TakeString(old(s.Rest())).Some?
    ensures !ok ==> s.End() == old(s.End())
    ensures ok ==> s.data == sub.data && sub.End() + s.bytesLeft == old(s.End()) && s.bytesLeft < old(s.bytesLeft)
    ensures ok ==> sub.Rest() == TakeString(old(s.Rest())).value.0 && sub.bytesLeft < old(s.bytesLeft)
    ensures ok ==> old(s.End()) <= |s.data| && s.data[sub.End()..old(s.End())] == TakeString(old(s.Rest())).value.1
  {
    hide Varint32;
    var size, eof;
    ok, size, eof := s.DecodeVarint32Eof();
    sub := new IStream(s.data, s.pos, 0);
    if !ok {
      return;
    }
    ghost var rest := s.Rest();
    if s.bytesLeft < size {
      ok := false;
      return;
    }
    sub := new IStream(s.data, s.pos, size);
    assert sub.Rest() == rest[..size];
    assert s.data[sub.pos + size..sub.pos + s.bytesLeft] == rest[size..];
    s.bytesLeft := s.bytesLeft - size;
  }

  /** pb_close_string_substream: what the substream has left is skipped, and the parent goes on after it. */
  method CloseStringSubstream(s: IStream, sub: IStream)
    requires s != sub && s.Valid() && sub.Valid() && s.data == sub.data && sub.End() + s.bytesLeft <= |s.data|
    modifies s, sub
    ensures s.Valid() && s.bytesLeft == old(s.bytesLeft) && s.End() == old(sub.End()) + s.bytesLeft
    ensures s.Rest() == old(s.data[sub.End()..sub.End() + s.bytesLeft])
  {
    if sub.bytesLeft != 0 {
      var ok, skipped := sub.Read(sub.bytesLeft);
    }
    s.pos := sub.pos;
  }

  method SkipString(s: IStream) returns (ok: bool)
    requires s.Valid()
    modifies s
    ensures s.Valid() && s.End() == old(s.End()) && ok == TakeString(old(s.Rest())).Some? && (ok ==> s.Rest() == TakeString(old(s.Rest())).value.1)
  {
    hide Varint32;
    var length, eof, b;
    ok, length, eof := s.DecodeVarint32Eof();
    if ok {
      ok, b := s.Read(length);
    }
  }

  /** pb_skip_field. */
  method Skip(s: IStream, wireType: nat) returns (ok: bool)
    requires s.Valid()
    modifies s
    ensures s.Valid() && s.End() == old(s.End()) && ok == SkipField(wireType, old(s.Rest())).Some?
    ensures ok ==> s.Rest() == SkipField(wireType, old(s.Rest())).value
  {
    hide SkipVarint, TakeString;
    var b;
    if wireType == WT_VARINT {
      ok := SkipVarintBytes(s);
    } else if wireType == WT_64BIT {
      ok, b := s.Read(8);
    } else if wireType == WT_STRING {
      ok := SkipString(s);
    } else if wireType == WT_32BIT {
      ok, b := s.Read(4);
    } else {
      ok := false;
    }
  }

  // ---- Field iterator ----

  predicate DistinctTags(fs: seq<Field>) {
    forall i, j :: 0 <= i < j < |fs| ==> fs[i].tag != fs[j].tag
  }

  /** pb_field_iter_t: a position in the descriptor that wraps round, and how many required fields lie before it. */
  class FieldIter {
    const fields: seq<Field>
    var pos: nat
    var requiredFieldIndex: nat

    ghost predicate Valid()
      reads this
    {
      && (fields != [] ==> pos < |fields|) && (fields == [] ==> pos == 0)
      && requiredFieldIndex == RequiredBefore(fields, pos)
    }

    /** pb_field_iter_begin. */
    constructor (fields: seq<Field>)
      ensures Valid() && pos == 0 && this.fields == fields
    {
      this.fields, pos, requiredFieldIndex := fields, 0, 0;
    }

    /** pb_field_iter_next: false when it wraps to the beginning. */
    method Next() returns (more: bool)
      requires Valid()
      modifies this
      ensures Valid() && more == (old(pos) + 1 < |fields|)
      ensures pos == if more then old(pos) + 1 else 0
    {
      if fields == [] {
        return false;
      }
      var required := fields[pos].h.Required?;
      pos := pos + 1;
      if pos == |fields| {
        pos, requiredFieldIndex := 0, 0;
        return false;
      }
      if required {
        requiredFieldIndex := requiredFieldIndex + 1;
      }
      more := true;
    }

    /** pb_field_iter_find: once round from the current position. */
    method Find(tag: nat) returns (found: bool)
      requires Valid() && DistinctTags(fields)
      modifies this
      ensures Valid() && found == (IndexOf(fields, tag) < |fields|) && (found ==> pos == IndexOf(fields, tag))
    {
      if fields == [] {
        return false;
      }
      ghost var start, steps: nat := pos, 0;
      var from := pos;
      while true
        invariant Valid() && steps < |fields| && pos == Round(start, steps, |fields|)
        invariant forall k :: 0 <= k < steps ==> fields[Round(start, k, |fields|)].tag != tag
        decreases |fields| - steps
      {
        if fields[pos].tag == tag {
          FoundByTag(fields, tag, pos);
          return true;
        }
        var more := Next();
        steps := steps + 1;
        if pos == from {
          break;
        }
      }
      WentRound(fields, tag, start, steps);
      found := false;
    }
  }

  /** The position k steps on from `start`, wrapping at n. */
  function Round(start: nat, k: nat, n: nat): nat
    requires start < n && k <= n
  {
    if start + k < n then start + k else start + k - n
  }

  lemma FoundByTag(fs: seq<Field>, tag: nat, pos: nat)
    requires DistinctTags(fs) && pos < |fs| && fs[pos].tag == tag
    ensures IndexOf(fs, tag) == pos
  {
  }

  lemma WentRound(fs: seq<Field>, tag: nat, start: nat, steps: nat)
    requires start < |fs| && 0 < steps <= |fs| && Round(start, steps, |fs|) == start
    requires forall k :: 0 <= k < steps ==> fs[Round(start, k, |fs|)].tag != tag
    ensures IndexOf(fs, tag) == |fs|
  {
    forall i | 0 <= i < |fs| ensures fs[i].tag != tag {
      var k := if i >= start then i - start else i + |fs| - start;
      assert Round(start, k, |fs|) == i;
    }
  }

  // ---- The bitmap of required fields ----

  /** A 32-bit word, lowest bit first. */
  type Bits = b: seq<bool> | |b| == 32 witness seq(32, _ => false)

  const NO_BITS: Bits := seq(32, _ => false)
  const ALL_BITS: Bits := seq(32, _ => true)

  /** ALL_BITS shifted right by k. */
  function ShiftedRight(k: nat): Bits
    requires k <= 32
  {
    seq(32, i => i < 32 - k)
  }

  /** Bit r of the bitmap is set exactly when the r-th required field has been seen. */
  ghost predicate Marks(words: seq<Bits>, fs: seq<Field>, seen: set<nat>) {
    && |words| == 2
    && forall r :: 0 <= r < MAX_REQUIRED ==> (words[r / 32][r % 32] <==> SeenRequired(fs, seen, r))
  }

  ghost predicate SeenRequired(fs: seq<Field>, seen: set<nat>, r: nat) {
    exists i :: 0 <= i < |fs| && i in seen && fs[i].h.Required? && RequiredBefore(fs, i) == r
  }

  lemma {:induction false} RequiredRises(fs: seq<Field>, i: nat, j: nat)
    requires i < j <= |fs|
    ensures RequiredBefore(fs, i) + (if fs[i].h.Required? then 1 else 0) <= RequiredBefore(fs, j)
  {
    if i + 1 < j { RequiredRises(fs, i, j - 1); }
  }

  lemma {:induction false} RequiredAt(fs: seq<Field>, n: nat, r: nat) returns (i: nat)
    requires n <= |fs| && r < RequiredBefore(fs, n)
    ensures i < n && fs[i].h.Required? && RequiredBefore(fs, i) == r
  {
    if r < RequiredBefore(fs, n - 1) { i := RequiredAt(fs, n - 1, r); } else { i := n - 1; }
  }

  lemma MarkOne(fs: seq<Field>, seen: set<nat>, i: nat, r: nat)
    requires i < |fs|
    ensures SeenRequired(fs, seen + {i}, r) <==> SeenRequired(fs, seen, r) || (fs[i].h.Required? && RequiredBefore(fs, i) == r)
  {
    if fs[i].h.Required? && RequiredBefore(fs, i) == r { assert i in seen + {i}; }
    if SeenRequired(fs, seen, r) {
      var k :| 0 <= k < |fs| && k in seen && fs[k].h.Required? && RequiredBefore(fs, k) == r;
      assert k in seen + {i};
    }
  }

  /** Setting a bit of the bitmap, as the decoding loop does for a required field. */
  method Mark(words: seq<Bits>, fs: seq<Field>, i: nat, index: nat, ghost seen: set<nat>) returns (words': seq<Bits>)
    requires i < |fs| && index == RequiredBefore(fs, i) && Marks(words, fs, seen)
    ensures Marks(words', fs, seen + {i})
  {
    words' := words;
    if fs[i].h.Required? && index < MAX_REQUIRED {
      var w := words[index / 32];
      words' := words[index / 32 := w[index % 32 := true]];
    }
    forall r | 0 <= r < MAX_REQUIRED ensures words'[r / 32][r % 32] <==> SeenRequired(fs, seen + {i}, r) {
      hide SeenRequired;
      MarkOne(fs, seen, i, r);
    }
  }

  /** The final check over whole words and remaining bits. */
  method AllMarked(words: seq<Bits>, count: nat) returns (ok: bool)
    requires |words| == 2 && count <= MAX_REQUIRED
    requires forall r :: count <= r < MAX_REQUIRED ==> !words[r / 32][r % 32]
    ensures ok == forall r :: 0 <= r < count ==> words[r / 32][r % 32]
  {
    if count == 0 {
      return true;
    }
    for i := 0 to count / 32
      invariant forall r :: 0 <= r < 32 * i ==> words[r / 32][r % 32]
    {
      if words[i] != ALL_BITS {
        var r :| 0 <= r < 32 && !words[i][r];
        assert words[(32 * i + r) / 32][(32 * i + r) % 32] == words[i][r];
        return false;
      }
    }
    if count % 32 != 0 {
      ok := words[count / 32] == ShiftedRight(32 - count % 32);
      WordCheck(words, count);
    } else {
      ok := true;
    }
  }

  lemma WordCheck(words: seq<Bits>, count: nat)
    requires |words| == 2 && count < MAX_REQUIRED
    requires forall r :: count <= r < MAX_REQUIRED ==> !words[r / 32][r % 32]
    ensures words[count / 32] == ShiftedRight(32 - count % 32) <==>
            forall r :: 32 * (count / 32) <= r < count ==> words[r / 32][r % 32]
  {
    var q, w := count / 32, words[count / 32];
    forall k | 0 <= k < 32 ensures words[(32 * q + k) / 32][(32 * q + k) % 32] == w[k] {}
    if forall r :: 32 * q <= r < count ==> words[r / 32][r % 32] {
      forall k | 0 <= k < 32 ensures w[k] == ShiftedRight(32 - count % 32)[k] {
        assert words[(32 * q + k) / 32][(32 * q + k) % 32] == w[k];
      }
    } else {
      var r :| 32 * q <= r < count && !words[r / 32][r % 32];
      assert !w[r - 32 * q];
    }
  }

  lemma MarksDecide(words: seq<Bits>, fs: seq<Field>, seen: set<nat>, count: nat)
    requires Marks(words, fs, seen) && (forall i :: i in seen ==> i < |fs|)
    requires count == if RequiredBefore(fs, |fs|) > MAX_REQUIRED then MAX_REQUIRED else RequiredBefore(fs, |fs|)
    ensures |words| == 2 && forall r :: count <= r < MAX_REQUIRED ==> !words[r / 32][r % 32]
    ensures (forall r :: 0 <= r < count ==> words[r / 32][r % 32]) <==> AllRequiredSeen(fs, seen)
  {
    forall r | count <= r < MAX_REQUIRED ensures !SeenRequired(fs, seen, r) {
      if SeenRequired(fs, seen, r) {
        var i :| 0 <= i < |fs| && i in seen && fs[i].h.Required? && RequiredBefore(fs, i) == r;
        RequiredRises(fs, i, |fs|);
      }
    }
    if forall r :: 0 <= r < count ==> words[r / 32][r % 32] {
      forall i | 0 <= i < |fs| && fs[i].h.Required? && RequiredBefore(fs, i) < MAX_REQUIRED ensures i in seen {
        RequiredRises(fs, i, |fs|);
        var r := RequiredBefore(fs, i);
        assert SeenRequired(fs, seen, r);
        SameIndex(fs, seen, i, r);
      }
    }
    if AllRequiredSeen(fs, seen) {
      forall r | 0 <= r < count ensures SeenRequired(fs, seen, r) {
        var i := RequiredAt(fs, |fs|, r);
      }
    }
  }

  lemma SameIndex(fs: seq<Field>, seen: set<nat>, i: nat, r: nat)
    requires i < |fs| && fs[i].h.Required? && RequiredBefore(fs, i) == r && SeenRequired(fs, seen, r)
    ensures i in seen
  {
    var k :| 0 <= k < |fs| && k in seen && fs[k].h.Required? && RequiredBefore(fs, k) == r;
    if k < i { RequiredRises(fs, k, i); } else if i < k { RequiredRises(fs, i, k); }
  }

  // ---- Values ----

  /** pb_decode_tag. */
  method DecodeTag(s: IStream) returns (ok: bool, wireType: nat, tag: nat, eof: bool)
    requires s.Valid()
    modifies s
    ensures s.Valid() && s.End() == old(s.End())
    ensures var r := Varint32(old(s.Rest()));
            && ok == (r.Some? && r.value.0 != 0) && eof == (old(s.Rest()) == [] || (r.Some? && r.value.0 == 0))
            && (ok ==> r.value == (8 * tag + wireType, s.Rest()) && wireType < 8 && s.bytesLeft < old(s.bytesLeft))
  {
    hide Varint32;
    var temp;
    wireType, tag := 0, 0;
    ok, temp, eof := s.DecodeVarint32Eof();
    if !ok {
      return;
    }
    if temp == 0 {
      ok, eof := false, true;
      return;
    }
    tag, wireType := temp / 8, temp % 8;
  }

  method DecodeNumberFrom(s: IStream, l: LType) returns (ok: bool, v: Value)
    requires s.Valid() && Packable(l)
    modifies s
    ensures s.Valid() && s.End() == old(s.End()) && Read1(ok, v, s.Rest(), DecodeNumber(l, old(s.Rest())))
  {
    hide Varint32, Varint64, GetFixed, FromWord;
    var n, eof, b;
    v := Num(0);
    if l.Bool? {
      ok, n, eof := s.DecodeVarint32Eof();
      v := Num(if n != 0 then 1 else 0);
    } else if l.Fixed32? {
      ok, b := s.Read(4);
      v := Num(GetFixed(b));
    } else if l.Fixed64? {
      ok, b := s.Read(8);
      v := Num(GetFixed(b));
    } else {
      ok, n := s.DecodeVarint();
      if ok {
        var cut := FromWord(l, n);
        ok := cut.Some?;
        v := Num(if cut.Some? then cut.value else 0);
      }
    }
  }

  method DecodeDataFrom(s: IStream, l: LType) returns (ok: bool, v: Value)
    requires s.Valid() && (l.ByteArray? || l.Text? || l.FixedBytes?)
    modifies s
    ensures s.Valid() && s.End() == old(s.End()) && Read1(ok, v, s.Rest(), DecodeData(l, old(s.Rest())))
  {
    hide Varint32, UpToNul;
    var size, eof, b;
    v := Data([]);
    ok, size, eof := s.DecodeVarint32Eof();
    if !ok {
      return;
    }
    if (l.ByteArray? && size > l.cap) || (l.Text? && size + 1 > l.cap) {
      ok := false;
      return;
    }
    if l.FixedBytes? {
      if size == 0 {
        v := Data(Zeros(l.len));
        return;
      }
      if size != l.len {
        ok := false;
        return;
      }
    }
    ok, b := s.Read(size);
    v := Data(if l.Text? then UpToNul(b) else b);
  }

  /** Distinct tags in a descriptor and in those of its submessages. */
  ghost predicate DistinctAll(fs: seq<Field>)
    decreases fs
  {
    DistinctTags(fs) && forall i :: 0 <= i < |fs| ==> DistinctInside(fs[i])
  }

  ghost predicate DistinctInside(f: Field)
    decreases f
  {
    f.l.Submsg? ==> DistinctAll(f.l.fields)
  }

  /** PB_DECODERS on a value, in place of `was`. */
  method DecodeValueFrom(s: IStream, f: Field, was: Value) returns (ok: bool, v: Value)
    requires s.Valid() && DistinctInside(f)
    requires f.h.Repeated? ==> was == DefaultValue(f.l)
    modifies s
    ensures s.Valid() && s.End() == old(s.End()) && Read1(ok, v, s.Rest(), DecodeValue(f.l, old(s.Rest()), was))
    decreases s.bytesLeft, 2
  {
    hide DecodeNumber, DecodeData, Defaults;
    if Packable(f.l) {
      ok, v := DecodeNumberFrom(s, f.l);
    } else if !f.l.Submsg? {
      ok, v := DecodeDataFrom(s, f.l);
    } else {
      ok, v := DecodeSubmessage(s, f, was);
    }
  }

  /** pb_dec_submessage: array entries start from the defaults, other submessages from what is there. */
  method DecodeSubmessage(s: IStream, f: Field, was: Value) returns (ok: bool, v: Value)
    requires s.Valid() && f.l.Submsg? && DistinctInside(f)
    requires f.h.Repeated? ==> was == DefaultValue(f.l)
    modifies s
    ensures s.Valid() && s.End() == old(s.End()) && Read1(ok, v, s.Rest(), DecodeValue(f.l, old(s.Rest()), was))
    decreases s.bytesLeft, 1
  {
    hide DecodeNoInit, TakeString, Defaults;
    v := was;
    var sub;
    ghost var start := s.Rest();
    ok, sub := MakeStringSubstream(s);
    if !ok {
      return;
    }
    var slots := if f.h.Repeated? then Defaults(f.l.fields) else SlotsOf(f.l.fields, was);
    ok, slots := DecodeNoInitFrom(sub, f.l.fields, slots);
    CloseStringSubstream(s, sub);
    v := Msg(slots);
  }

  /** The packed branch of decode_static_field. */
  method DecodePackedFrom(s: IStream, l: LType, vs: seq<Value>, max: nat) returns (ok: bool, all: seq<Value>)
    requires s.Valid() && Packable(l)
    modifies s
    ensures s.Valid() && s.End() == old(s.End())
    ensures ok == DecodePacked(l, old(s.Rest()), vs, max).Some? && (ok ==> all == DecodePacked(l, old(s.Rest()), vs, max).value)
  {
    hide DecodeNumber;
    all, ok := vs, true;
    while s.bytesLeft > 0 && |all| < max
      invariant s.Valid() && s.End() == old(s.End()) && ok
      invariant DecodePacked(l, s.Rest(), all, max) == DecodePacked(l, old(s.Rest()), vs, max)
      decreases s.bytesLeft
    {
      var v;
      ok, v := DecodeNumberFrom(s, l);
      if !ok {
        break;
      }
      all := all + [v];
    }
    if s.bytesLeft != 0 {
      ok := false;
    }
  }

  /** decode_static_field. */
  method DecodeStaticField(s: IStream, fs: seq<Field>, i: nat, wireType: nat, slots: seq<Slot>) returns (ok: bool, slots': seq<Slot>)
    requires s.Valid() && i < |fs| == |slots| && DistinctInside(fs[i])
    modifies s
    ensures s.Valid() && s.End() == old(s.End()) && |slots'| == |fs|
    ensures Read1(ok, slots', s.Rest(), DecodeField(fs, i, wireType, old(s.Rest()), slots))
    decreases s.bytesLeft, 4
  {
    hide DecodeValue, DecodePacked, TakeString, DefaultValue, Store, DistinctInside;
    slots' := slots;
    var f, v, vs := fs[i], Num(0), [];
    if !f.h.Repeated? {
      ok, v := DecodeValueFrom(s, f, Content(f.l, slots[i]));
      if ok { slots' := Store(fs, i, slots, One(v)); }
      return;
    }
    if slots[i].Many? {
      vs := slots[i].vs;
    }
    if wireType == WT_STRING && Packable(f.l) {
      var sub;
      ok, sub := MakeStringSubstream(s);
      if !ok {
        return;
      }
      ok, vs := DecodePackedFrom(sub, f.l, vs, f.h.max);
      CloseStringSubstream(s, sub);
      if ok { slots' := Store(fs, i, slots, Many(vs)); }
    } else {
      if |vs| >= f.h.max {
        ok := false;
        return;
      }
      ok, v := DecodeValueFrom(s, f, DefaultValue(f.l));
      if ok { slots' := Store(fs, i, slots, Many(vs + [v])); }
    }
  }

  // ---- Messages ----

  lemma LoopUnfolds(fs: seq<Field>, s: Bytes, slots: seq<Slot>, seen: set<nat>)
    requires |slots| == |fs| && s != []
    ensures DecodeLoop(fs, s, slots, seen) == match Varint32(s)
      case None => None
      case Some(p) =>
        if p.0 == 0 then Some((slots, seen))
        else if IndexOf(fs, p.0 / 8) == |fs| then
          (match SkipField(p.0 % 8, p.1) case None => None case Some(rest) => DecodeLoop(fs, rest, slots, seen))
        else
          (match DecodeField(fs, IndexOf(fs, p.0 / 8), p.0 % 8, p.1, slots)
           case None => None
           case Some(q) => DecodeLoop(fs, q.1, q.0, seen + {IndexOf(fs, p.0 / 8)}))
  {
  }

  lemma LoopEnds(fs: seq<Field>, slots: seq<Slot>, seen: set<nat>)
    requires |slots| == |fs|
    ensures DecodeLoop(fs, [], slots, seen) == Some((slots, seen))
  {
  }

  lemma DistinctParts(fs: seq<Field>)
    requires DistinctAll(fs)
    ensures DistinctTags(fs) && forall i :: 0 <= i < |fs| ==> DistinctInside(fs[i])
  {
  }

  lemma NothingMarked(fs: seq<Field>)
    ensures Marks([NO_BITS, NO_BITS], fs, {})
  {
  }

  /** The check after the loop: count the required fields to the end of the descriptor, then look at their bits. */
  method CheckRequired(iter: FieldIter, words: seq<Bits>, ghost seen: set<nat>) returns (ok: bool)
    requires iter.Valid() && Marks(words, iter.fields, seen) && forall i :: i in seen ==> i < |iter.fields|
    modifies iter
    ensures ok == AllRequiredSeen(iter.fields, seen)
  {
    hide Marks, AllRequiredSeen;
    var fs := iter.fields;
    var count, lastRequired, more := 0, false, true;
    while more
      invariant iter.Valid() && (fs != [] ==> |fs| > iter.pos)
      invariant !more ==> count + (if lastRequired then 1 else 0) == RequiredBefore(fs, |fs|)
      decreases more, |fs| - iter.pos
    {
      count := iter.requiredFieldIndex;
      lastRequired := fs != [] && fs[iter.pos].h.Required?;
      more := iter.Next();
    }
    if lastRequired {
      count := count + 1;
    }
    if count > MAX_REQUIRED {
      count := MAX_REQUIRED;
    }
    MarksDecide(words, fs, seen, count);
    ok := AllMarked(words, count);
  }

  /** The seen set and the bitmap agree. */
  ghost predicate Tracks(words: seq<Bits>, fs: seq<Field>, seen: set<nat>) {
    Marks(words, fs, seen) && forall i :: i in seen ==> i < |fs|
  }

  /** One turn of the loop of pb_decode_noinit; `done` is a zero key. */
  method DecodeOne(s: IStream, iter: FieldIter, words: seq<Bits>, slots: seq<Slot>, ghost seen: set<nat>)
      returns (ok: bool, done: bool, words': seq<Bits>, slots': seq<Slot>, ghost seen': set<nat>)
    requires s.Valid() && s.bytesLeft > 0 && iter.Valid() && |slots| == |iter.fields|
    requires DistinctAll(iter.fields) && Tracks(words, iter.fields, seen)
    modifies s, iter
    ensures s.Valid() && s.End() == old(s.End()) && (ok && !done ==> s.bytesLeft < old(s.bytesLeft))
    ensures iter.Valid() && |slots'| == |iter.fields| && Tracks(words', iter.fields, seen')
    ensures DecodeLoop(iter.fields, old(s.Rest()), slots, seen) ==
            if !ok then None else if done then Some((slots', seen')) else DecodeLoop(iter.fields, s.Rest(), slots', seen')
    decreases s.bytesLeft, 5
  {
    hide DecodeLoop, DecodeField, SkipField, DistinctAll, DistinctInside, Tracks, IndexOf;
    var fs := iter.fields;
    DistinctParts(fs);
    LoopUnfolds(fs, s.Rest(), slots, seen);
    words', slots', seen', done := words, slots, seen, false;
    var wireType, tag, found;
    ok, wireType, tag, done := DecodeTag(s);
    if !ok {
      ok := done;
      return;
    }
    found := iter.Find(tag);
    if !found {
      ok := Skip(s, wireType);
      return;
    }
    TracksParts(words, fs, seen);
    words' := Mark(words, fs, iter.pos, iter.requiredFieldIndex, seen);
    seen' := seen + {iter.pos};
    TracksWhole(words', fs, seen');
    ok, slots' := DecodeStaticField(s, fs, iter.pos, wireType, slots);
  }

  lemma TracksParts(words: seq<Bits>, fs: seq<Field>, seen: set<nat>)
    requires Tracks(words, fs, seen)
    ensures Marks(words, fs, seen) && forall i :: i in seen ==> i < |fs|
  {
  }

  lemma TracksWhole(words: seq<Bits>, fs: seq<Field>, seen: set<nat>)
    requires Marks(words, fs, seen) && forall i :: i in seen ==> i < |fs|
    ensures Tracks(words, fs, seen)
  {
  }

  /** pb_decode_noinit. */
  method DecodeNoInitFrom(s: IStream, fs: seq<Field>, slots: seq<Slot>) returns (ok: bool, slots': seq<Slot>)
    requires s.Valid() && |slots| == |fs| && DistinctAll(fs)
    modifies s
    ensures s.Valid() && s.End() == old(s.End()) && |slots'| == |fs|
    ensures ok == DecodeNoInit(fs, old(s.Rest()), slots).Some?
    ensures ok ==> slots' == DecodeNoInit(fs, old(s.Rest()), slots).value
    decreases s.bytesLeft, 6
  {
    hide DecodeLoop, DistinctAll, Tracks, Marks, AllRequiredSeen;
    ghost var loop, seen: set<nat> := DecodeLoop(fs, s.Rest(), slots, {}), {};
    var fieldsSeen: seq<Bits> := [NO_BITS, NO_BITS];
    NothingMarked(fs);
    TracksWhole(fieldsSeen, fs, {});
    var iter := new FieldIter(fs);
    slots' := slots;
    while s.bytesLeft > 0
      invariant s.Valid() && s.End() == old(s.End()) && |slots'| == |fs| && s.bytesLeft <= old(s.bytesLeft)
      invariant fresh(iter) && iter.fields == fs && iter.Valid() && Tracks(fieldsSeen, fs, seen)
      invariant loop == DecodeLoop(fs, s.Rest(), slots', seen)
      decreases s.bytesLeft
    {
      var done;
      ok, done, fieldsSeen, slots', seen := DecodeOne(s, iter, fieldsSeen, slots', seen);
      if !ok {
        return;
      }
      if done {
        break;
      }
    }
    LoopEnds(fs, slots', seen);
    assert s.bytesLeft == 0 ==> s.Rest() == [];
    assert loop == Some((slots', seen));
    TracksParts(fieldsSeen, fs, seen);
    ok := CheckRequired(iter, fieldsSeen, seen);
  }

  /** pb_decode. */
  method DecodeMessage(data: Bytes, fs: seq<Field>) returns (ok: bool, slots: seq<Slot>)
    requires DistinctAll(fs)
    ensures ok == Decode(fs, data).Some? && (ok ==> slots == Decode(fs, data).value)
  {
    hide DecodeNoInit;
    var s := new IStream(data, 0, |data|);
    assert s.Rest() == data;
    ok, slots := DecodeNoInitFrom(s, fs, Defaults(fs));
  }
}
