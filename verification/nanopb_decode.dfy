/** What the decoder makes of a byte string (pb_decode.c), as functions on the bytes left in the stream. */
module NanopbDecode {
  import opened Bytestrings
  import opened Coding
  import opened NanopbVarint
  import opened NanopbSchema

  /** pb_skip_varint: any number of bytes. */
  function SkipVarint(s: Bytes): (r: Option<Bytes>)
    ensures r.Some? ==> |r.value| < |s|
  {
    if s == [] then None else if s[0] < 128 then Some(s[1..]) else SkipVarint(s[1..])
  }

  function Take(s: Bytes, n: nat): (r: Option<(Bytes, Bytes)>)
    ensures r.Some? ==> |r.value.0| == n && |r.value.1| + n == |s|
  {
    if |s| < n then None else Some((s[..n], s[n..]))
  }

  /** A length and that many bytes: the substream, and what follows it. */
  function TakeString(s: Bytes): (r: Option<(Bytes, Bytes)>)
    ensures r.Some? ==> |r.value.0| + |r.value.1| < |s|
  {
    match Varint32(s)
    case None => None
    case Some(p) => Take(p.1, p.0)
  }

  /** pb_skip_field. */
  function SkipField(wireType: nat, s: Bytes): (r: Option<Bytes>)
    ensures r.Some? ==> |r.value| <= |s|
  {
    if wireType == WT_VARINT then SkipVarint(s)
    else if wireType == WT_64BIT then (match Take(s, 8) case None => None case Some(p) => Some(p.1))
    else if wireType == WT_STRING then (match TakeString(s) case None => None case Some(p) => Some(p.1))
    else if wireType == WT_32BIT then (match Take(s, 4) case None => None case Some(p) => Some(p.1))
    else None
  }

  /** A word cut to `size` bytes and read as a signed number. */
  function SignedCut(w: int, size: nat): int
    requires size in {1, 2, 4, 8}
  {
    var limit := SignedLimit(size);
    var low := w % (2 * limit);
    if low < limit then low else low - 2 * limit
  }

  /** pb_dec_bool, pb_dec_varint, pb_dec_uvarint, pb_dec_svarint on the word read; other sizes fail. */
  function FromWord(l: LType, w: nat): Option<int>
    requires w < TWO64
  {
    match l
    case Int(size) =>
      if size !in {1, 2, 4, 8} then None
      else
        var svalue := SignedCut(w, if size == 8 then 8 else 4);
        if SignedCut(svalue, size) == svalue then Some(svalue) else None
    case UInt(size) => if size in {1, 2, 4, 8} && w < 2 * SignedLimit(size) then Some(w) else None
    case SInt(size) =>
      if size in {1, 2, 4, 8} && SignedCut(UnZigZag(w), size) == UnZigZag(w) then Some(UnZigZag(w)) else None
    case _ => None
  }

  function DecodeNumber(l: LType, s: Bytes): (r: Option<(Value, Bytes)>)
    ensures r.Some? ==> |r.value.1| < |s|
  {
    match l
    case Bool => (match Varint32(s) case None => None case Some(p) => Some((Num(if p.0 != 0 then 1 else 0), p.1)))
    case Fixed32 => (match Take(s, 4) case None => None case Some(p) => Some((Num(GetFixed(p.0)), p.1)))
    case Fixed64 => (match Take(s, 8) case None => None case Some(p) => Some((Num(GetFixed(p.0)), p.1)))
    case _ =>
      match Varint64(s)
      case None => None
      case Some(p) => (match FromWord(l, p.0) case None => None case Some(n) => Some((Num(n), p.1)))
  }

  /** The string a buffer holds: what comes before the first terminator. */
  function UpToNul(b: Bytes): Bytes {
    if b == [] || b[0] == NUL then [] else [b[0]] + UpToNul(b[1..])
  }

  /** pb_dec_bytes, pb_dec_string, pb_dec_fixed_length_bytes. */
  function DecodeData(l: LType, s: Bytes): (r: Option<(Value, Bytes)>)
    ensures r.Some? ==> |r.value.1| < |s|
  {
    match Varint32(s)
    case None => None
    case Some(p) =>
      match l
      case ByteArray(cap) => if p.0 > cap || |p.1| < p.0 then None else Some((Data(p.1[..p.0]), p.1[p.0..]))
      case Text(cap) => if p.0 + 1 > cap || |p.1| < p.0 then None else Some((Data(UpToNul(p.1[..p.0])), p.1[p.0..]))
      case FixedBytes(len) =>
        if p.0 == 0 then Some((Data(Zeros(len)), p.1))
        else if p.0 != len || |p.1| < len then None else Some((Data(p.1[..len]), p.1[len..]))
      case _ => None
  }

  /** pb_field_iter_find: the first field of the tag, or the number of fields. */
  function IndexOf(fs: seq<Field>, tag: nat): (i: nat)
    ensures i <= |fs| && (i < |fs| ==> fs[i].tag == tag) && (forall j :: 0 <= j < i ==> fs[j].tag != tag)
  {
    if fs == [] || fs[0].tag == tag then 0
    else
      var i := IndexOf(fs[1..], tag);
      assert forall j :: 0 < j <= i && j < |fs| ==> fs[j] == fs[1..][j - 1];
      i + 1
  }

  /** A value on the way in: what the field's memory holds already, if it counts. */
  function Content(l: LType, slot: Slot): Value {
    if slot.One? then slot.v else DefaultValue(l)
  }

  function SlotsOf(fs: seq<Field>, v: Value): (s: seq<Slot>)
    ensures |s| == |fs|
  {
    if v.Msg? && |v.slots| == |fs| then v.slots else Defaults(fs)
  }

  /** PB_DECODERS: a submessage is decoded into what is there, everything else replaces it. */
  function DecodeValue(l: LType, s: Bytes, was: Value): (r: Option<(Value, Bytes)>)
    ensures r.Some? ==> |r.value.1| < |s|
    decreases |s|, 2
  {
    if Packable(l) then DecodeNumber(l, s)
    else if !l.Submsg? then DecodeData(l, s)
    else
      match TakeString(s)
      case None => None
      case Some(p) =>
        match DecodeNoInit(l.fields, p.0, SlotsOf(l.fields, was))
        case None => None
        case Some(slots) => Some((Msg(slots), p.1))
  }

  /** A packed array: items until the substream ends; items that do not fit the array fail. */
  function DecodePacked(l: LType, s: Bytes, vs: seq<Value>, max: nat): Option<seq<Value>>
    decreases |s|, 3
  {
    if s == [] then Some(vs)
    else if |vs| >= max then None
    else
      match DecodeValue(l, s, DefaultValue(l))
      case None => None
      case Some(p) => DecodePacked(l, p.1, vs + [p.0], max)
  }

  /** Setting one field of a oneof clears the others of its union. */
  function Store(fs: seq<Field>, i: nat, slots: seq<Slot>, slot: Slot): (r: seq<Slot>)
    requires i < |fs| == |slots|
    ensures |r| == |fs| && r[i] == slot
    ensures forall j :: 0 <= j < |fs| && j != i ==> r[j] == if fs[i].h.Oneof? && fs[j].h == fs[i].h then Absent else slots[j]
  {
    seq(|fs|, j requires 0 <= j < |fs| =>
      if j == i then slot else if fs[i].h.Oneof? && fs[j].h == fs[i].h then Absent else slots[j])
  }

  /** decode_static_field. */
  function DecodeField(fs: seq<Field>, i: nat, wireType: nat, s: Bytes, slots: seq<Slot>): (r: Option<(seq<Slot>, Bytes)>)
    requires i < |fs| == |slots|
    ensures r.Some? ==> |r.value.0| == |fs| && |r.value.1| <= |s|
    decreases |s|, 4
  {
    var f := fs[i];
    if !f.h.Repeated? then
      match DecodeValue(f.l, s, Content(f.l, slots[i]))
      case None => None
      case Some(p) => Some((Store(fs, i, slots, One(p.0)), p.1))
    else
      var vs := if slots[i].Many? then slots[i].vs else [];
      if wireType == WT_STRING && Packable(f.l) then
        match TakeString(s)
        case None => None
        case Some(p) =>
          match DecodePacked(f.l, p.0, vs, f.h.max)
          case None => None
          case Some(all) => Some((Store(fs, i, slots, Many(all)), p.1))
      else if |vs| >= f.h.max then None
      else
        match DecodeValue(f.l, s, DefaultValue(f.l))
        case None => None
        case Some(p) => Some((Store(fs, i, slots, Many(vs + [p.0])), p.1))
  }

  /** The loop of pb_decode_noinit; `seen` collects the fields met. A zero key ends the message. */
  function DecodeLoop(fs: seq<Field>, s: Bytes, slots: seq<Slot>, seen: set<nat>): (r: Option<(seq<Slot>, set<nat>)>)
    requires |slots| == |fs|
    ensures r.Some? ==> |r.value.0| == |fs|
    decreases |s|, 0
  {
    if s == [] then Some((slots, seen))
    else
      match Varint32(s)
      case None => None
      case Some(p) =>
        if p.0 == 0 then Some((slots, seen))
        else
          var i := IndexOf(fs, p.0 / 8);
          if i == |fs| then
            match SkipField(p.0 % 8, p.1)
            case None => None
            case Some(rest) => DecodeLoop(fs, rest, slots, seen)
          else
            match DecodeField(fs, i, p.0 % 8, p.1, slots)
            case None => None
            case Some(q) => DecodeLoop(fs, q.1, q.0, seen + {i})
  }

  const MAX_REQUIRED: nat := 64

  /** The number of required fields before field i. */
  function RequiredBefore(fs: seq<Field>, i: nat): (n: nat)
    requires i <= |fs|
    ensures n <= i
  {
    if i == 0 then 0 else RequiredBefore(fs, i - 1) + if fs[i - 1].h.Required? then 1 else 0
  }

  /** Only the first 64 required fields are checked. */
  predicate AllRequiredSeen(fs: seq<Field>, seen: set<nat>) {
    forall i :: 0 <= i < |fs| && fs[i].h.Required? && RequiredBefore(fs, i) < MAX_REQUIRED ==> i in seen
  }

  /** pb_decode_noinit. */
  function DecodeNoInit(fs: seq<Field>, s: Bytes, slots: seq<Slot>): (r: Option<seq<Slot>>)
    requires |slots| == |fs|
    ensures r.Some? ==> |r.value| == |fs|
    decreases |s|, 1
  {
    match DecodeLoop(fs, s, slots, {})
    case None => None
    case Some(p) => if AllRequiredSeen(fs, p.1) then Some(p.0) else None
  }

  /** pb_decode. */
  function Decode(fs: seq<Field>, s: Bytes): Option<seq<Slot>> {
    DecodeNoInit(fs, s, Defaults(fs))
  }
}
