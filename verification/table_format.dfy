/** Block handles, the footer, and blocks with their trailers in a table file (table/format.cc). */
module TableFormat {
  import opened Bytestrings
  import opened Coding
  import opened Crc32c

  datatype Handle = Handle(offset: nat, size: nat)

  function EncodeHandle(h: Handle): Bytes {
    PutVarint(h.offset) + PutVarint(h.size)
  }

  function DecodeHandle(s: Bytes): Option<(Handle, Bytes)> {
    match GetVarint64(s)
    case None => None
    case Some(x) =>
      match GetVarint64(x.1)
      case None => None
      case Some(y) => Some((Handle(x.0, y.0), y.1))
  }

  predicate Narrow(h: Handle) {
    h.offset < TWO64 && h.size < TWO64
  }

  lemma HandleRoundTrip(h: Handle, rest: Bytes)
    requires Narrow(h)
    ensures DecodeHandle(EncodeHandle(h) + rest) == Some((h, rest)) && |EncodeHandle(h)| <= 20
  {
    hide GetVarint64, PutVarint;
    Varint64RoundTrip(h.offset, PutVarint(h.size) + rest);
    Varint64RoundTrip(h.size, rest);
    assert EncodeHandle(h) + rest == PutVarint(h.offset) + (PutVarint(h.size) + rest);
  }

  const FOOTER: nat := 48
  const MAGIC_LO: nat := 0x8b80_fb57
  const MAGIC_HI: nat := 0xdb47_7524

  /** Two handles padded to forty bytes, and the magic number. */
  function EncodeFooter(meta: Handle, index: Handle): Bytes {
    var hs := EncodeHandle(meta) + EncodeHandle(index);
    (if |hs| <= 40 then hs + Zeros(40 - |hs|) else hs[..40]) + (PutFixed(4, MAGIC_LO) + PutFixed(4, MAGIC_HI))
  }

  function DecodeFooter(s: Bytes): Option<(Handle, Handle)>
    requires |s| == FOOTER
  {
    if GetFixed(s[40..44]) != MAGIC_LO || GetFixed(s[44..48]) != MAGIC_HI then None
    else
      match DecodeHandle(s)
      case None => None
      case Some(x) =>
        match DecodeHandle(x.1)
        case None => None
        case Some(y) => Some((x.0, y.0))
  }

  lemma FooterRoundTrip(meta: Handle, index: Handle)
    requires Narrow(meta) && Narrow(index)
    ensures |EncodeFooter(meta, index)| == FOOTER && DecodeFooter(EncodeFooter(meta, index)) == Some((meta, index))
  {
    hide EncodeHandle, DecodeHandle, PutFixed, GetFixed;
    var a, b := EncodeHandle(meta), EncodeHandle(index);
    HandleRoundTrip(meta, []);
    HandleRoundTrip(index, []);
    var tail := PutFixed(4, MAGIC_LO) + PutFixed(4, MAGIC_HI);
    var rest := Zeros(40 - |a + b|) + tail;
    var s := EncodeFooter(meta, index);
    assert s == a + (b + rest);
    HandleRoundTrip(meta, b + rest);
    HandleRoundTrip(index, rest);
    assert s[40..] == tail && s[40..44] == PutFixed(4, MAGIC_LO) && s[44..48] == PutFixed(4, MAGIC_HI);
    PowersOf256();
    FixedRoundTrip(4, MAGIC_LO);
    FixedRoundTrip(4, MAGIC_HI);
  }

  /** Nothing is taken for a footer but what ends in the magic number 0xdb4775248b80fb57. */
  lemma FooterHasMagic(s: Bytes)
    requires |s| == FOOTER && DecodeFooter(s).Some?
    ensures s[40..] == [0x57, 0xfb, 0x80, 0x8b, 0x24, 0x75, 0x47, 0xdb]
  {
    hide GetFixed, DecodeHandle, PutFixed;
    PutOfGet(s[40..44]);
    PutOfGet(s[44..48]);
    FourBytes(MAGIC_LO);
    FourBytes(MAGIC_HI);
    assert s[40..] == s[40..44] + s[44..48];
  }

  lemma FourBytes(v: nat)
    requires v < TWO32
    ensures PutFixed(4, v) == [v % 256, v / 0x100 % 256, v / 0x1_0000 % 256, v / 0x100_0000]
  {
    assert PutFixed(4, v) == [v % 256] + PutFixed(3, v / 256);
    assert PutFixed(3, v / 256) == [v / 256 % 256] + PutFixed(2, v / 256 / 256);
    assert PutFixed(2, v / 256 / 256) == [v / 256 / 256 % 256] + PutFixed(1, v / 256 / 256 / 256);
    assert PutFixed(1, v / 256 / 256 / 256) == [v / 256 / 256 / 256 % 256] + PutFixed(0, v / 256 / 256 / 256 / 256);
  }

  const TRAILER: nat := 5

  /** A block as stored: its bytes, the type of an uncompressed block, and the masked checksum of both. */
  function Stored(crc: Crc, contents: Bytes): (s: Bytes)
    ensures |s| == |contents| + TRAILER
  {
    contents + ([0] + PutFixed(4, Mask(crc(contents + [0]))))
  }

  /** ReadBlock for uncompressed blocks: None when the file is too short, the checksum is wrong, or the type is another. */
  function ReadBlock(crc: Crc, verify: bool, file: Bytes, h: Handle): Option<Bytes> {
    var end := h.offset + h.size;
    if end + TRAILER > |file| then None
    else if verify && !Checks(crc, file[h.offset..end + 1], file[end + 1..end + TRAILER]) then None
    else if file[end] == 0 then Some(file[h.offset..end])
    else None
  }

  predicate Checks(crc: Crc, data: Bytes, sum: Bytes) {
    GetFixed(sum) < TWO32 && Unmask(GetFixed(sum)) == crc(data)
  }

  /** The contents of a handle's extent. */
  ghost predicate LiesAt(crc: Crc, file: Bytes, h: Handle, contents: Bytes) {
    && h.size == |contents| && h.offset + h.size + TRAILER <= |file|
    && file[h.offset..h.offset + h.size + TRAILER] == Stored(crc, contents)
  }

  /** What was stored is read back, checked or not. */
  lemma StoredIsRead(crc: Crc, verify: bool, file: Bytes, h: Handle, contents: Bytes)
    requires LiesAt(crc, file, h, contents)
    ensures ReadBlock(crc, verify, file, h) == Some(contents)
  {
    hide PutFixed, GetFixed, Mask, Unmask;
    var end, sum := h.offset + h.size, PutFixed(4, Mask(crc(contents + [0])));
    var s := file[h.offset..end + TRAILER];
    assert s[..h.size] == contents && s[h.size] == 0 && s[h.size + 1..] == sum;
    assert file[h.offset..end] == s[..h.size];
    assert file[h.offset..end + 1] == s[..h.size + 1] == contents + [0];
    assert file[end + 1..end + TRAILER] == s[h.size + 1..];
    PowersOf256();
    FixedRoundTrip(4, Mask(crc(contents + [0])));
    UnmaskOfMask(crc(contents + [0]));
  }

  /** With verification a block is read exactly if its extent holds, byte for byte, what storing it writes. */
  lemma VerifiedIsStored(crc: Crc, file: Bytes, h: Handle, contents: Bytes)
    ensures ReadBlock(crc, true, file, h) == Some(contents) <==> LiesAt(crc, file, h, contents)
  {
    hide PutFixed, GetFixed, Mask, Unmask;
    var end := h.offset + h.size;
    if LiesAt(crc, file, h, contents) { StoredIsRead(crc, true, file, h, contents); }
    if ReadBlock(crc, true, file, h) == Some(contents) {
      var sum := file[end + 1..end + TRAILER];
      assert file[h.offset..end + 1] == contents + [0];
      PowersOf256();
      PutOfGet(sum);
      MaskOfUnmask(GetFixed(sum));
      assert file[h.offset..end + TRAILER] == contents + ([0] + sum);
    }
  }

  lemma StaysAt(crc: Crc, file: Bytes, more: Bytes, h: Handle, contents: Bytes)
    requires LiesAt(crc, file, h, contents)
    ensures LiesAt(crc, file + more, h, contents)
  {
    hide Stored;
    assert (file + more)[h.offset..h.offset + h.size + TRAILER] == file[h.offset..h.offset + h.size + TRAILER];
  }

  lemma NewLiesAt(crc: Crc, file: Bytes, contents: Bytes)
    ensures LiesAt(crc, file + Stored(crc, contents), Handle(|file|, |contents|), contents)
  {
    hide Stored;
    assert (file + Stored(crc, contents))[|file|..] == Stored(crc, contents);
  }
}
