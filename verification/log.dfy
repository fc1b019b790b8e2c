/** The log format: fragments in 32 KiB blocks, their writer and their reader (log_writer.cc, log_reader.cc). */
module Log {
  import opened Bytestrings
  import opened Coding
  import opened Crc32c

  const BLOCK: nat := 32768
  const HEADER: nat := 7

  const FULL: byte := 1
  const FIRST: byte := 2
  const MIDDLE: byte := 3
  const LAST: byte := 4
  const END_OF_FILE: byte := 5
  const BAD: byte := 6

  // ---- Layout ----

  function BlockEnd(pos: nat): nat {
    pos - pos % BLOCK + BLOCK
  }

  lemma BlockEndGrows(a: nat, b: nat)
    requires a <= b
    ensures BlockEnd(a) <= BlockEnd(b) && b < BlockEnd(b)
  {
  }

  /** Where the next header goes: a block's last bytes are left unused when no header fits. */
  function Start(pos: nat): (r: nat)
    ensures pos <= r < pos + HEADER && r % BLOCK + HEADER <= BLOCK
  {
    if BlockEnd(pos) - pos < HEADER then BlockEnd(pos) else pos
  }

  /** The payload bytes that fit after that header. */
  function Room(pos: nat): nat {
    BLOCK - Start(pos) % BLOCK - HEADER
  }

  function Fragment(crc: Crc, kind: byte, data: Bytes): (s: Bytes)
    requires |data| < 0x1_0000
    ensures |s| == HEADER + |data|
  {
    PutFixed(4, Mask(crc([kind] + data))) + [|data| % 256, |data| / 256, kind] + data
  }

  function KindOf(begin: bool, end: bool): byte {
    if begin && end then FULL else if begin then FIRST else if end then LAST else MIDDLE
  }

  function FirstPiece(pos: nat, data: Bytes): (n: nat)
    ensures n <= |data| && n <= Room(pos)
  {
    if |data| < Room(pos) then |data| else Room(pos)
  }

  function Piece(crc: Crc, pos: nat, data: Bytes, begin: bool): (s: Bytes)
    ensures |s| == Start(pos) - pos + HEADER + FirstPiece(pos, data)
  {
    var n := FirstPiece(pos, data);
    Zeros(Start(pos) - pos) + Fragment(crc, KindOf(begin, n == |data|), data[..n])
  }

  function PieceEnd(pos: nat, data: Bytes): nat {
    Start(pos) + HEADER + FirstPiece(pos, data)
  }

  /** A header that ends its block leaves no room, but then the next one has some. */
  function Stuck(pos: nat): nat {
    if Room(pos) == 0 then 1 else 0
  }

  lemma PieceShrinks(pos: nat, data: Bytes)
    requires FirstPiece(pos, data) < |data|
    ensures FirstPiece(pos, data) > 0 || Stuck(PieceEnd(pos, data)) < Stuck(pos)
  {
  }

  /** What a record adds to a log of `pos` bytes. */
  function Emit(crc: Crc, pos: nat, data: Bytes, begin: bool): (s: Bytes)
    ensures |s| >= HEADER
    decreases |data|, Stuck(pos)
  {
    var n := FirstPiece(pos, data);
    if n == |data| then Piece(crc, pos, data, begin)
    else
      PieceShrinks(pos, data);
      Piece(crc, pos, data, begin) + Emit(crc, PieceEnd(pos, data), data[n..], false)
  }

  lemma EmitUnfolds(crc: Crc, pos: nat, data: Bytes, begin: bool)
    ensures |Piece(crc, pos, data, begin)| == PieceEnd(pos, data) - pos
    ensures Emit(crc, pos, data, begin) == Piece(crc, pos, data, begin) + if FirstPiece(pos, data) == |data| then [] else
              Emit(crc, PieceEnd(pos, data), data[FirstPiece(pos, data)..], false)
    ensures FirstPiece(pos, data) in {0, |data|} || 0 < FirstPiece(pos, data) < |data|
    ensures FirstPiece(pos, data) == 0 < |data| ==> Stuck(PieceEnd(pos, data)) < Stuck(pos)
  {
    if FirstPiece(pos, data) < |data| { PieceShrinks(pos, data); }
  }

  /** The whole log of some records. */
  function Stream(crc: Crc, recs: seq<Bytes>): Bytes {
    if recs == [] then []
    else
      var init := Stream(crc, recs[..|recs| - 1]);
      init + Emit(crc, |init|, recs[|recs| - 1], true)
  }

  // ---- Writer ----

  lemma OffsetIsStart(pos: nat, offset: nat)
    requires offset <= BLOCK && offset % BLOCK == pos % BLOCK
    ensures BLOCK - offset < HEADER ==> Start(pos) == pos + BLOCK - offset && Room(pos) == BLOCK - HEADER
    ensures BLOCK - offset < HEADER ==> (pos + BLOCK - offset) % BLOCK == 0
    ensures BLOCK - offset >= HEADER ==> Start(pos) == pos && Room(pos) == BLOCK - offset - HEADER
  {
    var q, r := pos / BLOCK, pos % BLOCK;
    assert pos == BLOCK * q + r;
    assert offset == r || (offset == BLOCK && r == 0);
  }

  lemma OffsetMoves(pos: nat, offset: nat, n: nat)
    requires offset % BLOCK == pos % BLOCK && offset + HEADER + n <= BLOCK
    ensures (offset + HEADER + n) % BLOCK == (pos + HEADER + n) % BLOCK
  {
  }

  class Writer {
    const crc: Crc
    var dest: Bytes
    var blockOffset: nat

    ghost predicate Valid()
      reads this
    {
      blockOffset <= BLOCK && blockOffset % BLOCK == |dest| % BLOCK
    }

    /** A writer on a file that already holds `contents`. */
    constructor (crc: Crc, contents: Bytes)
      ensures Valid() && dest == contents && this.crc == crc
    {
      this.crc := crc;
      dest := contents;
      blockOffset := |contents| % BLOCK;
    }

    method EmitPhysicalRecord(kind: byte, data: Bytes)
      requires blockOffset + HEADER + |data| <= BLOCK
      modifies this
      ensures dest == old(dest) + Fragment(crc, kind, data) && blockOffset == old(blockOffset) + HEADER + |data|
    {
      var header := PutFixed(4, Mask(crc([kind] + data))) + [|data| % 256, |data| / 256, kind];
      dest := dest + header;
      dest := dest + data;
      blockOffset := blockOffset + HEADER + |data|;
    }

    method SkipTrailer()
      requires Valid()
      modifies this
      ensures dest == old(dest) + Zeros(Start(old(|dest|)) - old(|dest|))
      ensures Valid() && blockOffset + HEADER <= BLOCK && Room(old(|dest|)) == BLOCK - blockOffset - HEADER
    {
      hide Start, Room;
      OffsetIsStart(|dest|, blockOffset);
      assert dest + Zeros(0) == dest;
      var leftover := BLOCK - blockOffset;
      if leftover < HEADER {
        if leftover > 0 {
          dest := dest + Zeros(leftover);
        }
        blockOffset := 0;
      }
    }

    method AddPiece(data: Bytes, begin: bool) returns (n: nat)
      requires Valid()
      modifies this
      ensures Valid() && n == FirstPiece(|old(dest)|, data)
      ensures dest == old(dest) + Piece(crc, |old(dest)|, data, begin)
    {
      hide Start, Room, Zeros, Fragment, KindOf;
      SkipTrailer();
      var avail := BLOCK - blockOffset - HEADER;
      n := if |data| < avail then |data| else avail;
      OffsetMoves(|dest|, blockOffset, n);
      EmitPhysicalRecord(KindOf(begin, n == |data|), data[..n]);
    }

    method AddRecord(record: Bytes)
      requires Valid()
      modifies this
      ensures Valid() && dest == old(dest) + Emit(crc, |old(dest)|, record, true)
    {
      hide Emit, Piece, PieceEnd, FirstPiece, Room, Start;
      var ptr, begin, more := 0, true, true;
      while more
        invariant Valid() && ptr <= |record|
        invariant dest + (if more then Emit(crc, |dest|, record[ptr..], begin) else []) ==
                  old(dest) + Emit(crc, |old(dest)|, record, true)
        decreases more, |record| - ptr, Stuck(|dest|)
      {
        EmitUnfolds(crc, |dest|, record[ptr..], begin);
        var n := AddPiece(record[ptr..], begin);
        assert record[ptr..][n..] == record[ptr + n..];
        ptr, begin := ptr + n, false;
        more := ptr < |record|;
      }
    }
  }

  // ---- What is at a position of a file ----

  datatype Phys = Phys(kind: nat, data: Bytes, next: nat, drops: seq<nat>)

  /** The first physical record of a buffer; `next` counts from its start. A buffer is full unless the file ends in it. */
  function ParseBuffer(crc: Crc, b: Bytes, full: bool): (p: Phys)
    requires |b| >= HEADER
    ensures p.next <= |b|
    ensures p.kind != END_OF_FILE ==> 0 < p.next
  {
    var length, kind := b[4] as nat + 256 * b[5] as nat, b[6];
    if HEADER + length > |b| then if full then Phys(BAD, [], |b|, [|b|]) else Phys(END_OF_FILE, [], |b|, [])
    else if kind == 0 && length == 0 then Phys(BAD, [], |b|, [])
    else if Unmask(GetWord(b[..4])) != crc(b[6..HEADER + length]) then Phys(BAD, [], |b|, [|b|])
    else Phys(kind, b[HEADER..HEADER + length], HEADER + length, [])
  }

  /** The physical record a reader standing at `pos` meets. */
  function Physical(crc: Crc, f: Bytes, pos: nat): (p: Phys)
    requires pos <= |f|
    ensures pos <= p.next <= |f|
    ensures p.kind != END_OF_FILE ==> pos < p.next
    decreases |f| - pos
  {
    var full := BlockEnd(pos) <= |f|;
    var end := if full then BlockEnd(pos) else |f|;
    if end - pos < HEADER then
      if full then Physical(crc, f, end) else Phys(END_OF_FILE, [], |f|, [])
    else
      var p := ParseBuffer(crc, f[pos..end], full);
      p.(next := pos + p.next)
  }

  lemma BlockEndOf(end: nat)
    ensures end % BLOCK == 0 ==> BlockEnd(end) == end + BLOCK && (end + BLOCK) % BLOCK == 0
  {
  }

  lemma SkipsTrailer(crc: Crc, f: Bytes, pos: nat, end: nat)
    requires pos <= end <= |f| && end - pos < HEADER && end % BLOCK == 0
    ensures Physical(crc, f, pos) == Physical(crc, f, end)
  {
    hide ParseBuffer;
    assert pos == end || BlockEnd(pos) == end;
  }

  function GetWord(s: Bytes): Word
    requires |s| == 4
  {
    PowersOf256();
    GetFixedBound(s);
    GetFixed(s)
  }

  datatype Logical = Logical(found: bool, record: Bytes, next: nat, drops: seq<nat>)

  function Partial(partial: Option<Bytes>): Bytes {
    if partial.Some? then partial.value else []
  }

  function DropOf(bytes: Bytes): seq<nat> {
    if bytes == [] then [] else [|bytes|]
  }

  /** The record assembled from `pos` on; `partial` is what an unfinished fragmented record has so far. */
  function Assemble(crc: Crc, f: Bytes, pos: nat, partial: Option<Bytes>): (r: Logical)
    requires pos <= |f|
    ensures pos <= r.next <= |f| && (r.found ==> pos < r.next)
    decreases |f| - pos
  {
    var p := Physical(crc, f, pos);
    if p.kind == FULL then Logical(true, p.data, p.next, p.drops + DropOf(Partial(partial)))
    else if p.kind == LAST && partial.Some? then Logical(true, partial.value + p.data, p.next, p.drops)
    else if p.kind == END_OF_FILE then Logical(false, [], p.next, p.drops)
    else
      var (drops, rest) := AssembleStep(p, partial);
      var r := Assemble(crc, f, p.next, rest);
      r.(drops := p.drops + drops + r.drops)
  }

  /** The effect of a physical record that does not end the assembly. */
  function AssembleStep(p: Phys, partial: Option<Bytes>): (seq<nat>, Option<Bytes>) {
    if p.kind == FIRST then (DropOf(Partial(partial)), Some(p.data))
    else if p.kind == MIDDLE || p.kind == LAST then
      if partial.Some? then ([], Some(partial.value + p.data)) else ([|p.data|], None)
    else if p.kind == BAD then (if partial.Some? then [|partial.value|] else [], None)
    else ([|p.data| + |Partial(partial)|], None)
  }

  // ---- Reader ----

  class Reader {
    const crc: Crc
    const file: Bytes
    var buffer: Bytes
    var eof: bool
    var endOfBuffer: nat
    var drops: seq<nat>

    ghost predicate Valid()
      reads this
    {
      && endOfBuffer <= |file| && |buffer| <= endOfBuffer && |buffer| <= BLOCK
      && buffer == file[endOfBuffer - |buffer|..endOfBuffer]
      && if eof then endOfBuffer == |file| < BlockEnd(endOfBuffer - |buffer|) else endOfBuffer % BLOCK == 0
    }

    ghost function Pos(): nat
      requires Valid()
      reads this
    {
      endOfBuffer - |buffer|
    }

    constructor (crc: Crc, file: Bytes)
      ensures Valid() && Pos() == 0 && drops == [] && this.crc == crc && this.file == file
    {
      this.crc := crc;
      this.file := file;
      buffer, eof, endOfBuffer, drops := [], false, 0, [];
    }

    method Refill()
      requires Valid() && !eof && |buffer| < HEADER
      modifies this
      ensures Valid() && drops == old(drops) && Physical(crc, file, Pos()) == old(Physical(crc, file, Pos()))
      ensures eof || endOfBuffer > old(endOfBuffer)
    {
      hide Physical, BlockEnd;
      SkipsTrailer(crc, file, Pos(), endOfBuffer);
      BlockEndOf(endOfBuffer);
      var n := if endOfBuffer + BLOCK <= |file| then BLOCK else |file| - endOfBuffer;
      buffer := file[endOfBuffer..endOfBuffer + n];
      endOfBuffer := endOfBuffer + n;
      if |buffer| < BLOCK {
        eof := true;
      }
    }

    method ReportCorruption(bytes: nat)
      modifies this`drops
      ensures drops == old(drops) + [bytes]
    {
      drops := drops + [bytes];
    }

    /** The part of ReadPhysicalRecord that reads blocks until a header fits into the buffer, or the file ends. */
    method FillBuffer() returns (more: bool)
      requires Valid()
      modifies this
      ensures Valid() && drops == old(drops) && Physical(crc, file, Pos()) == old(Physical(crc, file, Pos()))
      ensures if more then |buffer| >= HEADER else |buffer| < HEADER && eof
    {
      hide Physical, ParseBuffer, BlockEnd;
      while |buffer| < HEADER
        invariant Valid() && drops == old(drops)
        invariant Physical(crc, file, Pos()) == old(Physical(crc, file, Pos()))
        decreases !eof, |file| - endOfBuffer
      {
        if eof {
          return false;
        }
        Refill();
      }
      more := true;
    }

    method ReadPhysicalRecord() returns (kind: nat, fragment: Bytes)
      requires Valid()
      modifies this
      ensures Valid()
      ensures Phys(kind, fragment, Pos(), drops) ==
              var p := Physical(crc, file, old(Pos())); p.(drops := old(drops) + p.drops)
    {
      hide Physical, ParseBuffer, BlockEnd;
      var more := FillBuffer();
      if !more {
        AtEnd();
        buffer := [];
        BlockEndGrows(|file|, |file|);
        return END_OF_FILE, [];
      }
      BufferIsAt();
      ghost var pos := Pos();
      kind, fragment := ParseHeader();
      BlockEndGrows(pos, endOfBuffer - |buffer|);
    }

    lemma AtEnd()
      requires Valid() && |buffer| < HEADER && eof
      ensures Physical(crc, file, Pos()) == Phys(END_OF_FILE, [], |file|, [])
    {
    }

    lemma BufferIsAt()
      requires Valid() && |buffer| >= HEADER
      ensures Physical(crc, file, Pos()) == var p := ParseBuffer(crc, buffer, !eof); p.(next := Pos() + p.next)
    {
      hide ParseBuffer;
      assert endOfBuffer == if BlockEnd(Pos()) <= |file| then BlockEnd(Pos()) else |file|;
    }

    method ParseHeader() returns (kind: nat, fragment: Bytes)
      requires Valid() && |buffer| >= HEADER
      modifies this`buffer, this`drops
      ensures |buffer| <= |old(buffer)| && buffer == old(buffer)[|old(buffer)| - |buffer|..]
      ensures var p := ParseBuffer(crc, old(buffer), !eof);
              Phys(kind, fragment, |old(buffer)| - |buffer|, drops) == p.(drops := old(drops) + p.drops)
    {
      hide Unmask, GetWord;
      var length := buffer[4] as nat + 256 * buffer[5] as nat;
      kind := buffer[6];
      var dropSize := |buffer|;
      if HEADER + length > |buffer| {
        buffer := [];
        if !eof {
          ReportCorruption(dropSize);
          return BAD, [];
        }
        return END_OF_FILE, [];
      }
      if kind == 0 && length == 0 {
        buffer := [];
        return BAD, [];
      }
      if Unmask(GetWord(buffer[..4])) != crc(buffer[6..HEADER + length]) {
        buffer := [];
        ReportCorruption(dropSize);
        return BAD, [];
      }
      fragment := buffer[HEADER..HEADER + length];
      buffer := buffer[HEADER + length..];
    }

    /** What ReadRecord does with a physical record that neither completes a record nor ends the file. */
    method Absorb(kind: nat, fragment: Bytes, scratch: Bytes, inFragmentedRecord: bool) returns (scratch': Bytes, fragmented': bool)
      requires !inFragmentedRecord ==> scratch == []
      requires kind != FULL && kind != END_OF_FILE && (kind == LAST ==> !inFragmentedRecord)
      modifies this`drops
      ensures !fragmented' ==> scratch' == []
      ensures forall p: Phys :: p.kind == kind && p.data == fragment ==>
        AssembleStep(p, PartialOf(scratch, inFragmentedRecord)).1 == PartialOf(scratch', fragmented')
        && drops == old(drops) + AssembleStep(p, PartialOf(scratch, inFragmentedRecord)).0
    {
      scratch', fragmented' := scratch, inFragmentedRecord;
      if kind == FIRST {
        if inFragmentedRecord && scratch != [] {
          ReportCorruption(|scratch|);
        }
        scratch', fragmented' := fragment, true;
      } else if kind == MIDDLE || kind == LAST {
        if !inFragmentedRecord {
          ReportCorruption(|fragment|);
        } else {
          scratch' := scratch + fragment;
        }
      } else if kind == BAD {
        if inFragmentedRecord {
          ReportCorruption(|scratch|);
          scratch', fragmented' := [], false;
        }
      } else {
        ReportCorruption(|fragment| + if inFragmentedRecord then |scratch| else 0);
        scratch', fragmented' := [], false;
      }
    }

    method ReadRecord() returns (found: bool, record: Bytes)
      requires Valid()
      modifies this
      ensures Valid()
      ensures Logical(found, record, Pos(), drops) ==
              var a := Assemble(crc, file, old(Pos()), None); a.(drops := old(drops) + a.drops)
    {
      hide Physical, Assemble, AssembleStep, BlockEnd;
      var scratch, inFragmentedRecord := [], false;
      while true
        invariant Valid() && (!inFragmentedRecord ==> scratch == [])
        invariant Same(old(drops), Assemble(crc, file, old(Pos()), None), drops,
                       Assemble(crc, file, Pos(), PartialOf(scratch, inFragmentedRecord)))
        decreases |file| - Pos()
      {
        ghost var pos, was, partial := Pos(), drops, PartialOf(scratch, inFragmentedRecord);
        AssembleUnfolds(crc, file, pos, partial);
        var kind, fragment := ReadPhysicalRecord();
        if kind == FULL {
          if inFragmentedRecord && scratch != [] {
            ReportCorruption(|scratch|);
          }
          return true, fragment;
        } else if kind == LAST && inFragmentedRecord {
          return true, scratch + fragment;
        } else if kind == END_OF_FILE {
          return false, [];
        }
        ghost var p := Physical(crc, file, pos);
        scratch, inFragmentedRecord := Absorb(kind, fragment, scratch, inFragmentedRecord);
        SameStep(was, Assemble(crc, file, pos, partial), p.drops, AssembleStep(p, partial).0, drops,
                 Assemble(crc, file, Pos(), PartialOf(scratch, inFragmentedRecord)));
      }
    }
  }

  function PartialOf(scratch: Bytes, inFragmentedRecord: bool): Option<Bytes> {
    if inFragmentedRecord then Some(scratch) else None
  }

  /** Result a after reports da is result b after reports db. */
  predicate Same(da: seq<nat>, a: Logical, db: seq<nat>, b: Logical) {
    a.(drops := da + a.drops) == b.(drops := db + b.drops)
  }

  lemma SameStep(da: seq<nat>, a: Logical, p: seq<nat>, q: seq<nat>, db: seq<nat>, b: Logical)
    requires a == b.(drops := p + q + b.drops) && db == da + p + q
    ensures Same(da, a, db, b)
  {
  }

  lemma AssembleUnfolds(crc: Crc, f: Bytes, pos: nat, partial: Option<Bytes>)
    requires pos <= |f|
    ensures var p, a := Physical(crc, f, pos), Assemble(crc, f, pos, partial);
            if p.kind == FULL then a == Logical(true, p.data, p.next, p.drops + DropOf(Partial(partial)))
            else if p.kind == LAST && partial.Some? then a == Logical(true, partial.value + p.data, p.next, p.drops)
            else if p.kind == END_OF_FILE then a == Logical(false, [], p.next, p.drops)
            else
              var r := Assemble(crc, f, p.next, AssembleStep(p, partial).1);
              a == r.(drops := p.drops + AssembleStep(p, partial).0 + r.drops)
  {
  }
}
