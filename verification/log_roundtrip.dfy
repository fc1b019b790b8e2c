/** The log reader undoes the log writer, on every prefix of what was written (log_writer.cc, log_reader.cc). */
module LogRoundTrip {
  import opened Bytestrings
  import opened Coding
  import opened Crc32c
  import opened Log

  /** As far as the file goes, it holds b from `pos` on. */
  ghost predicate Agrees(f: Bytes, pos: nat, b: Bytes) {
    forall i :: 0 <= i < |b| && pos + i < |f| ==> f[pos + i] == b[i]
  }

  lemma AgreesSplit(f: Bytes, pos: nat, a: Bytes, b: Bytes)
    requires Agrees(f, pos, a + b)
    ensures Agrees(f, pos, a) && Agrees(f, pos + |a|, b)
  {
    forall i | 0 <= i < |a| && pos + i < |f| ensures f[pos + i] == a[i] { assert (a + b)[i] == a[i]; }
    forall i | 0 <= i < |b| && pos + |a| + i < |f| ensures f[pos + |a| + i] == b[i] { assert (a + b)[|a| + i] == b[i]; }
  }

  lemma WordRoundTrip(w: Word)
    ensures GetWord(PutFixed(4, w)) == w
  {
    PowersOf256();
    FixedRoundTrip(4, w);
  }

  lemma FragmentParts(crc: Crc, kind: byte, data: Bytes)
    requires |data| < 0x1_0000
    ensures var s := Fragment(crc, kind, data);
            && s[..4] == PutFixed(4, Mask(crc([kind] + data))) && s[4] as nat + 256 * s[5] as nat == |data| && s[6] == kind
            && s[HEADER..] == data && s[6..] == [kind] + data
  {
  }

  /** A whole fragment at the start of the buffer is read back, checksum included. */
  lemma ParseWhole(crc: Crc, b: Bytes, full: bool, kind: byte, data: Bytes)
    requires |data| < 0x1_0000 && |b| >= HEADER + |data| && b[..HEADER + |data|] == Fragment(crc, kind, data)
    requires kind != 0
    ensures ParseBuffer(crc, b, full) == Phys(kind, data, HEADER + |data|, [])
  {
    hide Fragment, Mask, Unmask, GetWord, PutFixed;
    var s := Fragment(crc, kind, data);
    FragmentParts(crc, kind, data);
    assert b[..4] == s[..4] && b[4] == s[4] && b[5] == s[5] && b[6] == s[6];
    assert b[6..HEADER + |data|] == s[6..] && b[HEADER..HEADER + |data|] == s[HEADER..];
    WordRoundTrip(Mask(crc([kind] + data)));
    UnmaskOfMask(crc([kind] + data));
  }

  /** A fragment the file ends in reads as the end of the file. */
  lemma ParseTorn(crc: Crc, b: Bytes, kind: byte, data: Bytes)
    requires |data| < 0x1_0000 && HEADER <= |b| < HEADER + |data| && b == Fragment(crc, kind, data)[..|b|]
    ensures ParseBuffer(crc, b, false) == Phys(END_OF_FILE, [], |b|, [])
  {
    hide Fragment, Mask, Unmask, GetWord, PutFixed;
    FragmentParts(crc, kind, data);
  }

  /** In one block: what a reader at the start of a fragment meets. */
  lemma PhysicalOfFragment(crc: Crc, f: Bytes, pos: nat, kind: byte, data: Bytes)
    requires pos <= |f| && pos + HEADER + |data| <= BlockEnd(pos) && kind != 0
    requires Agrees(f, pos, Fragment(crc, kind, data))
    ensures Physical(crc, f, pos) == if pos + HEADER + |data| <= |f| then Phys(kind, data, pos + HEADER + |data|, [])
                                     else Phys(END_OF_FILE, [], |f|, [])
  {
    hide Fragment, ParseBuffer;
    var full := BlockEnd(pos) <= |f|;
    var end := if full then BlockEnd(pos) else |f|;
    BufferAgrees(f, pos, end, Fragment(crc, kind, data));
    if pos + HEADER + |data| <= |f| {
      ParseWhole(crc, f[pos..end], full, kind, data);
    } else if end - pos >= HEADER {
      ParseTorn(crc, f[pos..end], kind, data);
    }
  }

  lemma BufferAgrees(f: Bytes, pos: nat, end: nat, s: Bytes)
    requires pos <= end <= |f| && Agrees(f, pos, s)
    ensures end - pos >= |s| ==> f[pos..end][..|s|] == s
    ensures end - pos <= |s| ==> f[pos..end] == s[..end - pos]
  {
  }

  /** A reader at the end of a record meets the trailer, skips it, and meets the next fragment. */
  lemma PhysicalOfPiece(crc: Crc, f: Bytes, pos: nat, data: Bytes, begin: bool)
    requires pos <= |f| && Agrees(f, pos, Piece(crc, pos, data, begin))
    ensures var n, e := FirstPiece(pos, data), PieceEnd(pos, data);
            Physical(crc, f, pos) == if e <= |f| then Phys(KindOf(begin, n == |data|), data[..n], e, [])
                                     else Phys(END_OF_FILE, [], |f|, [])
  {
    hide Fragment, ParseBuffer, Physical;
    var n := FirstPiece(pos, data);
    AgreesSplit(f, pos, Zeros(Start(pos) - pos), Fragment(crc, KindOf(begin, n == |data|), data[..n]));
    SkipToStart(crc, f, pos);
    if Start(pos) <= |f| {
      FitsInBlock(pos, data);
      PhysicalOfFragment(crc, f, Start(pos), KindOf(begin, n == |data|), data[..n]);
    }
  }

  lemma FitsInBlock(pos: nat, data: Bytes)
    ensures Start(pos) + HEADER + FirstPiece(pos, data) <= BlockEnd(Start(pos))
  {
  }

  lemma SkipToStart(crc: Crc, f: Bytes, pos: nat)
    requires pos <= |f|
    ensures Physical(crc, f, pos) == if Start(pos) <= |f| then Physical(crc, f, Start(pos)) else Phys(END_OF_FILE, [], |f|, [])
  {
    hide ParseBuffer;
    if BlockEnd(pos) - pos < HEADER && BlockEnd(pos) > |f| { assert |f| - pos < HEADER; }
  }

  lemma StepOfPiece(partial: Option<Bytes>, data: Bytes, e: nat)
    ensures AssembleStep(Phys(KindOf(partial.None?, false), data, e, []), partial) == ([], Some(Partial(partial) + data))
  {
    assert [] + data == data;
  }

  /** A record written at `pos` is read back whole if the file holds all of it, and as the end of the file if not. */
  lemma {:induction false} AssembleOfEmit(crc: Crc, f: Bytes, pos: nat, data: Bytes, partial: Option<Bytes>)
    requires pos <= |f| && Agrees(f, pos, Emit(crc, pos, data, partial.None?))
    ensures Assemble(crc, f, pos, partial) ==
            var e := pos + |Emit(crc, pos, data, partial.None?)|;
            if e <= |f| then Logical(true, Partial(partial) + data, e, []) else Logical(false, [], |f|, [])
    decreases |data|, Stuck(pos)
  {
    hide Emit, Piece, PieceEnd, FirstPiece, Physical, Assemble, AssembleStep, Stuck, Agrees;
    var begin, n, e := partial.None?, FirstPiece(pos, data), PieceEnd(pos, data);
    var piece, rest := Piece(crc, pos, data, begin), if n == |data| then [] else Emit(crc, e, data[n..], false);
    EmitUnfolds(crc, pos, data, begin);
    AgreesSplit(f, pos, piece, rest);
    PhysicalOfPiece(crc, f, pos, data, begin);
    AssembleUnfolds(crc, f, pos, partial);
    if n == |data| {
      assert data[..n] == data;
    } else if e <= |f| {
      AssembleOfEmit(crc, f, e, data[n..], Some(Partial(partial) + data[..n]));
      assert Partial(partial) + data[..n] + data[n..] == Partial(partial) + data;
      StepOfPiece(partial, data[..n], e);
    }
  }

  lemma {:induction false} StreamGrows(crc: Crc, recs: seq<Bytes>, i: nat)
    requires i <= |recs|
    ensures Stream(crc, recs[..i]) <= Stream(crc, recs)
    ensures i < |recs| ==> Stream(crc, recs[..i + 1]) == Stream(crc, recs[..i]) + Emit(crc, |Stream(crc, recs[..i])|, recs[i], true)
  {
    if i < |recs| {
      assert recs[..i + 1][..i] == recs[..i];
      if i + 1 == |recs| {
        assert recs[..i + 1] == recs;
      } else {
        var init := recs[..|recs| - 1];
        StreamGrows(crc, init, i);
        assert init[..i] == recs[..i] && init[..i + 1] == recs[..i + 1];
      }
    } else {
      assert recs[..i] == recs;
    }
  }

  /** At the end of the first i records, a reader of any prefix of the log gets record i, or the end if it is torn. */
  lemma PrefixReads(crc: Crc, recs: seq<Bytes>, f: Bytes, i: nat)
    requires f <= Stream(crc, recs) && i <= |recs| && |Stream(crc, recs[..i])| <= |f|
    ensures Assemble(crc, f, |Stream(crc, recs[..i])|, None) ==
            if i < |recs| && |Stream(crc, recs[..i + 1])| <= |f| then Logical(true, recs[i], |Stream(crc, recs[..i + 1])|, [])
            else Logical(false, [], |f|, [])
  {
    hide Stream, Emit, Physical, Assemble;
    var pos := |Stream(crc, recs[..i])|;
    StreamGrows(crc, recs, i);
    if i < |recs| {
      StreamGrows(crc, recs, i + 1);
      var s := Emit(crc, pos, recs[i], true);
      forall k | 0 <= k < |s| && pos + k < |f| ensures f[pos + k] == s[k] {
        assert Stream(crc, recs)[pos + k] == Stream(crc, recs[..i + 1])[pos + k];
      }
      AssembleOfEmit(crc, f, pos, recs[i], None);
    } else {
      assert recs[..i] == recs;
      ReadsEnd(crc, f);
    }
  }

  lemma ReadsEnd(crc: Crc, f: Bytes)
    ensures Assemble(crc, f, |f|, None) == Logical(false, [], |f|, [])
  {
    BlockEndGrows(|f|, |f|);
    AssembleUnfolds(crc, f, |f|, None);
  }

  lemma StreamOfNothing(crc: Crc)
    ensures Stream(crc, []) == []
  {
  }

  /** out is the records of recs that lie wholly inside the first n bytes of their log. */
  ghost predicate WhollyInside(crc: Crc, recs: seq<Bytes>, n: nat, out: seq<Bytes>) {
    && |out| <= |recs| && out == recs[..|out|] && |Stream(crc, out)| <= n
    && (|out| < |recs| ==> |Stream(crc, recs[..|out| + 1])| > n)
  }

  /** Reading until ReadRecord fails, as recovery does: the whole records, then the end, and no report of corruption. */
  method ReadAll(crc: Crc, file: Bytes, ghost recs: seq<Bytes>) returns (out: seq<Bytes>, drops: seq<nat>)
    requires file <= Stream(crc, recs)
    ensures WhollyInside(crc, recs, |file|, out) && drops == []
  {
    hide Stream, Assemble;
    var reader := new Reader(crc, file);
    out := [];
    StreamOfNothing(crc);
    while true
      invariant reader.Valid() && fresh(reader) && reader.crc == crc && reader.file == file && reader.drops == []
      invariant |out| <= |recs| && out == recs[..|out|] && reader.Pos() == |Stream(crc, out)|
      decreases |recs| - |out|
    {
      PrefixReads(crc, recs, file, |out|);
      var found, record := reader.ReadRecord();
      if !found {
        return out, reader.drops;
      }
      assert recs[..|out| + 1] == out + [record];
      out := out + [record];
    }
  }

  /** Writing records one by one, with the writer reopened on the file before any of them, gives the same log. */
  method WriteAll(crc: Crc, recs: seq<Bytes>, reopen: seq<bool>) returns (file: Bytes)
    requires |reopen| == |recs|
    ensures file == Stream(crc, recs)
  {
    hide Emit;
    var writer := new Writer(crc, []);
    for i := 0 to |recs|
      invariant writer.Valid() && fresh(writer) && writer.crc == crc && writer.dest == Stream(crc, recs[..i])
    {
      if reopen[i] {
        writer := new Writer(crc, writer.dest);
      }
      assert recs[..i + 1][..i] == recs[..i];
      writer.AddRecord(recs[i]);
    }
    assert recs[..|recs|] == recs;
    file := writer.dest;
  }
}
