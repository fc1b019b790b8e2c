/** What the log file looks like (log_writer.cc): fragments of a record, and where blocks cut it. */
module LogLayout {
  import opened Bytestrings
  import opened Coding
  import opened Crc32c
  import opened Log

  datatype Frag = Frag(at: nat, kind: byte, data: Bytes)

  function Joined(frags: seq<Frag>): Bytes {
    if frags == [] then [] else frags[0].data + Joined(frags[1..])
  }

  /** Checksum, length, kind and data stand at offset o. */
  ghost predicate StandsAt(crc: Crc, s: Bytes, o: int, f: Frag) {
    && 0 <= o && o + 7 + |f.data| <= |s|
    && s[o..o + 4] == PutFixed(4, Mask(crc([f.kind] + f.data)))
    && s[o + 4] as nat + 256 * s[o + 5] as nat == |f.data| && s[o + 6] == f.kind
    && s[o + 7..o + 7 + |f.data|] == f.data
  }

  /** The first header goes right to `pos`, or after zeros to the next block when a block of 32768 bytes has no room for one. */
  ghost predicate StartsRight(pos: nat, s: Bytes, at: nat) {
    && (if pos % 32768 <= 32761 then at == pos else pos < at < pos + 7 && at % 32768 == 0)
    && at - pos <= |s| && forall i :: 0 <= i < at - pos ==> s[i] == 0
  }

  /** A record is cut only where a block ends. */
  ghost predicate CutAtBlocks(frags: seq<Frag>) {
    && (forall k :: 0 <= k < |frags| ==> frags[k].at % 32768 + 7 + |frags[k].data| <= 32768)
    && forall k :: 0 < k < |frags| ==> frags[k].at == frags[k - 1].at + 7 + |frags[k - 1].data| && frags[k].at % 32768 == 0
  }

  ghost predicate KindsRight(frags: seq<Frag>, begin: bool) {
    forall k :: 0 <= k < |frags| ==>
      frags[k].kind == if k == |frags| - 1 then if begin && k == 0 then FULL else LAST else if begin && k == 0 then FIRST else MIDDLE
  }

  /** The bytes s, put at position pos of a log, are the record's fragments one after the other. */
  ghost predicate Laid(crc: Crc, pos: nat, s: Bytes, data: Bytes, begin: bool, frags: seq<Frag>) {
    && frags != [] && Joined(frags) == data && KindsRight(frags, begin) && CutAtBlocks(frags) && StartsRight(pos, s, frags[0].at)
    && (forall k :: 0 <= k < |frags| ==> StandsAt(crc, s, frags[k].at - pos, frags[k]))
    && |s| == frags[|frags| - 1].at - pos + 7 + |frags[|frags| - 1].data|
  }

  /** The first fragment alone. */
  lemma PieceStands(crc: Crc, pos: nat, data: Bytes, begin: bool)
    ensures var n := FirstPiece(pos, data);
      var f := Frag(Start(pos), KindOf(begin, n == |data|), data[..n]);
      && StandsAt(crc, Piece(crc, pos, data, begin), Start(pos) - pos, f)
      && StartsRight(pos, Piece(crc, pos, data, begin), Start(pos))
      && Start(pos) % 32768 + 7 + n <= 32768
  {
    var n := FirstPiece(pos, data);
    var z, d, kind := Start(pos) - pos, data[..n], KindOf(begin, n == |data|);
    StartIs(pos);
    var c := PutFixed(4, Mask(crc([kind] + d)));
    PutFixedLength(4, Mask(crc([kind] + d)));
    ThreeParts(Zeros(z), c, [n % 256, n / 256, kind], d);
  }

  lemma {:induction false} PutFixedLength(n: nat, v: nat)
    ensures |PutFixed(n, v)| == n
  {
  }

  lemma StartIs(pos: nat)
    ensures if pos % 32768 <= 32761 then Start(pos) == pos else pos < Start(pos) < pos + 7 && Start(pos) % 32768 == 0
  {
  }

  lemma ThreeParts(z: Bytes, c: Bytes, h: Bytes, d: Bytes)
    requires |c| == 4 && |h| == 3
    ensures var s, o := z + (c + h + d), |z|;
      s[o..o + 4] == c && s[o + 4] == h[0] && s[o + 5] == h[1] && s[o + 6] == h[2] && s[o + 7..o + 7 + |d|] == d
  {
    var s, o := z + (c + h + d), |z|;
    assert s[o..] == c + h + d;
    assert s[o..o + 4] == s[o..][..4] == c;
    assert s[o + 7..o + 7 + |d|] == s[o..][7..] == d;
  }

  /** What follows stands where it stood, that much later. */
  lemma StandsLater(crc: Crc, a: Bytes, s: Bytes, o: int, f: Frag)
    requires StandsAt(crc, s, o, f)
    ensures StandsAt(crc, a + s, |a| + o, f)
  {
    var t, p := a + s, |a| + o;
    assert t[p..p + 4] == s[o..o + 4];
    assert t[p + 7..p + 7 + |f.data|] == s[o + 7..o + 7 + |f.data|];
  }

  lemma StandsBefore(crc: Crc, a: Bytes, s: Bytes, o: int, f: Frag)
    requires StandsAt(crc, a, o, f)
    ensures StandsAt(crc, a + s, o, f)
  {
    var t := a + s;
    assert t[o..o + 4] == a[o..o + 4];
    assert t[o + 7..o + 7 + |f.data|] == a[o + 7..o + 7 + |f.data|];
  }

  /** Every record is laid out as the format says. */
  lemma {:induction false} EmitIsLaid(crc: Crc, pos: nat, data: Bytes, begin: bool) returns (frags: seq<Frag>)
    ensures Laid(crc, pos, Emit(crc, pos, data, begin), data, begin, frags)
    decreases |data|, Stuck(pos)
  {
    hide Start, Room, Piece, StandsAt, StartsRight;
    var n := FirstPiece(pos, data);
    var f := Frag(Start(pos), KindOf(begin, n == |data|), data[..n]);
    PieceStands(crc, pos, data, begin);
    EmitUnfolds(crc, pos, data, begin);
    if n == |data| {
      frags := [f];
      assert Joined(frags) == data[..n] + Joined([]);
    } else {
      var rest := EmitIsLaid(crc, PieceEnd(pos, data), data[n..], false);
      frags := [f] + rest;
      FirstFills(pos, data);
      assert data[..n] + data[n..] == data;
      Prepend(crc, pos, Piece(crc, pos, data, begin), Emit(crc, PieceEnd(pos, data), data[n..], false), begin, f, rest, data[n..]);
    }
  }

  lemma FirstFills(pos: nat, data: Bytes)
    requires FirstPiece(pos, data) < |data|
    ensures PieceEnd(pos, data) % 32768 == 0
  {
  }

  /** A fragment that fills its block, and the rest of the record after it. */
  lemma Prepend(crc: Crc, pos: nat, a: Bytes, b: Bytes, begin: bool, f: Frag, rest: seq<Frag>, data: Bytes)
    requires StandsAt(crc, a, f.at - pos, f) && StartsRight(pos, a, f.at) && |a| == f.at - pos + 7 + |f.data|
    requires f.kind == KindOf(begin, false) && f.at % 32768 + 7 + |f.data| <= 32768 && (pos + |a|) % 32768 == 0
    requires Laid(crc, pos + |a|, b, data, false, rest)
    ensures Laid(crc, pos, a + b, f.data + data, begin, [f] + rest)
  {
    hide StandsAt, KindsRight, CutAtBlocks;
    var frags, end := [f] + rest, pos + |a|;
    assert frags[1..] == rest;
    assert rest[0].at == end;
    JoinsWell(f, rest, begin);
    StandsBefore(crc, a, b, f.at - pos, f);
    forall k | 0 <= k < |frags| ensures StandsAt(crc, a + b, frags[k].at - pos, frags[k]) {
      if k > 0 { StandsLater(crc, a, b, rest[k - 1].at - end, rest[k - 1]); }
    }
    StartsBefore(pos, a, b, f.at);
    assert frags[|frags| - 1] == rest[|rest| - 1];
  }

  lemma StartsBefore(pos: nat, a: Bytes, b: Bytes, at: nat)
    requires StartsRight(pos, a, at)
    ensures StartsRight(pos, a + b, at)
  {
  }

  lemma JoinsWell(f: Frag, rest: seq<Frag>, begin: bool)
    requires rest != [] && KindsRight(rest, false) && CutAtBlocks(rest)
    requires f.kind == KindOf(begin, false) && f.at % 32768 + 7 + |f.data| <= 32768
    requires rest[0].at == f.at + 7 + |f.data| && rest[0].at % 32768 == 0
    ensures KindsRight([f] + rest, begin) && CutAtBlocks([f] + rest)
  {
    var frags := [f] + rest;
    forall k | 0 <= k < |frags| ensures k > 0 ==> frags[k] == rest[k - 1] {}
  }
}
