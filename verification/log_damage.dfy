/** What the log reader makes of damage: nothing that fails its checksum is delivered, and what is lost is reported (log_reader.cc). */
module LogDamage {
  import opened Bytestrings
  import opened Coding
  import opened Crc32c
  import opened Log

  /** A physical record as it was stored: length, type, and a checksum that unmasks to that of type and data. */
  ghost predicate IntactAt(crc: Crc, f: Bytes, p: nat, kind: nat, data: Bytes) {
    && p + HEADER + |data| <= |f|
    && f[p + 4] as nat + 256 * f[p + 5] as nat == |data| && f[p + 6] == kind
    && f[p + HEADER..p + HEADER + |data|] == data
    && Unmask(GetWord(f[p..p + 4])) == crc(f[p + 6..p + HEADER + |data|])
  }

  /** Where the record lies that a reader standing at pos meets, if the file goes on so far. */
  lemma MeetsAtStart(crc: Crc, f: Bytes, pos: nat)
    requires pos <= |f|
    ensures Start(pos) + HEADER > |f| ==> Physical(crc, f, pos) == Phys(END_OF_FILE, [], |f|, [])
    ensures Start(pos) + HEADER <= |f| ==>
      var s := Start(pos);
      var end := if BlockEnd(s) <= |f| then BlockEnd(s) else |f|;
      && s + HEADER <= end
      && Physical(crc, f, pos) == var p := ParseBuffer(crc, f[s..end], BlockEnd(s) <= |f|); p.(next := s + p.next)
  {
    hide ParseBuffer;
    var s := Start(pos);
    if s != pos && s <= |f| {
      SkipsTrailer(crc, f, pos, s);
    }
  }

  /** The first seven bytes are what a writer leaves where it preallocates. */
  predicate IsBlank(b: Bytes, p: nat)
    requires p + HEADER <= |b|
  {
    b[p + 4] == 0 && b[p + 5] == 0 && b[p + 6] == 0
  }

  lemma DataOf(b: Bytes, n: nat)
    requires HEADER + n <= |b|
    ensures b[6..HEADER + n] == [b[6]] + b[HEADER..HEADER + n]
  {
  }

  /** A buffer gives a record exactly if one is stored intact at its start. */
  lemma ParsedIfIntact(crc: Crc, b: Bytes, full: bool, kind: byte, data: Bytes)
    requires |b| >= HEADER && IntactAt(crc, b, 0, kind, data) && !IsBlank(b, 0)
    ensures ParseBuffer(crc, b, full) == Phys(kind, data, HEADER + |data|, [])
  {
    hide Unmask, GetWord;
    assert b[0..4] == b[..4];
  }

  lemma ParsedIsIntact(crc: Crc, b: Bytes, full: bool)
    requires |b| >= HEADER
    ensures var p := ParseBuffer(crc, b, full);
      || (IntactAt(crc, b, 0, p.kind, p.data) && p.next == HEADER + |p.data| && p.drops == [])
      || (p == Phys(END_OF_FILE, [], |b|, []) && !full)
      || (p == Phys(BAD, [], |b|, []) && IsBlank(b, 0))
      || p == Phys(BAD, [], |b|, [|b|])
  {
    hide Unmask, GetWord;
    assert b[0..4] == b[..4];
  }

  lemma SlicesOf(f: Bytes, s: nat, end: nat, i: nat, j: nat)
    requires s <= end <= |f| && i <= j <= end - s
    ensures f[s..end][i..j] == f[s + i..s + j]
  {
    assert forall k :: 0 <= k < j - i ==> f[s..end][i..j][k] == f[s + i..s + j][k];
  }

  lemma IntactInFile(crc: Crc, f: Bytes, s: nat, end: nat, kind: nat, data: Bytes)
    requires s + HEADER + |data| <= end <= |f|
    ensures IntactAt(crc, f[s..end], 0, kind, data) <==> IntactAt(crc, f, s, kind, data)
  {
    hide Unmask, GetWord;
    var n := HEADER + |data|;
    SlicesOf(f, s, end, 0, 4);
    SlicesOf(f, s, end, 6, n);
    SlicesOf(f, s, end, HEADER, n);
  }

  /** The end of the block a record starts in, or of the file. */
  function BlockLimit(f: Bytes, s: nat): nat {
    if BlockEnd(s) <= |f| then BlockEnd(s) else |f|
  }

  /**
   * A fragment is delivered only if it was stored so, checksum and all. A record that is not delivered costs the rest of
   * its block, which is reported, unless the file ends in it or nothing was written there.
   */
  lemma DeliveredIsIntact(crc: Crc, f: Bytes, pos: nat)
    requires pos <= |f|
    ensures var p, s := Physical(crc, f, pos), Start(pos);
      || (IntactAt(crc, f, s, p.kind, p.data) && p.next == s + HEADER + |p.data| && p.drops == [])
      || (p == Phys(END_OF_FILE, [], |f|, []) && BlockEnd(s) > |f|)
      || (p == Phys(BAD, [], BlockLimit(f, s), []) && s + HEADER <= |f| && IsBlank(f, s))
      || (p == Phys(BAD, [], BlockLimit(f, s), [BlockLimit(f, s) - s]) && s + HEADER <= |f|)
  {
    hide ParseBuffer, IntactAt, Physical, BlockEnd;
    var s, end := Start(pos), BlockLimit(f, Start(pos));
    MeetsAtStart(crc, f, pos);
    if s + HEADER <= |f| {
      var b, full := f[s..end], BlockEnd(s) <= |f|;
      ParsedIsIntact(crc, b, full);
      var p := ParseBuffer(crc, b, full);
      if IntactAt(crc, b, 0, p.kind, p.data) {
        IntactFits(crc, b, p.kind, p.data);
        IntactInFile(crc, f, s, end, p.kind, p.data);
      }
    } else {
      StartNearEnd(f, pos);
    }
  }

  lemma IntactFits(crc: Crc, b: Bytes, kind: nat, data: Bytes)
    requires IntactAt(crc, b, 0, kind, data)
    ensures HEADER + |data| <= |b|
  {
  }

  lemma StartNearEnd(f: Bytes, pos: nat)
    requires pos <= |f| && Start(pos) + HEADER > |f|
    ensures BlockEnd(Start(pos)) > |f|
  {
  }

  /** What was stored intact inside a block is delivered. */
  lemma IntactIsDelivered(crc: Crc, f: Bytes, pos: nat, kind: byte, data: Bytes)
    requires pos <= |f| && IntactAt(crc, f, Start(pos), kind, data) && !IsBlank(f, Start(pos))
    requires Start(pos) + HEADER + |data| <= BlockEnd(Start(pos))
    ensures Physical(crc, f, pos) == Phys(kind, data, Start(pos) + HEADER + |data|, [])
  {
    hide ParseBuffer, Physical, BlockEnd, Unmask, GetWord;
    var s, end := Start(pos), BlockLimit(f, Start(pos));
    MeetsAtStart(crc, f, pos);
    IntactInFile(crc, f, s, end, kind, data);
    hide IntactAt;
    ParsedIfIntact(crc, f[s..end], BlockEnd(s) <= |f|, kind, data);
  }

  // ---- Records ----

  /** One fragment of a record, and where it is stored. */
  datatype Piece = Piece(kind: nat, data: Bytes, at: nat)

  function Joined(ps: seq<Piece>): Bytes {
    if ps == [] then [] else Joined(ps[..|ps| - 1]) + ps[|ps| - 1].data
  }

  /** The pieces are stored intact, one behind the other, a first one and middle ones. */
  ghost predicate Opened(crc: Crc, f: Bytes, ps: seq<Piece>, pos: nat) {
    && ps != []
    && (forall k :: 0 <= k < |ps| ==> IntactAt(crc, f, ps[k].at, ps[k].kind, ps[k].data) && ps[k].at + HEADER + |ps[k].data| <= pos)
    && (forall k :: 0 <= k < |ps| ==> ps[k].kind == if k == 0 then FIRST else MIDDLE)
    && forall j, k :: 0 <= j < k < |ps| ==> ps[j].at + HEADER + |ps[j].data| <= ps[k].at
  }

  /** A whole record: one full fragment, or a first, middle ones and a last, all intact and in order. */
  ghost predicate StoredAs(crc: Crc, f: Bytes, ps: seq<Piece>, record: Bytes) {
    && ps != [] && Joined(ps) == record
    && (forall k :: 0 <= k < |ps| ==> IntactAt(crc, f, ps[k].at, ps[k].kind, ps[k].data))
    && (forall j, k :: 0 <= j < k < |ps| ==> ps[j].at + HEADER + |ps[j].data| <= ps[k].at)
    && if |ps| == 1 then ps[0].kind == FULL
       else forall k :: 0 <= k < |ps| ==> ps[k].kind == if k == 0 then FIRST else if k == |ps| - 1 then LAST else MIDDLE
  }

  lemma JoinedSnoc(ps: seq<Piece>, p: Piece)
    ensures Joined(ps + [p]) == Joined(ps) + p.data
  {
    assert (ps + [p])[..|ps|] == ps;
  }

  /** Every record that is delivered was stored so: no fragment of it fails its checksum, and they are in order. */
  lemma {:induction false} DeliveredIsStored(crc: Crc, f: Bytes, pos: nat, partial: Option<Bytes>, ps: seq<Piece>) returns (rs: seq<Piece>)
    requires pos <= |f| && Assemble(crc, f, pos, partial).found
    requires partial.Some? ==> Opened(crc, f, ps, pos) && Joined(ps) == partial.value
    ensures StoredAs(crc, f, rs, Assemble(crc, f, pos, partial).record)
    decreases |f| - pos
  {
    hide Assemble, Physical, IntactAt, BlockEnd, Joined;
    AssembleUnfolds(crc, f, pos, partial);
    DeliveredIsIntact(crc, f, pos);
    var p := Physical(crc, f, pos);
    var here := Piece(p.kind, p.data, Start(pos));
    JoinedSnoc([], here);
    JoinedSnoc(ps, here);
    assert [] + [here] == [here] && Joined([]) == [] by { NothingJoined(); }
    if p.kind == FULL {
      rs := [here];
    } else if p.kind == LAST && partial.Some? {
      rs := ps + [here];
    } else if p.kind == FIRST {
      rs := DeliveredIsStored(crc, f, p.next, Some(p.data), [here]);
    } else if p.kind == MIDDLE && partial.Some? {
      rs := DeliveredIsStored(crc, f, p.next, Some(partial.value + p.data), ps + [here]);
    } else {
      rs := DeliveredIsStored(crc, f, p.next, None, []);
    }
  }

  lemma NothingJoined()
    ensures Joined([]) == []
  {
  }

  // ---- Nothing is lost silently ----

  function Sum(ns: seq<nat>): nat {
    if ns == [] then 0 else ns[0] + Sum(ns[1..])
  }

  lemma {:induction false} SumConcat(a: seq<nat>, b: seq<nat>)
    ensures Sum(a + b) == Sum(a) + Sum(b)
    decreases |a|
  {
    if a == [] {
      assert a + b == b;
    } else {
      assert (a + b)[1..] == a[1..] + b;
      SumConcat(a[1..], b);
    }
  }

  /** The payload a reader is handed; a stored type that means "bad" hands it nothing. */
  function Payload(p: Phys): nat {
    if p.kind == BAD then 0 else |p.data|
  }

  /** Payload and reported damage of physical records. */
  function Weight(ps: seq<Phys>): nat {
    if ps == [] then 0 else Payload(ps[0]) + Sum(ps[0].drops) + Weight(ps[1..])
  }

  /** The physical records a reader meets one after the other from pos on. */
  ghost predicate Met(crc: Crc, f: Bytes, pos: nat, ps: seq<Phys>)
    decreases |ps|
  {
    ps != [] && pos <= |f| && ps[0] == Physical(crc, f, pos) && (|ps| > 1 ==> Met(crc, f, ps[0].next, ps[1..]))
  }

  lemma StepWeight(p: Phys, partial: Option<Bytes>)
    requires p.kind != FULL && p.kind != END_OF_FILE && !(p.kind == LAST && partial.Some?)
    ensures var (drops, rest) := AssembleStep(p, partial);
      |Partial(partial)| + Payload(p) == Sum(drops) + |Partial(rest)|
  {
    var d := |Partial(partial)|;
    assert Sum([d]) == d by { assert [d][1..] == []; }
    assert Sum([|p.data|]) == |p.data| by { assert [|p.data|][1..] == []; }
    assert Sum([|p.data| + d]) == |p.data| + d by { assert [|p.data| + d][1..] == []; }
  }

  /**
   * Every payload byte and all reported damage met on the way to a record is in the record or reported; at the end of
   * the file what an unfinished record had so far is given up.
   */
  lemma {:induction false} NothingIsLost(crc: Crc, f: Bytes, pos: nat, partial: Option<Bytes>) returns (ps: seq<Phys>, unfinished: nat)
    requires pos <= |f|
    ensures Met(crc, f, pos, ps) && ps[|ps| - 1].next == Assemble(crc, f, pos, partial).next
    ensures var r := Assemble(crc, f, pos, partial);
      && |Partial(partial)| + Weight(ps) == (if r.found then |r.record| else 0) + Sum(r.drops) + unfinished
      && (r.found ==> unfinished == 0)
    decreases |f| - pos
  {
    hide Assemble, Physical, AssembleStep, Payload;
    AssembleUnfolds(crc, f, pos, partial);
    var p, d := Physical(crc, f, pos), |Partial(partial)|;
    if p.kind == FULL || p.kind == END_OF_FILE || (p.kind == LAST && partial.Some?) {
      ps, unfinished := [p], if p.kind == END_OF_FILE then |p.data| + d else 0;
      assert Weight([p]) == |p.data| + Sum(p.drops) by { OneWeight(p); }
      SumConcat(p.drops, DropOf(Partial(partial)));
      DropSum(Partial(partial));
    } else {
      var rest := AssembleStep(p, partial).1;
      var tail;
      tail, unfinished := NothingIsLost(crc, f, p.next, rest);
      ps := [p] + tail;
      assert ps[1..] == tail;
      StepWeight(p, partial);
      SumConcat(p.drops + AssembleStep(p, partial).0, Assemble(crc, f, p.next, rest).drops);
      SumConcat(p.drops, AssembleStep(p, partial).0);
    }
  }

  lemma OneWeight(p: Phys)
    requires p.kind != BAD
    ensures Weight([p]) == |p.data| + Sum(p.drops)
  {
    assert [p][1..] == [];
  }

  lemma DropSum(b: Bytes)
    ensures Sum(DropOf(b)) == |b|
  {
    assert [|b|][1..] == [];
  }
}
