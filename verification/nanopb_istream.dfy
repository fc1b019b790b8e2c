/** The decoder's streams, field iterator and loops, proved against what they should make of the bytes (pb_decode.c, pb_common.c). */
module NanopbIStream {
  import opened Bytestrings
  import opened Coding
  import opened NanopbVarint
  import opened NanopbSchema
  import opened NanopbDecode

  class IStream {
    const data: Bytes
    var pos: nat
    var bytesLeft: nat

    ghost predicate Valid()
      reads this
    {
      pos + bytesLeft <= |data|
    }

    ghost function Rest(): Bytes
      requires Valid()
      reads this
    {
      data[pos..pos + bytesLeft]
    }

    ghost function End(): nat
      reads this
    {
      pos + bytesLeft
    }

    /** pb_istream_from_buffer. */
    constructor (data: Bytes, pos: nat, bytesLeft: nat)
      requires pos + bytesLeft <= |data|
      ensures Valid() && Rest() == data[pos..pos + bytesLeft]
      ensures this.data == data && this.pos == pos && this.bytesLeft == bytesLeft
    {
      this.data, this.pos, this.bytesLeft := data, pos, bytesLeft;
    }

    method ReadByte() returns (ok: bool, b: byte)
      requires Valid()
      modifies this
      ensures Valid() && End() == old(End()) && ok == (old(Rest()) != [])
      ensures ok ==> b == old(Rest())[0] && Rest() == old(Rest())[1..]
      ensures !ok ==> Rest() == []
    {
      if bytesLeft == 0 {
        return false, 0;
      }
      ok, b := true, data[pos];
      pos, bytesLeft := pos + 1, bytesLeft - 1;
    }

    /** pb_read from a buffer; skipping is reading. */
    method Read(count: nat) returns (ok: bool, b: Bytes)
      requires Valid()
      modifies this
      ensures Valid() && End() == old(End()) && ok == Take(old(Rest()), count).Some?
      ensures ok ==> (b, Rest()) == Take(old(Rest()), count).value
    {
      if bytesLeft < count {
        return false, [];
      }
      ghost var s := Rest();
      ok, b := true, data[pos..pos + count];
      pos, bytesLeft := pos + count, bytesLeft - count;
      assert b == s[..count] && Rest() == s[count..];
    }

    /** pb_decode_varint32_eof. */
    method DecodeVarint32Eof() returns (ok: bool, dest: nat, eof: bool)
      requires Valid()
      modifies this
      ensures Valid() && End() == old(End()) && Outcome32(ok, dest, Rest(), Varint32(old(Rest()))) && eof == (old(Rest()) == [])
    {
      hide Varint32Tail;
      var b;
      ok, b := ReadByte();
      dest, eof := 0, false;
      if !ok {
        eof := true;
        return;
      }
      if b < 128 {
        dest := b;
        return;
      }
      ok, dest := DecodeTail(b - 128);
    }

    /** The multi-byte loop. */
    method DecodeTail(first: nat) returns (ok: bool, dest: nat)
      requires Valid() && first < 128
      modifies this
      ensures Valid() && End() == old(End()) && Outcome32(ok, dest, Rest(), Varint32Tail(old(Rest()), 1, first))
    {
      hide Varint32Tail, NextResult;
      var bitpos := 7;
      ghost var n: nat := 1;
      dest := first;
      while true
        invariant Valid() && End() == old(End()) && bitpos == 7 * n && n >= 1 && dest < TWO32
        invariant Varint32Tail(old(Rest()), 1, first) == Varint32Tail(Rest(), n, dest)
        decreases bytesLeft
      {
        var b;
        TailUnfolds(Rest(), n, dest);
        ok, b := ReadByte();
        if !ok {
          return;
        }
        ok, dest := AddGroup(b, bitpos, n, dest);
        if !ok {
          return;
        }
        bitpos, n := bitpos + 7, n + 1;
        if b < 128 {
          if bitpos == 35 && b % 128 / 16 != 0 {
            ok := false;
          }
          return;
        }
      }
    }

    /** pb_decode_varint. */
    method DecodeVarint() returns (ok: bool, dest: nat)
      requires Valid()
      modifies this
      ensures Valid() && End() == old(End()) && ok == Varint64(old(Rest())).Some? && (ok ==> (dest, Rest()) == Varint64(old(Rest())).value)
      ensures ok ==> dest < TWO64
    {
      hide ParseVarint, Summing, Shift64;
      ghost var parsed := ParseVarint(Rest(), 10);
      var bitpos := 0;
      ghost var n: nat, sum: nat := 0, 0;
      dest := 0;
      SummingStarts(Rest());
      while true
        invariant Valid() && End() == old(End()) && bitpos == 7 * n && n <= 10 && dest < TWO64 && Summing(parsed, Rest(), n, sum, dest)
        decreases bytesLeft
      {
        SummingStep(parsed, Rest(), n, sum, dest);
        if bitpos >= 64 {
          ok := false;
          return;
        }
        var b;
        ok, b := ReadByte();
        if !ok {
          return;
        }
        dest := (dest + Shift64(b % 128, bitpos / 7)) % TWO64;
        sum := sum + Shift64(b % 128, n);
        bitpos, n := bitpos + 7, n + 1;
        if b < 128 {
          return;
        }
      }
    }
  }

  ghost predicate Outcome32(ok: bool, dest: nat, rest: Bytes, r: Option<(nat, Bytes)>) {
    ok == r.Some? && (ok ==> r.value == (dest, rest) && dest < TWO32)
  }

  /** The 32-bit result after one more byte at bit position 7 * n, None on overflow. */
  function NextResult(b: byte, n: nat, result: nat): (r: Option<nat>)
    requires n >= 1 && result < TWO32
    ensures r.Some? ==> r.value < TWO32
  {
    var signExtension := if 7 * n < 63 then 0xFF else 0x01;
    if 7 * n >= 32 && b % 128 != 0 && (result < TWO31 || b != signExtension) then None
    else Some(if 7 * n >= 32 then result else (result + Shifted(b % 128, n)) % TWO32)
  }

  lemma TailUnfolds(s: Bytes, n: nat, result: nat)
    requires n >= 1 && result < TWO32
    ensures Varint32Tail(s, n, result) ==
            if s == [] then None
            else if NextResult(s[0], n, result).None? then None
            else if s[0] >= 128 then Varint32Tail(s[1..], n + 1, NextResult(s[0], n, result).value)
            else if 7 * n == 28 && s[0] % 128 / 16 != 0 then None
            else Some((NextResult(s[0], n, result).value, s[1..]))
  {
  }

  method AddGroup(b: byte, bitpos: nat, ghost n: nat, result: nat) returns (ok: bool, next: nat)
    requires n >= 1 && bitpos == 7 * n && result < TWO32
    ensures ok == NextResult(b, n, result).Some? && (ok ==> next == NextResult(b, n, result).value)
  {
    ok, next := true, result;
    if bitpos >= 32 {
      var signExtension := if bitpos < 63 then 0xFF else 0x01;
      if b % 128 != 0x00 && (result < TWO31 || b != signExtension) {
        ok := false;
      }
    } else {
      next := (result + Shifted(b % 128, bitpos / 7)) % TWO32;
    }
  }

  /** x << 7 * n before it is cut to 64 bits. */
  function Shift64(x: nat, n: nat): nat {
    x * Pow128(n)
  }

  /** sum from the bytes read, and what is still to come at group n. */
  ghost function Summed(sum: nat, n: nat, r: Option<(nat, Bytes)>): Option<(nat, Bytes)> {
    match r
    case None => None
    case Some(p) => Some((sum + Shift64(p.0, n), p.1))
  }

  /** The bytes parsed as a whole are `sum` from the first n of them and what `rest` still adds; dest is sum in 64 bits. */
  ghost predicate Summing(parsed: Option<(nat, Bytes)>, rest: Bytes, n: nat, sum: nat, dest: nat) {
    && n <= 10 && dest == sum % TWO64 && (n <= 9 ==> dest == sum < Shift64(1, n))
    && parsed == Summed(sum, n, ParseVarint(rest, 10 - n))
  }

  lemma SummingStarts(s: Bytes)
    ensures Summing(ParseVarint(s, 10), s, 0, 0, 0)
  {
  }

  lemma SummingStep(parsed: Option<(nat, Bytes)>, s: Bytes, n: nat, sum: nat, dest: nat)
    requires Summing(parsed, s, n, sum, dest)
    ensures n == 10 || s == [] ==> parsed == None
    ensures n < 10 && s != [] ==>
      var more := sum + Shift64(s[0] % 128, n);
      && (dest + Shift64(s[0] % 128, n)) % TWO64 == more % TWO64
      && (s[0] >= 128 ==> Summing(parsed, s[1..], n + 1, more, more % TWO64))
      && (s[0] < 128 ==> parsed == Some((more, s[1..])))
  {
    hide ParseVarint, Shift64;
    ParseUnfolds(s, 10 - n);
    if n < 10 && s != [] {
      SumStep(sum, s[0], n, ParseVarint(s[1..], 9 - n));
    }
  }

  lemma ParseUnfolds(s: Bytes, limit: nat)
    ensures ParseVarint(s, limit) ==
            if s == [] || limit == 0 then None
            else if s[0] < 128 then Some((s[0], s[1..]))
            else match ParseVarint(s[1..], limit - 1) case None => None case Some(p) => Some((s[0] - 128 + 128 * p.0, p.1))
  {
  }

  lemma Distributes(x: int, y: int, p: int)
    ensures (x + 128 * y) * p == x * p + y * (128 * p)
  {
  }

  lemma GroupBound(sum: int, x: int, p: int)
    requires 0 <= x < 128 && 0 <= sum < p
    ensures 0 <= sum + x * p < 128 * p
  {
    assert x * p <= 127 * p by { assert (127 - x) * p >= 0; }
    assert x * p >= 0;
  }

  lemma PowersFit(n: nat)
    requires n <= 9
    ensures Pow128(n + 1) == 128 * Pow128(n) && Pow128(n) < TWO64
  {
    LowPowers();
  }

  lemma SumStep(sum: nat, b: byte, n: nat, r: Option<(nat, Bytes)>)
    requires n <= 9 && sum < Shift64(1, n)
    ensures var more := if r.None? then None else Some((b - 128 + 128 * r.value.0, r.value.1));
            b >= 128 ==> Summed(sum, n, more) == Summed(sum + Shift64(b % 128, n), n + 1, r)
    ensures n < 9 ==> sum + Shift64(b % 128, n) < Shift64(1, n + 1) < TWO64
  {
    hide Pow128, Shift64;
    LowGroup(b);
    SumFits(sum, b % 128, n);
    if b >= 128 && r.Some? { SumMoves(sum, b % 128, n, r.value.0); }
  }

  lemma LowGroup(b: byte)
    ensures b % 128 < 128 && (b >= 128 ==> b % 128 == b - 128)
  {
  }

  lemma SumMoves(sum: nat, x: nat, n: nat, y: nat)
    requires n <= 9
    ensures sum + Shift64(x + 128 * y, n) == sum + Shift64(x, n) + Shift64(y, n + 1)
  {
    hide Pow128;
    PowersFit(n);
    Distributes(x, y, Pow128(n));
  }

  lemma SumFits(sum: nat, x: nat, n: nat)
    requires n <= 9 && x < 128 && sum < Shift64(1, n)
    ensures n < 9 ==> sum + Shift64(x, n) < Shift64(1, n + 1) < TWO64
  {
    hide Pow128;
    PowersFit(n);
    if n < 9 { PowersFit(n + 1); }
    GroupBound(sum, x, Pow128(n));
  }
}
