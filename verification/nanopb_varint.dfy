/** The input stream of nanopb and its integer readers (pb_decode.c, pb_encode.c). */
module NanopbVarint {
  import opened Bytestrings
  import opened Coding

  const TWO31: int := 0x8000_0000

  /** pb_decode_varint: at most ten bytes, bits past the 64th are shifted out. */
  function Varint64(s: Bytes): Option<(nat, Bytes)> {
    GetVarint64(s)
  }

  /** x << 7 * n for the five bytes that reach the 32-bit result. */
  function Shifted(x: nat, n: nat): nat
    requires n <= 4
  {
    if n == 0 then x else if n == 1 then x * 0x80 else if n == 2 then x * 0x4000
    else if n == 3 then x * 0x20_0000 else x * 0x1000_0000
  }

  /** The multi-byte loop of pb_decode_varint32: `n` bytes are read, so the bit position is 7 * n. */
  function Varint32Tail(s: Bytes, n: nat, result: nat): (r: Option<(nat, Bytes)>)
    requires n >= 1 && result < TWO32
    ensures r.Some? ==> r.value.0 < TWO32 && |r.value.1| < |s| && r.value.1 == s[|s| - |r.value.1|..]
  {
    if s == [] then None
    else
      var payload := s[0] % 128;
      var signExtension := if 7 * n < 63 then 0xFF else 0x01;
      if 7 * n >= 32 && payload != 0 && (result < TWO31 || s[0] != signExtension) then None
      else
        var next := if 7 * n >= 32 then result else (result + Shifted(payload, n)) % TWO32;
        if s[0] >= 128 then Varint32Tail(s[1..], n + 1, next)
        else if 7 * n == 28 && payload / 16 != 0 then None
        else Some((next, s[1..]))
  }

  /** pb_decode_varint32. */
  function Varint32(s: Bytes): (r: Option<(nat, Bytes)>)
    ensures r.Some? ==> r.value.0 < TWO32 && |r.value.1| < |s| && r.value.1 == s[|s| - |r.value.1|..]
  {
    if s == [] then None
    else if s[0] < 128 then Some((s[0], s[1..]))
    else Varint32Tail(s[1..], 1, s[0] - 128)
  }

  /** A seven-bit group above bit 34 that the 32-bit reader lets through: zero, or all ones under a set sign bit. */
  predicate GroupPasses(group: nat, negative: bool) {
    group == 0 || (group == 127 && negative)
  }

  /** The values whose encoding the 32-bit reader accepts. */
  predicate Accepted32(v: nat) {
    v < TWO32 ||
    (v >= TWO63 && (v / TWO31) % 2 == 1 &&
     forall j :: 5 <= j <= 8 ==> GroupPasses((v / Pow128(j)) % 128, true))
  }

  /** What is left of the value after n >= 5 bytes passes the overflow checks. */
  predicate RestPasses(u: nat, n: nat, negative: bool)
    decreases u
  {
    if u < 128 then u == 0 || (n >= 9 && u == 1 && negative)
    else GroupPasses(u % 128, negative) && RestPasses(u / 128, n + 1, negative)
  }

  /** What can still be left of a 64-bit value after n bytes. */
  function HighLimit(n: nat): nat {
    if n == 5 then 0x2000_0000 else if n == 6 then 0x40_0000 else if n == 7 then 0x8000 else if n == 8 then 0x100 else 2
  }

  lemma LastHighByte(u: nat, n: nat, result: nat, rest: Bytes)
    requires 5 <= n <= 9 && result < TWO32 && u < 128 && u < HighLimit(n)
    ensures Varint32Tail([u as byte] + rest, n, result) ==
            if RestPasses(u, n, result >= TWO31) then Some((result, rest)) else None
  {
    var s := [u as byte] + rest;
    assert s[0] == u && s[1..] == rest;
  }

  lemma NextHighByte(u: nat, n: nat, result: nat, rest: Bytes)
    requires 5 <= n <= 8 && result < TWO32 && 128 <= u < HighLimit(n)
    ensures u / 128 < HighLimit(n + 1)
    ensures Varint32Tail(PutVarint(u) + rest, n, result) ==
            if GroupPasses(u % 128, result >= TWO31) then Varint32Tail(PutVarint(u / 128) + rest, n + 1, result) else None
  {
    hide RestPasses;
    var s := PutVarint(u) + rest;
    assert s[0] == u % 128 + 128 && s[1..] == PutVarint(u / 128) + rest;
  }

  lemma {:induction false} TailOfHighGroups(u: nat, n: nat, result: nat, rest: Bytes)
    requires 5 <= n <= 9 && result < TWO32 && u < HighLimit(n)
    ensures Varint32Tail(PutVarint(u) + rest, n, result) ==
            if RestPasses(u, n, result >= TWO31) then Some((result, rest)) else None
  {
    hide Varint32Tail;
    if u < 128 {
      LastHighByte(u, n, result, rest);
    } else {
      NextHighByte(u, n, result, rest);
      TailOfHighGroups(u / 128, n + 1, result, rest);
    }
  }

  /** What the 32-bit reader makes of the encoding of v followed by `rest`, in terms of v's bits. */
  function AfterLowGroups(v: nat, rest: Bytes): Option<(nat, Bytes)> {
    if v < TWO32 || (v >= 0x8_0000_0000 && RestPasses(v / 0x8_0000_0000, 5, (v / TWO31) % 2 == 1))
    then Some((v % TWO32, rest)) else None
  }

  lemma HighPart(v: nat, low: nat, q: nat)
    requires low < 0x8_0000_0000 && v == low + q * 0x8_0000_0000
    ensures v / 0x8_0000_0000 == q && v % TWO32 == low % TWO32
    ensures (v / TWO31) % 2 == 1 <==> low % TWO32 >= TWO31
  {
    var a, b := low / TWO31, low % TWO31;
    Quotient31(v, a + 16 * q, b);
    var c, d := low / TWO32, low % TWO32;
    Quotient32(v, c + 8 * q, d);
    SignBit(a, b, c, d, q);
  }

  lemma SignBit(a: nat, b: nat, c: nat, d: nat, q: nat)
    requires b < TWO31 && d < TWO32 && a * TWO31 + b == c * TWO32 + d
    ensures (a + 16 * q) % 2 == 1 <==> d >= TWO31
  {
    assert d == (a - 2 * c) * TWO31 + b;
    assert a + 16 * q == (a - 2 * c) + 2 * (c + 8 * q);
  }

  lemma Quotient31(v: nat, q: nat, r: nat)
    requires r < TWO31 && v == q * TWO31 + r
    ensures v / TWO31 == q && v % TWO31 == r
  {
  }

  lemma Quotient32(v: nat, q: nat, r: nat)
    requires r < TWO32 && v == q * TWO32 + r
    ensures v / TWO32 == q && v % TWO32 == r
  {
  }

  lemma LowGroup(v: nat, low: nat, u: nat, n: nat)
    requires 1 <= n <= 4 && u >= 128
    requires low < Shifted(1, n) && v == low + Shifted(u, n)
    ensures low + Shifted(u % 128, n) < 128 * Shifted(1, n)
    ensures n < 4 ==> v == low + Shifted(u % 128, n) + Shifted(u / 128, n + 1)
    ensures n == 4 ==> low + Shifted(u % 128, n) < 0x8_0000_0000
    ensures n == 4 ==> v == low + Shifted(u % 128, n) + u / 128 * 0x8_0000_0000
    ensures n < 4 ==> Shifted(1, n + 1) == 128 * Shifted(1, n) && (low + Shifted(u % 128, n)) % TWO32 == low + Shifted(u % 128, n)
  {
  }

  lemma LastLowByte(v: nat, low: nat, u: nat, n: nat, rest: Bytes)
    requires 1 <= n <= 4 && 1 <= u < 128
    requires low < Shifted(1, n) && v == low + Shifted(u, n)
    ensures Varint32Tail([u as byte] + rest, n, low) == AfterLowGroups(v, rest)
  {
    var s := [u as byte] + rest;
    assert s[0] == u && s[1..] == rest;
  }

  lemma FirstGroup(u: nat, rest: Bytes)
    requires u >= 128
    ensures var s := PutVarint(u) + rest; s != [] && s[0] == u % 128 + 128 && s[1..] == PutVarint(u / 128) + rest
  {
    FirstOfThree(u % 128 + 128, PutVarint(u / 128), rest);
  }

  lemma FirstOfThree(x: byte, t: Bytes, rest: Bytes)
    ensures var s := [x] + t + rest; s != [] && s[0] == x && s[1..] == t + rest
  {
  }

  lemma LowByteUnfolds(s: Bytes, n: nat, low: nat)
    requires 1 <= n <= 4 && s != [] && s[0] >= 128 && low < TWO32
    ensures Varint32Tail(s, n, low) == Varint32Tail(s[1..], n + 1, (low + Shifted(s[0] % 128, n)) % TWO32)
  {
    hide Shifted;
  }

  lemma OneIsSmall(n: nat)
    requires n <= 4
    ensures Shifted(1, n) < TWO32
  {
  }

  lemma NextLowByte(low: nat, u: nat, n: nat, rest: Bytes)
    requires 1 <= n <= 4 && u >= 128 && low < Shifted(1, n)
    ensures low < TWO32
    ensures Varint32Tail(PutVarint(u) + rest, n, low) ==
            Varint32Tail(PutVarint(u / 128) + rest, n + 1, (low + Shifted(u % 128, n)) % TWO32)
  {
    hide Varint32Tail, PutVarint, Shifted;
    OneIsSmall(n);
    FirstGroup(u, rest);
    LowByteUnfolds(PutVarint(u) + rest, n, low);
  }

  lemma FifthByte(v: nat, next: nat, q: nat, rest: Bytes)
    requires v < TWO64 && q >= 1 && next < 0x8_0000_0000 && v == next + q * 0x8_0000_0000
    ensures Varint32Tail(PutVarint(q) + rest, 5, next % TWO32) == AfterLowGroups(v, rest)
  {
    hide Varint32Tail, PutVarint, RestPasses;
    HighPart(v, next, q);
    TailOfHighGroups(q, 5, next % TWO32, rest);
  }

  /** v is read in two parts: `low` from the first n bytes, `u` still to come. */
  lemma {:induction false} TailOfLowGroups(v: nat, low: nat, u: nat, n: nat, rest: Bytes)
    requires 1 <= n <= 4 && v < TWO64 && u >= 1
    requires low < Shifted(1, n) && v == low + Shifted(u, n)
    ensures Varint32Tail(PutVarint(u) + rest, n, low) == AfterLowGroups(v, rest)
    decreases 5 - n
  {
    hide Varint32Tail, AfterLowGroups, Shifted;
    if u < 128 {
      LastLowByte(v, low, u, n, rest);
    } else {
      var next := low + Shifted(u % 128, n);
      NextLowByte(low, u, n, rest);
      LowGroup(v, low, u, n);
      if n < 4 {
        TailOfLowGroups(v, next, u / 128, n + 1, rest);
      } else {
        FifthByte(v, next, u / 128, rest);
      }
    }
  }

  lemma LowPowers()
    ensures Pow128(0) == 1 && Pow128(1) == 0x80 && Pow128(2) == 0x4000 && Pow128(3) == 0x20_0000
    ensures Pow128(4) == 0x1000_0000 && Pow128(5) == 0x8_0000_0000
    ensures Pow128(6) == 0x400_0000_0000 && Pow128(7) == 0x2_0000_0000_0000
    ensures Pow128(8) == 0x100_0000_0000_0000 && Pow128(9) == 0x8000_0000_0000_0000
  {
    assert Pow128(4) == 128 * Pow128(3);
    assert Pow128(9) == 128 * 128 * Pow128(7);
  }

  /** One level of the padding: nothing more to come, or a group that passes and then the rest. */
  lemma PaddingStep(u: nat, n: nat, negative: bool)
    requires 5 <= n <= 8
    ensures RestPasses(u, n, negative) <==>
            u == 0 || (u >= 128 && GroupPasses(u % 128, negative) && RestPasses(u / 128, n + 1, negative))
  {
    hide GroupPasses;
  }

  lemma LastPadding(u: nat, negative: bool)
    requires u <= 1
    ensures RestPasses(u, 9, negative) <==> u == 0 || negative
  {
  }

  /** A value that goes past bit 34 passes only if it goes up to bit 63, all in ones or zeros under a set sign bit. */
  lemma PaddingChain(u5: nat, u6: nat, u7: nat, u8: nat, u9: nat, negative: bool)
    requires u5 > 0 && u6 == u5 / 128 && u7 == u6 / 128 && u8 == u7 / 128 && u9 == u8 / 128 && u9 <= 1
    ensures RestPasses(u5, 5, negative) <==>
            u9 == 1 && negative && GroupPasses(u5 % 128, true) && GroupPasses(u6 % 128, true)
            && GroupPasses(u7 % 128, true) && GroupPasses(u8 % 128, true)
  {
    hide RestPasses, GroupPasses;
    PaddingStep(u5, 5, negative);
    PaddingStep(u6, 6, negative);
    PaddingStep(u7, 7, negative);
    PaddingStep(u8, 8, negative);
    LastPadding(u9, negative);
  }

  lemma SixthGroup(v: nat)
    ensures v / 0x400_0000_0000 == v / 0x8_0000_0000 / 128
  {
  }

  lemma SeventhGroup(v: nat)
    ensures v / 0x2_0000_0000_0000 == v / 0x400_0000_0000 / 128
  {
  }

  lemma EighthGroup(v: nat)
    ensures v / 0x100_0000_0000_0000 == v / 0x2_0000_0000_0000 / 128
  {
  }

  lemma NinthGroup(v: nat)
    requires v < TWO64
    ensures v / TWO63 == v / 0x100_0000_0000_0000 / 128 && v / TWO63 == if v >= TWO63 then 1 else 0
  {
  }

  /** The four groups that Accepted32 looks at. */
  predicate FourOnes(v: nat) {
    GroupPasses(v / 0x8_0000_0000 % 128, true) && GroupPasses(v / 0x400_0000_0000 % 128, true)
    && GroupPasses(v / 0x2_0000_0000_0000 % 128, true) && GroupPasses(v / 0x100_0000_0000_0000 % 128, true)
  }

  lemma LargeAccepted(v: nat)
    requires v >= 0x8_0000_0000
    ensures Accepted32(v) <==> v >= TWO63 && (v / TWO31) % 2 == 1 && FourOnes(v)
  {
    hide GroupPasses, Pow128;
    LowPowers();
  }

  lemma RestIsSignPadding(v: nat)
    requires 0x8_0000_0000 <= v < TWO64
    ensures RestPasses(v / 0x8_0000_0000, 5, (v / TWO31) % 2 == 1) <==> Accepted32(v)
  {
    hide RestPasses, GroupPasses, Accepted32;
    SixthGroup(v);
    SeventhGroup(v);
    EighthGroup(v);
    NinthGroup(v);
    LargeAccepted(v);
    PaddingChain(v / 0x8_0000_0000, v / 0x400_0000_0000, v / 0x2_0000_0000_0000, v / 0x100_0000_0000_0000, v / TWO63,
                 (v / TWO31) % 2 == 1);
  }

  lemma SmallAccepted(v: nat)
    requires v < 0x8_0000_0000
    ensures Accepted32(v) <==> v < TWO32
  {
  }

  /** The 32-bit reader on the encoding of any 64-bit value: exactly the accepted ones come back, as their low word. */
  lemma Varint32OfEncoding(v: nat, rest: Bytes)
    requires v < TWO64
    ensures Varint32(PutVarint(v) + rest) == if Accepted32(v) then Some((v % TWO32, rest)) else None
  {
    hide Varint32Tail, RestPasses, Accepted32;
    var s := PutVarint(v) + rest;
    if v < 128 {
      assert s[0] == v && s[1..] == rest;
      SmallAccepted(v);
    } else {
      assert s[0] == v % 128 + 128 && s[1..] == PutVarint(v / 128) + rest;
      TailOfLowGroups(v, v % 128, v / 128, 1, rest);
      if v >= 0x8_0000_0000 { RestIsSignPadding(v); } else { SmallAccepted(v); }
    }
  }

  /** What callers rely on: 32-bit values and sign-extended negative int32s come back, the values between are refused. */
  lemma Varint32Ranges(v: nat, rest: Bytes)
    requires v < TWO64
    ensures v < TWO32 ==> Varint32(PutVarint(v) + rest) == Some((v, rest))
    ensures TWO32 <= v < TWO63 ==> Varint32(PutVarint(v) + rest) == None
    ensures v >= TWO64 - TWO31 ==> Varint32(PutVarint(v) + rest) == Some((v - (TWO64 - TWO32), rest))
  {
    hide Varint32, PutVarint;
    Varint32OfEncoding(v, rest);
    if v >= TWO64 - TWO31 { SignExtended(v); }
  }

  lemma SignExtended(v: nat)
    requires TWO64 - TWO31 <= v < TWO64
    ensures Accepted32(v) && v % TWO32 == v - (TWO64 - TWO32)
  {
    LowPowers();
    assert v / Pow128(5) == 0x1FFF_FFFF && v / Pow128(6) == 0x3F_FFFF;
    assert v / Pow128(7) == 0x7FFF && v / Pow128(8) == 0xFF;
    assert v / TWO31 == 0x1_FFFF_FFFF;
  }

  /** A value from the accepted set that is not a sign-extended int32: bits 32 to 34 are never looked at. */
  lemma Varint32LosesBits()
    ensures Varint32(PutVarint(0xFFFF_FFF8_8000_0000)) == Some((0x8000_0000, []))
  {
    var v: nat := 0xFFFF_FFF8_8000_0000;
    LowPowers();
    assert Accepted32(v);
    hide Varint32, PutVarint;
    Varint32OfEncoding(v, []);
    assert PutVarint(v) + [] == PutVarint(v);
  }

  type int64 = v: int | -TWO63 <= v < TWO63

  /** The two's-complement word of a signed value. */
  function Word64(v: int64): (w: nat) {
    if v < 0 then TWO64 + v else v
  }

  function Signed64(w: nat): (v: int64)
    requires w < TWO64
  {
    if w < TWO63 then w else w - TWO64
  }

  /** pb_encode_svarint: shift left in 64 bits, complement when negative. */
  function ZigZag(v: int64): (w: nat)
    ensures w < TWO64
  {
    var shifted := Word64(v) * 2 % TWO64;
    if v < 0 then TWO64 - 1 - shifted else shifted
  }

  /** pb_decode_svarint. */
  function UnZigZag(w: nat): (v: int64)
    requires w < TWO64
  {
    if w % 2 == 1 then Signed64(TWO64 - 1 - w / 2) else Signed64(w / 2)
  }

  /** ZigZag undoes itself, and numbers the integers 0, -1, 1, -2, 2, ... */
  lemma ZigZagRoundTrip(v: int64)
    ensures UnZigZag(ZigZag(v)) == v
    ensures ZigZag(v) == if v >= 0 then 2 * v else -2 * v - 1
  {
  }

  lemma SvarintRoundTrip(v: int64, rest: Bytes)
    ensures Varint64(PutVarint(ZigZag(v)) + rest) == Some((ZigZag(v), rest))
    ensures UnZigZag(ZigZag(v)) == v && |PutVarint(ZigZag(v))| <= 10
  {
    Varint64RoundTrip(ZigZag(v), rest);
    ZigZagRoundTrip(v);
  }
}
