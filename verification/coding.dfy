/** Byte strings, and the option type shared by the readers. */
module Bytestrings {

  type byte = b: int | 0 <= b < 256

  type Bytes = seq<byte>

  datatype Option<+T> = None | Some(value: T)

  const TWO32: int := 0x1_0000_0000
  const TWO63: int := 0x8000_0000_0000_0000
  const TWO64: int := 0x1_0000_0000_0000_0000

  function Zeros(n: nat): (s: Bytes)
    ensures |s| == n
  {
    seq(n, _ => 0)
  }

  /** How many bytes two strings begin with alike. */
  function CommonPrefix(a: Bytes, b: Bytes): nat {
    if a == [] || b == [] || a[0] != b[0] then 0 else 1 + CommonPrefix(a[1..], b[1..])
  }
}

/** The integer and string coding of util/coding.cc. */
module Coding {
  import opened Bytestrings

  /** 128^n: one factor for each byte of a varint. */
  function Pow128(n: nat): (p: int)
    ensures p >= 1
  {
    if n == 0 then 1 else 128 * Pow128(n - 1)
  }

  /** Seven bits a byte, lowest first, the high bit set on all but the last byte. */
  function PutVarint(v: nat): (s: Bytes)
    ensures |s| >= 1
  {
    if v < 128 then [v] else [v % 128 + 128] + PutVarint(v / 128)
  }

  /** Reads at most `limit` bytes; the value is not yet cut to a machine width. */
  function ParseVarint(s: Bytes, limit: nat): (r: Option<(nat, Bytes)>)
    ensures r.Some? ==> |r.value.1| < |s| && r.value.1 == s[|s| - |r.value.1|..]
  {
    if s == [] || limit == 0 then None
    else if s[0] < 128 then Some((s[0], s[1..]))
    else
      match ParseVarint(s[1..], limit - 1)
      case None => None
      case Some(p) => Some((s[0] - 128 + 128 * p.0, p.1))
  }

  function GetVarint32(s: Bytes): (r: Option<(nat, Bytes)>)
    ensures r.Some? ==> r.value.0 < TWO32 && |r.value.1| < |s|
  {
    match ParseVarint(s, 5)
    case None => None
    case Some(p) => Some((p.0 % TWO32, p.1))
  }

  function GetVarint64(s: Bytes): (r: Option<(nat, Bytes)>)
    ensures r.Some? ==> r.value.0 < TWO64 && |r.value.1| < |s|
  {
    match ParseVarint(s, 10)
    case None => None
    case Some(p) => Some((p.0 % TWO64, p.1))
  }

  /** A reader given `rest` after an encoded value returns that value and stops exactly before `rest`. */
  lemma {:induction false} ParseOfPut(v: nat, rest: Bytes, limit: nat)
    requires limit >= 1 && v < Pow128(limit)
    ensures ParseVarint(PutVarint(v) + rest, limit) == Some((v, rest))
    ensures |PutVarint(v)| <= limit
  {
    if v < 128 {
      assert (PutVarint(v) + rest)[1..] == rest;
    } else {
      assert (PutVarint(v) + rest)[1..] == PutVarint(v / 128) + rest;
      ParseOfPut(v / 128, rest, limit - 1);
    }
  }

  lemma PowersOf128()
    ensures Pow128(5) == 0x8_0000_0000 && Pow128(10) == 0x40_0000_0000_0000_0000
  {
    assert Pow128(5) == 128 * 128 * 128 * 128 * 128 * Pow128(0);
    assert Pow128(10) == 128 * 128 * 128 * 128 * 128 * Pow128(5);
  }

  lemma Varint32RoundTrip(v: nat, rest: Bytes)
    requires v < TWO32
    ensures GetVarint32(PutVarint(v) + rest) == Some((v, rest))
    ensures 1 <= |PutVarint(v)| <= 5
  {
    hide ParseVarint, PutVarint, Pow128;
    PowersOf128();
    ParseOfPut(v, rest, 5);
  }

  lemma Varint64RoundTrip(v: nat, rest: Bytes)
    requires v < TWO64
    ensures GetVarint64(PutVarint(v) + rest) == Some((v, rest))
    ensures 1 <= |PutVarint(v)| <= 10
  {
    hide ParseVarint, PutVarint, Pow128;
    PowersOf128();
    ParseOfPut(v, rest, 10);
  }

  /** A varint is as short as it can be: every byte but the last goes on, and the last is zero only for zero itself. */
  lemma {:induction false} VarintIsShortest(v: nat)
    ensures var s := PutVarint(v);
      && s != [] && s[|s| - 1] < 128 && (forall i :: 0 <= i < |s| - 1 ==> s[i] >= 128) && (|s| > 1 ==> s[|s| - 1] != 0)
  {
    if v >= 128 {
      VarintIsShortest(v / 128);
      assert v / 128 > 0;
    }
  }

  function Pow256(n: nat): (p: int)
    ensures p >= 1
  {
    if n == 0 then 1 else 256 * Pow256(n - 1)
  }

  lemma PowersOf256()
    ensures Pow256(1) == 256 && Pow256(2) == 0x1_0000 && Pow256(4) == TWO32 && Pow256(8) == TWO64
  {
    assert Pow256(2) == 256 * 256 * Pow256(0);
    assert Pow256(4) == 256 * 256 * Pow256(2);
    assert Pow256(8) == 256 * 256 * 256 * 256 * Pow256(4);
  }

  /** The low n bytes of v, lowest first. */
  function PutFixed(n: nat, v: nat): (s: Bytes)
    ensures |s| == n
  {
    if n == 0 then [] else [v % 256] + PutFixed(n - 1, v / 256)
  }

  function GetFixed(s: Bytes): (v: nat)
  {
    if s == [] then 0 else s[0] + 256 * GetFixed(s[1..])
  }

  lemma {:induction false} FixedRoundTrip(n: nat, v: nat)
    requires v < Pow256(n)
    ensures GetFixed(PutFixed(n, v)) == v
  {
    if n > 0 {
      FixedRoundTrip(n - 1, v / 256);
      assert PutFixed(n, v)[1..] == PutFixed(n - 1, v / 256);
    }
  }

  lemma {:induction false} GetFixedBound(s: Bytes)
    ensures GetFixed(s) < Pow256(|s|)
  {
    if s != [] { GetFixedBound(s[1..]); }
  }

  /** Reading a number and writing it again gives the same bytes. */
  lemma {:induction false} PutOfGet(s: Bytes)
    ensures PutFixed(|s|, GetFixed(s)) == s
  {
    if s != [] {
      PutOfGet(s[1..]);
      assert s == [s[0]] + s[1..];
    }
  }

  /** An array of four-byte numbers. */
  function PutFixed32s(vs: seq<nat>): (b: Bytes)
    ensures |b| == 4 * |vs|
  {
    if vs == [] then [] else PutFixed32s(vs[..|vs| - 1]) + PutFixed(4, vs[|vs| - 1])
  }

  lemma {:induction false} Fixed32At(vs: seq<nat>, index: nat)
    requires index < |vs| && forall k :: 0 <= k < |vs| ==> vs[k] < TWO32
    ensures GetFixed(PutFixed32s(vs)[4 * index..4 * index + 4]) == vs[index]
  {
    hide PutFixed, GetFixed;
    var init, last := vs[..|vs| - 1], vs[|vs| - 1];
    if index < |init| {
      Fixed32At(init, index);
      assert PutFixed32s(vs)[4 * index..4 * index + 4] == PutFixed32s(init)[4 * index..4 * index + 4];
    } else {
      PowersOf256();
      FixedRoundTrip(4, last);
      assert PutFixed32s(vs)[4 * index..4 * index + 4] == PutFixed(4, last);
    }
  }

  function PutLengthPrefixed(s: Bytes): (r: Bytes) {
    PutVarint(|s|) + s
  }

  function GetLengthPrefixed(s: Bytes): (r: Option<(Bytes, Bytes)>)
    ensures r.Some? ==> |r.value.1| < |s|
  {
    match GetVarint32(s)
    case None => None
    case Some(p) => if |p.1| < p.0 then None else Some((p.1[..p.0], p.1[p.0..]))
  }

  // ---- More bytes behind do not change what was read ----

  lemma {:induction false} ParseVarintExtends(s: Bytes, more: Bytes, limit: nat)
    requires ParseVarint(s, limit).Some?
    ensures ParseVarint(s + more, limit) == Some((ParseVarint(s, limit).value.0, ParseVarint(s, limit).value.1 + more))
  {
    assert (s + more)[1..] == s[1..] + more;
    if s[0] >= 128 { ParseVarintExtends(s[1..], more, limit - 1); }
  }

  lemma GetVarintExtends(s: Bytes, more: Bytes)
    ensures GetVarint32(s).Some? ==> GetVarint32(s + more) == Some((GetVarint32(s).value.0, GetVarint32(s).value.1 + more))
    ensures GetVarint64(s).Some? ==> GetVarint64(s + more) == Some((GetVarint64(s).value.0, GetVarint64(s).value.1 + more))
  {
    hide ParseVarint;
    if GetVarint32(s).Some? { ParseVarintExtends(s, more, 5); }
    if GetVarint64(s).Some? { ParseVarintExtends(s, more, 10); }
  }

  lemma GetLengthPrefixedExtends(s: Bytes, more: Bytes)
    requires GetLengthPrefixed(s).Some?
    ensures GetLengthPrefixed(s + more) == Some((GetLengthPrefixed(s).value.0, GetLengthPrefixed(s).value.1 + more))
  {
    hide GetVarint32;
    GetVarintExtends(s, more);
    var p := GetVarint32(s).value;
    assert (p.1 + more)[..p.0] == p.1[..p.0] && (p.1 + more)[p.0..] == p.1[p.0..] + more;
  }

  lemma LengthPrefixedRoundTrip(s: Bytes, rest: Bytes)
    requires |s| < TWO32
    ensures GetLengthPrefixed(PutLengthPrefixed(s) + rest) == Some((s, rest))
  {
    Varint32RoundTrip(|s|, s + rest);
    assert PutLengthPrefixed(s) + rest == PutVarint(|s|) + (s + rest);
  }
}
