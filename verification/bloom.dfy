/** The built-in filter policy: bits set at double-hashed positions (util/bloom.cc). */
module BloomFilters {
  import opened Bytestrings
  import opened Comparators
  import opened Crc32c
  import opened FilterBlocks

  /** BloomHash: any function from byte strings to 32-bit words. */
  type Hash = Bytes -> Word

  // ---- Bits ----

  /** x & (1 << b). */
  predicate HasBit(x: nat, b: nat) {
    if b == 0 then x % 2 == 1 else HasBit(x / 2, b - 1)
  }

  /** x | (1 << b). */
  function WithBit(x: nat, b: nat): nat {
    if b == 0 then x / 2 * 2 + 1 else WithBit(x / 2, b - 1) * 2 + x % 2
  }

  lemma {:induction false} WithBitSets(x: nat, b: nat, c: nat)
    ensures HasBit(WithBit(x, b), c) <==> c == b || HasBit(x, c)
  {
    if b > 0 && c > 0 { WithBitSets(x / 2, b - 1, c - 1); }
  }

  /** Setting one of the low n bits of an n-bit number gives an n-bit number. */
  lemma {:induction false} WithBitFits(x: nat, b: nat, n: nat)
    requires b < n && x < TwoTo(n)
    ensures WithBit(x, b) < TwoTo(n)
  {
    var half := TwoTo(n - 1);
    HalvesFit(x, half);
    if b > 0 {
      WithBitFits(x / 2, b - 1, n - 1);
      DoubleFits(WithBit(x / 2, b - 1), x % 2, half);
    }
  }

  lemma HalvesFit(x: nat, half: nat)
    requires x < 2 * half
    ensures x / 2 < half && x / 2 * 2 + 1 < 2 * half
  {
  }

  lemma DoubleFits(x: nat, bit: nat, half: nat)
    requires x < half && bit < 2
    ensures x * 2 + bit < 2 * half
  {
  }

  function TwoTo(n: nat): nat {
    if n == 0 then 1 else 2 * TwoTo(n - 1)
  }

  lemma ByteBits()
    ensures TwoTo(8) == 256
  {
    assert TwoTo(8) == 16 * TwoTo(4) && TwoTo(4) == 16 * TwoTo(0);
  }

  /** array[p / 8] |= 1 << (p % 8). */
  function SetBit(a: Bytes, p: nat): (r: Bytes)
    requires p < 8 * |a|
    ensures |r| == |a|
  {
    ByteBits();
    WithBitFits(a[p / 8], p % 8, 8);
    a[p / 8 := WithBit(a[p / 8], p % 8)]
  }

  predicate Bit(a: Bytes, p: nat)
    requires p < 8 * |a|
  {
    HasBit(a[p / 8], p % 8)
  }

  lemma SetBitSets(a: Bytes, p: nat, q: nat)
    requires p < 8 * |a| && q < 8 * |a|
    ensures Bit(SetBit(a, p), q) <==> q == p || Bit(a, q)
  {
    hide HasBit, WithBit;
    WithBitSets(a[p / 8], p % 8, q % 8);
  }

  // ---- Probes ----

  /** Rotate right by 17 bits. */
  function Delta(h: Word): Word {
    (h / 0x2_0000 + h % 0x2_0000 * 0x8000) % TWO32
  }

  /** Sets the bits of k probes from h on. */
  function SetProbes(a: Bytes, h: Word, delta: Word, k: nat): (r: Bytes)
    requires |a| > 0
    ensures |r| == |a|
    decreases k
  {
    if k == 0 then a else SetProbes(SetBit(a, h % (8 * |a|)), (h + delta) % TWO32, delta, k - 1)
  }

  predicate ProbesSet(a: Bytes, h: Word, delta: Word, k: nat)
    requires |a| > 0
    decreases k
  {
    k == 0 || (Bit(a, h % (8 * |a|)) && ProbesSet(a, (h + delta) % TWO32, delta, k - 1))
  }

  /** Every bit of a is set in b. */
  ghost predicate Below(a: Bytes, b: Bytes) {
    |a| == |b| && forall p :: 0 <= p < 8 * |a| && Bit(a, p) ==> Bit(b, p)
  }

  lemma SetBitGrows(a: Bytes, p: nat)
    requires p < 8 * |a|
    ensures Below(a, SetBit(a, p)) && Bit(SetBit(a, p), p)
  {
    hide Bit, SetBit;
    forall q | 0 <= q < 8 * |a| && Bit(a, q) ensures Bit(SetBit(a, p), q) { SetBitSets(a, p, q); }
    SetBitSets(a, p, p);
  }

  lemma {:induction false} SetProbesSets(a: Bytes, h: Word, delta: Word, k: nat)
    requires |a| > 0
    ensures Below(a, SetProbes(a, h, delta, k)) && ProbesSet(SetProbes(a, h, delta, k), h, delta, k)
    decreases k
  {
    hide Bit, SetBit;
    if k > 0 {
      var p := h % (8 * |a|);
      SetBitGrows(a, p);
      SetProbesSets(SetBit(a, p), (h + delta) % TWO32, delta, k - 1);
    }
  }

  lemma {:induction false} ProbesStay(a: Bytes, b: Bytes, h: Word, delta: Word, k: nat)
    requires |a| > 0 && Below(a, b) && ProbesSet(a, h, delta, k)
    ensures ProbesSet(b, h, delta, k)
    decreases k
  {
    hide Bit;
    if k > 0 { ProbesStay(a, b, (h + delta) % TWO32, delta, k - 1); }
  }

  // ---- The policy ----

  function AddKeys(hash: Hash, k: nat, a: Bytes, keys: seq<Bytes>): (r: Bytes)
    requires |a| > 0
    ensures |r| == |a|
  {
    if keys == [] then a
    else
      var init := AddKeys(hash, k, a, keys[..|keys| - 1]);
      var h := hash(keys[|keys| - 1]);
      SetProbes(init, h, Delta(h), k)
  }

  lemma {:induction false} KeysStay(hash: Hash, k: nat, a: Bytes, keys: seq<Bytes>, i: nat)
    requires |a| > 0 && i < |keys|
    ensures var h := hash(keys[i]); ProbesSet(AddKeys(hash, k, a, keys), h, Delta(h), k)
  {
    hide ProbesSet, SetProbes, Below, Delta;
    var init := keys[..|keys| - 1];
    var h, last := hash(keys[i]), hash(keys[|keys| - 1]);
    var was := AddKeys(hash, k, a, init);
    SetProbesSets(was, last, Delta(last), k);
    if i < |init| {
      KeysStay(hash, k, a, init, i);
      ProbesStay(was, AddKeys(hash, k, a, keys), h, Delta(h), k);
    }
  }

  /** The size of a filter in bytes: at least 64 bits. */
  function FilterBytes(bitsPerKey: nat, n: nat): (r: nat)
    ensures r >= 8
  {
    ((if n * bitsPerKey < 64 then 64 else n * bitsPerKey) + 7) / 8
  }

  /** k_, rounded down and kept between 1 and 30. */
  function Probes(bitsPerKey: nat): (k: nat)
    ensures 1 <= k <= 30
  {
    var k := bitsPerKey * 69 / 100;
    if k < 1 then 1 else if k > 30 then 30 else k
  }

  function Create(hash: Hash, bitsPerKey: nat, keys: seq<Bytes>): Bytes {
    AddKeys(hash, Probes(bitsPerKey), Zeros(FilterBytes(bitsPerKey, |keys|)), keys) + [Probes(bitsPerKey)]
  }

  function Matches(hash: Hash, key: Bytes, filter: Bytes): bool {
    if |filter| < 2 then false
    else
      var k := filter[|filter| - 1];
      if k > 30 then true else ProbesSet(filter[..|filter| - 1], hash(key), Delta(hash(key)), k)
  }

  function BloomPolicy(hash: Hash, bitsPerKey: nat): Policy {
    Policy(keys => Create(hash, bitsPerKey, keys), (key, filter) => Matches(hash, key, filter))
  }

  lemma AddedMatches(hash: Hash, bitsPerKey: nat, keys: seq<Bytes>, i: nat)
    requires i < |keys|
    ensures Matches(hash, keys[i], Create(hash, bitsPerKey, keys))
  {
    hide AddKeys, ProbesSet, Delta, FilterBytes, Probes;
    var filter := Create(hash, bitsPerKey, keys);
    var bits := AddKeys(hash, Probes(bitsPerKey), Zeros(FilterBytes(bitsPerKey, |keys|)), keys);
    assert filter[..|filter| - 1] == bits;
    KeysStay(hash, Probes(bitsPerKey), Zeros(FilterBytes(bitsPerKey, |keys|)), keys, i);
  }

  /** Where only equal strings are the same key, the built-in policy never rejects a key it was given, whatever the hash. */
  lemma BloomNeverRejects(order: Order, hash: Hash, bitsPerKey: nat)
    requires forall a, b :: order(a) == order(b) ==> a == b
    ensures NeverRejects(order, BloomPolicy(hash, bitsPerKey))
  {
    hide Matches, Create;
    var p := BloomPolicy(hash, bitsPerKey);
    forall keys, i, k | 0 <= i < |keys| && order(k) == order(keys[i]) ensures p.mayMatch(k, p.create(keys)) {
      AddedMatches(hash, bitsPerKey, keys, i);
    }
  }

  // ---- What a filter accepts ----

  /** Probe j of a hash value in a filter of `bits` bits. */
  function Probe(h: Word, delta: Word, j: nat, bits: nat): (p: nat)
    requires bits > 0
    ensures p < bits
  {
    Turned(h, delta, j) % bits
  }

  /** A hash value after j rounds of adding delta to it. */
  function Turned(h: Word, delta: Word, j: nat): Word {
    (h + j * delta) % TWO32
  }

  lemma NextTurned(h: Word, delta: Word, j: nat)
    ensures Turned(h, delta, 0) == h
    ensures Turned((h + delta) % TWO32, delta, j) == Turned(h, delta, j + 1)
  {
    OneMore(j, delta);
    AddModulo(h + delta, j * delta);
  }

  lemma NextProbe(h: Word, delta: Word, j: nat, bits: nat)
    requires bits > 0
    ensures Probe(h, delta, 0, bits) == h % bits
    ensures Probe((h + delta) % TWO32, delta, j, bits) == Probe(h, delta, j + 1, bits)
  {
    hide Turned;
    NextTurned(h, delta, j);
  }

  lemma OneMore(j: nat, delta: nat)
    ensures (j + 1) * delta == j * delta + delta
  {
  }

  lemma AddModulo(x: nat, y: nat)
    ensures (x % TWO32 + y) % TWO32 == (x + y) % TWO32
  {
  }

  lemma {:induction false} ProbesSetMeans(a: Bytes, h: Word, delta: Word, k: nat)
    requires |a| > 0
    ensures ProbesSet(a, h, delta, k) <==> forall j :: 0 <= j < k ==> Bit(a, Probe(h, delta, j, 8 * |a|))
    decreases k
  {
    hide Bit, Probe;
    if k > 0 {
      var next := (h + delta) % TWO32;
      ProbesSetMeans(a, next, delta, k - 1);
      NextProbe(h, delta, 0, 8 * |a|);
      forall j | 0 <= j < k - 1 ensures Probe(next, delta, j, 8 * |a|) == Probe(h, delta, j + 1, 8 * |a|) {
        NextProbe(h, delta, j, 8 * |a|);
      }
      forall j | 0 < j < k ensures Probe(h, delta, j, 8 * |a|) == Probe(next, delta, j - 1, 8 * |a|) {
        NextProbe(h, delta, j - 1, 8 * |a|);
      }
    }
  }

  ghost predicate Probed(h: Word, delta: Word, k: nat, bits: nat, p: nat)
    requires bits > 0
  {
    exists j: nat :: j < k && Probe(h, delta, j, bits) == p
  }

  lemma ProbedUnfolds(h: Word, delta: Word, k: nat, bits: nat, p: nat)
    requires bits > 0 && k > 0
    ensures Probed(h, delta, k, bits, p) <==> p == h % bits || Probed((h + delta) % TWO32, delta, k - 1, bits, p)
  {
    hide Probe;
    var next := (h + delta) % TWO32;
    NextProbe(h, delta, 0, bits);
    if j: nat :| j < k && Probe(h, delta, j, bits) == p {
      if j > 0 { NextProbe(h, delta, j - 1, bits); }
    }
    if j: nat :| j < k - 1 && Probe(next, delta, j, bits) == p {
      NextProbe(h, delta, j, bits);
      assert j + 1 < k && Probe(h, delta, j + 1, bits) == p;
    }
  }

  lemma {:induction false} SetProbesMeans(a: Bytes, h: Word, delta: Word, k: nat, p: nat)
    requires |a| > 0 && p < 8 * |a|
    ensures Bit(SetProbes(a, h, delta, k), p) <==> Bit(a, p) || Probed(h, delta, k, 8 * |a|, p)
    decreases k
  {
    hide Bit, SetBit, Probe;
    if k > 0 {
      SetProbesMeans(SetBit(a, h % (8 * |a|)), (h + delta) % TWO32, delta, k - 1, p);
      SetBitSets(a, h % (8 * |a|), p);
      ProbedUnfolds(h, delta, k, 8 * |a|, p);
    }
  }

  /** Some key of the filter has bit p among its probes. */
  ghost predicate ProbedByKey(hash: Hash, keys: seq<Bytes>, k: nat, bits: nat, p: nat)
    requires bits > 0
  {
    exists key :: key in keys && Probed(hash(key), Delta(hash(key)), k, bits, p)
  }

  lemma {:induction false} AddKeysMeans(hash: Hash, k: nat, n: nat, keys: seq<Bytes>, p: nat)
    requires n > 0 && p < 8 * n
    ensures Bit(AddKeys(hash, k, Zeros(n), keys), p) <==> ProbedByKey(hash, keys, k, 8 * n, p)
  {
    hide Bit, SetProbes, Delta, Probed;
    if keys == [] {
      NoBits(n, p);
    } else {
      var init, last := keys[..|keys| - 1], keys[|keys| - 1];
      assert keys == init + [last];
      AddKeysMeans(hash, k, n, init, p);
      SetProbesMeans(AddKeys(hash, k, Zeros(n), init), hash(last), Delta(hash(last)), k, p);
    }
  }

  lemma NoBits(n: nat, p: nat)
    requires p < 8 * n
    ensures !Bit(Zeros(n), p)
  {
    ZeroHasNoBit(p % 8);
  }

  lemma {:induction false} ZeroHasNoBit(b: nat)
    ensures !HasBit(0, b)
  {
    if b > 0 { ZeroHasNoBit(b - 1); }
  }

  /** A filter accepts exactly the keys all of whose probes are probes of keys it was made from. */
  lemma BloomIsExact(hash: Hash, bitsPerKey: nat, keys: seq<Bytes>, key: Bytes)
    ensures var k, bits := Probes(bitsPerKey), 8 * FilterBytes(bitsPerKey, |keys|);
      Matches(hash, key, Create(hash, bitsPerKey, keys)) <==>
      forall j :: 0 <= j < k ==> ProbedByKey(hash, keys, k, bits, Probe(hash(key), Delta(hash(key)), j, bits))
  {
    hide AddKeys, ProbesSet, Delta, FilterBytes, Probes, Bit, Probe, ProbedByKey;
    var filter, k, n := Create(hash, bitsPerKey, keys), Probes(bitsPerKey), FilterBytes(bitsPerKey, |keys|);
    var a := AddKeys(hash, k, Zeros(n), keys);
    assert filter[..|filter| - 1] == a && |a| == n;
    ProbesSetMeans(a, hash(key), Delta(hash(key)), k);
    forall j | 0 <= j < k
      ensures Bit(a, Probe(hash(key), Delta(hash(key)), j, 8 * n)) <==>
              ProbedByKey(hash, keys, k, 8 * n, Probe(hash(key), Delta(hash(key)), j, 8 * n))
    {
      AddKeysMeans(hash, k, n, keys, Probe(hash(key), Delta(hash(key)), j, 8 * n));
    }
  }

  // ---- The loops ----

  method CreateFilter(hash: Hash, bitsPerKey: nat, keys: seq<Bytes>) returns (dst: Bytes)
    ensures dst == Create(hash, bitsPerKey, keys)
  {
    hide Delta, SetBit;
    var bits := |keys| * bitsPerKey;
    if bits < 64 { bits := 64; }
    var bytes := (bits + 7) / 8;
    bits := bytes * 8;
    var k := Probes(bitsPerKey);
    dst := Zeros(bytes);
    for i := 0 to |keys|
      invariant dst == AddKeys(hash, k, Zeros(bytes), keys[..i])
    {
      assert keys[..i + 1][..i] == keys[..i];
      var h: Word := hash(keys[i]);
      var delta := Delta(h);
      ghost var all := SetProbes(dst, h, delta, k);
      for j := 0 to k
        invariant |dst| == bytes && SetProbes(dst, h, delta, k - j) == all
      {
        var bitpos := h % bits;
        dst := SetBit(dst, bitpos);
        h := (h + delta) % TWO32;
      }
    }
    assert keys[..|keys|] == keys;
    dst := dst + [k];
  }

  method KeyMayMatch(hash: Hash, key: Bytes, filter: Bytes) returns (may: bool)
    ensures may == Matches(hash, key, filter)
  {
    hide Delta, Bit;
    if |filter| < 2 {
      return false;
    }
    var bitmap := filter[..|filter| - 1];
    var bits := |bitmap| * 8;
    var k := filter[|filter| - 1];
    if k > 30 {
      return true;
    }
    var h: Word := hash(key);
    var delta := Delta(h);
    for j := 0 to k
      invariant ProbesSet(bitmap, hash(key), Delta(hash(key)), k) == ProbesSet(bitmap, h, delta, k - j)
    {
      var bitpos := h % bits;
      if !Bit(bitmap, bitpos) {
        return false;
      }
      h := (h + delta) % TWO32;
    }
    may := true;
  }
}
