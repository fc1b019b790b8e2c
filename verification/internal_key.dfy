/** Internal keys as byte strings: the user key, then eight bytes of sequence number and type (db/dbformat.cc). */
module InternalKeys {
  import opened Bytestrings
  import opened Coding
  import opened Comparators
  import Format

  predicate IsKey(k: Bytes) {
    |k| >= 8
  }

  function UserPart(k: Bytes): Bytes {
    if IsKey(k) then k[..|k| - 8] else []
  }

  function TagPart(k: Bytes): (tag: nat) {
    if IsKey(k) then GetFixed(k[|k| - 8..]) else 0
  }

  /** The sequence number and type that stand before all others of a user key. */
  const SEEK_TAG: nat := Format.MAX_SEQUENCE * 256 + 1

  /** InternalKeyComparator::Compare below zero. */
  predicate KeyLess(order: Order, a: Bytes, b: Bytes) {
    order(UserPart(a)) < order(UserPart(b)) || (order(UserPart(a)) == order(UserPart(b)) && TagPart(a) > TagPart(b))
  }

  /** rank is the order of internal keys that belongs to a user order. */
  ghost predicate Lifts(order: Order, rank: Order) {
    forall a, b :: IsKey(a) && IsKey(b) ==> (rank(a) < rank(b) <==> KeyLess(order, a, b))
  }

  function Sealed(user: Bytes): (k: Bytes)
    ensures IsKey(k)
  {
    user + PutFixed(8, SEEK_TAG)
  }

  lemma PartsOfSealed(user: Bytes)
    ensures UserPart(Sealed(user)) == user && TagPart(Sealed(user)) == SEEK_TAG
  {
    hide PutFixed, GetFixed;
    PowersOf256();
    FixedRoundTrip(8, SEEK_TAG);
    assert Sealed(user)[|user|..] == PutFixed(8, SEEK_TAG);
  }

  /** InternalKeyComparator::FindShortestSeparator: the user key is replaced only by a shorter and larger one. */
  function FindShortestSeparator(order: Order, sep: (Bytes, Bytes) -> Bytes, start: Bytes, limit: Bytes): Bytes
    requires IsKey(start) && IsKey(limit)
  {
    var tmp := sep(UserPart(start), UserPart(limit));
    if |tmp| < |UserPart(start)| && order(UserPart(start)) < order(tmp) then Sealed(tmp) else start
  }

  function FindShortSuccessor(order: Order, succ: Bytes -> Bytes, key: Bytes): Bytes
    requires IsKey(key)
  {
    var tmp := succ(UserPart(key));
    if |tmp| < |UserPart(key)| && order(UserPart(key)) < order(tmp) then Sealed(tmp) else key
  }

  /** Between start and limit; a shortened separator has a user key strictly between theirs. */
  lemma SeparatorLies(order: Order, sep: (Bytes, Bytes) -> Bytes, start: Bytes, limit: Bytes)
    requires IsKey(start) && IsKey(limit) && KeyLess(order, start, limit) && Separates(order, sep)
    ensures var r := FindShortestSeparator(order, sep, start, limit);
      && IsKey(r) && |r| <= |start| && !KeyLess(order, r, start) && KeyLess(order, r, limit)
      && (r == start || (order(UserPart(start)) < order(UserPart(r)) < order(UserPart(limit))))
  {
    hide TagPart, Sealed;
    var tmp := sep(UserPart(start), UserPart(limit));
    PartsOfSealed(tmp);
    SealedSize(tmp);
  }

  lemma SealedSize(user: Bytes)
    ensures |Sealed(user)| == |user| + 8
  {
  }

  lemma SuccessorLies(order: Order, succ: Bytes -> Bytes, key: Bytes)
    requires IsKey(key) && Succeeds(order, succ)
    ensures var r := FindShortSuccessor(order, succ, key);
      IsKey(r) && |r| <= |key| && !KeyLess(order, r, key)
  {
    hide TagPart, Sealed;
    var tmp := succ(UserPart(key));
    PartsOfSealed(tmp);
    SealedSize(tmp);
  }

  /** Over the bytewise comparator the user key is cut where it first leaves room below the limit's. */
  lemma BytewiseShortens(start: Bytes, limit: Bytes, d: nat)
    requires IsKey(start) && IsKey(limit) && d + 1 < |UserPart(start)| && d < |UserPart(limit)|
    requires UserPart(start)[..d] == UserPart(limit)[..d]
    requires UserPart(start)[d] < 0xff && UserPart(start)[d] + 1 < UserPart(limit)[d]
    ensures var r := FindShortestSeparator(Bytewise, Separator, start, limit);
      UserPart(r) == UserPart(start)[..d] + [UserPart(start)[d] + 1] && TagPart(r) == SEEK_TAG && |r| == d + 9
  {
    hide TagPart, Sealed, UserPart, Separator, Bytewise;
    var a, tmp := UserPart(start), UserPart(start)[..d] + [UserPart(start)[d] + 1];
    SeparatorIsShort(a, UserPart(limit), d);
    RaisedIsAbove(a, d);
    PartsOfSealed(tmp);
    SealedSize(tmp);
  }

  /** And for a successor it is cut after the first byte that can be raised. */
  lemma BytewiseSuccessorShortens(key: Bytes, i: nat)
    requires IsKey(key) && i + 1 < |UserPart(key)| && UserPart(key)[i] != 0xff
    requires forall k :: 0 <= k < i ==> UserPart(key)[k] == 0xff
    ensures var r := FindShortSuccessor(Bytewise, Successor, key);
      UserPart(r) == UserPart(key)[..i] + [UserPart(key)[i] + 1] && TagPart(r) == SEEK_TAG && |r| == i + 9
  {
    hide TagPart, Sealed, UserPart, Successor, Bytewise;
    var a, tmp := UserPart(key), UserPart(key)[..i] + [UserPart(key)[i] + 1];
    SuccessorIsShort(a, i);
    RaisedIsAbove(a, i);
    PartsOfSealed(tmp);
    SealedSize(tmp);
  }

  lemma RaisedIsAbove(a: Bytes, d: nat)
    requires d < |a| && a[d] < 0xff
    ensures Bytewise(a) < Bytewise(a[..d] + [a[d] + 1])
  {
    hide Bytewise;
    LexAfterPrefix(a[..d], a[d..], [a[d] + 1]);
    assert a == a[..d] + a[d..];
    BytewiseIsLexicographic(a, a[..d] + [a[d] + 1]);
  }

  // ---- The bytewise order has such a rank ----

  /** The rank of a user key with a fraction after its end. */
  function Fraction(s: Bytes, end: real): (r: real)
    requires 0.0 <= end < 1.0
    ensures 0.0 <= r < 1.0
  {
    if s == [] then end / 257.0 else (s[0] as real + 1.0 + Fraction(s[1..], end)) / 257.0
  }

  lemma {:induction false} FractionOrders(a: Bytes, x: real, b: Bytes, y: real)
    requires 0.0 <= x < 1.0 && 0.0 <= y < 1.0
    ensures Fraction(a, x) < Fraction(b, y) <==> LexLess(a, b) || (a == b && x < y)
    ensures Fraction(a, x) == Fraction(b, y) <==> a == b && x == y
  {
    if a != [] && b != [] {
      FractionOrders(a[1..], x, b[1..], y);
      assert a == [a[0]] + a[1..] && b == [b[0]] + b[1..];
    }
  }

  function TagFraction(tag: nat): (r: real)
    requires tag < TWO64
    ensures 0.0 <= r < 1.0
  {
    1.0 - (tag + 1) as real / TWO64 as real
  }

  lemma TagFractionFalls(a: nat, b: nat)
    requires a < TWO64 && b < TWO64
    ensures TagFraction(a) < TagFraction(b) <==> a > b
  {
  }

  function InternalRank(k: Bytes): real {
    if IsKey(k) && TagPart(k) < TWO64 then Fraction(UserPart(k), TagFraction(TagPart(k))) else 0.0
  }

  lemma TagBound(k: Bytes)
    ensures TagPart(k) < TWO64
  {
    hide GetFixed;
    PowersOf256();
    if IsKey(k) { GetFixedBound(k[|k| - 8..]); }
  }

  lemma BytewiseLifts()
    ensures Lifts(Bytewise, InternalRank)
  {
    hide TagPart, UserPart, LexLess, Fraction, Bytewise, TagFraction;
    forall a, b | IsKey(a) && IsKey(b) ensures InternalRank(a) < InternalRank(b) <==> KeyLess(Bytewise, a, b) {
      TagBound(a);
      TagBound(b);
      FractionOrders(UserPart(a), TagFraction(TagPart(a)), UserPart(b), TagFraction(TagPart(b)));
      BytewiseIsLexicographic(UserPart(a), UserPart(b));
      TagFractionFalls(TagPart(a), TagPart(b));
    }
  }
}
