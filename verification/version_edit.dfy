/** Version edits and their records in the manifest (version_edit.cc). */
module VersionEdits {
  import opened Bytestrings
  import opened Coding

  const NUM_LEVELS: nat := 7

  /** FileMetaData; the keys are internal keys as they are stored. */
  datatype Meta = Meta(number: nat, size: nat, smallest: Bytes, largest: Bytes)

  /** An edit. The deleted files are an ordered set, kept as an ascending list. */
  datatype Edit = Edit(comparator: Option<Bytes>, logNumber: Option<nat>, prevLogNumber: Option<nat>, nextFile: Option<nat>,
                       lastSeq: Option<nat>, pointers: seq<(nat, Bytes)>, deleted: seq<(nat, nat)>, added: seq<(nat, Meta)>)

  const NO_EDIT: Edit := Edit(None, None, None, None, None, [], [], [])

  predicate Before(a: (nat, nat), b: (nat, nat)) {
    a.0 < b.0 || (a.0 == b.0 && a.1 < b.1)
  }

  ghost predicate Ascending(s: seq<(nat, nat)>) {
    forall i, j :: 0 <= i < j < |s| ==> Before(s[i], s[j])
  }

  /** std::set::insert. */
  function Insert(s: seq<(nat, nat)>, x: (nat, nat)): (r: seq<(nat, nat)>)
    ensures forall y :: y in r <==> y in s || y == x
  {
    if s == [] || Before(x, s[0]) then [x] + s
    else if x == s[0] then s
    else
      assert s == [s[0]] + s[1..];
      [s[0]] + Insert(s[1..], x)
  }

  // ---- Records ----

  /** One tagged entry of a record. */
  datatype Item =
    | ComparatorItem(name: Bytes) | LogNumberItem(n: nat) | PrevLogNumberItem(n: nat) | NextFileItem(n: nat) | LastSeqItem(n: nat)
    | PointerItem(level: nat, key: Bytes) | DeletedItem(level: nat, n: nat) | AddedItem(level: nat, f: Meta)

  const COMPARATOR: nat := 1
  const LOG_NUMBER: nat := 2
  const NEXT_FILE: nat := 3
  const LAST_SEQUENCE: nat := 4
  const COMPACT_POINTER: nat := 5
  const DELETED_FILE: nat := 6
  const NEW_FILE: nat := 7
  const PREV_LOG_NUMBER: nat := 9

  function ItemBytes(item: Item): Bytes {
    match item
    case ComparatorItem(name) => PutVarint(COMPARATOR) + PutLengthPrefixed(name)
    case LogNumberItem(n) => PutVarint(LOG_NUMBER) + PutVarint(n)
    case PrevLogNumberItem(n) => PutVarint(PREV_LOG_NUMBER) + PutVarint(n)
    case NextFileItem(n) => PutVarint(NEXT_FILE) + PutVarint(n)
    case LastSeqItem(n) => PutVarint(LAST_SEQUENCE) + PutVarint(n)
    case PointerItem(level, key) => PutVarint(COMPACT_POINTER) + (PutVarint(level) + PutLengthPrefixed(key))
    case DeletedItem(level, n) => PutVarint(DELETED_FILE) + (PutVarint(level) + PutVarint(n))
    case AddedItem(level, f) =>
      PutVarint(NEW_FILE) + (PutVarint(level) + (PutVarint(f.number) + (PutVarint(f.size)
        + (PutLengthPrefixed(f.smallest) + PutLengthPrefixed(f.largest)))))
  }

  function ItemsBytes(items: seq<Item>): Bytes {
    if items == [] then [] else ItemsBytes(items[..|items| - 1]) + ItemBytes(items[|items| - 1])
  }

  function PointerItems(ps: seq<(nat, Bytes)>): seq<Item> {
    seq(|ps|, i requires 0 <= i < |ps| => PointerItem(ps[i].0, ps[i].1))
  }

  function DeletedItems(ds: seq<(nat, nat)>): seq<Item> {
    seq(|ds|, i requires 0 <= i < |ds| => DeletedItem(ds[i].0, ds[i].1))
  }

  function AddedItems(fs: seq<(nat, Meta)>): seq<Item> {
    seq(|fs|, i requires 0 <= i < |fs| => AddedItem(fs[i].0, fs[i].1))
  }

  /** The single-valued entries an edit has, in the order they are written. */
  function HeadItems(e: Edit): seq<Item> {
    (if e.comparator.Some? then [ComparatorItem(e.comparator.value)] else [])
    + (if e.logNumber.Some? then [LogNumberItem(e.logNumber.value)] else [])
    + (if e.prevLogNumber.Some? then [PrevLogNumberItem(e.prevLogNumber.value)] else [])
    + (if e.nextFile.Some? then [NextFileItem(e.nextFile.value)] else [])
    + (if e.lastSeq.Some? then [LastSeqItem(e.lastSeq.value)] else [])
  }

  function Items(e: Edit): seq<Item> {
    HeadItems(e) + PointerItems(e.pointers) + DeletedItems(e.deleted) + AddedItems(e.added)
  }

  /** What an entry does to the edit it is decoded into. */
  function Absorb(e: Edit, item: Item): Edit {
    match item
    case ComparatorItem(name) => e.(comparator := Some(name))
    case LogNumberItem(n) => e.(logNumber := Some(n))
    case PrevLogNumberItem(n) => e.(prevLogNumber := Some(n))
    case NextFileItem(n) => e.(nextFile := Some(n))
    case LastSeqItem(n) => e.(lastSeq := Some(n))
    case PointerItem(level, key) => e.(pointers := e.pointers + [(level, key)])
    case DeletedItem(level, n) => e.(deleted := Insert(e.deleted, (level, n)))
    case AddedItem(level, f) => e.(added := e.added + [(level, f)])
  }

  function AbsorbAll(e: Edit, items: seq<Item>): Edit {
    if items == [] then e else Absorb(AbsorbAll(e, items[..|items| - 1]), items[|items| - 1])
  }

  // ---- Reading a record ----

  function GetLevel(s: Bytes): (r: Option<(nat, Bytes)>)
    ensures r.Some? ==> |r.value.1| < |s|
  {
    match GetVarint32(s)
    case None => None
    case Some(p) => if p.0 < NUM_LEVELS then Some(p) else None
  }

  function NumberItem(tag: nat, n: nat): Item {
    if tag == LOG_NUMBER then LogNumberItem(n)
    else if tag == PREV_LOG_NUMBER then PrevLogNumberItem(n)
    else if tag == NEXT_FILE then NextFileItem(n)
    else LastSeqItem(n)
  }

  function GetNewFile(s: Bytes): (r: Option<(Meta, Bytes)>)
    ensures r.Some? ==> |r.value.1| < |s|
  {
    match GetVarint64(s)
    case None => None
    case Some(a) =>
      match GetVarint64(a.1)
      case None => None
      case Some(b) =>
        match GetLengthPrefixed(b.1)
        case None => None
        case Some(c) =>
          match GetLengthPrefixed(c.1)
          case None => None
          case Some(d) => Some((Meta(a.0, b.0, c.0, d.0), d.1))
  }

  /** The entry that follows a tag. */
  function GetItem(tag: nat, s: Bytes): (r: Option<(Item, Bytes)>)
    ensures r.Some? ==> |r.value.1| < |s|
  {
    if tag == COMPARATOR then
      (match GetLengthPrefixed(s) case None => None case Some(p) => Some((ComparatorItem(p.0), p.1)))
    else if tag in {LOG_NUMBER, PREV_LOG_NUMBER, NEXT_FILE, LAST_SEQUENCE} then
      (match GetVarint64(s) case None => None case Some(p) => Some((NumberItem(tag, p.0), p.1)))
    else if tag == COMPACT_POINTER || tag == DELETED_FILE || tag == NEW_FILE then
      match GetLevel(s)
      case None => None
      case Some(l) =>
        if tag == COMPACT_POINTER then
          (match GetLengthPrefixed(l.1) case None => None case Some(p) => Some((PointerItem(l.0, p.0), p.1)))
        else if tag == DELETED_FILE then
          (match GetVarint64(l.1) case None => None case Some(p) => Some((DeletedItem(l.0, p.0), p.1)))
        else (match GetNewFile(l.1) case None => None case Some(p) => Some((AddedItem(l.0, p.0), p.1)))
    else None
  }

  /** The loop of DecodeFrom on an edit that already holds e; None is a corruption status. */
  function DecodeLoop(s: Bytes, e: Edit): Option<Edit>
    decreases |s|
  {
    match GetVarint32(s)
    case None => if s == [] then Some(e) else None
    case Some(t) =>
      match GetItem(t.0, t.1)
      case None => None
      case Some(p) => DecodeLoop(p.1, Absorb(e, p.0))
  }

  /** VersionEdit::Clear leaves the compaction pointers where they are. */
  function Cleared(e: Edit): Edit {
    NO_EDIT.(pointers := e.pointers)
  }

  // ---- The class ----

  class VersionEdit {
    var comparator: Option<Bytes>
    var logNumber: Option<nat>
    var prevLogNumber: Option<nat>
    var nextFile: Option<nat>
    var lastSeq: Option<nat>
    var pointers: seq<(nat, Bytes)>
    var deleted: seq<(nat, nat)>
    var added: seq<(nat, Meta)>

    function Value(): Edit
      reads this
    {
      Edit(comparator, logNumber, prevLogNumber, nextFile, lastSeq, pointers, deleted, added)
    }

    constructor ()
      ensures Value() == NO_EDIT
    {
      comparator, logNumber, prevLogNumber, nextFile, lastSeq := None, None, None, None, None;
      pointers, deleted, added := [], [], [];
    }

    method Clear()
      modifies this
      ensures Value() == Cleared(old(Value()))
    {
      comparator, logNumber, prevLogNumber, nextFile, lastSeq := None, None, None, None, None;
      deleted, added := [], [];
    }

    method EncodeTo() returns (dst: Bytes)
      ensures dst == ItemsBytes(Items(Value()))
    {
      hide ItemBytes;
      var e := Value();
      dst := PutHead(e);
      dst := PutPointers(dst, e.pointers, HeadItems(e));
      dst := PutDeleted(dst, e.deleted, HeadItems(e) + PointerItems(e.pointers));
      dst := PutAdded(dst, e.added, HeadItems(e) + PointerItems(e.pointers) + DeletedItems(e.deleted));
    }

    /** An entry decoded from a record goes into the fields. */
    method Take(item: Item)
      modifies this
      ensures Value() == Absorb(old(Value()), item)
    {
      match item
      case ComparatorItem(name) => comparator := Some(name);
      case LogNumberItem(n) => logNumber := Some(n);
      case PrevLogNumberItem(n) => prevLogNumber := Some(n);
      case NextFileItem(n) => nextFile := Some(n);
      case LastSeqItem(n) => lastSeq := Some(n);
      case PointerItem(level, key) => pointers := pointers + [(level, key)];
      case DeletedItem(level, n) => deleted := Insert(deleted, (level, n));
      case AddedItem(level, f) => added := added + [(level, f)];
    }

    /** Decodes into this object, which need not be fresh. */
    method DecodeFrom(src: Bytes) returns (ok: bool)
      modifies this
      ensures ok == DecodeLoop(src, Cleared(old(Value()))).Some?
      ensures ok ==> Value() == DecodeLoop(src, Cleared(old(Value()))).value
    {
      hide GetItem, Absorb, GetVarint32;
      Clear();
      var input := src;
      while true
        invariant DecodeLoop(input, Value()) == DecodeLoop(src, Cleared(old(Value())))
        decreases |input|
      {
        var tag := GetVarint32(input);
        if tag.None? {
          return input == [];
        }
        var item := GetItem(tag.value.0, tag.value.1);
        if item.None? {
          return false;
        }
        Take(item.value.0);
        input := item.value.1;
      }
    }
  }

  // ---- Writing a record ----

  lemma OneMore(items: seq<Item>, item: Item)
    ensures ItemsBytes(items + [item]) == ItemsBytes(items) + ItemBytes(item)
  {
    assert (items + [item])[..|items|] == items;
  }

  method PutItem(dst: Bytes, item: Item, ghost items: seq<Item>) returns (dst': Bytes)
    requires dst == ItemsBytes(items)
    ensures dst' == ItemsBytes(items + [item])
  {
    OneMore(items, item);
    dst' := dst + ItemBytes(item);
  }

  method PutHead(e: Edit) returns (dst: Bytes)
    ensures dst == ItemsBytes(HeadItems(e))
  {
    hide ItemBytes, ItemsBytes;
    ghost var items := [];
    dst := [];
    NoBytes();
    if e.comparator.Some? { dst := PutItem(dst, ComparatorItem(e.comparator.value), items); items := items + [ComparatorItem(e.comparator.value)]; }
    if e.logNumber.Some? { dst := PutItem(dst, LogNumberItem(e.logNumber.value), items); items := items + [LogNumberItem(e.logNumber.value)]; }
    if e.prevLogNumber.Some? { dst := PutItem(dst, PrevLogNumberItem(e.prevLogNumber.value), items); items := items + [PrevLogNumberItem(e.prevLogNumber.value)]; }
    if e.nextFile.Some? { dst := PutItem(dst, NextFileItem(e.nextFile.value), items); items := items + [NextFileItem(e.nextFile.value)]; }
    if e.lastSeq.Some? { dst := PutItem(dst, LastSeqItem(e.lastSeq.value), items); items := items + [LastSeqItem(e.lastSeq.value)]; }
    assert items == HeadItems(e);
  }

  lemma NoBytes()
    ensures ItemsBytes([]) == []
  {
  }

  method PutPointers(dst: Bytes, ps: seq<(nat, Bytes)>, ghost items: seq<Item>) returns (dst': Bytes)
    requires dst == ItemsBytes(items)
    ensures dst' == ItemsBytes(items + PointerItems(ps))
  {
    hide ItemBytes, ItemsBytes;
    dst' := dst;
    assert items + PointerItems(ps[..0]) == items;
    for i := 0 to |ps|
      invariant dst' == ItemsBytes(items + PointerItems(ps[..i]))
    {
      var item := PointerItem(ps[i].0, ps[i].1);
      dst' := PutItem(dst', item, items + PointerItems(ps[..i]));
      assert items + PointerItems(ps[..i]) + [item] == items + PointerItems(ps[..i + 1]);
    }
    assert ps[..|ps|] == ps;
  }

  method PutDeleted(dst: Bytes, ds: seq<(nat, nat)>, ghost items: seq<Item>) returns (dst': Bytes)
    requires dst == ItemsBytes(items)
    ensures dst' == ItemsBytes(items + DeletedItems(ds))
  {
    hide ItemBytes, ItemsBytes;
    dst' := dst;
    assert items + DeletedItems(ds[..0]) == items;
    for i := 0 to |ds|
      invariant dst' == ItemsBytes(items + DeletedItems(ds[..i]))
    {
      var item := DeletedItem(ds[i].0, ds[i].1);
      dst' := PutItem(dst', item, items + DeletedItems(ds[..i]));
      assert items + DeletedItems(ds[..i]) + [item] == items + DeletedItems(ds[..i + 1]);
    }
    assert ds[..|ds|] == ds;
  }

  method PutAdded(dst: Bytes, fs: seq<(nat, Meta)>, ghost items: seq<Item>) returns (dst': Bytes)
    requires dst == ItemsBytes(items)
    ensures dst' == ItemsBytes(items + AddedItems(fs))
  {
    hide ItemBytes, ItemsBytes;
    dst' := dst;
    assert items + AddedItems(fs[..0]) == items;
    for i := 0 to |fs|
      invariant dst' == ItemsBytes(items + AddedItems(fs[..i]))
    {
      var item := AddedItem(fs[i].0, fs[i].1);
      dst' := PutItem(dst', item, items + AddedItems(fs[..i]));
      assert items + AddedItems(fs[..i]) + [item] == items + AddedItems(fs[..i + 1]);
    }
    assert fs[..|fs|] == fs;
  }

  // ---- Round trip ----

  /** The fields of an entry fit the widths they are stored in. */
  predicate ItemOk(item: Item) {
    match item
    case ComparatorItem(name) => |name| < TWO32
    case PointerItem(level, key) => level < NUM_LEVELS && |key| < TWO32
    case DeletedItem(level, n) => level < NUM_LEVELS && n < TWO64
    case AddedItem(level, f) =>
      level < NUM_LEVELS && f.number < TWO64 && f.size < TWO64 && |f.smallest| < TWO32 && |f.largest| < TWO32
    case _ => item.n < TWO64
  }

  ghost predicate EditOk(e: Edit) {
    Ascending(e.deleted) && forall item :: item in Items(e) ==> ItemOk(item)
  }

  lemma Append3(a: Bytes, b: Bytes, c: Bytes)
    ensures a + b + c == a + (b + c)
  {
  }

  lemma LevelRoundTrip(level: nat, rest: Bytes)
    requires level < NUM_LEVELS
    ensures GetLevel(PutVarint(level) + rest) == Some((level, rest))
  {
    hide GetVarint32, PutVarint;
    Varint32RoundTrip(level, rest);
  }

  lemma NewFileRoundTrip(f: Meta, rest: Bytes)
    requires f.number < TWO64 && f.size < TWO64 && |f.smallest| < TWO32 && |f.largest| < TWO32
    ensures GetNewFile(PutVarint(f.number) + (PutVarint(f.size) + (PutLengthPrefixed(f.smallest) + PutLengthPrefixed(f.largest)))
                       + rest) == Some((f, rest))
  {
    hide GetVarint64, PutVarint, GetLengthPrefixed, PutLengthPrefixed;
    var d := PutLengthPrefixed(f.largest) + rest;
    var c := PutLengthPrefixed(f.smallest) + d;
    var b := PutVarint(f.size) + c;
    assert PutVarint(f.number) + (PutVarint(f.size) + (PutLengthPrefixed(f.smallest) + PutLengthPrefixed(f.largest))) + rest
        == PutVarint(f.number) + b;
    Varint64RoundTrip(f.number, b);
    Varint64RoundTrip(f.size, c);
    LengthPrefixedRoundTrip(f.smallest, d);
    LengthPrefixedRoundTrip(f.largest, rest);
  }

  function TagOf(item: Item): nat {
    match item
    case ComparatorItem(_) => COMPARATOR
    case LogNumberItem(_) => LOG_NUMBER
    case PrevLogNumberItem(_) => PREV_LOG_NUMBER
    case NextFileItem(_) => NEXT_FILE
    case LastSeqItem(_) => LAST_SEQUENCE
    case PointerItem(_, _) => COMPACT_POINTER
    case DeletedItem(_, _) => DELETED_FILE
    case AddedItem(_, _) => NEW_FILE
  }

  /** What follows the tag. */
  function Body(item: Item): Bytes {
    match item
    case ComparatorItem(name) => PutLengthPrefixed(name)
    case PointerItem(level, key) => PutVarint(level) + PutLengthPrefixed(key)
    case DeletedItem(level, n) => PutVarint(level) + PutVarint(n)
    case AddedItem(level, f) => PutVarint(level) + (PutVarint(f.number) + (PutVarint(f.size)
        + (PutLengthPrefixed(f.smallest) + PutLengthPrefixed(f.largest))))
    case _ => PutVarint(item.n)
  }

  lemma BodyRoundTrip(item: Item, rest: Bytes)
    requires ItemOk(item)
    ensures GetItem(TagOf(item), Body(item) + rest) == Some((item, rest))
  {
    hide GetVarint64, GetVarint32, PutVarint, GetLengthPrefixed, PutLengthPrefixed, GetNewFile, GetLevel;
    match item
    case ComparatorItem(name) => LengthPrefixedRoundTrip(name, rest);
    case PointerItem(level, key) =>
      Append3(PutVarint(level), PutLengthPrefixed(key), rest);
      LevelRoundTrip(level, PutLengthPrefixed(key) + rest);
      LengthPrefixedRoundTrip(key, rest);
    case DeletedItem(level, n) =>
      Append3(PutVarint(level), PutVarint(n), rest);
      LevelRoundTrip(level, PutVarint(n) + rest);
      Varint64RoundTrip(n, rest);
    case AddedItem(level, f) =>
      var file := PutVarint(f.number) + (PutVarint(f.size) + (PutLengthPrefixed(f.smallest) + PutLengthPrefixed(f.largest)));
      Append3(PutVarint(level), file, rest);
      LevelRoundTrip(level, file + rest);
      NewFileRoundTrip(f, rest);
    case _ => Varint64RoundTrip(item.n, rest);
  }

  lemma LoopReadsItem(item: Item, rest: Bytes, e: Edit)
    requires ItemOk(item)
    ensures DecodeLoop(ItemBytes(item) + rest, e) == DecodeLoop(rest, Absorb(e, item))
  {
    hide GetVarint32, PutVarint, PutLengthPrefixed, GetItem, Absorb;
    assert ItemBytes(item) == PutVarint(TagOf(item)) + Body(item);
    Append3(PutVarint(TagOf(item)), Body(item), rest);
    Varint32RoundTrip(TagOf(item), Body(item) + rest);
    BodyRoundTrip(item, rest);
  }

  lemma {:induction false} LoopReadsItems(items: seq<Item>, rest: Bytes, e: Edit)
    requires forall item :: item in items ==> ItemOk(item)
    ensures DecodeLoop(ItemsBytes(items) + rest, e) == DecodeLoop(rest, AbsorbAll(e, items))
  {
    hide DecodeLoop, ItemBytes, Absorb;
    if items == [] {
      assert [] + rest == rest;
    } else {
      var init, last := items[..|items| - 1], items[|items| - 1];
      Append3(ItemsBytes(init), ItemBytes(last), rest);
      LoopReadsItems(init, ItemBytes(last) + rest, e);
      LoopReadsItem(last, rest, AbsorbAll(e, init));
    }
  }

  lemma GetLevelExtends(s: Bytes, more: Bytes)
    requires GetLevel(s).Some?
    ensures GetLevel(s + more) == Some((GetLevel(s).value.0, GetLevel(s).value.1 + more))
  {
    hide GetVarint32;
    GetVarintExtends(s, more);
  }

  lemma GetNewFileExtends(s: Bytes, more: Bytes)
    requires GetNewFile(s).Some?
    ensures GetNewFile(s + more) == Some((GetNewFile(s).value.0, GetNewFile(s).value.1 + more))
  {
    hide GetVarint64, GetLengthPrefixed;
    GetVarintExtends(s, more);
    var a := GetVarint64(s).value;
    GetVarintExtends(a.1, more);
    var b := GetVarint64(a.1).value;
    GetLengthPrefixedExtends(b.1, more);
    GetLengthPrefixedExtends(GetLengthPrefixed(b.1).value.1, more);
  }

  lemma GetItemExtends(tag: nat, s: Bytes, more: Bytes)
    requires GetItem(tag, s).Some?
    ensures GetItem(tag, s + more) == Some((GetItem(tag, s).value.0, GetItem(tag, s).value.1 + more))
  {
    hide GetVarint64, GetLengthPrefixed, GetNewFile, GetLevel;
    if tag == COMPARATOR {
      GetLengthPrefixedExtends(s, more);
    } else if tag in {LOG_NUMBER, PREV_LOG_NUMBER, NEXT_FILE, LAST_SEQUENCE} {
      GetVarintExtends(s, more);
    } else {
      GetLevelExtends(s, more);
      var l := GetLevel(s).value;
      if tag == COMPACT_POINTER {
        GetLengthPrefixedExtends(l.1, more);
      } else if tag == DELETED_FILE {
        GetVarintExtends(l.1, more);
      } else {
        GetNewFileExtends(l.1, more);
      }
    }
  }

  /** An entry that is cut short makes the record corrupt. */
  lemma TruncatedFails(item: Item, n: nat, e: Edit)
    requires ItemOk(item) && 0 < n < |ItemBytes(item)|
    ensures DecodeLoop(ItemBytes(item)[..n], e) == None
  {
    hide GetItem, GetVarint32, ItemBytes, Absorb;
    var b := ItemBytes(item);
    var s, more := b[..n], b[n..];
    assert s + more == b;
    ItemParts(item);
    if GetVarint32(s).Some? {
      GetVarintExtends(s, more);
      var t := GetVarint32(s).value;
      if GetItem(t.0, t.1).Some? { GetItemExtends(t.0, t.1, more); }
    }
  }

  lemma ItemParts(item: Item)
    requires ItemOk(item)
    ensures GetVarint32(ItemBytes(item)).Some?
    ensures var t := GetVarint32(ItemBytes(item)).value; GetItem(t.0, t.1) == Some((item, []))
  {
    hide GetVarint32, PutVarint, PutLengthPrefixed, GetItem;
    assert ItemBytes(item) == PutVarint(TagOf(item)) + Body(item);
    Varint32RoundTrip(TagOf(item), Body(item));
    BodyRoundTrip(item, []);
    assert Body(item) + [] == Body(item);
  }

  /** A tag that is none, or an entry that is cut short, behind good entries makes the record corrupt. */
  lemma BrokenRecordFails(items: seq<Item>, tail: Bytes, e: Edit)
    requires forall item :: item in items ==> ItemOk(item)
    requires || (exists tag: nat, rest :: tail == PutVarint(tag) + rest && tag < TWO32 && tag !in {1, 2, 3, 4, 5, 6, 7, 9})
             || (exists item, n :: ItemOk(item) && 0 < n < |ItemBytes(item)| && tail == ItemBytes(item)[..n])
    ensures DecodeLoop(ItemsBytes(items) + tail, e) == None
  {
    hide DecodeLoop, ItemBytes, PutVarint, ItemsBytes;
    LoopReadsItems(items, tail, e);
    if item, n :| ItemOk(item) && 0 < n < |ItemBytes(item)| && tail == ItemBytes(item)[..n] {
      TruncatedFails(item, n, AbsorbAll(e, items));
    } else {
      var tag: nat, rest :| tail == PutVarint(tag) + rest && tag < TWO32 && tag !in {1, 2, 3, 4, 5, 6, 7, 9};
      OtherTagFails(tag, rest, AbsorbAll(e, items));
    }
  }

  lemma OtherTagFails(tag: nat, rest: Bytes, e: Edit)
    requires tag < TWO32 && tag !in {1, 2, 3, 4, 5, 6, 7, 9}
    ensures DecodeLoop(PutVarint(tag) + rest, e) == None
  {
    hide GetVarint32, PutVarint;
    Varint32RoundTrip(tag, rest);
  }

  lemma {:induction false} AbsorbConcat(e: Edit, a: seq<Item>, b: seq<Item>)
    ensures AbsorbAll(e, a + b) == AbsorbAll(AbsorbAll(e, a), b)
  {
    hide Absorb;
    if b == [] {
      assert a + b == a;
    } else {
      assert (a + b)[..|a + b| - 1] == a + b[..|b| - 1];
      AbsorbConcat(e, a, b[..|b| - 1]);
    }
  }

  lemma {:induction false} AbsorbPointers(e: Edit, ps: seq<(nat, Bytes)>)
    ensures AbsorbAll(e, PointerItems(ps)) == e.(pointers := e.pointers + ps)
  {
    if ps == [] {
      assert e.pointers + ps == e.pointers;
    } else {
      assert PointerItems(ps)[..|ps| - 1] == PointerItems(ps[..|ps| - 1]);
      AbsorbPointers(e, ps[..|ps| - 1]);
      assert e.pointers + ps[..|ps| - 1] + [ps[|ps| - 1]] == e.pointers + ps;
    }
  }

  lemma {:induction false} AbsorbAdded(e: Edit, fs: seq<(nat, Meta)>)
    ensures AbsorbAll(e, AddedItems(fs)) == e.(added := e.added + fs)
  {
    if fs == [] {
      assert e.added + fs == e.added;
    } else {
      assert AddedItems(fs)[..|fs| - 1] == AddedItems(fs[..|fs| - 1]);
      AbsorbAdded(e, fs[..|fs| - 1]);
      assert e.added + fs[..|fs| - 1] + [fs[|fs| - 1]] == e.added + fs;
    }
  }

  lemma {:induction false} InsertLast(s: seq<(nat, nat)>, x: (nat, nat))
    requires forall i :: 0 <= i < |s| ==> Before(s[i], x)
    ensures Insert(s, x) == s + [x]
  {
    if s != [] {
      assert Before(s[0], x);
      InsertLast(s[1..], x);
    }
  }

  lemma {:induction false} AbsorbDeleted(e: Edit, ds: seq<(nat, nat)>)
    requires e.deleted == [] && Ascending(ds)
    ensures AbsorbAll(e, DeletedItems(ds)) == e.(deleted := ds)
  {
    if ds != [] {
      assert DeletedItems(ds)[..|ds| - 1] == DeletedItems(ds[..|ds| - 1]);
      AbsorbDeleted(e, ds[..|ds| - 1]);
      InsertLast(ds[..|ds| - 1], ds[|ds| - 1]);
    }
  }

  lemma AbsorbHead(e: Edit, ps: seq<(nat, Bytes)>)
    ensures AbsorbAll(NO_EDIT.(pointers := ps), HeadItems(e)) == e.(pointers := ps, deleted := [], added := [])
  {
    hide AbsorbAll;
    var o := NO_EDIT.(pointers := ps);
    var a := if e.comparator.Some? then [ComparatorItem(e.comparator.value)] else [];
    var b := if e.logNumber.Some? then [LogNumberItem(e.logNumber.value)] else [];
    var c := if e.prevLogNumber.Some? then [PrevLogNumberItem(e.prevLogNumber.value)] else [];
    var d := if e.nextFile.Some? then [NextFileItem(e.nextFile.value)] else [];
    var f := if e.lastSeq.Some? then [LastSeqItem(e.lastSeq.value)] else [];
    AbsorbConcat(o, a + b + c + d, f);
    AbsorbConcat(o, a + b + c, d);
    AbsorbConcat(o, a + b, c);
    AbsorbConcat(o, a, b);
    AtMostOne(o, a);
    AtMostOne(AbsorbAll(o, a), b);
    AtMostOne(AbsorbAll(o, a + b), c);
    AtMostOne(AbsorbAll(o, a + b + c), d);
    AtMostOne(AbsorbAll(o, a + b + c + d), f);
  }

  lemma AtMostOne(e: Edit, items: seq<Item>)
    requires |items| <= 1
    ensures AbsorbAll(e, items) == if items == [] then e else Absorb(e, items[0])
  {
  }

  lemma AbsorbItems(e: Edit, ps: seq<(nat, Bytes)>)
    requires Ascending(e.deleted)
    ensures AbsorbAll(NO_EDIT.(pointers := ps), Items(e)) == e.(pointers := ps + e.pointers)
  {
    hide AbsorbAll, HeadItems;
    var o := NO_EDIT.(pointers := ps);
    var head := e.(pointers := ps, deleted := [], added := []);
    AbsorbHead(e, ps);
    AbsorbConcat(o, HeadItems(e) + PointerItems(e.pointers) + DeletedItems(e.deleted), AddedItems(e.added));
    AbsorbConcat(o, HeadItems(e) + PointerItems(e.pointers), DeletedItems(e.deleted));
    AbsorbConcat(o, HeadItems(e), PointerItems(e.pointers));
    AbsorbPointers(head, e.pointers);
    AbsorbDeleted(head.(pointers := ps + e.pointers), e.deleted);
    AbsorbAdded(head.(pointers := ps + e.pointers, deleted := e.deleted), e.added);
    assert [] + e.added == e.added;
  }

  lemma EmptyInput(e: Edit)
    ensures DecodeLoop([], e) == Some(e)
  {
  }

  /** Decoding an encoded edit into an object gives the edit, after whatever compaction pointers the object held. */
  lemma RecordRoundTrip(e: Edit, was: Edit)
    requires EditOk(e)
    ensures DecodeLoop(ItemsBytes(Items(e)), Cleared(was)) == Some(e.(pointers := was.pointers + e.pointers))
  {
    hide ItemsBytes, AbsorbAll, Items;
    LoopReadsItems(Items(e), [], Cleared(was));
    assert ItemsBytes(Items(e)) + [] == ItemsBytes(Items(e));
    AbsorbItems(e, was.pointers);
    EmptyInput(e.(pointers := was.pointers + e.pointers));
  }

  /** So an edit comes back exactly when the object it is decoded into holds no compaction pointers, as a fresh one. */
  lemma EditRoundTrip(e: Edit, was: Edit)
    requires EditOk(e)
    ensures DecodeLoop(ItemsBytes(Items(e)), Cleared(was)) == Some(e) <==> was.pointers == []
  {
    hide DecodeLoop, ItemsBytes, Items;
    RecordRoundTrip(e, was);
    assert was.pointers == [] ==> was.pointers + e.pointers == e.pointers;
    assert |was.pointers + e.pointers| == |was.pointers| + |e.pointers|;
  }
}
