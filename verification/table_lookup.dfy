/** From entries to a table file and back to an entry, with the comparator and the filter policy that come built in. */
module TableLookups {
  import opened Bytestrings
  import opened Blocks
  import opened BlockIters
  import opened BloomFilters
  import opened Comparators
  import opened Crc32c
  import opened FilterBlocks
  import opened TableFormat
  import opened TableImages
  import opened TableReaders
  import IK = InternalKeys
  import TableBuilders

  /** Options with BytewiseComparator, wrapped for internal keys. */
  function BytewiseOptions(policy: Option<Policy>, policyName: Bytes, crc: Crc, blockSize: nat, interval: nat): Options {
    Options(Bytewise, IK.InternalRank, Separator, Successor, policy, policyName, crc, blockSize, interval)
  }

  /** The bytewise comparator keeps everything that tables ask of a comparator. */
  lemma BytewiseIsSound(policy: Option<Policy>, policyName: Bytes, crc: Crc, blockSize: nat, interval: nat)
    requires interval >= 1 && (policy.Some? ==> NeverRejects(Bytewise, policy.value))
    ensures Sound(BytewiseOptions(policy, policyName, crc, blockSize, interval))
  {
    hide IK.Lifts, Separates, Succeeds, NeverRejects;
    IK.BytewiseLifts();
    BytewiseSeparates();
    BytewiseSucceeds();
  }

  /** And with the built-in filter policy nothing is left to assume, whatever the hash and the number of bits. */
  lemma BytewiseBloomIsSound(hash: Hash, bitsPerKey: nat, policyName: Bytes, crc: Crc, blockSize: nat, interval: nat)
    requires interval >= 1
    ensures Sound(BytewiseOptions(Some(BloomPolicy(hash, bitsPerKey)), policyName, crc, blockSize, interval))
  {
    hide NeverRejects, Bytewise, BloomPolicy;
    forall a, b | Bytewise(a) == Bytewise(b) ensures a == b { BytewiseIsLexicographic(a, b); }
    BloomNeverRejects(Bytewise, hash, bitsPerKey);
    BytewiseIsSound(Some(BloomPolicy(hash, bitsPerKey)), policyName, crc, blockSize, interval);
  }

  lemma PartInFile(crc: Crc, file: Bytes, p: Part)
    requires PartOk(crc, file, p)
    ensures p.handle.size < |file|
  {
    hide Laid, Finished, Stored;
  }

  /** A table file under 2^32 bytes is addressable: every block lies within it. */
  lemma SmallIsAddressable(o: Options, file: Bytes, t: Image)
    requires IsTable(o, file, t) && |file| < TWO32
    ensures Addressable(file, t)
  {
    hide PartOk, Cut, SepsOk, IsEntries, HoldsFilters, Filtered, FooterOk, IndexOk, Stored;
    PartInFile(o.crc, file, t.index);
    PartInFile(o.crc, file, t.meta);
    forall i | 0 <= i < |t.parts| ensures t.parts[i].handle.size < TWO32 { PartInFile(o.crc, file, t.parts[i]); }
  }

  /**
   * Writing rising entries to a table file, opening it and looking k up: what is found is the first entry at or after
   * k, and it is found whenever its user key is k's. Only the size of the file decides whether it can be looked up.
   */
  method BuildAndGet(o: Options, entries: seq<Pair>, verify: bool, k: Bytes) returns (file: Bytes, ok: bool, hit: Option<Pair>)
    requires Sound(o) && IsEntries(o, entries) && IK.IsKey(k)
    ensures exists t :: IsTable(o, file, t) && t.entries == entries
    ensures ok <==> |file| < TWO32
    ensures ok ==> forall i :: IsFirst(o.rank, entries, k, i) ==> Delivered(o.order, entries, k, i, hit)
  {
    hide *;
    file := TableBuilders.Build(o, entries);
    ghost var image :| IsTable(o, file, image) && image.entries == entries;
    ok, hit := |file| < TWO32, None;
    if ok {
      SmallIsAddressable(o, file, image);
      var t := Open(o, file, verify, image);
      hit := t.InternalGet(k);
    }
  }
}
