/** The remembered formats: hexadecimal format bytes under their checksum. */
module DvCache {
  import opened Hex
  import opened Wrappers
  import opened DvSpec
  import opened DvPrint
  import opened DvCompact
  import opened DvValues

  // The checksum of src/util.cc.

  function CrcBit(crc: bv16, b: bv8): bv16 {
    if ((((crc & 0x8000) >> 8) as bv8) ^ (b & 0x80)) != 0 then (crc << 1) ^ 0x3D65 else crc << 1
  }

  function CrcBits(crc: bv16, b: bv8, n: nat): bv16
    decreases n
  {
    if n == 0 then crc else CrcBits(CrcBit(crc, b), b << 1, n - 1)
  }

  function CrcBytes(crc: bv16, bytes: Bytes): bv16
    decreases |bytes|
  {
    if bytes == [] then crc else CrcBytes(CrcBits(crc, bytes[0] as bv8, 8), bytes[1..])
  }

  type Signature = n: int | 0 <= n < 0x1_0000

  function Crc(bytes: Bytes): Signature {
    (!CrcBytes(0, bytes)) as int
  }

  type Cache = map<Signature, string>

  /** A format is remembered only if nothing is remembered under its checksum. */
  function Learn(cache: Cache, format: Bytes): Cache {
    if Crc(format) in cache then cache else cache[Crc(format) := Bin2Hex(format)]
  }

  function Load(cache: Cache, signature: Signature): Option<Bytes> {
    if signature in cache then Some(Hex2Bin(cache[signature]).1) else None
  }

  /** The cache after the formats in `learned` have come in, in order, from an empty cache. */
  function CacheAfter(learned: seq<Bytes>): Cache {
    if learned == [] then map[] else Learn(CacheAfter(learned[..|learned| - 1]), learned[|learned| - 1])
  }

  /** The first format with a given checksum. */
  function First(learned: seq<Bytes>, signature: Signature): Option<Bytes> {
    if learned == [] then None
    else if Crc(learned[0]) == signature then Some(learned[0])
    else First(learned[1..], signature)
  }

  lemma {:induction false} FirstSnoc(learned: seq<Bytes>, format: Bytes, signature: Signature)
    ensures First(learned + [format], signature)
         == if First(learned, signature).Some? then First(learned, signature)
            else if Crc(format) == signature then Some(format) else None
  {
    hide Crc;
    if learned == [] {
      assert learned + [format] == [format];
    } else {
      assert (learned + [format])[1..] == learned[1..] + [format];
      FirstSnoc(learned[1..], format, signature);
    }
  }

  /** A lookup returns exactly the first format that came in with that checksum, and nothing if there was
      none; so every remembered format has its signature as checksum. */
  lemma {:induction false} LoadIsFirst(learned: seq<Bytes>, signature: Signature)
    ensures Load(CacheAfter(learned), signature) == First(learned, signature)
    ensures signature in CacheAfter(learned) ==>
              First(learned, signature).Some?
                  && CacheAfter(learned)[signature] == Bin2Hex(First(learned, signature).value)
  {
    hide Crc, Bin2Hex, Hex2Bin;
    if learned != [] {
      var front, last := learned[..|learned| - 1], learned[|learned| - 1];
      assert learned == front + [last];
      LoadIsFirst(front, signature);
      FirstSnoc(front, last, signature);
      Hex2BinInverse(last);
    }
  }

  lemma {:induction false} FirstHasSignature(learned: seq<Bytes>, signature: Signature)
    ensures First(learned, signature).Some? ==>
              First(learned, signature).value in learned && Crc(First(learned, signature).value) == signature
  {
    hide Crc;
    if learned != [] {
      FirstHasSignature(learned[1..], signature);
    }
  }

  /** An entry never changes once it is written. */
  lemma {:induction false} EntriesNeverChange(learned: seq<Bytes>, more: seq<Bytes>, signature: Signature)
    requires signature in CacheAfter(learned)
    ensures signature in CacheAfter(learned + more)
    ensures CacheAfter(learned + more)[signature] == CacheAfter(learned)[signature]
    decreases |more|
  {
    hide Crc, Bin2Hex;
    if more == [] {
      assert learned + more == learned;
    } else {
      var front := more[..|more| - 1];
      EntriesNeverChange(learned, front, signature);
      var all := learned + more;
      assert all[..|all| - 1] == learned + front;
    }
  }

  // A compact frame through the cache.

  /** The entries of a map, offsets aside. */
  function Entries(values: Values): map<string, DVEntry> {
    map key | key in values :: values[key].1
  }

  lemma {:induction false} ContentsPrefix(rs: seq<Record>)
    ensures |Contents(rs)| == |rs|
    ensures forall i :: 0 <= i < |rs| ==> Contents(rs)[i] == (rs[i].header, rs[i].value)
  {
    if rs != [] {
      ContentsPrefix(rs[1..]);
    }
  }

  ghost predicate SameContents(a: seq<Record>, b: seq<Record>) {
    |a| == |b| && forall i :: 0 <= i < |a| ==> a[i].header == b[i].header && a[i].value == b[i].value
  }

  lemma {:induction false} SameOccurrences(a: seq<Record>, b: seq<Record>, dv: string)
    requires SameContents(a, b)
    ensures Occurrences(a, dv) == Occurrences(b, dv)
    decreases |a|
  {
    hide Dv;
    if a != [] {
      var n := |a| - 1;
      SameOccurrences(a[..n], b[..n], dv);
      assert Dv(a[n]) == Dv(b[n]) by { SameDv(a[n], b[n]); }
    }
  }

  lemma SameDv(a: Record, b: Record)
    requires a.header == b.header
    ensures Dv(a) == Dv(b)
  {
  }

  /** Records that agree offsets aside leave maps that agree offsets aside. */
  lemma {:induction false} SameEntries(a: seq<Record>, b: seq<Record>, base: nat, otherBase: nat)
    requires SameContents(a, b)
    ensures Entries(Store(map[], a, base)) == Entries(Store(map[], b, otherBase))
    decreases |a|
  {
    hide Dv, Key, EntryFor, Occurrences;
    if a != [] {
      var n := |a| - 1;
      SameEntries(a[..n], b[..n], base, otherBase);
      SameDv(a[n], b[n]);
      SameOccurrences(a, b, Dv(a[n]));
      var m, m' := Store(map[], a[..n], base), Store(map[], b[..n], otherBase);
      assert LastKey(a) == LastKey(b);
      assert Entries(m[LastKey(a) := Entry(a[n], base)]) == Entries(m)[LastKey(a) := EntryFor(a[n].header, a[n].value)];
      assert Entries(m'[LastKey(b) := Entry(b[n], otherBase)])
          == Entries(m')[LastKey(b) := EntryFor(b[n].header, b[n].value)];
    }
  }

  /** After any history in which no other format came first under its checksum, a full frame and then the
      compact frame with its signature give the same map from keys to entries, offsets aside. */
  lemma CompactThroughCache(history: seq<Bytes>, items: seq<Item>, base: nat, otherBase: nat)
    requires ItemsOk(items) && Unambiguous(items, None) && CompactSafe(RecsOf(items))
    requires First(history, Crc(Ids(items))) in {None, Some(Ids(items))}
    ensures var full := PrintAll(items, None);
            var learned := Parse(true, full, 0, full, 0, |full|);
            var loaded := Load(CacheAfter(history + [learned.format]), Crc(Ids(items)));
            && loaded == Some(Ids(items))
            && var data := CompactData(RecsOf(items));
            var compact := Parse(false, loaded.value, 0, data, 0, |data|);
            && SameContents(compact.records, learned.records)
            && Entries(Store(map[], compact.records, base)) == Entries(Store(map[], learned.records, otherBase))
  {
    hide Crc, Parse, PrintAll, Unambiguous, CompactSafe, ItemsOk, Ids, Store, Contents;
    var full := PrintAll(items, None);
    var learned := Parse(true, full, 0, full, 0, |full|);
    CompactAgreesIff(items);
    LoadIsFirst(history + [Ids(items)], Crc(Ids(items)));
    FirstSnoc(history, Ids(items), Crc(Ids(items)));
    var data := CompactData(RecsOf(items));
    var compact := Parse(false, Ids(items), 0, data, 0, |data|);
    ContentsPrefix(learned.records);
    ContentsPrefix(compact.records);
    forall i | 0 <= i < |learned.records|
      ensures compact.records[i].header == learned.records[i].header
          && compact.records[i].value == learned.records[i].value
    {
      assert Contents(compact.records)[i] == Contents(learned.records)[i];
    }
    SameEntries(compact.records, learned.records, base, otherBase);
  }
}
