/** From telegram bytes to numbers: parsing, finding and extracting together. */
module DvEndToEnd {
  import opened Hex
  import opened Wrappers
  import opened DvSpec
  import opened DvFields
  import opened DvPrint
  import opened DvValues
  import opened DvKeys
  import opened DvExtract
  import opened DvParser

  // Parsed headers are complete up to their vif.

  lemma {:induction false} ChainEnded(s: Bytes, more: bool)
    requires |Chain(s, more)| < |s|
    ensures ChainOk(Chain(s, more), more)
  {
    if more {
      ChainEnded(s[1..], More(s[0]));
      assert Chain(s, more)[1..] == Chain(s[1..], More(s[0]));
    }
  }

  predicate DifesOk(h: Header) {
    DifLen(h.dif) >= -1 && ChainOk(h.difes, More(h.dif))
  }

  lemma FoundDifesOk(s: Bytes)
    ensures ReadHead(s).Found? ==> DifesOk(ReadHead(s).header)
  {
    hide Chain, ChainOk, DifLen;
    if ReadHead(s).Found? {
      assert |s[1..]| == |s| - 1;
      ChainEnded(s[1..], More(s[0]));
    }
  }

  lemma {:induction false} ParsedDifesOk(aliased: bool, fmt: Bytes, q: nat, d: Bytes, p: nat, end: nat)
    requires q <= |fmt| && p <= |d| <= end && (aliased ==> fmt == d && p == q)
    ensures forall i :: 0 <= i < |Parse(aliased, fmt, q, d, p, end).records| ==>
              DifesOk(Parse(aliased, fmt, q, d, p, end).records[i].header)
    decreases |fmt| - q
  {
    hide ReadHead, ReadPayload, DifesOk;
    match ReadHead(fmt[q..])
    case AtEnd | Special(_) | NoVif(_) =>
    case Filler => ParsedDifesOk(aliased, fmt, q + 1, d, if aliased then p + 1 else p, end);
    case Found(h) =>
      FoundDifesOk(fmt[q..]);
      ParseFound(aliased, fmt, q, d, p, end, h);
      var q1 := q + |h.Id()|;
      var r := ReadPayload(d, if aliased then q1 else p, h.dif, end);
      if !r.stop {
        ParsedDifesOk(aliased, fmt, if aliased then r.next else q1, d, r.next, end);
      }
  }

  // Keys lead back to their dif.

  lemma KeyBytes(id: Bytes, count: nat)
    requires 2 * |id| + |Suffix(count)| <= KEY_LIMIT
    ensures Hex2Bin(Key(Bin2Hex(id), count)).1 == id
  {
    hide Hex2Bin, Bin2Hex;
    if count > 1 {
      Hex2BinOfBin2Hex(id, "_" + Decimal(count));
      StopsAtUnderscore(Decimal(count));
      assert id + [] == id;
    } else {
      assert Bin2Hex(id) + "" == Bin2Hex(id);
      Hex2BinInverse(id);
    }
  }

  lemma StopsAtUnderscore(s: string)
    requires s != ""
    ensures Hex2Bin("_" + s) == (false, [])
  {
    assert ("_" + s)[0] == '_';
  }

  lemma DifVifOfId(h: Header)
    requires DifesOk(h)
    ensures DifVif(h.Id()) == Some((h.dif, h.vif))
  {
    hide Chain, ChainOk, DifLen;
    var id := h.Id();
    assert id[1..] == h.difes + ([h.vif] + h.vifes);
    ChainOfPrinted(h.difes, More(h.dif), [h.vif] + h.vifes);
  }

  // The fields of a printed record.

  lemma {:induction false} EncodedChainOk(storage: nat, tariff: nat, subunit: nat, n: nat)
    ensures ChainOk(DifesFor(storage, tariff, subunit, n), n > 0)
    decreases n
  {
    if n > 0 {
      var difes := DifesFor(storage, tariff, subunit, n);
      assert difes[1..] == DifesFor(storage / 16, tariff / 4, subunit / 2, n - 1);
      EncodedChainOk(storage / 16, tariff / 4, subunit / 2, n - 1);
    }
  }

  predicate EncodesFields(h: Header, storage: nat, tariff: nat, subunit: nat, n: nat) {
    && h.difes == DifesFor(storage / 2, tariff, subunit, n) && (More(h.dif) <==> n > 0)
    && (h.dif / 64) % 2 == storage % 2
  }

  /** A record printed with the encoder's dife bytes is parsed, and stored with the encoded storage number, tariff
      and subunit. */
  lemma EncodedFieldsComeBack(h: Header, payload: Bytes, storage: nat, tariff: nat, subunit: nat, n: nat)
    requires storage < 2 * Pow2(4 * n) && tariff < Pow2(2 * n) && subunit < Pow2(n)
    requires EncodesFields(h, storage, tariff, subunit, n)
    requires DifLen(h.dif) >= -1 && h.dif != SKIP && ChainOk(h.vifes, More(h.vif))
    requires if Variable(h) then |payload| < 256 else |payload| == DifLen(h.dif)
    ensures ItemsOk([Rec(h, payload)])
    ensures var d := PrintAll([Rec(h, payload)], None);
            var rs := Parse(true, d, 0, d, 0, |d|).records;
            && |rs| == 1 && rs[0].header == h && rs[0].value == payload
            && var e := EntryFor(rs[0].header, rs[0].value);
            && e.storagenr == storage && e.tariff == tariff && e.subunit == subunit
  {
    EncodedChainOk(storage / 2, tariff, subunit, n);
    hide DifesFor, Pow2, Parse, FieldsOf, DifLen, ChainOk, More;
    FieldsRoundTrip(h.dif, storage, tariff, subunit, n);
    var items := [Rec(h, payload)];
    assert ItemOk(items[0]);
    assert items[1..] == [];
    assert Unambiguous(items, None);
    var d := PrintAll(items, None);
    RoundTripIff(items, None, |d|);
    assert |Expected(items, 0)| == 1;
  }

  // Decimal text.

  lemma DigitOfDigit(n: nat)
    requires n < 10
    ensures DigitOf(Digit(n)) == n
  {
  }

  lemma PairAt(v: Bytes, i: nat)
    requires i < |v| && DecimalDigits(v)
    ensures DigitOf(Bin2Hex(v)[2 * i]) == v[i] / 16 && DigitOf(Bin2Hex(v)[2 * i + 1]) == v[i] % 16
  {
    hide Digit, DigitOf, Bin2Hex;
    Bin2HexAt(v, i);
    DigitOfDigit(v[i] / 16);
    DigitOfDigit(v[i] % 16);
  }

  function Pair(v: Bytes, i: nat): nat {
    if i < |v| then (v[i] / 16) * 10 + v[i] % 16 else 0
  }

  lemma BcdAt(v: Bytes, i: nat)
    ensures BcdNumber(From(v, i)) == Pair(v, i) + 100 * BcdNumber(From(v, i + 1))
  {
    if i < |v| {
      assert v[i..][1..] == v[i + 1..];
    }
  }

  lemma BcdUnrolled(v: Bytes)
    requires |v| <= 6
    ensures BcdNumber(v)
         == Pair(v, 0)
            + 100 * (Pair(v, 1) + 100 * (Pair(v, 2) + 100 * (Pair(v, 3) + 100 * (Pair(v, 4) + 100 * Pair(v, 5)))))
  {
    hide BcdNumber, From, Pair;
    BcdAt(v, 0);
    BcdAt(v, 1);
    BcdAt(v, 2);
    BcdAt(v, 3);
    BcdAt(v, 4);
    BcdAt(v, 5);
    assert From(v, 0) == v && BcdNumber(From(v, 6)) == 0 by { FromSix(v); }
  }

  lemma FromSix(v: Bytes)
    requires |v| <= 6
    ensures From(v, 0) == v && BcdNumber(From(v, 6)) == 0
  {
    assert v[0..] == v;
  }

  /** The written-out decimal sums are the numbers, and only twelve digits can pass a 32-bit int. */
  lemma BcdSumIsNumber(v: Bytes)
    requires |v| in {1, 2, 3, 4, 6} && DecimalDigits(v)
    ensures BcdSum(Bin2Hex(v)) == BcdNumber(v) < 1_000_000_000_000
    ensures |v| <= 4 ==> BcdNumber(v) < 100_000_000
  {
    hide Bin2Hex, DigitOf, BcdNumber;
    BcdUnrolled(v);
    PairAt(v, 0);
    if |v| > 1 { PairAt(v, 1); }
    if |v| > 2 { PairAt(v, 2); }
    if |v| > 3 { PairAt(v, 3); }
    if |v| > 4 { PairAt(v, 4); PairAt(v, 5); }
  }

  // The number of a record.

  predicate IsNumeric(h: Header) {
    IsBinary(h.dif % 16) || IsBcd(h.dif % 16)
  }

  /** A numeric record with all its bytes, and decimal digits where they are called for. */
  predicate IsNumber(r: Record) {
    && IsNumeric(r.header) && |r.value| == DifLen(r.header.dif)
    && (IsBcd(r.header.dif % 16) ==> DecimalDigits(r.value))
  }

  function NumberOf(r: Record): nat {
    if IsBinary(r.header.dif % 16) then LittleEndian(r.value) else BcdNumber(r.value)
  }

  /** A record's key, not cut off, with its entry in the map. */
  predicate StoredAs(values: Values, key: string, r: Record, count: nat, base: nat) {
    && 2 * |r.header.Id()| + |Suffix(count)| <= KEY_LIMIT && key == Key(Dv(r), count)
    && key in values && values[key] == Entry(r, base)
  }

  lemma NumericWidth(h: Header)
    requires IsNumeric(h)
    ensures if IsBinary(h.dif % 16) then DifLen(h.dif) in {1, 2, 3, 4, 6, 8} else DifLen(h.dif) in {1, 2, 3, 4, 6}
  {
  }

  /** What is extracted from a stored numeric record, the two extractors differing in how they wrap. */
  function LongOf(r: Record, base: nat): Extracted
    requires IsNumeric(r.header)
  {
    if r.value == [] then Missing
    else if |r.value| != DifLen(r.header.dif) then Aborted
    else if IsBinary(r.header.dif % 16) then Number(base + r.at, UInt64(BinarySum(r.value)))
    else Number(base + r.at, UInt64(Int32(BcdSum(Bin2Hex(r.value)))))
  }

  function DoubleRawOf(r: Record, base: nat): Extracted
    requires IsNumeric(r.header)
  {
    if r.value == [] then Missing
    else if |r.value| != DifLen(r.header.dif) then Aborted
    else if IsBinary(r.header.dif % 16) then Number(base + r.at, UInt32(BinarySum(r.value)))
    else Number(base + r.at, UInt32(Int32(BcdSum(Bin2Hex(r.value)))))
  }

  lemma ExtractedFrom(values: Values, key: string, r: Record, count: nat, base: nat)
    requires StoredAs(values, key, r, count, base) && DifesOk(r.header) && IsNumeric(r.header)
    ensures ExtractLong(values, key) == LongOf(r, base)
    ensures ExtractDoubleRaw(values, key) == DoubleRawOf(r, base)
  {
    hide Hex2Bin, Bin2Hex, DifVif, BcdSum, BinarySum, DifesOk, DifLen;
    KeyBytes(r.header.Id(), count);
    DifVifOfId(r.header);
    Hex2BinInverse(r.value);
    assert |Bin2Hex(r.value)| == 2 * |r.value|;
    assert Bin2Hex(r.value) == "" <==> r.value == [];
  }

  /** Extracting a complete number gives the number, as long as twelve decimal digits stay below 2^31. */
  lemma LongIsNumber(values: Values, key: string, r: Record, count: nat, base: nat)
    requires StoredAs(values, key, r, count, base) && DifesOk(r.header) && IsNumber(r)
    ensures IsBinary(r.header.dif % 16) ==> ExtractLong(values, key) == Number(base + r.at, NumberOf(r))
    ensures IsBcd(r.header.dif % 16) ==>
              (ExtractLong(values, key) == Number(base + r.at, NumberOf(r)) <==> NumberOf(r) < 0x8000_0000)
  {
    hide StoredAs, ExtractLong, ExtractDoubleRaw, LittleEndian, BcdNumber, BcdSum, BinarySum, DifesOk, DecimalDigits,
        Bin2Hex;
    ExtractedFrom(values, key, r, count, base);
    NumericWidth(r.header);
    if IsBinary(r.header.dif % 16) {
      BinarySumIsLittleEndian(r.value);
    } else {
      BcdSumIsNumber(r.value);
      WrapIff(BcdNumber(r.value));
    }
  }

  lemma WrapIff(n: nat)
    requires n < 1_000_000_000_000
    ensures UInt64(Int32(n)) == n <==> n < 0x8000_0000
    ensures UInt32(Int32(n)) == n <==> n < 0x1_0000_0000
  {
  }

  /** The unscaled number for a double agrees below 2^32. */
  lemma DoubleRawIsNumber(values: Values, key: string, r: Record, count: nat, base: nat)
    requires StoredAs(values, key, r, count, base) && DifesOk(r.header) && IsNumber(r)
    ensures ExtractDoubleRaw(values, key) == Number(base + r.at, NumberOf(r)) <==> NumberOf(r) < 0x1_0000_0000
  {
    hide StoredAs, ExtractLong, ExtractDoubleRaw, LittleEndian, BcdNumber, BcdSum, BinarySum, DifesOk, DecimalDigits,
        Bin2Hex;
    ExtractedFrom(values, key, r, count, base);
    NumericWidth(r.header);
    if IsBinary(r.header.dif % 16) {
      BinarySumIsLittleEndian(r.value);
    } else {
      BcdSumIsNumber(r.value);
      WrapIff(BcdNumber(r.value));
    }
  }

  lemma AbortsIffIncomplete(values: Values, key: string, r: Record, count: nat, base: nat)
    requires StoredAs(values, key, r, count, base) && DifesOk(r.header) && IsNumeric(r.header)
    ensures ExtractLong(values, key) == Aborted <==> r.value != [] && |r.value| != DifLen(r.header.dif)
    ensures ExtractDoubleRaw(values, key) == Aborted <==> r.value != [] && |r.value| != DifLen(r.header.dif)
  {
    hide StoredAs, ExtractLong, ExtractDoubleRaw;
    ExtractedFrom(values, key, r, count, base);
  }

  /** The key of record `k` is not cut off. */
  predicate Whole(rs: seq<Record>, k: nat)
    requires k < |rs|
  {
    2 * |rs[k].header.Id()| + |Suffix(Occurrences(rs[..k + 1], Dv(rs[k])))| <= KEY_LIMIT
  }

  lemma WholeAtMost(size: nat, count: nat)
    requires count >= 1 && size >= 2 && Weight(count, size) <= 2047
    ensures 2 * size + |Suffix(count)| <= KEY_LIMIT
  {
    hide Weight, Suffix;
    TwoEach(count, size);
    SuffixLength(count);
    SmallWeights(size);
    if count > 1 {
      WeightMonotone(2, count, size);
    }
  }

  /** With at most 2047 identifier bytes no key is cut off. */
  lemma WholeKey(rs: seq<Record>, k: nat)
    requires k < |rs| && IdBytes(rs) <= 2047
    ensures Whole(rs, k)
  {
    hide Weight, Suffix, Occurrences, IdBytes;
    var id := rs[k].header.Id();
    var count := Occurrences(rs[..k + 1], Dv(rs[k]));
    OccursAtLeastOnce(rs, k);
    IdBytesMonotone(rs, k + 1);
    IdBytesCount(rs[..k + 1], id, id);
    WholeAtMost(|id|, count);
  }

  /** A record of fixed width has as many bytes as the data has left for it. */
  predicate FixedFrom(r: Record, d: Bytes) {
    DifLen(r.header.dif) >= 0 ==> r.at <= |d| && |r.value| == FixedBytes(|d| - r.at, DifLen(r.header.dif))
  }

  lemma {:induction false} ParsedFixed(aliased: bool, fmt: Bytes, q: nat, d: Bytes, p: nat, end: nat)
    requires q <= |fmt| && p <= |d| <= end && (aliased ==> fmt == d && p == q)
    ensures var rs := Parse(aliased, fmt, q, d, p, end).records; forall i | 0 <= i < |rs| :: FixedFrom(rs[i], d)
    decreases |fmt| - q
  {
    hide ReadHead, ReadPayload, DifLen, FixedBytes;
    match ReadHead(fmt[q..])
    case AtEnd | Special(_) | NoVif(_) =>
    case Filler =>
      ParseFiller(aliased, fmt, q, d, p, end);
      ParsedFixed(aliased, fmt, q + 1, d, if aliased then p + 1 else p, end);
    case Found(h) =>
      ParseFound(aliased, fmt, q, d, p, end, h);
      var q1 := q + |h.Id()|;
      var p1 := if aliased then q1 else p;
      var r := ReadPayload(d, p1, h.dif, end);
      PayloadValue(d, p1, h.dif, end);
      if !r.stop {
        ParsedFixed(aliased, fmt, if aliased then r.next else q1, d, r.next, end);
      }
  }

  /** The key of a parsed record, where no key is overwritten and this one is not cut off, leads to its entry. */
  lemma ParsedIsStored(aliased: bool, fmt: Bytes, d: Bytes, base: nat, k: nat)
    requires (aliased ==> fmt == d) && |fmt| < KEY_LIMIT
    requires var rs := Parse(aliased, fmt, 0, d, 0, |d|).records; k < |rs| && (|fmt| <= 2047 || Whole(rs, k))
    ensures var rs := Parse(aliased, fmt, 0, d, 0, |d|).records;
            && DifesOk(rs[k].header)
            && StoredAs(Store(map[], rs, base), KeyAt(rs, k), rs[k], Occurrences(rs[..k + 1], Dv(rs[k])), base)
  {
    hide Parse, Store, KeyAt, Occurrences, Suffix, Key, DifesOk, Entry, IdBytes;
    var rs := Parse(aliased, fmt, 0, d, 0, |d|).records;
    ParsedDifesOk(aliased, fmt, 0, d, 0, |d|);
    ParsedIdBytes(aliased, fmt, 0, d, 0, |d|);
    if |fmt| <= 2047 {
      WholeKey(rs, k);
    }
    ShortInputsKeepAll(aliased, fmt, d, |d|);
    DistinctKeysKeepAll(rs, base);
    KeyFor(rs, k);
  }

  /** The width assertions fail for a number exactly when the data has at least two bytes for it but not all it
      needs. That holds of every telegram, full or compact, as far as its keys are not cut off. */
  lemma AbortsIffCutShort(aliased: bool, fmt: Bytes, d: Bytes, base: nat, k: nat)
    requires (aliased ==> fmt == d) && |fmt| < KEY_LIMIT
    requires var rs := Parse(aliased, fmt, 0, d, 0, |d|).records;
             k < |rs| && IsNumeric(rs[k].header) && (|fmt| <= 2047 || Whole(rs, k))
    ensures var rs := Parse(aliased, fmt, 0, d, 0, |d|).records;
            var values, key := Store(map[], rs, base), KeyAt(rs, k);
            && (ExtractLong(values, key) == Aborted <==> 2 <= |d| - rs[k].at < DifLen(rs[k].header.dif))
            && (ExtractDoubleRaw(values, key) == Aborted <==> 2 <= |d| - rs[k].at < DifLen(rs[k].header.dif))
  {
    hide Parse, Store, KeyAt, Occurrences, Whole, StoredAs, DifesOk, ExtractLong, ExtractDoubleRaw, DifLen;
    var rs := Parse(aliased, fmt, 0, d, 0, |d|).records;
    ParsedIsStored(aliased, fmt, d, base, k);
    ParsedFixed(aliased, fmt, 0, d, 0, |d|);
    NumericWidth(rs[k].header);
    AbortsIffIncomplete(Store(map[], rs, base), KeyAt(rs, k), rs[k], Occurrences(rs[..k + 1], Dv(rs[k])), base);
  }

  /** A four-byte number of which only two bytes arrived: it is stored with one byte, and extracting it runs into
      the width assertion. */
  lemma TruncatedExample()
    ensures var d := [0x04, 0x13, 0x01, 0x02];
            var rs := Parse(true, d, 0, d, 0, 4).records;
            && |rs| == 1 && rs[0].value == [0x01]
            && ExtractLong(Store(map[], rs, 0), KeyAt(rs, 0)) == Aborted
            && ExtractDoubleRaw(Store(map[], rs, 0), KeyAt(rs, 0)) == Aborted
  {
    hide *;
    var d: Bytes := [0x04, 0x13, 0x01, 0x02];
    TruncatedRecords(d);
    TruncatedWidth();
    AbortsIffCutShort(true, d, d, 0, 0);
  }

  lemma TruncatedWidth()
    ensures IsNumeric(Header(0x04, [], 0x13, [])) && DifLen(0x04) == 4 && KEY_LIMIT > 2047
  {
  }

  lemma TruncatedRecords(d: Bytes)
    requires d == [0x04, 0x13, 0x01, 0x02]
    ensures Parse(true, d, 0, d, 0, 4).records == [Record(Header(0x04, [], 0x13, []), 2, [0x01])]
  {
    hide Parse;
    var h := Header(0x04, [], 0x13, []);
    assert d[0..] == d;
    assert d[1..] == [0x13, 0x01, 0x02] && d[2..] == [0x01, 0x02];
    assert Chain(d[1..], false) == [] && Chain(d[2..], false) == [];
    assert ReadHead(d[0..]) == Found(h);
    assert h.Id() == [0x04, 0x13];
    ParseFound(true, d, 0, d, 0, 4, h);
    assert d[2..3] == [0x01];
    assert ReadPayload(d, 2, 0x04, 4) == Payload([0x01], 2, 3, false);
    ParseTruncated(d);
  }

  lemma ParseTruncated(d: Bytes)
    requires d == [0x04, 0x13, 0x01, 0x02]
    ensures Parse(true, d, 3, d, 3, 4).records == []
  {
    assert d[3..] == [0x02];
    assert ReadHead(d[3..]) == NoVif(d[3..]);
  }

  /** A telegram that is one number of twelve decimal digits. */
  lemma TwelveDigits(d: Bytes, v: Bytes)
    requires |v| == 6 && DecimalDigits(v) && d == [0x0e, 0x13] + v
    ensures var rs := Parse(true, d, 0, d, 0, 8).records;
            var values, key := Store(map[], rs, 0), KeyAt(rs, 0);
            && rs == [Record(Header(0x0e, [], 0x13, []), 2, v)]
            && (ExtractLong(values, key) == Number(2, BcdNumber(v)) <==> BcdNumber(v) < 0x8000_0000)
            && (ExtractDoubleRaw(values, key) == Number(2, BcdNumber(v)) <==> BcdNumber(v) < 0x1_0000_0000)
  {
    hide Parse, Store, KeyAt, Occurrences, StoredAs, ExtractLong, ExtractDoubleRaw, BcdNumber, DecimalDigits, DifesOk;
    TwelveDigitRecord(d, v);
    var rs := Parse(true, d, 0, d, 0, 8).records;
    ParsedIsStored(true, d, d, 0, 0);
    LongIsNumber(Store(map[], rs, 0), KeyAt(rs, 0), rs[0], Occurrences(rs[..1], Dv(rs[0])), 0);
    DoubleRawIsNumber(Store(map[], rs, 0), KeyAt(rs, 0), rs[0], Occurrences(rs[..1], Dv(rs[0])), 0);
  }

  lemma TwelveDigitRecord(d: Bytes, v: Bytes)
    requires |v| == 6 && d == [0x0e, 0x13] + v
    ensures Parse(true, d, 0, d, 0, 8).records == [Record(Header(0x0e, [], 0x13, []), 2, v)]
  {
    hide Parse;
    var h := Header(0x0e, [], 0x13, []);
    assert d[0..] == d;
    assert d[1..] == [0x13] + v && d[2..] == v;
    assert Chain(d[1..], false) == [] && Chain(d[2..], false) == [];
    assert ReadHead(d[0..]) == Found(h);
    assert h.Id() == [0x0e, 0x13];
    assert d[2..8] == v;
    assert ReadPayload(d, 2, 0x0e, 8) == Payload(v, 2, 8, true);
    ParseFound(true, d, 0, d, 0, 8, h);
  }

  /** 2147483648 is not what the long extractor returns for it, and 4294967296 is returned by neither. */
  lemma LargeNumbersExample()
    ensures var d := [0x0e, 0x13, 0x48, 0x36, 0x48, 0x47, 0x21, 0x00];
            var rs := Parse(true, d, 0, d, 0, 8).records;
            && |rs| == 1 && NumberOf(rs[0]) == 2_147_483_648
            && ExtractLong(Store(map[], rs, 0), KeyAt(rs, 0)) != Number(2, 2_147_483_648)
    ensures var d := [0x0e, 0x13, 0x96, 0x72, 0x96, 0x94, 0x42, 0x00];
            var rs := Parse(true, d, 0, d, 0, 8).records;
            && |rs| == 1 && NumberOf(rs[0]) == 4_294_967_296
            && ExtractLong(Store(map[], rs, 0), KeyAt(rs, 0)) != Number(2, 4_294_967_296)
            && ExtractDoubleRaw(Store(map[], rs, 0), KeyAt(rs, 0)) != Number(2, 4_294_967_296)
  {
    hide *;
    var v: Bytes, w: Bytes := [0x48, 0x36, 0x48, 0x47, 0x21, 0x00], [0x96, 0x72, 0x96, 0x94, 0x42, 0x00];
    LargeDigits(v, w);
    assert [0x0e, 0x13] + v == [0x0e, 0x13, 0x48, 0x36, 0x48, 0x47, 0x21, 0x00];
    assert [0x0e, 0x13] + w == [0x0e, 0x13, 0x96, 0x72, 0x96, 0x94, 0x42, 0x00];
    TwelveDigits([0x0e, 0x13] + v, v);
    TwelveDigits([0x0e, 0x13] + w, w);
    NumberOfTwelve(v);
    NumberOfTwelve(w);
  }

  lemma NumberOfTwelve(v: Bytes)
    ensures NumberOf(Record(Header(0x0e, [], 0x13, []), 2, v)) == BcdNumber(v)
  {
    hide BcdNumber, LittleEndian;
  }

  lemma LargeDigits(v: Bytes, w: Bytes)
    requires v == [0x48, 0x36, 0x48, 0x47, 0x21, 0x00] && w == [0x96, 0x72, 0x96, 0x94, 0x42, 0x00]
    ensures DecimalDigits(v) && BcdNumber(v) == 2_147_483_648
    ensures DecimalDigits(w) && BcdNumber(w) == 4_294_967_296
  {
    hide BcdNumber, Pair;
    BcdUnrolled(v);
    PairIs(v, 0, 48); PairIs(v, 1, 36); PairIs(v, 2, 48); PairIs(v, 3, 47); PairIs(v, 4, 21); PairIs(v, 5, 0);
    BcdUnrolled(w);
    PairIs(w, 0, 96); PairIs(w, 1, 72); PairIs(w, 2, 96); PairIs(w, 3, 94); PairIs(w, 4, 42); PairIs(w, 5, 0);
  }

  lemma PairIs(v: Bytes, i: nat, n: nat)
    requires i < |v| && n < 100 && v[i] == (n / 10) * 16 + n % 10
    ensures Pair(v, i) == n
  {
  }

  /** Record `k` is the only one that answers the query. */
  ghost predicate OnlyAnswer(q: Query, rs: seq<Record>, k: nat) {
    && k < |rs| && Matches(q, EntryFor(rs[k].header, rs[k].value))
    && forall j :: 0 <= j < |rs| && j != k ==> !Matches(q, EntryFor(rs[j].header, rs[j].value))
  }

  lemma OnlyKey(q: Query, rs: seq<Record>, k: nat, base: nat, key: string)
    requires KeysDistinct(rs) && OnlyAnswer(q, rs, k)
    requires key in Store(map[], rs, base) && Matches(q, Store(map[], rs, base)[key].1)
    ensures key == KeyAt(rs, k)
  {
    hide Matches, Store, KeyAt;
    DistinctKeysKeepAll(rs, base);
    var j :| 0 <= j < |rs| && key == KeyAt(rs, j);
    assert Store(map[], rs, base)[key] == Entry(rs[j], base);
  }

  /** The answer is the number of the record, with its offset, exactly within the ranges that the integer types
      leave to the two extractors. */
  ghost predicate Answers(r: Extracted, raw: Extracted, record: Record, base: nat) {
    && r != Aborted && raw != Aborted
    && (r == Number(base + record.at, NumberOf(record))
        <==> IsBinary(record.header.dif % 16) || NumberOf(record) < 0x8000_0000)
    && (raw == Number(base + record.at, NumberOf(record)) <==> NumberOf(record) < 0x1_0000_0000)
  }

  lemma AnswerIsNumber(values: Values, key: string, r: Record, count: nat, base: nat)
    requires StoredAs(values, key, r, count, base) && DifesOk(r.header) && IsNumber(r)
    ensures Answers(ExtractLong(values, key), ExtractDoubleRaw(values, key), r, base)
  {
    hide StoredAs, ExtractLong, ExtractDoubleRaw, DifesOk, NumberOf;
    LongIsNumber(values, key, r, count, base);
    DoubleRawIsNumber(values, key, r, count, base);
    AbortsIffIncomplete(values, key, r, count, base);
  }

  lemma ParsedAnswer(d: Bytes, base: nat, q: Query, k: nat, found: bool, key: string)
    requires |d| < KEY_LIMIT
    requires var rs := Parse(true, d, 0, d, 0, |d|).records;
             var values := Store(map[], rs, base);
             && OnlyAnswer(q, rs, k) && IsNumber(rs[k]) && (|d| <= 2047 || Whole(rs, k))
             && (found <==> exists k :: k in values && Matches(q, values[k].1))
             && (found ==> key in values && Matches(q, values[key].1))
    ensures var rs := Parse(true, d, 0, d, 0, |d|).records;
            var values := Store(map[], rs, base);
            found && Answers(ExtractLong(values, key), ExtractDoubleRaw(values, key), rs[k], base)
  {
    hide Parse, Store, Matches, KeyAt, ExtractLong, ExtractDoubleRaw, IsNumber, DifesOk, Answers, EntryFor, Whole,
        Occurrences;
    var rs := Parse(true, d, 0, d, 0, |d|).records;
    var values := Store(map[], rs, base);
    ParsedIsStored(true, d, d, base, k);
    assert KeyAt(rs, k) in values && values[KeyAt(rs, k)] == Entry(rs[k], base);
    assert Matches(q, values[KeyAt(rs, k)].1);
    ShortInputsKeepAll(true, d, d, |d|);
    OnlyKey(q, rs, k, base, key);
    AnswerIsNumber(values, key, rs[k], Occurrences(rs[..k + 1], Dv(rs[k])), base);
  }

  /** Parse a telegram, find the value that answers a query and extract it. If exactly one record answers
      the query, and it is a complete number, the answer is that number and its offset. The length conditions say
      that no key is overwritten and that the key of the record is not cut off. */
  method ReadNumber(parser: Parser, d: Bytes, base: nat, q: Query) returns (found: bool, r: Extracted, raw: Extracted)
    requires parser.Valid()
    modifies parser
    ensures parser.Valid()
    ensures var rs := Parse(true, d, 0, d, 0, |d|).records;
            forall k: nat ::
              OnlyAnswer(q, rs, k) && IsNumber(rs[k]) && (|d| <= 2047 || (|d| < KEY_LIMIT && Whole(rs, k))) ==>
                found && Answers(r, raw, rs[k], base)
  {
    hide Parse, Store, Matches, OnlyAnswer, IsNumber, Answers, Whole, ExtractLong, ExtractDoubleRaw;
    ghost var rs := Parse(true, d, 0, d, 0, |d|).records;
    var values, mfct := parser.ParseDV(d, |d|, base, map[], None);
    var key: string;
    found, key := FindKey(q, values);
    r := ExtractLong(values, key);
    raw := ExtractDoubleRaw(values, key);
    forall k: nat | k < |rs| && OnlyAnswer(q, rs, k) && IsNumber(rs[k])
        && (|d| <= 2047 || (|d| < KEY_LIMIT && Whole(rs, k)))
      ensures found && Answers(r, raw, rs[k], base)
    {
      ParsedAnswer(d, base, q, k, found, key);
    }
    assert forall k: nat :: OnlyAnswer(q, rs, k) ==> k < |rs| by {
      forall k: nat | OnlyAnswer(q, rs, k)
        ensures k < |rs|
      {
        AnswerInRange(q, rs, k);
      }
    }
  }

  lemma AnswerInRange(q: Query, rs: seq<Record>, k: nat)
    requires OnlyAnswer(q, rs, k)
    ensures k < |rs|
  {
  }
}
