/** What the bytes of a telegram mean, in literal terms: how many bytes each data field has, which numbers they
    stand for, and which queries they answer. The encoders here are independent of the decoders they meet. */
module DvAnswers {
  import opened Hex
  import opened Wrappers
  import opened DvSpec
  import opened DvPrint
  import opened DvValues
  import opened DvExtract
  import opened DvParser
  import opened DvEndToEnd

  // Widths.

  /** The number of data bytes for each low nibble of a dif; 13 and 15 are apart. */
  const WIDTHS: seq<nat> := [0, 1, 2, 3, 4, 4, 6, 8, 0, 1, 2, 3, 4, 0, 6, 0]

  /** Every header of a data field of fixed width takes exactly that many of the bytes that follow it. */
  lemma FixedWidths(h: Header, payload: Bytes, rest: Bytes)
    requires ChainOk(h.difes, h.dif >= 0x80) && ChainOk(h.vifes, h.vif >= 0x80)
    requires h.dif % 16 != 13 && h.dif % 16 != 15 && |payload| == WIDTHS[h.dif % 16]
    ensures var d := h.Id() + payload + rest;
            var rs := Parse(true, d, 0, d, 0, |d|).records;
            rs != [] && rs[0] == Record(h, |h.Id()|, payload)
  {
    var d := h.Id() + payload + rest;
    WidthIsDifLen(h.dif);
    hide Parse, ChainOk, DifLen;
    assert d[0..] == d;
    assert ItemOk(Rec(h, payload));
    assert Print(Rec(h, payload)) == h.Id() + payload;
    AfterRecord(d, 0, |d|, h, payload, rest);
  }

  lemma WidthIsDifLen(dif: byte)
    requires dif % 16 != 13 && dif % 16 != 15
    ensures DifLen(dif) == WIDTHS[dif % 16] && dif != SKIP
  {
  }

  /** A length byte, and then as many bytes as it says; not so for an empty field with one byte behind it. */
  lemma VariableWidth(h: Header, payload: Bytes, rest: Bytes)
    requires ChainOk(h.difes, h.dif >= 0x80) && ChainOk(h.vifes, h.vif >= 0x80)
    requires h.dif % 16 == 13 && |payload| < 256 && !(payload == [] && |rest| == 1)
    ensures var d := h.Id() + [|payload|] + payload + rest;
            var rs := Parse(true, d, 0, d, 0, |d|).records;
            rs != [] && rs[0] == Record(h, |h.Id()| + 1, payload)
  {
    var d := h.Id() + [|payload|] + payload + rest;
    VariableItem(h, payload);
    hide Parse, ChainOk, DifLen, ItemOk, Print;
    assert d == Print(Rec(h, payload)) + rest;
    assert d[0..] == d;
    AfterRecord(d, 0, |d|, h, payload, rest);
  }

  lemma VariableItem(h: Header, payload: Bytes)
    requires ChainOk(h.difes, h.dif >= 0x80) && ChainOk(h.vifes, h.vif >= 0x80)
    requires h.dif % 16 == 13 && |payload| < 256
    ensures ItemOk(Rec(h, payload)) && Print(Rec(h, payload)) == h.Id() + [|payload|] + payload
  {
    assert DifLen(h.dif) == -1;
    hide ChainOk, DifLen;
    assert h.Id() + [|payload|] + payload == h.Id() + ([|payload|] + payload);
  }

  /** The special functions end the parse: 0x0f announces manufacturer data, and 0x2f is skipped. */
  lemma SpecialFunctions(dif: byte, rest: Bytes)
    requires dif % 16 == 15
    ensures var d := [dif] + rest;
            var o := Parse(true, d, 0, d, 0, |d|);
            if dif == 0x2f then o == Parse(true, d, 1, d, 1, |d|)
            else o.records == [] && o.mfct == if dif == 0x0f then Some(1) else None
  {
    var d := [dif] + rest;
    assert d[0..] == d;
    if dif == 0x2f {
      ParseFiller(true, d, 0, d, 0, |d|);
    }
  }

  // Numbers.

  /** `n` in `k` bytes of two decimal digits each, the last two digits first. */
  function DecimalBytes(n: nat, k: nat): (v: Bytes)
    ensures |v| == k
  {
    if k == 0 then [] else [(n / 10) % 10 * 16 + n % 10] + DecimalBytes(n / 100, k - 1)
  }

  /** `n` in `k` bytes, the least significant first. */
  function BinaryBytes(n: nat, k: nat): (v: Bytes)
    ensures |v| == k
  {
    if k == 0 then [] else [n % 256] + BinaryBytes(n / 256, k - 1)
  }

  function Power(b: nat, k: nat): nat {
    if k == 0 then 1 else b * Power(b, k - 1)
  }

  lemma PowerNext(b: nat, k: nat)
    requires k > 0
    ensures Power(b, k) == b * Power(b, k - 1)
  {
  }

  lemma TwoDigits(n: nat)
    ensures var b := (n / 10) % 10 * 16 + n % 10; b / 16 < 10 && b % 16 < 10 && b / 16 * 10 + b % 16 == n % 100
  {
    assert n % 100 == (n / 10) % 10 * 10 + n % 10;
  }

  lemma {:induction false} DecimalBack(n: nat, k: nat)
    requires n < Power(100, k)
    ensures DecimalDigits(DecimalBytes(n, k)) && BcdNumber(DecimalBytes(n, k)) == n
    decreases k
  {
    hide Power;
    var v := DecimalBytes(n, k);
    if k > 0 {
      PowerNext(100, k);
      DecimalBack(n / 100, k - 1);
      TwoDigits(n);
      DecimalFirst(n, k);
    } else {
      PowerZero(100);
    }
  }

  lemma DecimalFirst(n: nat, k: nat)
    requires k > 0 && DecimalDigits(DecimalBytes(n / 100, k - 1))
    ensures var v, b := DecimalBytes(n, k), (n / 10) % 10 * 16 + n % 10;
            && BcdNumber(v) == b / 16 * 10 + b % 16 + 100 * BcdNumber(DecimalBytes(n / 100, k - 1))
            && (b / 16 < 10 && b % 16 < 10 ==> DecimalDigits(v))
  {
    var v := DecimalBytes(n, k);
    assert v[1..] == DecimalBytes(n / 100, k - 1);
    assert forall i :: 1 <= i < k ==> v[i] == v[1..][i - 1];
  }

  lemma PowerZero(b: nat)
    ensures Power(b, 0) == 1
  {
  }

  lemma {:induction false} BinaryBack(n: nat, k: nat)
    requires n < Power(256, k)
    ensures LittleEndian(BinaryBytes(n, k)) == n
    decreases k
  {
    hide Power;
    var v := BinaryBytes(n, k);
    if k > 0 {
      PowerNext(256, k);
      BinaryBack(n / 256, k - 1);
      assert v[1..] == BinaryBytes(n / 256, k - 1);
    } else {
      PowerZero(256);
    }
  }

  lemma Powers()
    ensures Power(100, 1) == 100 && Power(100, 2) == 1_0000 && Power(100, 3) == 100_0000
    ensures Power(100, 4) == 1_0000_0000 && Power(100, 6) == 1_0000_0000_0000
    ensures Power(256, 1) == 0x100 && Power(256, 2) == 0x1_0000 && Power(256, 3) == 0x100_0000
    ensures Power(256, 4) == 0x1_0000_0000 && Power(256, 6) == 0x1_0000_0000_0000
    ensures Power(256, 8) == 0x1_0000_0000_0000_0000
  {
  }

  /** A number of `k` bytes of decimal digits, and its dif. */
  predicate DecimalField(dif: byte, k: nat, n: nat) {
    || (dif % 16 == 9 && k == 1 && n < 100)
    || (dif % 16 == 10 && k == 2 && n < 1_0000)
    || (dif % 16 == 11 && k == 3 && n < 100_0000)
    || (dif % 16 == 12 && k == 4 && n < 1_0000_0000)
    || (dif % 16 == 14 && k == 6 && n < 1_0000_0000_0000)
  }

  /** A binary number of `k` bytes, and its dif. */
  predicate BinaryField(dif: byte, k: nat, n: nat) {
    || (dif % 16 == 1 && k == 1 && n < 0x100)
    || (dif % 16 == 2 && k == 2 && n < 0x1_0000)
    || (dif % 16 == 3 && k == 3 && n < 0x100_0000)
    || (dif % 16 == 4 && k == 4 && n < 0x1_0000_0000)
    || (dif % 16 == 6 && k == 6 && n < 0x1_0000_0000_0000)
    || (dif % 16 == 7 && k == 8 && n < 0x1_0000_0000_0000_0000)
  }

  lemma OneRecord(dif: byte, vif: byte, v: Bytes)
    requires dif < 0x80 && vif < 0x80 && dif % 16 != 13 && dif % 16 != 15 && |v| == WIDTHS[dif % 16]
    ensures var d := [dif, vif] + v;
            Parse(true, d, 0, d, 0, |d|).records == [Record(Header(dif, [], vif, []), 2, v)]
  {
    var d, h := [dif, vif] + v, Header(dif, [], vif, []);
    WidthIsDifLen(dif);
    hide Parse, DifLen;
    assert h.Id() == [dif, vif];
    assert d[0..] == d == Print(Rec(h, v)) + [];
    AfterRecord(d, 0, |d|, h, v, []);
  }

  lemma DecimalRecord(dif: byte, vif: byte, n: nat, k: nat)
    requires DecimalField(dif, k, n)
    ensures var r := Record(Header(dif, [], vif, []), 2, DecimalBytes(n, k));
            IsNumber(r) && NumberOf(r) == n && !IsBinary(dif % 16) && k == WIDTHS[dif % 16]
  {
    hide Power, DecimalDigits, BcdNumber, LittleEndian, DecimalBytes;
    Powers();
    DecimalBack(n, k);
  }

  lemma BinaryRecord(dif: byte, vif: byte, n: nat, k: nat)
    requires BinaryField(dif, k, n)
    ensures var r := Record(Header(dif, [], vif, []), 2, BinaryBytes(n, k));
            IsNumber(r) && NumberOf(r) == n && IsBinary(dif % 16) && k == WIDTHS[dif % 16]
  {
    hide Power, DecimalDigits, BcdNumber, LittleEndian, BinaryBytes;
    Powers();
    BinaryBack(n, k);
  }

  lemma OneAnswer(dif: byte, vif: byte, v: Bytes, base: nat)
    requires dif < 0x80 && vif < 0x80 && dif % 16 != 13 && dif % 16 != 15 && |v| == WIDTHS[dif % 16]
    requires IsNumber(Record(Header(dif, [], vif, []), 2, v))
    ensures var d := [dif, vif] + v;
            var rs := Parse(true, d, 0, d, 0, |d|).records;
            var values := Store(map[], rs, base);
            && |rs| == 1 && rs[0] == Record(Header(dif, [], vif, []), 2, v)
            && Answers(ExtractLong(values, KeyAt(rs, 0)), ExtractDoubleRaw(values, KeyAt(rs, 0)), rs[0], base)
  {
    hide Parse, Store, KeyAt, Occurrences, StoredAs, ExtractLong, ExtractDoubleRaw, DifesOk, IsNumber, Answers;
    var d := [dif, vif] + v;
    OneRecord(dif, vif, v);
    var rs := Parse(true, d, 0, d, 0, |d|).records;
    assert |d| <= 10;
    ParsedIsStored(true, d, d, base, 0);
    AnswerIsNumber(Store(map[], rs, base), KeyAt(rs, 0), rs[0], Occurrences(rs[..1], Dv(rs[0])), base);
  }

  /** Decimal numbers of every width come back, up to the ranges of the extractors. */
  lemma DecimalAnswer(dif: byte, vif: byte, n: nat, k: nat, base: nat)
    requires dif < 0x80 && vif < 0x80 && DecimalField(dif, k, n)
    ensures var d := [dif, vif] + DecimalBytes(n, k);
            var rs := Parse(true, d, 0, d, 0, |d|).records;
            var values, key := Store(map[], rs, base), KeyAt(rs, 0);
            && |rs| == 1
            && (ExtractLong(values, key) == Number(base + 2, n) <==> n < 0x8000_0000)
            && (ExtractDoubleRaw(values, key) == Number(base + 2, n) <==> n < 0x1_0000_0000)
  {
    hide Parse, Store, KeyAt, ExtractLong, ExtractDoubleRaw, IsNumber, NumberOf, IsBinary, DecimalBytes;
    DecimalRecord(dif, vif, n, k);
    OneAnswer(dif, vif, DecimalBytes(n, k), base);
  }

  /** So do binary numbers, all of them as a long. */
  lemma BinaryAnswer(dif: byte, vif: byte, n: nat, k: nat, base: nat)
    requires dif < 0x80 && vif < 0x80 && BinaryField(dif, k, n)
    ensures var d := [dif, vif] + BinaryBytes(n, k);
            var rs := Parse(true, d, 0, d, 0, |d|).records;
            var values, key := Store(map[], rs, base), KeyAt(rs, 0);
            && |rs| == 1
            && ExtractLong(values, key) == Number(base + 2, n)
            && (ExtractDoubleRaw(values, key) == Number(base + 2, n) <==> n < 0x1_0000_0000)
  {
    hide Parse, Store, KeyAt, ExtractLong, ExtractDoubleRaw, IsNumber, NumberOf, IsBinary, BinaryBytes;
    BinaryRecord(dif, vif, n, k);
    OneAnswer(dif, vif, BinaryBytes(n, k), base);
  }

  // Queries.

  /** The quantities, by the bits of the primary value information codes of EN 13757-3. */
  predicate Measures(vif: byte, info: ValueInformation) {
    match info
    case NoInformation => vif == 0
    case EnergyWh => vif / 8 == 0
    case EnergyMJ => vif / 2 == 7
    case Volume => vif / 8 == 2
    case OperatingTime => vif / 4 == 9
    case PowerW => vif / 8 == 5
    case VolumeFlow => vif / 8 == 7
    case FlowTemperature => vif / 4 == 22
    case ReturnTemperature => vif / 4 == 23
    case TemperatureDifference => vif / 4 == 24
    case ExternalTemperature => vif / 4 == 25
    case Date => vif == 0x6c
    case DateTime => vif == 0x6d
    case HeatCostAllocation => vif == 0x6e
    case ActualityDuration => vif / 4 == 29
  }

  lemma MeasuresIff(vif: byte, info: ValueInformation)
    ensures Measures(vif, info) <==> ValueInfoRange(info).0 <= vif <= ValueInfoRange(info).1
  {
  }

  /** A record without extension bytes has no tariff, and at most one bit of a storage number. */
  predicate Asked(q: Query, dif: byte, vif: byte) {
    && Measures(vif, q.info)
    && (q.mtype == Unknown || q.mtype == [Instantaneous, Maximum, Minimum, AtError][dif / 16 % 4])
    && (q.storagenr == -1 || q.storagenr == dif / 64)
    && (q.tariffnr == -1 || q.tariffnr == 0)
  }

  /** Which of them answer which queries. */
  lemma MatchesIff(q: Query, dif: byte, vif: byte, v: Bytes)
    requires dif < 0x80 && vif < 0x80
    ensures Matches(q, EntryFor(Header(dif, [], vif, []), v)) <==> Asked(q, dif, vif)
  {
    hide Measures, ValueInfoRange;
    MeasuresIff(vif, q.info);
  }

  lemma OneAsked(q: Query, dif: byte, vif: byte, v: Bytes)
    requires dif < 0x80 && vif < 0x80 && dif % 16 != 13 && dif % 16 != 15 && |v| == WIDTHS[dif % 16]
    requires Asked(q, dif, vif)
    ensures var d := [dif, vif] + v;
            var rs := Parse(true, d, 0, d, 0, |d|).records;
            rs == [Record(Header(dif, [], vif, []), 2, v)] && OnlyAnswer(q, rs, 0)
  {
    hide Parse, Asked, Matches, EntryFor;
    OneRecord(dif, vif, v);
    MatchesIff(q, dif, vif, v);
  }

  /** A telegram of one decimal number, asked for what it measures: the answer is the number, exactly within the
      ranges of the two extractors. */
  method ReadDecimal(parser: Parser, dif: byte, vif: byte, n: nat, k: nat, base: nat, q: Query)
    returns (found: bool, r: Extracted, raw: Extracted)
    requires parser.Valid() && dif < 0x80 && vif < 0x80 && DecimalField(dif, k, n) && Asked(q, dif, vif)
    modifies parser
    ensures parser.Valid() && found
    ensures r == Number(base + 2, n) <==> n < 0x8000_0000
    ensures raw == Number(base + 2, n) <==> n < 0x1_0000_0000
  {
    hide Parse, IsNumber, NumberOf, IsBinary, OnlyAnswer, DecimalBytes, Asked, Whole;
    var v := DecimalBytes(n, k);
    DecimalRecord(dif, vif, n, k);
    OneAsked(q, dif, vif, v);
    found, r, raw := ReadNumber(parser, [dif, vif] + v, base, q);
  }

  /** The same for a binary number, which is always the long answer. */
  method ReadBinary(parser: Parser, dif: byte, vif: byte, n: nat, k: nat, base: nat, q: Query)
    returns (found: bool, r: Extracted, raw: Extracted)
    requires parser.Valid() && dif < 0x80 && vif < 0x80 && BinaryField(dif, k, n) && Asked(q, dif, vif)
    modifies parser
    ensures parser.Valid() && found && r == Number(base + 2, n)
    ensures raw == Number(base + 2, n) <==> n < 0x1_0000_0000
  {
    hide Parse, IsNumber, NumberOf, IsBinary, OnlyAnswer, BinaryBytes, Asked, Whole;
    var v := BinaryBytes(n, k);
    BinaryRecord(dif, vif, n, k);
    OneAsked(q, dif, vif, v);
    found, r, raw := ReadNumber(parser, [dif, vif] + v, base, q);
  }

  lemma VolumeBytes()
    ensures DecimalBytes(1234, 2) == [0x34, 0x12]
  {
    assert DecimalBytes(12, 1) == [0x12] + DecimalBytes(0, 0);
    assert DecimalBytes(1234, 2) == [0x34] + DecimalBytes(12, 1);
  }

  /** Four bytes that answer the query for an instantaneous volume, and no query for a maximum or a temperature, with
      1234. */
  lemma VolumeExample()
    ensures var d := [0x0a, 0x13, 0x34, 0x12];
            var rs := Parse(true, d, 0, d, 0, 4).records;
            var values := Store(map[], rs, 0);
            && |rs| == 1
            && ExtractLong(values, KeyAt(rs, 0)) == ExtractDoubleRaw(values, KeyAt(rs, 0)) == Number(2, 1234)
            && Matches(Query(Instantaneous, Volume, 0, 0), EntryFor(rs[0].header, rs[0].value))
            && !Matches(Query(Maximum, Volume, 0, 0), EntryFor(rs[0].header, rs[0].value))
            && !Matches(Query(Instantaneous, FlowTemperature, 0, 0), EntryFor(rs[0].header, rs[0].value))
  {
    hide Parse, Store, KeyAt, ExtractLong, ExtractDoubleRaw, DecimalBytes, Matches, EntryFor;
    VolumeBytes();
    assert [0x0a, 0x13] + DecimalBytes(1234, 2) == [0x0a, 0x13, 0x34, 0x12];
    DecimalAnswer(0x0a, 0x13, 1234, 2, 0);
    OneRecord(0x0a, 0x13, DecimalBytes(1234, 2));
    MatchesIff(Query(Instantaneous, Volume, 0, 0), 0x0a, 0x13, DecimalBytes(1234, 2));
    MatchesIff(Query(Maximum, Volume, 0, 0), 0x0a, 0x13, DecimalBytes(1234, 2));
    MatchesIff(Query(Instantaneous, FlowTemperature, 0, 0), 0x0a, 0x13, DecimalBytes(1234, 2));
  }

  // Keys.

  lemma DecimalExamples()
    ensures Decimal(2) == "2" && Decimal(10) == "10" && Decimal(2047) == "2047"
  {
  }

  lemma TwoRecords(d: Bytes)
    requires d == [0x01, 0x13, 0x05, 0x01, 0x13, 0x06]
    ensures var h := Header(0x01, [], 0x13, []);
            Parse(true, d, 0, d, 0, 6).records == [Record(h, 2, [0x05]), Record(h, 5, [0x06])]
  {
    var h := Header(0x01, [], 0x13, []);
    OneByteItem(h, 0x05);
    OneByteItem(h, 0x06);
    hide Parse, ItemOk, Print, DifLen;
    assert d[0..] == [0x01, 0x13, 0x05] + [0x01, 0x13, 0x06];
    AfterRecord(d, 0, 6, h, [0x05], [0x01, 0x13, 0x06]);
    assert d[3..] == [0x01, 0x13, 0x06] + [];
    AfterRecord(d, 3, 6, h, [0x06], []);
  }

  lemma OneByteItem(h: Header, b: byte)
    requires h == Header(0x01, [], 0x13, [])
    ensures ItemOk(Rec(h, [b])) && DifLen(h.dif) == 1 && Print(Rec(h, [b])) == [0x01, 0x13, b]
  {
  }

  /** Two volumes under one identifier: the second key has a number. */
  lemma RepeatedExample()
    ensures var d := [0x01, 0x13, 0x05, 0x01, 0x13, 0x06];
            var rs := Parse(true, d, 0, d, 0, 6).records;
            |rs| == 2 && KeyAt(rs, 0) == "0113" && KeyAt(rs, 1) == "0113_2"
  {
    var d: Bytes := [0x01, 0x13, 0x05, 0x01, 0x13, 0x06];
    TwoRecords(d);
    DecimalExamples();
    var h := Header(0x01, [], 0x13, []);
    var r0, r1 := Record(h, 2, [0x05]), Record(h, 5, [0x06]);
    hide Parse, Decimal;
    assert h.Id() == [0x01, 0x13];
    assert Dv(r0) == "0113" by { HexExample(); }
    assert [r0, r1][..1] == [r0] && [r0, r1][..2] == [r0, r1] && [r0][..0] == [];
    hide Bin2Hex;
    assert Occurrences([r0], "0113") == 1;
    assert Occurrences([r0, r1], "0113") == 2;
  }

  lemma HexExample()
    ensures Bin2Hex([0x01, 0x13]) == "0113" && Bin2Hex([0xaf]) == "AF"
  {
    assert Bin2Hex([0x13]) == "13";
    assert [0x01, 0x13][1..] == [0x13];
  }
}
