/** Finding a value by what it measures, and reading numbers out of it. */
module DvExtract {
  import opened Hex
  import opened Wrappers
  import opened DvSpec
  import opened DvValues

  datatype ValueInformation = NoInformation | Volume | OperatingTime | VolumeFlow | FlowTemperature | ReturnTemperature
    | TemperatureDifference | ExternalTemperature | HeatCostAllocation | Date | DateTime | EnergyMJ | EnergyWh
    | PowerW | ActualityDuration

  function ValueInfoRange(v: ValueInformation): (nat, nat) {
    match v
    case NoInformation => (0x00, 0x00)
    case Volume => (0x10, 0x17)
    case OperatingTime => (0x24, 0x27)
    case VolumeFlow => (0x38, 0x3F)
    case FlowTemperature => (0x58, 0x5B)
    case ReturnTemperature => (0x5C, 0x5F)
    case TemperatureDifference => (0x60, 0x63)
    case ExternalTemperature => (0x64, 0x67)
    case HeatCostAllocation => (0x6E, 0x6E)
    case Date => (0x6C, 0x6C)
    case DateTime => (0x6D, 0x6D)
    case EnergyMJ => (0x0E, 0x0F)
    case EnergyWh => (0x00, 0x07)
    case PowerW => (0x28, 0x2F)
    case ActualityDuration => (0x74, 0x77)
  }

  const ANY := -1

  datatype Query = Query(mtype: MeasurementType, info: ValueInformation, storagenr: int, tariffnr: int)

  predicate Matches(q: Query, e: DVEntry) {
    var (low, hi) := ValueInfoRange(q.info);
    && low <= e.valueInformation <= hi
    && (q.mtype == Unknown || q.mtype == e.mtype)
    && (q.storagenr == ANY || q.storagenr == e.storagenr)
    && (q.tariffnr == ANY || q.tariffnr == e.tariff)
  }

  // The order in which std::map is traversed.

  predicate AtMost(a: string, b: string) {
    a == "" || (b != "" && (a[0] < b[0] || (a[0] == b[0] && AtMost(a[1..], b[1..]))))
  }

  /** Where the two strings first differ, the smaller character comes first. */
  ghost predicate DiffersAt(a: string, b: string, i: nat) {
    i < |a| && i < |b| && a[..i] == b[..i] && a[i] < b[i]
  }

  lemma DiffersFirst(a: string, b: string, i: nat)
    requires DiffersAt(a, b, i)
    ensures a[0] <= b[0]
  {
    if i > 0 {
      assert a[0] == a[..i][0] && b[0] == b[..i][0];
    }
  }

  /** The order is that of dictionaries. */
  lemma {:induction false} AtMostIff(a: string, b: string)
    ensures AtMost(a, b) <==> a <= b || exists i: nat :: DiffersAt(a, b, i)
  {
    if a != "" && b != "" {
      forall i: nat | DiffersAt(a, b, i)
        ensures a[0] <= b[0]
      {
        DiffersFirst(a, b, i);
      }
      if a[0] == b[0] {
        var c, d := a[1..], b[1..];
        AtMostIff(c, d);
        assert a == [a[0]] + c && b == [b[0]] + d;
        if i: nat :| DiffersAt(c, d, i) {
          assert a[..i + 1] == [a[0]] + c[..i] && b[..i + 1] == [b[0]] + d[..i];
          assert DiffersAt(a, b, i + 1);
        }
        if i: nat :| DiffersAt(a, b, i) {
          assert c[..i - 1] == a[..i][1..] && d[..i - 1] == b[..i][1..];
          assert DiffersAt(c, d, i - 1);
        }
      } else if a[0] < b[0] {
        assert DiffersAt(a, b, 0);
      }
    }
  }

  lemma {:induction false} AtMostTotal(a: string, b: string)
    ensures AtMost(a, b) || AtMost(b, a)
    ensures AtMost(a, b) && AtMost(b, a) ==> a == b
  {
    if a != "" && b != "" && a[0] == b[0] {
      AtMostTotal(a[1..], b[1..]);
      assert a == [a[0]] + a[1..] && b == [b[0]] + b[1..];
    }
  }

  lemma {:induction false} AtMostTransitive(a: string, b: string, c: string)
    requires AtMost(a, b) && AtMost(b, c)
    ensures AtMost(a, c)
  {
    if a != "" && a[0] == b[0] == c[0] {
      AtMostTransitive(a[1..], b[1..], c[1..]);
    }
  }

  lemma {:induction false} LeastExists(keys: set<string>)
    requires keys != {}
    ensures exists k :: k in keys && forall other :: other in keys ==> AtMost(k, other)
    decreases |keys|
  {
    var x :| x in keys;
    AtMostTotal(x, x);
    if keys == {x} {
      assert x in keys && forall other :: other in keys ==> AtMost(x, other);
    } else {
      var rest := keys - {x};
      assert rest != {} by {
        var y :| y in keys && y != x;
        assert y in rest;
      }
      LeastExists(rest);
      var m :| m in rest && forall other :: other in rest ==> AtMost(m, other);
      AtMostTotal(x, m);
      var least := if AtMost(x, m) then x else m;
      forall other | other in keys
        ensures AtMost(least, other)
      {
        if other != x && least == x {
          AtMostTransitive(x, m, other);
        }
      }
      assert least in keys;
    }
  }

  /** The first entry, in key order, that answers the query. */
  method FindKey(q: Query, values: Values) returns (found: bool, key: string)
    ensures found <==> exists k :: k in values && Matches(q, values[k].1)
    ensures found ==> key in values && Matches(q, values[key].1)
    ensures found ==> forall k :: k in values && Matches(q, values[k].1) ==> AtMost(key, k)
  {
    hide Matches;
    var rest := values.Keys;
    key := "";
    while rest != {}
      invariant rest <= values.Keys
      invariant forall k :: k in values && k !in rest ==> !Matches(q, values[k].1)
      decreases |rest|
    {
      LeastExists(rest);
      var v :| v in rest && forall other :: other in rest ==> AtMost(v, other);
      if Matches(q, values[v].1) {
        return true, v;
      }
      rest := rest - {v};
    }
    found := false;
  }

  // The dif and the vif of a key.

  /** The dif and vif of identifier bytes; a vif of zero if the dife chain does not end, and nothing if
      there is no byte to read. */
  function DifVif(bytes: Bytes): Option<(byte, byte)> {
    if bytes == [] then None
    else
      var difes := Chain(bytes[1..], More(bytes[0]));
      var at := 1 + |difes|;
      if at < |bytes| then Some((bytes[0], bytes[at]))
      else if More(bytes[at - 1]) then Some((bytes[0], 0))
      else None
  }

  /** The search of extractDV: the loop over the dife bytes of a key, which may end in a number. */
  method ExtractDV(key: string) returns (dif: byte, vif: byte)
    requires DifVif(Hex2Bin(key).1).Some?
    ensures DifVif(Hex2Bin(key).1) == Some((dif, vif))
  {
    hide Hex2Bin, More, Chain, DifVif, Partial;
    var bytes := Hex2Bin(key).1;
    assert bytes != [] by { DifVifOfNothing(); }
    dif := bytes[0];
    var hasAnotherDife := More(dif);
    var i := 1;
    ghost var whole := Chain(bytes[1..], More(dif));
    assert bytes[1..1] == [];
    PartialStart(bytes, 1, More(dif));
    while hasAnotherDife
      invariant 1 <= i <= |bytes| && hasAnotherDife == More(bytes[i - 1])
      invariant Partial(bytes, 1, whole, bytes[1..i], hasAnotherDife)
      decreases |bytes| - i
    {
      if i >= |bytes| {
        PartialEnd(bytes, 1, whole, bytes[1..i], true);
        assert bytes[1..i] == bytes[1..];
        DifVifRunsOut(bytes);
        return dif, 0;
      }
      PartialStep(bytes, 1, whole, bytes[1..i]);
      var dife := bytes[i];
      hasAnotherDife := More(dife);
      assert bytes[1 .. i + 1] == bytes[1..i] + [dife];
      i := i + 1;
    }
    PartialEnd(bytes, 1, whole, bytes[1..i], false);
    DifVifAt(bytes, i);
    vif := bytes[i];
  }

  lemma DifVifOfNothing()
    ensures DifVif([]) == None
  {
  }

  lemma DifVifRunsOut(bytes: Bytes)
    requires bytes != [] && Chain(bytes[1..], More(bytes[0])) == bytes[1..] && More(bytes[|bytes| - 1])
    ensures DifVif(bytes) == Some((bytes[0], 0))
  {
    hide Chain, More;
  }

  lemma DifVifAt(bytes: Bytes, i: nat)
    requires 1 <= i <= |bytes| && Chain(bytes[1..], More(bytes[0])) == bytes[1..i] && !More(bytes[i - 1])
    ensures DifVif(bytes) == if i < |bytes| then Some((bytes[0], bytes[i])) else None
  {
    hide Chain, More;
  }

  // Numbers.

  /** The number that little-endian bytes stand for. */
  function LittleEndian(v: Bytes): nat {
    if v == [] then 0 else v[0] + 256 * LittleEndian(v[1..])
  }

  /** The number that binary coded decimal bytes stand for, least significant pair first. */
  function BcdNumber(v: Bytes): nat {
    if v == [] then 0 else (v[0] / 16) * 10 + v[0] % 16 + 100 * BcdNumber(v[1..])
  }

  predicate DecimalDigits(v: Bytes) {
    forall i :: 0 <= i < |v| ==> v[i] / 16 < 10 && v[i] % 16 < 10
  }

  predicate IsBinary(t: nat) {
    t in {0x1, 0x2, 0x3, 0x4, 0x6, 0x7}
  }

  predicate IsBcd(t: nat) {
    t in {0x9, 0xA, 0xB, 0xC, 0xE}
  }

  /** Byte `i`, or zero. */
  function ByteAt(v: Bytes, i: nat): nat {
    if i < |v| then v[i] else 0
  }

  /** The sum the source writes out for each binary width. */
  function BinarySum(v: Bytes): nat
    requires |v| in {1, 2, 3, 4, 6, 8}
  {
    var v0, v1, v2, v3 := ByteAt(v, 0), ByteAt(v, 1), ByteAt(v, 2), ByteAt(v, 3);
    var v4, v5, v6, v7 := ByteAt(v, 4), ByteAt(v, 5), ByteAt(v, 6), ByteAt(v, 7);
    if |v| == 1 then v0
    else if |v| == 2 then v1 * 0x100 + v0
    else if |v| == 3 then v2 * 0x1_0000 + v1 * 0x100 + v0
    else if |v| == 4 then v3 * 0x100_0000 + v2 * 0x1_0000 + v1 * 0x100 + v0
    else if |v| == 6 then v5 * 0x100_0000_0000 + v4 * 0x1_0000_0000 + v3 * 0x100_0000 + v2 * 0x1_0000 + v1 * 0x100 + v0
    else v7 * 0x100_0000_0000_0000 + v6 * 0x1_0000_0000_0000 + v5 * 0x100_0000_0000 + v4 * 0x1_0000_0000
         + v3 * 0x100_0000 + v2 * 0x1_0000 + v1 * 0x100 + v0
  }

  /** The character less '0'; a letter gives 17 or more. */
  function DigitOf(c: char): int {
    c as int - '0' as int
  }

  /** The sum the source writes out for each BCD width, over the hexadecimal text. */
  function BcdSum(v: string): int
    requires |v| in {2, 4, 6, 8, 12}
  {
    if |v| == 2 then DigitOf(v[0]) * 10 + DigitOf(v[1])
    else if |v| == 4 then DigitOf(v[2]) * 1000 + DigitOf(v[3]) * 100 + DigitOf(v[0]) * 10 + DigitOf(v[1])
    else if |v| == 6 then
      DigitOf(v[4]) * 10_0000 + DigitOf(v[5]) * 1_0000 + DigitOf(v[2]) * 1000 + DigitOf(v[3]) * 100
      + DigitOf(v[0]) * 10 + DigitOf(v[1])
    else if |v| == 8 then
      DigitOf(v[6]) * 1000_0000 + DigitOf(v[7]) * 100_0000 + DigitOf(v[4]) * 10_0000 + DigitOf(v[5]) * 1_0000
      + DigitOf(v[2]) * 1000 + DigitOf(v[3]) * 100 + DigitOf(v[0]) * 10 + DigitOf(v[1])
    else
      DigitOf(v[10]) * 1000_0000_0000 + DigitOf(v[11]) * 100_0000_0000 + DigitOf(v[8]) * 10_0000_0000
          + DigitOf(v[9]) * 1_0000_0000
      + DigitOf(v[6]) * 1000_0000 + DigitOf(v[7]) * 100_0000 + DigitOf(v[4]) * 10_0000 + DigitOf(v[5]) * 1_0000
      + DigitOf(v[2]) * 1000 + DigitOf(v[3]) * 100 + DigitOf(v[0]) * 10 + DigitOf(v[1])
  }

  /** Conversion to a 32-bit int, around. */
  function Int32(x: int): int {
    (x + 0x8000_0000) % 0x1_0000_0000 - 0x8000_0000
  }

  function UInt32(x: int): nat {
    x % 0x1_0000_0000
  }

  function UInt64(x: int): nat {
    x % 0x1_0000_0000_0000_0000
  }

  /** No such key or no data; a number; an unsupported type; or a width that the source asserts against. */
  datatype Extracted = Missing | Number(offset: nat, n: nat) | Unsupported | Aborted

  function ExtractLong(values: Values, key: string): Extracted {
    if key !in values then Missing
    else match DifVif(Hex2Bin(key).1)
    case None => Aborted
    case Some((dif, _)) =>
      var (offset, e) := values[key];
      if e.value == "" then Missing
      else if IsBinary(dif % 16) then
        var v := Hex2Bin(e.value).1;
        if |v| != DifLen(dif) then Aborted else Number(offset, UInt64(BinarySum(v)))
      else if IsBcd(dif % 16) then
        if |e.value| != 2 * DifLen(dif) then Aborted else Number(offset, UInt64(Int32(BcdSum(e.value))))
      else Unsupported
  }

  /** The unscaled number that extractDVdouble divides by its scale. */
  function ExtractDoubleRaw(values: Values, key: string): Extracted {
    if key !in values then Missing
    else match DifVif(Hex2Bin(key).1)
    case None => Aborted
    case Some((dif, _)) =>
      var (offset, e) := values[key];
      if e.value == "" then Missing
      else if IsBinary(dif % 16) then
        var v := Hex2Bin(e.value).1;
        if |v| != DifLen(dif) then Aborted else Number(offset, UInt32(BinarySum(v)))
      else if IsBcd(dif % 16) then
        if |e.value| != 2 * DifLen(dif) then Aborted else Number(offset, UInt32(Int32(BcdSum(e.value))))
      else Unsupported
  }

  // The written-out sums.

  lemma BinarySumIsLittleEndian(v: Bytes)
    requires |v| in {1, 2, 3, 4, 6, 8}
    ensures BinarySum(v) == LittleEndian(v) < 0x1_0000_0000_0000_0000
  {
    LittleEndianUnrolled(v);
  }

  lemma LittleEndianUnrolled(v: Bytes)
    requires 1 <= |v| <= 8
    ensures LittleEndian(v)
         == ByteAt(v, 0) + 256 * (ByteAt(v, 1) + 256 * (ByteAt(v, 2) + 256 * (ByteAt(v, 3)
            + 256 * (ByteAt(v, 4) + 256 * (ByteAt(v, 5) + 256 * (ByteAt(v, 6) + 256 * ByteAt(v, 7)))))))
  {
    hide LittleEndian, From, ByteAt;
    LittleEndianAt(v, 0);
    LittleEndianAt(v, 1);
    LittleEndianAt(v, 2);
    LittleEndianAt(v, 3);
    LittleEndianAt(v, 4);
    LittleEndianAt(v, 5);
    LittleEndianAt(v, 6);
    LittleEndianAt(v, 7);
    FromEnds(v);
  }

  lemma FromEnds(v: Bytes)
    requires |v| <= 8
    ensures From(v, 0) == v && LittleEndian(From(v, 8)) == 0
  {
    assert v[0..] == v;
  }

  function From(v: Bytes, i: nat): Bytes {
    if i <= |v| then v[i..] else []
  }

  lemma LittleEndianAt(v: Bytes, i: nat)
    ensures LittleEndian(From(v, i)) == ByteAt(v, i) + 256 * LittleEndian(From(v, i + 1))
  {
    if i < |v| {
      assert v[i..][1..] == v[i + 1..];
    }
  }
}
