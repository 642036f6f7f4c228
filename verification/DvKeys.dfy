/** Repeated identifiers: the numbered keys stay distinct on every input shorter than 4094 bytes, and on
    no greater length. */
module DvKeys {
  import opened Hex
  import opened Wrappers
  import opened DvSpec
  import opened DvPrint
  import opened DvValues

  // Full keys determine the identifier and the count.

  lemma SuffixShape(count: nat)
    ensures Suffix(count) == "" || (Suffix(count)[0] == '_' && |Suffix(count)| >= 2)
  {
  }

  lemma NotShorter(a: string, s: string, b: string, t: string)
    requires |a| < |b| && '_' !in b && (s == "" || s[0] == '_')
    ensures a + s != b + t
  {
    if s == "" {
      assert |a + s| < |b + t|;
    } else {
      assert (a + s)[|a|] == '_';
      assert (b + t)[|a|] == b[|a|];
      assert b[|a|] in b;
    }
  }

  lemma SplitAtUnderscore(a: string, s: string, b: string, t: string)
    requires '_' !in a && '_' !in b && a + s == b + t
    requires (s == "" || s[0] == '_') && (t == "" || t[0] == '_')
    ensures a == b && s == t
  {
    if |a| < |b| {
      NotShorter(a, s, b, t);
    } else if |b| < |a| {
      NotShorter(b, t, a, s);
    } else {
      assert a == (a + s)[..|a|] && b == (b + t)[..|b|];
      assert s == (a + s)[|a|..] && t == (b + t)[|b|..];
    }
  }

  lemma SuffixInjective(m: nat, n: nat)
    requires m >= 1 && n >= 1 && Suffix(m) == Suffix(n)
    ensures m == n
  {
    if m > 1 && n > 1 {
      assert Decimal(m) == Suffix(m)[1..] && Decimal(n) == Suffix(n)[1..];
      DecimalInjective(m, n);
    }
  }

  lemma FullKeyInjective(a: Bytes, m: nat, b: Bytes, n: nat)
    requires m >= 1 && n >= 1 && Bin2Hex(a) + Suffix(m) == Bin2Hex(b) + Suffix(n)
    ensures a == b && m == n
  {
    NoUnderscore(a);
    NoUnderscore(b);
    SuffixShape(m);
    SuffixShape(n);
    SplitAtUnderscore(Bin2Hex(a), Suffix(m), Bin2Hex(b), Suffix(n));
    Bin2HexInjective(a, b);
    SuffixInjective(m, n);
  }

  // Counting the bytes that the identifiers take.

  function IdBytes(rs: seq<Record>): nat {
    if rs == [] then 0 else IdBytes(rs[..|rs| - 1]) + |rs[|rs| - 1].header.Id()|
  }

  lemma {:induction false} IdBytesMonotone(rs: seq<Record>, n: nat)
    requires n <= |rs|
    ensures IdBytes(rs[..n]) <= IdBytes(rs)
  {
    if n == |rs| {
      assert rs[..n] == rs;
    } else {
      assert rs[..|rs| - 1][..n] == rs[..n];
      IdBytesMonotone(rs[..|rs| - 1], n);
    }
  }

  lemma {:induction false} OccurrencesMonotone(rs: seq<Record>, n: nat, dv: string)
    requires n <= |rs|
    ensures Occurrences(rs[..n], dv) <= Occurrences(rs, dv)
  {
    if n == |rs| {
      assert rs[..n] == rs;
    } else {
      assert rs[..|rs| - 1][..n] == rs[..n];
      OccurrencesMonotone(rs[..|rs| - 1], n, dv);
    }
  }

  /** `count` copies of `size` bytes. */
  function Weight(count: nat, size: nat): nat {
    count * size
  }

  lemma WeightNext(count: nat, size: nat)
    ensures Weight(count + 1, size) == Weight(count, size) + size && Weight(0, size) == 0
  {
  }

  /** Occurrences of two identifiers take their bytes from the total. */
  lemma {:induction false} IdBytesCount(rs: seq<Record>, a: Bytes, b: Bytes)
    ensures Weight(Occurrences(rs, Bin2Hex(a)), |a|) <= IdBytes(rs)
    ensures a != b ==>
              Weight(Occurrences(rs, Bin2Hex(a)), |a|) + Weight(Occurrences(rs, Bin2Hex(b)), |b|) <= IdBytes(rs)
  {
    hide Weight;
    if rs == [] {
      WeightNext(0, |a|);
      WeightNext(0, |b|);
    } else {
      var front := rs[..|rs| - 1];
      var id := rs[|rs| - 1].header.Id();
      IdBytesCount(front, a, b);
      WeightNext(Occurrences(front, Bin2Hex(a)), |a|);
      WeightNext(Occurrences(front, Bin2Hex(b)), |b|);
      if Bin2Hex(id) == Bin2Hex(a) {
        Bin2HexInjective(id, a);
      }
      if Bin2Hex(id) == Bin2Hex(b) {
        Bin2HexInjective(id, b);
      }
    }
  }

  lemma DecimalLength(n: nat)
    requires n < 10000
    ensures |Decimal(n)| <= 4
  {
    assert n / 10 < 1000 && n / 10 / 10 < 100 && n / 10 / 10 / 10 < 10;
    assert n >= 10 ==> |Decimal(n)| == |Decimal(n / 10)| + 1;
    assert n / 10 >= 10 ==> |Decimal(n / 10)| == |Decimal(n / 10 / 10)| + 1;
    assert n / 10 / 10 >= 10 ==> |Decimal(n / 10 / 10)| == |Decimal(n / 10 / 10 / 10)| + 1;
  }

  lemma WeightMonotone(m: nat, n: nat, size: nat)
    requires m <= n
    ensures Weight(m, size) <= Weight(n, size)
  {
  }

  lemma SmallWeights(size: nat)
    ensures Weight(1, size) == size && Weight(2, size) == 2 * size && Weight(3, size) == 3 * size
  {
  }

  lemma TwoEach(count: nat, size: nat)
    requires size >= 2
    ensures Weight(count, size) >= 2 * count
  {
  }

  lemma SuffixLength(count: nat)
    requires count < 10000
    ensures |Suffix(count)| <= if count > 1 then 5 else 0
  {
    DecimalLength(count);
  }

  /** A key that fills the limit belongs to identifiers that take half of it. */
  lemma LongKeysAreHeavy(size: nat, count: nat)
    requires count >= 1 && size >= 2 && Weight(count, size) < KEY_LIMIT
    requires 2 * size + |Suffix(count)| >= KEY_LIMIT
    ensures count <= 2 && (count == 1 ==> size >= 2047)
    ensures Weight(count, size) >= 2047
  {
    hide Weight, Suffix;
    TwoEach(count, size);
    SuffixLength(count);
    SmallWeights(size);
    if count >= 3 {
      WeightMonotone(3, count, size);
    }
  }

  lemma OccursAtLeastOnce(rs: seq<Record>, k: nat)
    requires k < |rs|
    ensures Occurrences(rs[..k + 1], Dv(rs[k])) >= 1
  {
    assert rs[..k + 1][k] == rs[k];
  }

  lemma SameIdCountsGrow(rs: seq<Record>, i: nat, k: nat)
    requires i < k < |rs| && Dv(rs[i]) == Dv(rs[k])
    ensures Occurrences(rs[..i + 1], Dv(rs[i])) < Occurrences(rs[..k + 1], Dv(rs[k]))
  {
    hide Occurrences, Dv;
    OccurrencesNext(rs, k, Dv(rs[k]));
    assert rs[..k][..i + 1] == rs[..i + 1];
    OccurrencesMonotone(rs[..k], i + 1, Dv(rs[i]));
  }

  lemma OccurrencesNext(rs: seq<Record>, k: nat, dv: string)
    requires k < |rs|
    ensures Occurrences(rs[..k + 1], dv) == Occurrences(rs[..k], dv) + (if Dv(rs[k]) == dv then 1 else 0)
  {
    hide Dv;
    assert rs[..k + 1][..k] == rs[..k] && rs[..k + 1][k] == rs[k];
  }

  /** Two records with the same key would take 4094 identifier bytes. */
  lemma SameKeyIsHeavy(rs: seq<Record>, i: nat, k: nat)
    requires i < k < |rs| && KeyAt(rs, i) == KeyAt(rs, k)
    ensures IdBytes(rs) >= KEY_LIMIT
  {
    hide Weight, Suffix, Occurrences, IdBytes;
    var a, b := rs[i].header.Id(), rs[k].header.Id();
    var m, n := Occurrences(rs[..i + 1], Dv(rs[i])), Occurrences(rs[..k + 1], Dv(rs[k]));
    OccursAtLeastOnce(rs, i);
    OccursAtLeastOnce(rs, k);
    if a == b {
      SameIdCountsGrow(rs, i, k);
    }
    KeyFor(rs, i);
    KeyFor(rs, k);
    if IdBytes(rs) < KEY_LIMIT {
      Counted(rs, i, k);
      Apart(a, m, b, n);
    }
  }

  lemma KeyFor(rs: seq<Record>, k: nat)
    requires k < |rs|
    ensures KeyAt(rs, k) == Key(Bin2Hex(rs[k].header.Id()), Occurrences(rs[..k + 1], Dv(rs[k])))
  {
    assert rs[..k + 1][k] == rs[k];
  }

  /** What the counts of two records say about the total. */
  lemma Counted(rs: seq<Record>, i: nat, k: nat)
    requires i < k < |rs|
    ensures var a, b := rs[i].header.Id(), rs[k].header.Id();
            var m, n := Occurrences(rs[..i + 1], Dv(rs[i])), Occurrences(rs[..k + 1], Dv(rs[k]));
            && Weight(m, |a|) <= IdBytes(rs) && Weight(n, |b|) <= IdBytes(rs)
            && (a != b ==> Weight(m, |a|) + Weight(n, |b|) <= IdBytes(rs))
  {
    hide Occurrences, IdBytes;
    var a, b := rs[i].header.Id(), rs[k].header.Id();
    var upTo := rs[..k + 1];
    assert upTo[..i + 1] == rs[..i + 1];
    OccurrencesMonotone(upTo, i + 1, Dv(rs[i]));
    IdBytesMonotone(rs, k + 1);
    IdBytesCount(upTo, a, b);
    IdBytesCount(upTo, b, a);
    WeightMonotone(Occurrences(rs[..i + 1], Dv(rs[i])), Occurrences(upTo, Dv(rs[i])), |a|);
  }

  /** Different records have different keys as long as their identifiers take fewer than 4094 bytes. */
  lemma Apart(a: Bytes, m: nat, b: Bytes, n: nat)
    requires |a| >= 2 && |b| >= 2 && m >= 1 && n >= 1
    requires a == b ==> m < n
    requires Weight(m, |a|) < KEY_LIMIT && Weight(n, |b|) < KEY_LIMIT
    requires a != b ==> Weight(m, |a|) + Weight(n, |b|) < KEY_LIMIT
    ensures Key(Bin2Hex(a), m) != Key(Bin2Hex(b), n)
  {
    hide Suffix, Weight, Bin2Hex;
    SmallWeights(|b|);
    var fullA, fullB := Bin2Hex(a) + Suffix(m), Bin2Hex(b) + Suffix(n);
    if fullA == fullB {
      FullKeyInjective(a, m, b, n);
    } else if |fullA| >= KEY_LIMIT && |fullB| >= KEY_LIMIT {
      LongKeysAreHeavy(|a|, m);
      LongKeysAreHeavy(|b|, n);
    }
  }

  /** With fewer identifier bytes than a key may have characters, all keys are distinct. */
  lemma FewBytesDistinct(rs: seq<Record>)
    requires IdBytes(rs) < KEY_LIMIT
    ensures KeysDistinct(rs)
  {
    hide KeyAt, IdBytes;
    forall i, k | 0 <= i < k < |rs|
      ensures KeyAt(rs, i) != KeyAt(rs, k)
    {
      if KeyAt(rs, i) == KeyAt(rs, k) {
        SameKeyIsHeavy(rs, i, k);
      }
    }
  }

  // The same for a parse.

  lemma {:induction false} IdBytesCons(r: Record, rs: seq<Record>)
    ensures IdBytes([r] + rs) == |r.header.Id()| + IdBytes(rs)
  {
    if rs == [] {
      assert ([r] + rs)[..0] == [];
    } else {
      var n := |rs|;
      assert ([r] + rs)[..n] == [r] + rs[..n - 1];
      IdBytesCons(r, rs[..n - 1]);
    }
  }

  /** The identifiers of the parsed records are different stretches of the format bytes. */
  lemma {:induction false} ParsedIdBytes(aliased: bool, fmt: Bytes, q: nat, d: Bytes, p: nat, end: nat)
    requires q <= |fmt| && p <= |d| <= end && (aliased ==> fmt == d && p == q)
    ensures IdBytes(Parse(aliased, fmt, q, d, p, end).records) <= |fmt| - q
    decreases |fmt| - q
  {
    hide ReadHead, ReadPayload;
    match ReadHead(fmt[q..])
    case AtEnd | Special(_) | NoVif(_) =>
    case Filler => ParsedIdBytes(aliased, fmt, q + 1, d, if aliased then p + 1 else p, end);
    case Found(h) =>
      ParseFound(aliased, fmt, q, d, p, end, h);
      var q1 := q + |h.Id()|;
      var p1 := if aliased then q1 else p;
      var r := ReadPayload(d, p1, h.dif, end);
      if r.stop {
        assert [Record(h, r.at, r.value)] + [] == [Record(h, r.at, r.value)];
        IdBytesCons(Record(h, r.at, r.value), []);
      } else {
        var q2 := if aliased then r.next else q1;
        ParsedIdBytes(aliased, fmt, q2, d, r.next, end);
        IdBytesCons(Record(h, r.at, r.value), Parse(aliased, fmt, q2, d, r.next, end).records);
      }
  }

  /** In either mode, with fewer than 4094 format bytes, nothing is overwritten. */
  lemma ShortInputsKeepAll(aliased: bool, fmt: Bytes, d: Bytes, end: nat)
    requires |d| <= end && (aliased ==> fmt == d) && |fmt| < KEY_LIMIT
    ensures KeysDistinct(Parse(aliased, fmt, 0, d, 0, end).records)
  {
    hide Parse, KeysDistinct;
    ParsedIdBytes(aliased, fmt, 0, d, 0, end);
    FewBytesDistinct(Parse(aliased, fmt, 0, d, 0, end).records);
  }

  // Inputs on which an entry is overwritten.

  function Repeat(b: byte, n: nat): (s: Bytes)
    ensures |s| == n
  {
    if n == 0 then [] else [b] + Repeat(b, n - 1)
  }

  lemma {:induction false} LongChainOk(n: nat)
    ensures ChainOk(Repeat(0x80, n) + [0], true)
  {
    if n > 0 {
      assert (Repeat(0x80, n) + [0])[1..] == Repeat(0x80, n - 1) + [0];
      LongChainOk(n - 1);
    } else {
      assert (Repeat(0x80, 0) + [0])[1..] == [];
    }
  }

  /** A header whose hexadecimal form is exactly as long as the longest key. */
  function LongHeader(): Header {
    Header(0x80, Repeat(0x80, 2044) + [0], 0x00, [])
  }

  lemma LongHeaderOk()
    ensures HeaderOk(LongHeader()) && ItemOk(Rec(LongHeader(), [])) && |LongHeader().Id()| == 2047
    ensures Print(Rec(LongHeader(), [])) == LongHeader().Id()
    ensures !Variable(LongHeader())
  {
    hide ChainOk, Repeat;
    LongChainOk(2044);
    assert ChainOk([], false) by { NoChain(); }
  }

  lemma NoChain()
    ensures ChainOk([], false)
  {
  }

  /** Fillers, and then the same long record twice. */
  function Overwriting(fillers: nat): (items: seq<Item>)
  {
    if fillers == 0 then [Rec(LongHeader(), []), Rec(LongHeader(), [])] else [Skip] + Overwriting(fillers - 1)
  }

  lemma {:induction false} OverwritingOk(n: nat, p: nat)
    ensures ItemsOk(Overwriting(n)) && |PrintAll(Overwriting(n), None)| == n + 4094
    ensures Unambiguous(Overwriting(n), None)
    ensures Expected(Overwriting(n), p)
        == [Record(LongHeader(), p + n + 2047, []), Record(LongHeader(), p + n + 4094, [])]
  {
    hide LongHeader, ItemOk, HeaderOk, Variable;
    LongHeaderOk();
    var items := Overwriting(n);
    if n == 0 {
      var rec := Rec(LongHeader(), []);
      assert items[1..] == [rec] && items[1..][1..] == [];
      assert PrintAll(items[1..][1..], None) == [];
      assert PrintAll(items[1..], None) == Print(rec) + [];
      assert PrintAll(items, None) == Print(rec) + Print(rec);
      assert Unambiguous(items[1..][1..], None);
      assert Unambiguous(items[1..], None);
      assert Expected(items[1..], p + 2047) == [Record(LongHeader(), p + 4094, [])] + [];
    } else {
      OverwritingOk(n - 1, p + 1);
      assert items[1..] == Overwriting(n - 1);
      assert ItemOk(Skip) by { SkipOk(); }
      assert Print(Skip) == [SKIP];
    }
  }

  lemma SkipOk()
    ensures ItemOk(Skip)
  {
  }

  /** The second key is cut down to the first. */
  lemma LongKeysCollide(rs: seq<Record>)
    requires |rs| == 2 && rs[0].header == rs[1].header == LongHeader()
    ensures KeyAt(rs, 0) == KeyAt(rs, 1)
  {
    hide LongHeader, Suffix;
    LongHeaderOk();
    var dv := Bin2Hex(LongHeader().Id());
    KeyFor(rs, 0);
    KeyFor(rs, 1);
    assert rs[..2] == rs && rs[..1][..0] == [];
    assert Occurrences(rs[..1], dv) == 1 && Occurrences(rs[..2], dv) == 2;
    LimitCuts(dv);
  }

  lemma LimitCuts(dv: string)
    requires |dv| == KEY_LIMIT
    ensures Key(dv, 1) == Key(dv, 2) == dv
  {
    hide Decimal;
    assert dv + Suffix(1) == dv;
    assert (dv + Suffix(2))[..KEY_LIMIT] == dv;
  }

  lemma OverwritingInput(n: nat) returns (d: Bytes)
    requires n >= KEY_LIMIT
    ensures |d| == n && !KeysDistinct(Parse(true, d, 0, d, 0, n).records)
  {
    hide Parse, PrintAll, Overwriting, Unambiguous, Expected, LongHeader, KeyAt;
    var k := n - KEY_LIMIT;
    OverwritingOk(k, 0);
    d := PrintAll(Overwriting(k), None);
    assert d[0..] == d;
    RoundTrip(d, 0, n, Overwriting(k), None);
    LongKeysCollide(Expected(Overwriting(k), 0));
  }

  /** On inputs of `n` bytes no entry is ever overwritten exactly when `n` is below 4094. */
  lemma NothingOverwrittenIff(n: nat)
    ensures (forall d: Bytes :: |d| == n ==> KeysDistinct(Parse(true, d, 0, d, 0, n).records)) <==> n < KEY_LIMIT
  {
    hide Parse, KeysDistinct;
    if n < KEY_LIMIT {
      forall d: Bytes | |d| == n
        ensures KeysDistinct(Parse(true, d, 0, d, 0, n).records)
      {
        ShortInputsKeepAll(true, d, d, n);
      }
    } else {
      var d := OverwritingInput(n);
    }
  }
}
