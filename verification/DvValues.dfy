/** The map from keys to values that a parse leaves behind. */
module DvValues {
  import opened Hex
  import opened DvSpec
  import opened DvFields

  datatype DVEntry = DVEntry(mtype: MeasurementType, valueInformation: nat, storagenr: nat, tariff: nat,
                             subunit: nat, value: string)

  type Values = map<string, (nat, DVEntry)>

  function EntryFor(h: Header, value: Bytes): DVEntry {
    var f := FieldsOf(h.dif, h.difes);
    DVEntry(TypeOfDif(h.dif), h.vif % 128, f.storage, f.tariff, f.subunit, Bin2Hex(value))
  }

  /** The identifier of a record, in hexadecimal. */
  function Dv(r: Record): string {
    Bin2Hex(r.header.Id())
  }

  /** strprintf keeps at most this many characters. */
  const KEY_LIMIT := 4094

  function Suffix(count: nat): string {
    if count > 1 then "_" + Decimal(count) else ""
  }

  function Key(dv: string, count: nat): string {
    var full := dv + Suffix(count);
    if |full| <= KEY_LIMIT then full else full[..KEY_LIMIT]
  }

  /** How often an identifier occurs. */
  function Occurrences(rs: seq<Record>, dv: string): nat {
    if rs == [] then 0
    else Occurrences(rs[..|rs| - 1], dv) + (if Dv(rs[|rs| - 1]) == dv then 1 else 0)
  }

  /** The key of the last of the records. */
  function LastKey(rs: seq<Record>): string
    requires rs != []
  {
    Key(Dv(rs[|rs| - 1]), Occurrences(rs, Dv(rs[|rs| - 1])))
  }

  /** The key of record `k`. */
  function KeyAt(rs: seq<Record>, k: nat): string
    requires k < |rs|
  {
    LastKey(rs[..k + 1])
  }

  function Entry(r: Record, base: nat): (nat, DVEntry) {
    (base + r.at, EntryFor(r.header, r.value))
  }

  /** The map after the records have been stored in order; `base` is the telegram offset of the data. */
  function Store(values: Values, rs: seq<Record>, base: nat): Values {
    if rs == [] then values
    else Store(values, rs[..|rs| - 1], base)[LastKey(rs) := Entry(rs[|rs| - 1], base)]
  }

  predicate KeysDistinct(rs: seq<Record>) {
    forall i, k :: 0 <= i < k < |rs| ==> KeyAt(rs, i) != KeyAt(rs, k)
  }

  lemma KeyAtPrefix(rs: seq<Record>, n: nat, k: nat)
    requires k < n <= |rs|
    ensures KeyAt(rs[..n], k) == KeyAt(rs, k)
  {
    assert rs[..n][..k + 1] == rs[..k + 1];
  }

  /** A map with exactly these keys, all of them different, and these values. */
  ghost predicate Pairs<V>(m: map<string, V>, keys: seq<string>, vs: seq<V>) {
    && |m| == |keys| == |vs|
    && (forall k :: 0 <= k < |keys| ==> keys[k] in m && m[keys[k]] == vs[k])
    && (forall key :: key in m ==> key in keys)
  }

  lemma PairsOneMore<V>(m: map<string, V>, keys: seq<string>, vs: seq<V>, key: string, v: V)
    requires Pairs(m, keys, vs) && key !in keys
    ensures Pairs(m[key := v], keys + [key], vs + [v])
  {
    assert key !in m;
    assert m[key := v].Keys == m.Keys + {key};
    assert |m[key := v].Keys| == |m.Keys| + 1;
  }

  ghost function KeysOf(rs: seq<Record>): (r: seq<string>)
    ensures |r| == |rs|
  {
    if rs == [] then [] else KeysOf(rs[..|rs| - 1]) + [LastKey(rs)]
  }

  ghost function EntriesOf(rs: seq<Record>, base: nat): (r: seq<(nat, DVEntry)>)
    ensures |r| == |rs|
  {
    if rs == [] then [] else EntriesOf(rs[..|rs| - 1], base) + [Entry(rs[|rs| - 1], base)]
  }

  lemma {:induction false} PairAt(rs: seq<Record>, base: nat, k: nat)
    requires k < |rs|
    ensures KeysOf(rs)[k] == KeyAt(rs, k) && EntriesOf(rs, base)[k] == Entry(rs[k], base)
  {
    hide LastKey, Entry;
    var n := |rs| - 1;
    if k < n {
      PairAt(rs[..n], base, k);
      KeyAtPrefix(rs, n, k);
    } else {
      assert rs[..n + 1] == rs;
    }
  }

  predicate Distinct(keys: seq<string>) {
    forall i, k | 0 <= i < k < |keys| :: keys[i] != keys[k]
  }

  lemma {:induction false} DistinctKeysPair(rs: seq<Record>, base: nat)
    requires Distinct(KeysOf(rs))
    ensures Pairs(Store(map[], rs, base), KeysOf(rs), EntriesOf(rs, base))
  {
    if rs != [] {
      hide Pairs, LastKey, Entry;
      var n := |rs| - 1;
      var keys, last := KeysOf(rs[..n]), LastKey(rs);
      assert KeysOf(rs) == keys + [last];
      assert Distinct(keys) && last !in keys by { DistinctFront(keys, last); }
      DistinctKeysPair(rs[..n], base);
      PairsOneMore(Store(map[], rs[..n], base), keys, EntriesOf(rs[..n], base), last, Entry(rs[n], base));
    }
  }

  lemma DistinctFront(keys: seq<string>, last: string)
    requires Distinct(keys + [last])
    ensures Distinct(keys) && last !in keys
  {
    var all := keys + [last];
    forall i, k | 0 <= i < k < |keys|
      ensures keys[i] != keys[k]
    {
      assert all[i] != all[k];
    }
    forall i | 0 <= i < |keys|
      ensures keys[i] != last
    {
      assert all[i] != all[|keys|];
    }
  }

  /** When the keys are distinct nothing is overwritten: there are as many entries as records, and every
      record sits under its own key. */
  lemma DistinctKeysKeepAll(rs: seq<Record>, base: nat)
    requires KeysDistinct(rs)
    ensures |Store(map[], rs, base)| == |rs|
    ensures forall k :: 0 <= k < |rs| ==>
              KeyAt(rs, k) in Store(map[], rs, base) && Store(map[], rs, base)[KeyAt(rs, k)] == Entry(rs[k], base)
    ensures forall key :: key in Store(map[], rs, base) ==> exists k :: 0 <= k < |rs| && key == KeyAt(rs, k)
  {
    hide KeyAt, Entry, Store, KeysOf, EntriesOf;
    forall k | 0 <= k < |rs|
      ensures KeysOf(rs)[k] == KeyAt(rs, k) && EntriesOf(rs, base)[k] == Entry(rs[k], base)
    {
      PairAt(rs, base, k);
    }
    DistinctKeysPair(rs, base);
    forall key | key in Store(map[], rs, base)
      ensures exists k :: 0 <= k < |rs| && key == KeyAt(rs, k)
    {
      var k :| 0 <= k < |rs| && KeysOf(rs)[k] == key;
      assert key == KeyAt(rs, k);
    }
  }
}
