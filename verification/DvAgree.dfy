/** Full and compact frames over runs of the parser: when the two give the same values. */
module DvAgree {
  import opened Hex
  import opened Wrappers
  import opened DvSpec
  import opened DvPrint
  import opened DvCompact
  import opened DvValues
  import opened DvKeys
  import opened DvCache
  import opened DvRun

  // The records of either frame have the headers of the items, as far as they go.

  ghost predicate HeadersFrom(c: seq<(Header, Bytes)>, recs: seq<Item>)
    requires AllRecs(recs)
  {
    |c| <= |recs| && forall i | 0 <= i < |c| :: c[i].0 == recs[i].header
  }

  lemma HeadersCons(x: (Header, Bytes), c: seq<(Header, Bytes)>, recs: seq<Item>)
    requires AllRecs(recs) && recs != [] && x.0 == recs[0].header && HeadersFrom(c, recs[1..])
    ensures HeadersFrom([x] + c, recs)
  {
  }

  lemma {:induction false} CompactHeaders(fmt: Bytes, q: nat, d: Bytes, p: nat, recs: seq<Item>)
    requires q <= |fmt| && p <= |d| && AllRecs(recs) && fmt[q..] == Ids(recs) && d[p..] == CompactData(recs)
    ensures HeadersFrom(Contents(Parse(false, fmt, q, d, p, |d|).records), recs)
    decreases |recs|
  {
    hide Parse, ItemOk, DataOf;
    if recs == [] {
      ParseEnd(false, fmt, d, p, |d|);
    } else {
      var h, payload, rest := recs[0].header, recs[0].payload, CompactData(recs[1..]);
      AfterCompact(fmt, q, d, p, h, payload, Ids(recs[1..]), rest);
      if !Ambiguous(h, payload, |rest|) && rest != [] {
        var q1, p1 := q + |h.Id()|, p + |DataOf(h, payload)|;
        CompactHeaders(fmt, q1, d, p1, recs[1..]);
        HeadersCons((h, payload), Contents(Parse(false, fmt, q1, d, p1, |d|).records), recs);
      }
    }
  }

  lemma {:induction false} FullHeaders(d: Bytes, p: nat, items: seq<Item>)
    requires p <= |d| && ItemsOk(items) && d[p..] == PrintAll(items, None)
    ensures var c := Contents(Parse(true, d, p, d, p, |d|).records);
            HeadersFrom(c, RecsOf(items)) && |c| == |RecsOf(items)|
    decreases |items|
  {
    hide Parse, ItemOk, Print, HeadersFrom;
    if items == [] {
      AtTail(d, p, |d|, None);
      HeadersNone(RecsOf(items));
    } else {
      var rest := PrintAll(items[1..], None);
      match items[0]
      case Skip =>
        AfterSkip(d, p, |d|, rest);
        FullHeaders(d, p + 1, items[1..]);
      case Rec(h, payload) =>
        var recs := RecsOf(items);
        assert recs[1..] == RecsOf(items[1..]);
        if rest == [] {
          PrintedNothing(items[1..], None);
          AfterRecord(d, p, |d|, h, payload, rest);
          ContentsCons(Parse(true, d, p, d, p, |d|).records[0], []);
          HeadersNone(recs[1..]);
          HeadersCons((h, payload), [], recs);
        } else {
          AfterFull(d, p, h, payload, rest);
          if Ambiguous(h, payload, |rest|) {
            OneBytePrinted(items[1..]);
            HeadersNone(recs[1..]);
            HeadersCons((h, rest), [], recs);
          } else {
            var next := p + |Print(items[0])|;
            FullHeaders(d, next, items[1..]);
            HeadersCons((h, payload), Contents(Parse(true, d, next, d, next, |d|).records), recs);
          }
        }
    }
  }

  lemma HeadersNone(recs: seq<Item>)
    requires AllRecs(recs)
    ensures HeadersFrom([], recs)
  {
  }

  // Records with the same headers have the same keys.

  ghost predicate Begins(a: seq<Record>, b: seq<Record>) {
    |a| <= |b| && forall i | 0 <= i < |a| :: a[i].header == b[i].header
  }

  lemma {:induction false} OccurrencesByHeader(a: seq<Record>, b: seq<Record>, dv: string)
    requires Begins(a, b) && |a| == |b|
    ensures Occurrences(a, dv) == Occurrences(b, dv)
    decreases |a|
  {
    hide Dv;
    if a != [] {
      var n := |a| - 1;
      OccurrencesByHeader(a[..n], b[..n], dv);
      SameDv(a[n], b[n]);
    }
  }

  lemma SameKeyAt(a: seq<Record>, b: seq<Record>, k: nat)
    requires Begins(a, b) && k < |a|
    ensures KeyAt(a, k) == KeyAt(b, k)
  {
    hide Dv, Key, Occurrences;
    SameDv(a[k], b[k]);
    OccurrencesByHeader(a[..k + 1], b[..k + 1], Dv(a[k]));
    assert a[..k + 1][k] == a[k] && b[..k + 1][k] == b[k];
  }

  lemma BeginsDistinct(a: seq<Record>, b: seq<Record>)
    requires Begins(a, b) && KeysDistinct(b)
    ensures KeysDistinct(a)
  {
    hide KeyAt;
    forall i, k | 0 <= i < k < |a|
      ensures KeyAt(a, i) != KeyAt(a, k)
    {
      SameKeyAt(a, b, i);
      SameKeyAt(a, b, k);
    }
  }

  lemma EntryOf(rs: seq<Record>, base: nat, k: nat)
    requires KeysDistinct(rs) && k < |rs|
    ensures KeyAt(rs, k) in Entries(Store(map[], rs, base))
    ensures Entries(Store(map[], rs, base))[KeyAt(rs, k)] == EntryFor(rs[k].header, rs[k].value)
  {
    hide KeyAt, Store, EntryFor;
    DistinctKeysKeepAll(rs, base);
  }

  lemma EntriesCount(rs: seq<Record>, base: nat)
    requires KeysDistinct(rs)
    ensures |Entries(Store(map[], rs, base))| == |rs|
  {
    hide KeyAt, Store;
    DistinctKeysKeepAll(rs, base);
    var values := Store(map[], rs, base);
    assert Entries(values).Keys == values.Keys;
    assert |Entries(values)| == |Entries(values).Keys| && |values| == |values.Keys|;
  }

  lemma EntryTellsValue(h: Header, v: Bytes, w: Bytes)
    ensures EntryFor(h, v) == EntryFor(h, w) <==> v == w
  {
    hide Bin2Hex;
    if Bin2Hex(v) == Bin2Hex(w) {
      Bin2HexInjective(v, w);
    }
  }

  /** Where the keys are distinct, maps agree offsets aside exactly when the records do. */
  lemma EntriesAgreeIff(a: seq<Record>, b: seq<Record>, base: nat, otherBase: nat)
    requires Begins(a, b) && KeysDistinct(b)
    ensures Entries(Store(map[], a, base)) == Entries(Store(map[], b, otherBase)) <==> SameContents(a, b)
  {
    hide KeyAt, Store, Entries, EntryFor, KeysDistinct;
    BeginsDistinct(a, b);
    EntriesCount(a, base);
    EntriesCount(b, otherBase);
    if SameContents(a, b) {
      SameEntries(a, b, base, otherBase);
    } else if |a| == |b| {
      var k :| 0 <= k < |a| && a[k].value != b[k].value;
      SameKeyAt(a, b, k);
      EntryOf(a, base, k);
      EntryOf(b, otherBase, k);
      EntryTellsValue(a[k].header, a[k].value, b[k].value);
    }
  }

  lemma ContentsAgree(a: seq<Record>, b: seq<Record>)
    ensures Contents(a) == Contents(b) <==> SameContents(a, b)
  {
    hide Contents;
    ContentsPrefix(a);
    ContentsPrefix(b);
    if SameContents(a, b) {
      assert Contents(a) == Contents(b);
    } else if |a| == |b| {
      var i :| 0 <= i < |a| && (a[i].header != b[i].header || a[i].value != b[i].value);
      assert Contents(a)[i] != Contents(b)[i];
    }
  }

  lemma BeginsFrom(a: seq<Record>, b: seq<Record>, recs: seq<Item>)
    requires AllRecs(recs) && HeadersFrom(Contents(a), recs) && HeadersFrom(Contents(b), recs)
    requires |Contents(b)| == |recs|
    ensures Begins(a, b)
  {
    hide Contents;
    ContentsPrefix(a);
    ContentsPrefix(b);
    forall i | 0 <= i < |a|
      ensures a[i].header == b[i].header
    {
      assert Contents(a)[i].0 == recs[i].header && Contents(b)[i].0 == recs[i].header;
    }
  }

  // The two frames.

  /** The compact frame that goes with a full frame of these items. */
  function CompactOf(items: seq<Item>): Frame
    requires ItemsOk(items)
  {
    Compact(Crc(Ids(items)), CompactData(RecsOf(items)))
  }

  function FullOf(items: seq<Item>): Frame
    requires ItemsOk(items)
  {
    Full(PrintAll(items, None))
  }

  lemma FullKeysDistinct(items: seq<Item>)
    requires ItemsOk(items) && |PrintAll(items, None)| < KEY_LIMIT
    ensures var full := PrintAll(items, None); KeysDistinct(Parse(true, full, 0, full, 0, |full|).records)
  {
    hide Parse, KeysDistinct, PrintAll;
    var full := PrintAll(items, None);
    ShortInputsKeepAll(true, full, full, |full|);
  }

  /** Whatever came before either of them, if the compact frame is decoded with the format of the full frame, the two
      give the same entries if and only if nothing is lost in either. */
  lemma FramesAgreeIff(history: seq<Bytes>, later: seq<Bytes>, items: seq<Item>)
    requires ItemsOk(items) && |PrintAll(items, None)| < KEY_LIMIT
    requires FormatFor(later, Crc(Ids(items))) == Some(Ids(items))
    ensures var full, compact := ResultOf(history, FullOf(items)), ResultOf(later, CompactOf(items));
            && full.Some? && compact.Some?
            && (Entries(compact.value) == Entries(full.value)
                <==> Unambiguous(items, None) && CompactSafe(RecsOf(items)))
  {
    hide Parse, PrintAll, Ids, Crc, RecsOf, CompactData, Contents, Store, Unambiguous, CompactSafe, HeadersFrom,
        FormatFor;
    var d, ids, data := PrintAll(items, None), Ids(items), CompactData(RecsOf(items));
    var full, compact := Parse(true, d, 0, d, 0, |d|).records, Parse(false, ids, 0, data, 0, |data|).records;
    assert d[0..] == d && ids[0..] == ids && data[0..] == data;
    CompactAgreesIff(items);
    IdsOfRecs(items);
    FullHeaders(d, 0, items);
    CompactHeaders(ids, 0, data, 0, RecsOf(items));
    BeginsFrom(compact, full, RecsOf(items));
    FullKeysDistinct(items);
    EntriesAgreeIff(compact, full, 0, 0);
    ContentsAgree(compact, full);
  }

  lemma {:induction false} FirstStays(history: seq<Bytes>, more: seq<Bytes>, signature: Signature)
    requires First(history, signature).Some?
    ensures First(history + more, signature) == First(history, signature)
    decreases |more|
  {
    hide Crc;
    if more == [] {
      assert history + more == history;
    } else {
      var front, last := more[..|more| - 1], more[|more| - 1];
      FirstStays(history, front, signature);
      assert history + more == (history + front) + [last];
      FirstSnoc(history + front, last, signature);
    }
  }

  lemma {:induction false} FormatsGrow(frames: seq<Frame>, i: nat, j: nat)
    requires i <= j <= |frames|
    ensures FormatsOf(frames[..i]) <= FormatsOf(frames[..j])
    decreases j
  {
    hide LearnedFrom;
    if i < j {
      FormatsGrow(frames, i, j - 1);
      FormatsNext(frames, j - 1);
    }
  }

  /** After a full frame, its format is the one for its compact frame, for the rest of the run. */
  lemma LearnedForGood(start: seq<Bytes>, frames: seq<Frame>, i: nat, j: nat, items: seq<Item>)
    requires ItemsOk(items) && i < j <= |frames| && frames[i] == FullOf(items)
    requires First(start + FormatsOf(frames[..i]), Crc(Ids(items))) in {None, Some(Ids(items))}
    ensures FormatFor(start + FormatsOf(frames[..j]), Crc(Ids(items))) == Some(Ids(items))
  {
    hide Parse, PrintAll, Ids, Crc, First, FormatsOf, Contents, Unambiguous, CompactSafe;
    var ids := Ids(items);
    var before, after, later := start + FormatsOf(frames[..i]), start + FormatsOf(frames[..i + 1]),
        start + FormatsOf(frames[..j]);
    CompactAgreesIff(items);
    FormatsNext(frames, i);
    assert after == before + [ids];
    FirstSnoc(before, ids, Crc(ids));
    FormatsGrow(frames, i + 1, j);
    var more := later[|after|..];
    assert later == after + more;
    FirstStays(after, more, Crc(ids));
  }

  /** Over every run: a full frame and any later compact frame with its signature and data give the same entries if and
      only if nothing is lost in either, provided that no other format came first under the signature. */
  lemma RunAgreesIff(start: seq<Bytes>, frames: seq<Frame>, i: nat, j: nat, items: seq<Item>)
    requires ItemsOk(items) && |PrintAll(items, None)| < KEY_LIMIT
    requires i < j < |frames| && frames[i] == FullOf(items) && frames[j] == CompactOf(items)
    requires First(start + FormatsOf(frames[..i]), Crc(Ids(items))) in {None, Some(Ids(items))}
    ensures var full := ResultOf(start + FormatsOf(frames[..i]), frames[i]);
            var compact := ResultOf(start + FormatsOf(frames[..j]), frames[j]);
            && full.Some? && compact.Some?
            && (Entries(compact.value) == Entries(full.value)
                <==> Unambiguous(items, None) && CompactSafe(RecsOf(items)))
  {
    hide *;
    LearnedForGood(start, frames, i, j, items);
    FramesAgreeIff(start + FormatsOf(frames[..i]), start + FormatsOf(frames[..j]), items);
  }
}
