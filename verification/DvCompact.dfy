/** Compact frames: only the data bytes are sent, and the descriptors come from the format bytes that a
    full frame left behind. */
module DvCompact {
  import opened Wrappers
  import opened DvSpec
  import opened DvPrint

  predicate AllRecs(recs: seq<Item>) {
    forall i :: 0 <= i < |recs| ==> recs[i].Rec? && ItemOk(recs[i])
  }

  /** The records among the items. */
  function RecsOf(items: seq<Item>): (recs: seq<Item>)
    requires ItemsOk(items)
    ensures AllRecs(recs)
  {
    if items == [] then []
    else if items[0].Rec? then [items[0]] + RecsOf(items[1..])
    else RecsOf(items[1..])
  }

  /** The data bytes of a compact frame. */
  function CompactData(recs: seq<Item>): Bytes
    requires AllRecs(recs)
  {
    if recs == [] then [] else DataOf(recs[0].header, recs[0].payload) + CompactData(recs[1..])
  }

  /** Headers and values, offsets aside. */
  function Contents(rs: seq<Record>): seq<(Header, Bytes)> {
    if rs == [] then [] else [(rs[0].header, rs[0].value)] + Contents(rs[1..])
  }

  function ContentsOf(recs: seq<Item>): seq<(Header, Bytes)>
    requires AllRecs(recs)
  {
    if recs == [] then [] else [(recs[0].header, recs[0].payload)] + ContentsOf(recs[1..])
  }

  /** When a compact frame loses nothing: no record but the last is followed by no data at all, and no
      empty payload behind a length byte is followed by exactly one data byte. */
  predicate CompactSafe(recs: seq<Item>)
    requires AllRecs(recs)
  {
    recs != [] ==>
      && (CompactData(recs[1..]) == [] ==> recs[1..] == [])
      && !Ambiguous(recs[0].header, recs[0].payload, |CompactData(recs[1..])|)
      && CompactSafe(recs[1..])
  }

  lemma {:induction false} ContentsOfExpected(items: seq<Item>, p: nat)
    requires ItemsOk(items)
    ensures Contents(Expected(items, p)) == ContentsOf(RecsOf(items))
    decreases |items|
  {
    hide Print;
    if items != [] {
      ContentsOfExpected(items[1..], p + |Print(items[0])|);
      if items[0].Rec? {
        assert Expected(items, p)[1..] == Expected(items[1..], p + |Print(items[0])|);
        assert RecsOf(items)[1..] == RecsOf(items[1..]);
      }
    }
  }

  lemma {:induction false} IdsOfRecs(items: seq<Item>)
    requires ItemsOk(items)
    ensures Ids(RecsOf(items)) == Ids(items)
  {
    if items != [] {
      IdsOfRecs(items[1..]);
      if items[0].Rec? {
        assert RecsOf(items)[1..] == RecsOf(items[1..]);
      } else {
        assert Ids(items) == [] + Ids(items[1..]);
      }
    }
  }

  /** What the parser does at a record of a compact frame. */
  lemma AfterCompact(fmt: Bytes, q: nat, d: Bytes, p: nat, h: Header, payload: Bytes, ids: Bytes, rest: Bytes)
    requires q <= |fmt| && p <= |d| && ItemOk(Rec(h, payload))
    requires fmt[q..] == h.Id() + ids && d[p..] == DataOf(h, payload) + rest
    ensures var o := Parse(false, fmt, q, d, p, |d|);
            var q1, p1 := q + |h.Id()|, p + |DataOf(h, payload)|;
            && q1 <= |fmt| && fmt[q1..] == ids && p1 <= |d| && d[p1..] == rest
            && if Ambiguous(h, payload, |rest|) then Contents(o.records) == [(h, rest)]
               else if rest == [] then Contents(o.records) == [(h, payload)]
               else Contents(o.records) == [(h, payload)] + Contents(Parse(false, fmt, q1, d, p1, |d|).records)
  {
    hide ReadHead, ReadPayload, HeaderOk, DataOf, Parse;
    SplitAt(fmt, q, h.Id(), ids);
    SplitAt(d, p, DataOf(h, payload), rest);
    ReadHeadOfPrinted(h, ids);
    ReadPayloadOfPrinted(d, p, h, payload, rest, |d|);
    ParseFound(false, fmt, q, d, p, |d|, h);
    var o := Parse(false, fmt, q, d, p, |d|);
    assert Contents(o.records) == [(o.records[0].header, o.records[0].value)] + Contents(o.records[1..]);
  }

  /** The compact frame yields the records it was made from exactly when it is safe. */
  lemma {:induction false} CompactIff(fmt: Bytes, q: nat, d: Bytes, p: nat, recs: seq<Item>)
    requires q <= |fmt| && p <= |d| && AllRecs(recs) && fmt[q..] == Ids(recs) && d[p..] == CompactData(recs)
    ensures Contents(Parse(false, fmt, q, d, p, |d|).records) == ContentsOf(recs) <==> CompactSafe(recs)
    decreases |recs|
  {
    hide Parse, ItemOk, DataOf;
    if recs == [] {
      assert q == |fmt|;
      ParseEnd(false, fmt, d, p, |d|);
    } else {
      var h, payload := recs[0].header, recs[0].payload;
      var rest := CompactData(recs[1..]);
      AfterCompact(fmt, q, d, p, h, payload, Ids(recs[1..]), rest);
      var got := Contents(Parse(false, fmt, q, d, p, |d|).records);
      var want := ContentsOf(recs);
      assert want[0] == (h, payload) && want[1..] == ContentsOf(recs[1..]);
      if Ambiguous(h, payload, |rest|) {
        assert got[0].1 == rest != want[0].1;
      } else if rest == [] {
        assert recs[1..] != [] ==> |want| > 1;
      } else {
        CompactIff(fmt, q + |h.Id()|, d, p + |DataOf(h, payload)|, recs[1..]);
        assert got[1..] == Contents(Parse(false, fmt, q + |h.Id()|, d, p + |DataOf(h, payload)|, |d|).records);
        assert got == want <==> got[1..] == want[1..];
      }
    }
  }

  // Full frames with an ambiguous record.

  /** Only a filler prints as one byte. */
  lemma OneBytePrinted(items: seq<Item>)
    requires ItemsOk(items) && |PrintAll(items, None)| == 1
    ensures items == [Skip] && RecsOf(items) == [] && Ids(items) == []
  {
    hide HeaderOk;
    assert items[0] == Skip;
    assert PrintAll(items[1..], None) == [];
    PrintedNothing(items[1..], None);
  }

  /** An ambiguous record leaves its length byte in the compact data. */
  lemma {:induction false} AmbiguousHasData(items: seq<Item>)
    requires ItemsOk(items) && !Unambiguous(items, None)
    ensures CompactData(RecsOf(items)) != [] && PrintAll(items, None) != []
  {
    hide ItemOk;
    PrintedNothing(items, None);
    var rest := PrintAll(items[1..], None);
    if items[0].Rec? {
      assert RecsOf(items)[1..] == RecsOf(items[1..]);
    }
    if items[0].Skip? || !Ambiguous(items[0].header, items[0].payload, |rest|) {
      AmbiguousHasData(items[1..]);
    }
  }

  lemma ConsDiffers(x: (Header, Bytes), a: seq<(Header, Bytes)>, y: (Header, Bytes), b: seq<(Header, Bytes)>)
    ensures a != b ==> [x] + a != [x] + b
    ensures x != y ==> [x] + a != [y]
  {
    assert ([x] + a)[1..] == a && ([x] + b)[1..] == b;
    assert ([x] + a)[0] == x && [y][0] == y;
  }

  lemma ContentsCons(r: Record, rs: seq<Record>)
    ensures Contents([r] + rs) == [(r.header, r.value)] + Contents(rs)
    ensures Contents([r]) == [(r.header, r.value)]
  {
    assert ([r] + rs)[1..] == rs;
  }

  /** What the parser does at a record of a full frame that goes on behind it. */
  lemma AfterFull(d: Bytes, p: nat, h: Header, payload: Bytes, rest: Bytes)
    requires p <= |d| && ItemOk(Rec(h, payload)) && d[p..] == Print(Rec(h, payload)) + rest && rest != []
    ensures var o := Parse(true, d, p, d, p, |d|);
            var next := p + |Print(Rec(h, payload))|;
            && next <= |d| && d[next..] == rest
            && if Ambiguous(h, payload, |rest|) then Contents(o.records) == [(h, rest)] && o.format == h.Id()
               else
                 var r := Parse(true, d, next, d, next, |d|);
                 Contents(o.records) == [(h, payload)] + Contents(r.records) && o.format == h.Id() + r.format
  {
    hide Parse, Print, ItemOk, Contents, Ambiguous;
    AfterRecord(d, p, |d|, h, payload, rest);
    var next := p + |Print(Rec(h, payload))|;
    if Ambiguous(h, payload, |rest|) {
      ContentsCons(Record(h, next, rest), []);
    } else {
      var o, r := Parse(true, d, p, d, p, |d|), Parse(true, d, next, d, next, |d|);
      assert o.records[1..] == r.records;
      ContentsCons(o.records[0], r.records);
    }
  }

  /** An ambiguous record swallows the filler behind it in the full frame, where its format is still complete, and
      has nothing to swallow in the compact one. */
  lemma {:induction false} AmbiguousDisagrees(d: Bytes, p: nat, fmt: Bytes, q: nat, c: Bytes, r: nat, items: seq<Item>)
    requires p <= |d| && q <= |fmt| && r <= |c| && ItemsOk(items) && !Unambiguous(items, None)
    requires d[p..] == PrintAll(items, None) && fmt[q..] == Ids(items) && c[r..] == CompactData(RecsOf(items))
    ensures Parse(true, d, p, d, p, |d|).format == Ids(items)
    ensures Contents(Parse(true, d, p, d, p, |d|).records) != Contents(Parse(false, fmt, q, c, r, |c|).records)
    decreases |items|
  {
    hide Parse, ItemOk, Print, DataOf, Contents;
    var rest := PrintAll(items[1..], None);
    match items[0]
    case Skip =>
      AfterSkip(d, p, |d|, rest);
      assert [] + Ids(items[1..]) == Ids(items[1..]);
      AmbiguousDisagrees(d, p + 1, fmt, q, c, r, items[1..]);
    case Rec(h, payload) =>
      var ids, data := Ids(items[1..]), CompactData(RecsOf(items[1..]));
      assert RecsOf(items)[1..] == RecsOf(items[1..]);
      AfterCompact(fmt, q, c, r, h, payload, ids, data);
      if Ambiguous(h, payload, |rest|) {
        AfterFull(d, p, h, payload, rest);
        OneBytePrinted(items[1..]);
        assert h.Id() + [] == h.Id();
      } else {
        AmbiguousHasData(items[1..]);
        AfterFull(d, p, h, payload, rest);
        var next, q1, r1 := p + |Print(items[0])|, q + |h.Id()|, r + |DataOf(h, payload)|;
        AmbiguousDisagrees(d, next, fmt, q1, c, r1, items[1..]);
        ConsDiffers((h, payload), Contents(Parse(true, d, next, d, next, |d|).records), (h, data),
                    Contents(Parse(false, fmt, q1, c, r1, |c|).records));
      }
  }

  /** A full frame and the compact frame decoded with the format bytes that the full frame left behind give the same
      records, offsets aside, exactly when the compact frame is safe and no record of the full frame is ambiguous. */
  lemma CompactAgreesIff(items: seq<Item>)
    requires ItemsOk(items)
    ensures var full := PrintAll(items, None);
            var learned := Parse(true, full, 0, full, 0, |full|);
            var data := CompactData(RecsOf(items));
            var compact := Parse(false, learned.format, 0, data, 0, |data|);
            && learned.format == Ids(items)
            && (Contents(compact.records) == Contents(learned.records)
                <==> Unambiguous(items, None) && CompactSafe(RecsOf(items)))
  {
    hide Parse, PrintAll, Unambiguous, ItemsOk, Ids, CompactSafe, Contents, ContentsOf;
    var full, data := PrintAll(items, None), CompactData(RecsOf(items));
    assert full[0..] == full && data[0..] == data && Ids(items)[0..] == Ids(items);
    if Unambiguous(items, None) {
      RoundTrip(full, 0, |full|, items, None);
      ContentsOfExpected(items, 0);
      IdsOfRecs(items);
      CompactIff(Ids(items), 0, data, 0, RecsOf(items));
    } else {
      AmbiguousDisagrees(full, 0, Ids(items), 0, data, 0, items);
    }
  }

  /** An empty text with one filler after it: the full frame gives the filler as its text, the compact frame nothing. */
  lemma SwallowedFillerExample()
    ensures var full := [0x0d, 0x78, 0x00, 0x2f];
            var learned := Parse(true, full, 0, full, 0, 4);
            && learned.format == [0x0d, 0x78]
            && Contents(learned.records) == [(Header(0x0d, [], 0x78, []), [0x2f])]
            && Contents(Parse(false, learned.format, 0, [0x00], 0, 1).records) == [(Header(0x0d, [], 0x78, []), [])]
  {
    hide Parse;
    var h := Header(0x0d, [], 0x78, []);
    assert h.Id() == [0x0d, 0x78] && ItemOk(Rec(h, [])) && Variable(h);
    hide HeaderOk, DifLen, Variable, ItemOk;
    var full: Bytes := [0x0d, 0x78, 0x00, 0x2f];
    assert full[0..] == Print(Rec(h, [])) + [0x2f];
    AfterRecord(full, 0, 4, h, [], [0x2f]);
    var c: Bytes := [0x00];
    assert c[0..] == DataOf(h, []) + [] && [0x0d, 0x78][0..] == h.Id() + [];
    AfterCompact([0x0d, 0x78], 0, c, 0, h, [], [], []);
  }

  /** The condition a meter designer would state is enough: no payload is empty. */
  lemma {:induction false} LongPayloadsAreSafe(recs: seq<Item>)
    requires AllRecs(recs)
    requires forall i :: 0 <= i < |recs| ==> |recs[i].payload| >= 1
    ensures CompactSafe(recs)
  {
    if recs != [] {
      LongPayloadsAreSafe(recs[1..]);
      if recs[1..] != [] {
        assert |DataOf(recs[1].header, recs[1].payload)| > 0;
        assert CompactData(recs[1..]) != [];
      }
    }
  }

  /** A record without data at the end is read from the full frame and lost in the compact one. */
  lemma LostRecordExample()
    ensures var full := [0x01, 0x13, 0x07, 0x00, 0x14];
            var learned := Parse(true, full, 0, full, 0, 5);
            && learned.format == [0x01, 0x13, 0x00, 0x14]
            && Contents(learned.records) == [(Header(0x01, [], 0x13, []), [0x07]), (Header(0x00, [], 0x14, []), [])]
            && Contents(Parse(false, learned.format, 0, [0x07], 0, 1).records) != Contents(learned.records)
  {
    hide *;
    var a, b := Header(0x01, [], 0x13, []), Header(0x00, [], 0x14, []);
    var recs := [Rec(a, [0x07]), Rec(b, [])];
    LostRecordOk(a, b);
    LostRecordPrint(a, b, recs);
    LostRecordData(a, b, recs);
    var full: Bytes := [0x01, 0x13, 0x07, 0x00, 0x14];
    assert full[0..] == full;
    RoundTrip(full, 0, 5, recs, None);
    ContentsOfExpected(recs, 0);
    CompactAgreesIff(recs);
  }

  lemma LostRecordOk(a: Header, b: Header)
    requires a == Header(0x01, [], 0x13, []) && b == Header(0x00, [], 0x14, [])
    ensures ItemOk(Rec(a, [0x07])) && ItemOk(Rec(b, [])) && !Variable(a) && !Variable(b)
    ensures a.Id() == [0x01, 0x13] && b.Id() == [0x00, 0x14]
  {
  }

  lemma LostRecordPrint(a: Header, b: Header, recs: seq<Item>)
    requires recs == [Rec(a, [0x07]), Rec(b, [])]
    requires ItemOk(Rec(a, [0x07])) && ItemOk(Rec(b, [])) && !Variable(a) && !Variable(b)
    requires a.Id() == [0x01, 0x13] && b.Id() == [0x00, 0x14]
    ensures ItemsOk(recs) && Unambiguous(recs, None) && AllRecs(recs)
    ensures PrintAll(recs, None) == [0x01, 0x13, 0x07, 0x00, 0x14] && Ids(recs) == [0x01, 0x13, 0x00, 0x14]
  {
    hide ItemOk, Variable;
    var last := recs[1..];
    assert last == [Rec(b, [])] && last[1..] == [];
    assert PrintAll(last, None) == [0x00, 0x14] && Unambiguous(last, None);
    assert Ids(last) == [0x00, 0x14];
  }

  lemma LostRecordData(a: Header, b: Header, recs: seq<Item>)
    requires recs == [Rec(a, [0x07]), Rec(b, [])] && ItemsOk(recs) && AllRecs(recs) && !Variable(a) && !Variable(b)
    ensures RecsOf(recs) == recs && CompactData(recs) == [0x07] && !CompactSafe(recs)
    ensures ContentsOf(recs) == [(a, [0x07]), (b, [])]
  {
    hide ItemOk, Variable;
    var last := recs[1..];
    assert last == [Rec(b, [])] && last[1..] == [];
    assert RecsOf(last) == last;
    assert CompactData(last) == [];
    assert ContentsOf(last) == [(b, [])];
  }
}
