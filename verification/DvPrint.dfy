/** A printer for data records, and the proof that the parser inverts it. */
module DvPrint {
  import opened Hex
  import opened Wrappers
  import opened DvSpec

  /** A filler byte, or a record. */
  datatype Item = Skip | Rec(header: Header, payload: Bytes)

  predicate ChainOk(c: Bytes, more: bool) {
    if more then c != [] && ChainOk(c[1..], More(c[0])) else c == []
  }

  predicate HeaderOk(h: Header) {
    && DifLen(h.dif) >= -1 && h.dif != SKIP
    && ChainOk(h.difes, More(h.dif)) && ChainOk(h.vifes, More(h.vif))
  }

  predicate Variable(h: Header) {
    DifLen(h.dif) == -1
  }

  predicate ItemOk(i: Item) {
    i.Rec? ==>
      && HeaderOk(i.header)
      && if Variable(i.header) then |i.payload| < 256 else |i.payload| == DifLen(i.header.dif)
  }

  predicate ItemsOk(items: seq<Item>) {
    forall i :: 0 <= i < |items| ==> ItemOk(items[i])
  }

  /** The data bytes of a record: the payload, after its length if that is variable. */
  function DataOf(h: Header, payload: Bytes): Bytes {
    if Variable(h) then [|payload| % 256] + payload else payload
  }

  function Print(i: Item): Bytes
    requires ItemOk(i)
  {
    match i
    case Skip => [SKIP]
    case Rec(h, payload) => h.Id() + DataOf(h, payload)
  }

  /** Items, and after them possibly a block of manufacturer data. */
  function PrintAll(items: seq<Item>, tail: Option<Bytes>): Bytes
    requires ItemsOk(items)
  {
    if items != [] then Print(items[0]) + PrintAll(items[1..], tail)
    else match tail case None => [] case Some(b) => [MANUFACTURER] + b
  }

  /** The records that the items stand for, with their payload offsets. */
  function Expected(items: seq<Item>, p: nat): seq<Record>
    requires ItemsOk(items)
  {
    if items == [] then [] else
      var next := p + |Print(items[0])|;
      match items[0]
      case Skip => Expected(items[1..], next)
      case Rec(h, payload) => [Record(h, next - |payload|, payload)] + Expected(items[1..], next)
  }

  function Ids(items: seq<Item>): Bytes {
    if items == [] then []
    else (match items[0] case Skip => [] case Rec(h, _) => h.Id()) + Ids(items[1..])
  }

  function TailIndex(d: Bytes, tail: Option<Bytes>): Option<nat>
    requires tail.Some? ==> |tail.value| <= |d|
  {
    match tail case None => None case Some(b) => Some(|d| - |b|)
  }

  /** An empty payload behind a length byte, with exactly one byte after it. */
  predicate Ambiguous(h: Header, payload: Bytes, rest: nat) {
    Variable(h) && payload == [] && rest == 1
  }

  /** No record is ambiguous where it stands. */
  predicate Unambiguous(items: seq<Item>, tail: Option<Bytes>)
    requires ItemsOk(items)
  {
    items != [] ==>
      && (items[0].Rec? ==> !Ambiguous(items[0].header, items[0].payload, |PrintAll(items[1..], tail)|))
      && Unambiguous(items[1..], tail)
  }

  lemma {:induction false} ChainOfPrinted(c: Bytes, more: bool, tail: Bytes)
    requires ChainOk(c, more)
    ensures Chain(c + tail, more) == c
  {
    if more {
      assert (c + tail)[1..] == c[1..] + tail;
      ChainOfPrinted(c[1..], More(c[0]), tail);
    }
  }

  lemma ReadHeadOfPrinted(h: Header, tail: Bytes)
    requires HeaderOk(h)
    ensures ReadHead(h.Id() + tail) == Found(h)
  {
    hide Chain, ChainOk, DifLen;
    var s := h.Id() + tail;
    assert s[1..] == h.difes + ([h.vif] + h.vifes + tail);
    ChainOfPrinted(h.difes, More(h.dif), [h.vif] + h.vifes + tail);
    var at := 1 + |h.difes|;
    assert s[at] == h.vif;
    assert s[at + 1..] == h.vifes + tail;
    ChainOfPrinted(h.vifes, More(h.vif), tail);
  }

  lemma VariableOk(h: Header, payload: Bytes)
    requires ItemOk(Rec(h, payload)) && Variable(h)
    ensures |payload| < 256
  {
  }

  lemma FixedOk(h: Header, payload: Bytes)
    requires ItemOk(Rec(h, payload)) && !Variable(h)
    ensures |payload| == DifLen(h.dif)
  {
  }

  lemma SplitAt(d: Bytes, p: nat, data: Bytes, rest: Bytes)
    requires p <= |d| && d[p..] == data + rest
    ensures |d| == p + |data| + |rest|
    ensures d[p .. p + |data|] == data && d[p + |data|..] == rest
  {
    assert |d[p..]| == |d| - p;
    assert d[p .. p + |data|] == d[p..][..|data|];
    assert d[p + |data|..] == d[p..][|data|..];
  }

  lemma ReadFixed(d: Bytes, p: nat, dif: byte, payload: Bytes, rest: Bytes, end: nat)
    requires p <= |d| <= end && DifLen(dif) == |payload| && d[p..] == payload + rest
    ensures var r := ReadPayload(d, p, dif, end);
            && r.value == payload && r.at == p && r.next == p + |payload|
            && (r.stop <==> rest == [] || r.next == end)
  {
    hide DifLen;
    SplitAt(d, p, payload, rest);
  }

  lemma ReadVariable(d: Bytes, p: nat, dif: byte, payload: Bytes, rest: Bytes, end: nat)
    requires p <= |d| <= end && DifLen(dif) == -1 && |payload| < 256 && d[p..] == [|payload|] + payload + rest
    ensures var r := ReadPayload(d, p, dif, end);
            if payload == [] && |rest| == 1 then r.value == rest && r.at == p + 1 && r.stop
            else
              && r.value == payload && r.at == p + 1
              && (rest != [] ==> !r.stop && r.next == p + 1 + |payload|)
              && (rest == [] ==> r.stop || r.next == |d|)
              && (rest == [] && end == |d| ==> r.stop)
  {
    hide DifLen;
    LengthByteFirst(d, p, payload, rest);
    if payload == [] && |rest| <= 1 {
      assert d[p + 1..] == rest;
    } else if |payload| == 1 && rest == [] {
      assert d[p + 1..] == payload;
    }
  }

  lemma LengthByteFirst(d: Bytes, p: nat, payload: Bytes, rest: Bytes)
    requires p <= |d| && |payload| < 256 && d[p..] == [|payload|] + payload + rest
    ensures |d| == p + 1 + |payload| + |rest| && d[p] == |payload|
    ensures d[p + 1 .. p + 1 + |payload|] == payload && d[p + 1 + |payload|..] == rest
  {
    SplitAt(d, p, [|payload|] + payload, rest);
    assert d[p] == d[p .. p + 1 + |payload|][0] == |payload|;
    assert d[p + 1 .. p + 1 + |payload|] == d[p .. p + 1 + |payload|][1..] == payload;
  }

  /** Where a printed payload is read back, and where the cursor goes. */
  lemma ReadPayloadOfPrinted(d: Bytes, p: nat, h: Header, payload: Bytes, rest: Bytes, end: nat)
    requires p <= |d| <= end && ItemOk(Rec(h, payload)) && d[p..] == DataOf(h, payload) + rest
    ensures var r := ReadPayload(d, p, h.dif, end);
            if Ambiguous(h, payload, |rest|) then r.value == rest && r.at == p + 1 && r.stop
            else
              && r.value == payload && r.at == p + |DataOf(h, payload)| - |payload|
              && (rest != [] ==> !r.stop && r.next == p + |DataOf(h, payload)|)
              && (rest == [] ==> r.stop || r.next == |d|)
              && (rest == [] && end == |d| ==> r.stop)
  {
    hide ItemOk, HeaderOk;
    if Variable(h) {
      assert |payload| < 256 by { VariableOk(h, payload); }
      ReadVariable(d, p, h.dif, payload, rest, end);
    } else {
      assert |payload| == DifLen(h.dif) by { FixedOk(h, payload); }
      ReadFixed(d, p, h.dif, payload, rest, end);
    }
  }

  /** Only nothing prints as nothing. */
  lemma PrintedNothing(items: seq<Item>, tail: Option<Bytes>)
    requires ItemsOk(items)
    ensures PrintAll(items, tail) == [] <==> items == [] && tail == None
  {
  }

  /** What the parser does at a printed record. */
  lemma ParseAtRecord(d: Bytes, p: nat, h: Header, payload: Bytes, rest: Bytes)
    requires p <= |d| && HeaderOk(h) && d[p..] == h.Id() + DataOf(h, payload) + rest
    ensures ReadHead(d[p..]) == Found(h)
    ensures p + |h.Id()| <= |d| && d[p + |h.Id()|..] == DataOf(h, payload) + rest
  {
    hide ReadHead, DataOf, HeaderOk;
    var data := DataOf(h, payload);
    var id := h.Id();
    assert d[p..] == id + (data + rest);
    ReadHeadOfPrinted(h, data + rest);
    SplitAt(d, p, id, data + rest);
  }

  lemma AtTail(d: Bytes, p: nat, end: nat, tail: Option<Bytes>)
    requires p <= |d| <= end && d[p..] == PrintAll([], tail)
    ensures var o := Parse(true, d, p, d, p, end);
            o.records == [] && o.format == [] && (tail.Some? ==> |tail.value| <= |d|) && o.mfct == TailIndex(d, tail)
  {
    hide ReadPayload, DifLen, Chain;
    match tail
    case None =>
      assert d[p..] == [];
      ParseEnd(true, d, d, p, end);
    case Some(b) =>
      SplitAt(d, p, [MANUFACTURER], b);
      ManufacturerHead(d[p..], b);
  }

  lemma ManufacturerHead(s: Bytes, b: Bytes)
    requires s == [MANUFACTURER] + b
    ensures ReadHead(s) == Special(true)
  {
  }

  /** One record off the front of the round trip. */
  lemma AfterRecord(d: Bytes, p: nat, end: nat, h: Header, payload: Bytes, rest: Bytes)
    requires p <= |d| <= end && ItemOk(Rec(h, payload))
    requires d[p..] == Print(Rec(h, payload)) + rest
    ensures var o := Parse(true, d, p, d, p, end);
            var next := p + |Print(Rec(h, payload))|;
            var record := Record(h, next - |payload|, payload);
            && next <= |d| && d[next..] == rest
            && if Ambiguous(h, payload, |rest|) then o.records == [Record(h, next, rest)] && o.format == h.Id()
               else if rest == [] then o.records == [record] && o.format == h.Id() && o.mfct == None
               else
                 var r := Parse(true, d, next, d, next, end);
                 o.records == [record] + r.records && o.format == h.Id() + r.format && o.mfct == r.mfct
  {
    hide ReadHead, ReadPayload, HeaderOk, Parse;
    SplitAt(d, p, Print(Rec(h, payload)), rest);
    ParseAtRecord(d, p, h, payload, rest);
    var q := p + |h.Id()|;
    ReadPayloadOfPrinted(d, q, h, payload, rest, end);
    ParseFound(true, d, p, d, p, end, h);
    ParseEnd(true, d, d, |d|, end);
  }

  /** Printing any well-formed items and parsing the bytes returns exactly their records, in order, with
      their payload offsets, and the format bytes and manufacturer index that go with them; unless a
      record is ambiguous. */
  lemma {:induction false} RoundTrip(d: Bytes, p: nat, end: nat, items: seq<Item>, tail: Option<Bytes>)
    requires p <= |d| <= end && ItemsOk(items) && d[p..] == PrintAll(items, tail) && Unambiguous(items, tail)
    ensures var o := Parse(true, d, p, d, p, end);
            && o.records == Expected(items, p) && o.format == Ids(items)
            && (tail.Some? ==> |tail.value| <= |d|) && o.mfct == TailIndex(d, tail)
    decreases |items|
  {
    hide Parse, ItemOk, Print;
    if items == [] {
      AtTail(d, p, end, tail);
    } else {
      var rest := PrintAll(items[1..], tail);
      match items[0]
      case Skip =>
        AfterSkip(d, p, end, rest);
        RoundTrip(d, p + 1, end, items[1..], tail);
      case Rec(h, payload) =>
        AfterRecord(d, p, end, h, payload, rest);
        if rest == [] {
          PrintedNothing(items[1..], tail);
        } else {
          RoundTrip(d, p + |Print(items[0])|, end, items[1..], tail);
        }
    }
  }

  lemma AfterSkip(d: Bytes, p: nat, end: nat, rest: Bytes)
    requires p <= |d| <= end && d[p..] == Print(Skip) + rest
    ensures p + 1 <= |d| && d[p + 1..] == rest && |Print(Skip)| == 1
    ensures Parse(true, d, p, d, p, end) == Parse(true, d, p + 1, d, p + 1, end)
  {
    hide Parse;
    assert d[p..][0] == SKIP;
    SplitAt(d, p, [SKIP], rest);
    ParseFiller(true, d, p, d, p, end);
  }

  /** With an ambiguous record the parser takes the byte behind it for its payload. */
  lemma {:induction false} AmbiguousFails(d: Bytes, p: nat, end: nat, items: seq<Item>, tail: Option<Bytes>)
    requires p <= |d| <= end && ItemsOk(items) && d[p..] == PrintAll(items, tail) && !Unambiguous(items, tail)
    ensures Parse(true, d, p, d, p, end).records != Expected(items, p)
    decreases |items|
  {
    hide Parse, ItemOk, Print;
    var rest := PrintAll(items[1..], tail);
    match items[0]
    case Skip =>
      AfterSkip(d, p, end, rest);
      AmbiguousFails(d, p + 1, end, items[1..], tail);
    case Rec(h, payload) =>
      AfterRecord(d, p, end, h, payload, rest);
      var o, next := Parse(true, d, p, d, p, end), p + |Print(items[0])|;
      var e := Expected(items, p);
      assert e[0] == Record(h, next - |payload|, payload) && e[1..] == Expected(items[1..], next);
      if Ambiguous(h, payload, |rest|) {
        assert o.records[0].value == rest != e[0].value;
      } else if rest == [] {
        PrintedNothing(items[1..], tail);
      } else {
        AmbiguousFails(d, next, end, items[1..], tail);
        assert o.records[1..] == Parse(true, d, next, d, next, end).records;
      }
  }

  /** The parser inverts the printer exactly on the unambiguous items. */
  lemma RoundTripIff(items: seq<Item>, tail: Option<Bytes>, end: nat)
    requires ItemsOk(items) && |PrintAll(items, tail)| <= end
    ensures var d := PrintAll(items, tail);
            Parse(true, d, 0, d, 0, end).records == Expected(items, 0) <==> Unambiguous(items, tail)
  {
    hide Parse, Expected, Unambiguous, PrintAll, ItemsOk;
    var d := PrintAll(items, tail);
    assert d[0..] == d;
    if Unambiguous(items, tail) {
      RoundTrip(d, 0, end, items, tail);
    } else {
      AmbiguousFails(d, 0, end, items, tail);
    }
  }

  /** A concrete frame on which the round trip fails: an empty text with one filler after it. */
  lemma AmbiguousExample()
    ensures var items := [Rec(Header(0x0d, [], 0x78, []), []), Skip];
            && ItemsOk(items)
            && PrintAll(items, None) == [0x0d, 0x78, 0x00, 0x2f]
            && Parse(true, PrintAll(items, None), 0, PrintAll(items, None), 0, 4).records != Expected(items, 0)
  {
    var items := [Rec(Header(0x0d, [], 0x78, []), []), Skip];
    assert Print(items[0]) == [0x0d, 0x78, 0x00] && Print(items[1]) == [0x2f];
    assert items[1..] == [Skip] && items[1..][1..] == [];
    assert PrintAll(items[1..], None) == [0x2f];
    RoundTripIff(items, None, 4);
  }
}
