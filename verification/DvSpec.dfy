/** What src/dvparser.cc reads out of a telegram, on values. A byte is a number below 256, and the
    source's masks and shifts on bytes are written as quotients and remainders. */
module DvSpec {
  import opened Wrappers
  import opened Hex

  type Bytes = seq<byte>

  datatype MeasurementType = Unknown | Instantaneous | Minimum | Maximum | AtError

  function TypeOfDif(dif: byte): MeasurementType {
    match (dif / 16) % 4
    case 0 => Instantaneous
    case 1 => Maximum
    case 2 => Minimum
    case _ => AtError
  }

  const SKIP: byte := 0x2f
  const MANUFACTURER: byte := 0x0f

  /** The number of data bytes: -1 for a length byte in the data, -2 for the special functions. */
  function DifLen(dif: byte): (n: int)
    ensures -2 <= n <= 8
  {
    match dif % 16
    case 0 => 0
    case 1 => 1
    case 2 => 2
    case 3 => 3
    case 4 => 4
    case 5 => 4
    case 6 => 6
    case 7 => 8
    case 8 => 0
    case 9 => 1
    case 10 => 2
    case 11 => 3
    case 12 => 4
    case 13 => -1
    case 14 => 6
    case _ => if dif == SKIP then 1 else -2
  }

  predicate More(b: byte) {
    b >= 0x80
  }

  /** The extension bytes at the start of `s`: each has its top bit set except the last, unless `s` ends. */
  function Chain(s: Bytes, more: bool): (c: Bytes)
    ensures |c| <= |s| && c == s[..|c|]
  {
    if !more || s == [] then [] else [s[0]] + Chain(s[1..], More(s[0]))
  }

  lemma ChainStep(s: Bytes, i: nat)
    requires i <= |s|
    ensures Chain(s[i..], false) == []
    ensures Chain(s[i..], true) == if i < |s| then [s[i]] + Chain(s[i + 1..], More(s[i])) else []
  {
    if i < |s| {
      assert s[i..][1..] == s[i + 1..];
    }
  }

  /** A chain from `at` on of which `taken` has been read. */
  predicate Partial(s: Bytes, at: nat, whole: Bytes, taken: Bytes, more: bool) {
    at + |taken| <= |s| && whole == taken + Chain(s[at + |taken|..], more)
  }

  lemma PartialStart(s: Bytes, at: nat, more: bool)
    requires at <= |s|
    ensures Partial(s, at, Chain(s[at..], more), [], more)
  {
    hide Chain;
    assert [] + Chain(s[at..], more) == Chain(s[at..], more);
  }

  lemma PartialStep(s: Bytes, at: nat, whole: Bytes, taken: Bytes)
    requires Partial(s, at, whole, taken, true) && at + |taken| < |s|
    ensures Partial(s, at, whole, taken + [s[at + |taken|]], More(s[at + |taken|]))
  {
    hide Chain;
    var i := at + |taken|;
    ChainStep(s, i);
    assert taken + ([s[i]] + Chain(s[i + 1..], More(s[i]))) == (taken + [s[i]]) + Chain(s[i + 1..], More(s[i]));
  }

  lemma PartialEnd(s: Bytes, at: nat, whole: Bytes, taken: Bytes, more: bool)
    requires Partial(s, at, whole, taken, more) && (!more || at + |taken| == |s|)
    ensures taken == whole
  {
    hide Chain;
    ChainStep(s, at + |taken|);
    assert taken + [] == taken;
  }

  /** A data record header. */
  datatype Header = Header(dif: byte, difes: Bytes, vif: byte, vifes: Bytes) {
    function Id(): Bytes {
      [dif] + difes + [vif] + vifes
    }
  }

  /** What stands at the format cursor. */
  datatype Head =
    | AtEnd
    | Special(manufacturer: bool)
    | Filler
    | NoVif(read: Bytes)
    | Found(header: Header)

  function ReadHead(s: Bytes): (h: Head)
    ensures h.Found? ==> h.header.Id() <= s && h.header.dif == s[0] && DifLen(s[0]) >= -1 && s[0] != SKIP
    ensures h.NoVif? ==> h.read == s
    ensures h.Filler? || h.NoVif? || h.Found? || h.Special? <==> s != []
  {
    if s == [] then AtEnd
    else if DifLen(s[0]) == -2 then Special(s[0] == MANUFACTURER)
    else if s[0] == SKIP then Filler
    else
      var difes := Chain(s[1..], More(s[0]));
      var at := 1 + |difes|;
      if at == |s| then
        assert s == [s[0]] + difes;
        NoVif(s)
      else
        var vifes := Chain(s[at + 1..], More(s[at]));
        assert s[..at] == [s[0]] + difes;
        assert s[..at + 1 + |vifes|] == [s[0]] + difes + [s[at]] + vifes;
        Found(Header(s[0], difes, s[at], vifes))
  }

  /** The payload of one record: its bytes, where they start, where the data cursor goes next, and
      whether the loop ends here. */
  datatype Payload = Payload(value: Bytes, at: nat, next: nat, stop: bool)

  /** The payload at cursor `p` of the data `d`; `end` is where the whole buffer ends. */
  function ReadPayload(d: Bytes, p: nat, dif: byte, end: nat): Payload
    requires p <= |d| <= end && DifLen(dif) >= -1
  {
    var remaining := |d| - p;
    var variable := DifLen(dif) == -1;
    var wanted := if !variable then DifLen(dif) else if remaining > 2 then d[p] else remaining;
    var datalen := if remaining < wanted then remaining - 1 else wanted;
    var at := if variable then p + 1 else p;
    var value := if datalen <= 0 || at >= |d| then []
                 else if at + datalen <= |d| then d[at .. at + datalen]
                 else d[at..];
    var next := if value != [] then at + datalen else at;
    Payload(value, at, next, remaining == datalen || next == end)
  }

  /** The cursor moves past the end of the data in three cases only, all of them with a length byte, and
      by one; the loop then ends. Whenever the loop goes round, the cursor is at most at the end, so the
      test for equality with the end cannot be jumped over. */
  lemma PayloadCursor(d: Bytes, p: nat, dif: byte, end: nat)
    requires p <= |d| <= end && DifLen(dif) >= -1
    ensures var r := ReadPayload(d, p, dif, end);
            var remaining := |d| - p;
            && p <= r.next <= |d| + 1
            && (r.next == |d| + 1 <==>
                  DifLen(dif) == -1 && (remaining == 0 || remaining == 2 || (remaining > 2 && d[p] == remaining)))
            && (!r.stop ==> r.next <= |d|)
  {
  }

  /** How many of the remaining bytes a payload of fixed width gets: all of its bytes, or if they are not all there,
      those that are there except the last. */
  function FixedBytes(remaining: nat, width: nat): nat {
    if width <= remaining then width else if remaining > 0 then remaining - 1 else 0
  }

  /** A payload of fixed width starts at the cursor. Behind a length byte, the payload is the bytes it counts, as
      far as they go; with at most two bytes left it is all that follows the length byte, whatever that says. */
  lemma PayloadValue(d: Bytes, p: nat, dif: byte, end: nat)
    requires p <= |d| <= end && DifLen(dif) >= -1
    ensures var r := ReadPayload(d, p, dif, end);
            var remaining := |d| - p;
            var n := if DifLen(dif) >= 0 then FixedBytes(remaining, DifLen(dif))
                     else if remaining > 2 && d[p] < remaining then d[p]
                     else if remaining > 0 then remaining - 1 else 0;
            && r.at == (if DifLen(dif) >= 0 then p else p + 1)
            && |r.value| == n && (n > 0 ==> r.at + n <= |d| && r.value == d[r.at .. r.at + n])
  {
    hide DifLen;
  }

  /** A telegram of four bytes whose data cursor ends at five. */
  lemma CursorPastEndExample()
    ensures var d := [0x0d, 0x78, 0x01, 0xaa];
            Parse(true, d, 0, d, 0, 4)
                == Outcome([Record(Header(0x0d, [], 0x78, []), 3, [0xaa])], [0x0d, 0x78], None, 5)
  {
    hide Parse;
    var d: Bytes := [0x0d, 0x78, 0x01, 0xaa];
    var h := Header(0x0d, [], 0x78, []);
    assert d[0..] == d;
    assert d[1..] == [0x78, 0x01, 0xaa] && d[2..] == [0x01, 0xaa];
    assert Chain(d[1..], false) == [] && Chain(d[2..], false) == [];
    assert ReadHead(d[0..]) == Found(h);
    assert h.Id() == [0x0d, 0x78];
    assert d[3..] == [0xaa];
    assert ReadPayload(d, 2, 0x0d, 4) == Payload([0xaa], 3, 5, true);
    ParseFound(true, d, 0, d, 0, 4, h);
  }

  datatype Record = Record(header: Header, at: nat, value: Bytes)

  /** The outcome of a parse: the records, the format bytes to remember, where manufacturer data starts,
      and the final data cursor. */
  datatype Outcome = Outcome(records: seq<Record>, format: Bytes, mfct: Option<nat>, last: nat)

  /** The loop from format cursor `q` and data cursor `p` on. When the descriptors are in the data
      (`aliased`), the two cursors are one variable. */
  function Parse(aliased: bool, fmt: Bytes, q: nat, d: Bytes, p: nat, end: nat): Outcome
    requires q <= |fmt| && p <= |d| <= end && (aliased ==> fmt == d && p == q)
    decreases |fmt| - q
  {
    match ReadHead(fmt[q..])
    case AtEnd => Outcome([], [], None, p)
    case Special(manufacturer) =>
      if manufacturer then Outcome([], [], Some(p + 1), |d|) else Outcome([], [], None, p)
    case Filler => Parse(aliased, fmt, q + 1, d, if aliased then p + 1 else p, end)
    case NoVif(read) => Outcome([], if aliased then read else [], None, if aliased then |d| else p)
    case Found(h) =>
      var q1 := q + |h.Id()|;
      var r := ReadPayload(d, if aliased then q1 else p, h.dif, end);
      var record := Record(h, r.at, r.value);
      var known := if aliased then h.Id() else [];
      PayloadCursor(d, if aliased then q1 else p, h.dif, end);
      if r.stop then Outcome([record], known, None, r.next)
      else
        var rest := Parse(aliased, fmt, if aliased then r.next else q1, d, r.next, end);
        Outcome([record] + rest.records, known + rest.format, rest.mfct, rest.last)
  }

  // The equations of `Parse`, one by one.

  lemma ParseFound(aliased: bool, fmt: Bytes, q: nat, d: Bytes, p: nat, end: nat, h: Header)
    requires q <= |fmt| && p <= |d| <= end && (aliased ==> fmt == d && p == q)
    requires ReadHead(fmt[q..]) == Found(h)
    ensures var q1 := q + |h.Id()|;
            var p1 := if aliased then q1 else p;
            && q1 <= |fmt| && p1 <= |d|
            && var r := ReadPayload(d, p1, h.dif, end);
            var o := Parse(aliased, fmt, q, d, p, end);
            var record := Record(h, r.at, r.value);
            var known := if aliased then h.Id() else [];
            && (!r.stop ==> p1 <= r.next <= |d|)
            && (r.stop ==> o == Outcome([record], known, None, r.next))
            && (!r.stop ==>
                  var rest := Parse(aliased, fmt, if aliased then r.next else q1, d, r.next, end);
                  o == Outcome([record] + rest.records, known + rest.format, rest.mfct, rest.last))
  {
    hide ReadHead, ReadPayload;
    PayloadCursor(d, if aliased then q + |h.Id()| else p, h.dif, end);
  }

  lemma ParseFiller(aliased: bool, fmt: Bytes, q: nat, d: Bytes, p: nat, end: nat)
    requires q <= |fmt| && p <= |d| <= end && (aliased ==> fmt == d && p == q)
    requires ReadHead(fmt[q..]) == Filler
    ensures q < |fmt|
    ensures Parse(aliased, fmt, q, d, p, end) == Parse(aliased, fmt, q + 1, d, if aliased then p + 1 else p, end)
  {
    hide ReadHead, ReadPayload;
  }

  lemma ParseEnd(aliased: bool, fmt: Bytes, d: Bytes, p: nat, end: nat)
    requires p <= |d| <= end && (aliased ==> fmt == d && p == |fmt|)
    ensures Parse(aliased, fmt, |fmt|, d, p, end) == Outcome([], [], None, p)
  {
    hide ReadPayload;
  }

  /** For every byte string, in either mode, the final cursor is at most one past the end. */
  lemma {:induction false} ParseCursor(aliased: bool, fmt: Bytes, q: nat, d: Bytes, p: nat, end: nat)
    requires q <= |fmt| && p <= |d| <= end && (aliased ==> fmt == d && p == q)
    ensures p <= Parse(aliased, fmt, q, d, p, end).last <= |d| + 1
    decreases |fmt| - q
  {
    hide ReadHead, ReadPayload;
    match ReadHead(fmt[q..])
    case AtEnd | Special(_) | NoVif(_) =>
    case Filler => ParseCursor(aliased, fmt, q + 1, d, if aliased then p + 1 else p, end);
    case Found(h) =>
      var q1 := q + |h.Id()|;
      var p1 := if aliased then q1 else p;
      var r := ReadPayload(d, p1, h.dif, end);
      PayloadCursor(d, p1, h.dif, end);
      if !r.stop {
        ParseCursor(aliased, fmt, if aliased then r.next else q1, d, r.next, end);
      }
  }
}
