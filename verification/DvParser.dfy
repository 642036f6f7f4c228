/** The record parser of src/dvparser.cc with its cursors and its remembered formats. */
module DvParser {
  import opened Hex
  import opened Wrappers
  import opened DvSpec
  import opened DvFields
  import opened DvValues
  import opened DvCache

  /** The dife loop: the bytes it takes and the fields it accumulates. */
  method ReadDifes(s: Bytes, at: nat, dif: byte) returns (difes: Bytes, f: Fields)
    requires at <= |s|
    ensures difes == Chain(s[at..], More(dif)) && f == FieldsOf(dif, difes)
  {
    hide AddDife, Chain, FieldsOf, More, Partial;
    difes := [];
    f := Fields((dif / 64) % 2, 0, 0);
    var hasAnotherDife := More(dif);
    ghost var whole := Chain(s[at..], More(dif));
    FieldsNone(dif);
    PartialStart(s, at, More(dif));
    var difenr := 0;
    while hasAnotherDife
      invariant at + |difes| <= |s| && difenr == |difes|
      invariant Partial(s, at, whole, difes, hasAnotherDife)
      invariant f == FieldsOf(dif, difes)
      decreases |s| - |difes|, hasAnotherDife
    {
      if at + |difes| == |s| {
        break;
      }
      var dife := s[at + |difes|];
      PartialStep(s, at, whole, difes);
      FieldsSnoc(dif, difes, dife);
      f := AddDife(f, dife, difenr);
      difes := difes + [dife];
      hasAnotherDife := More(dife);
      difenr := difenr + 1;
    }
    PartialEnd(s, at, whole, difes, hasAnotherDife);
  }

  lemma {:induction false} AccumulateSnoc(difes: Bytes, last: byte, n: nat, f: Fields)
    ensures Accumulate(difes + [last], n, f) == AddDife(Accumulate(difes, n, f), last, n + |difes|)
    decreases |difes|
  {
    hide AddDife;
    if difes == [] {
      assert difes + [last] == [last];
    } else {
      assert (difes + [last])[1..] == difes[1..] + [last];
      AccumulateSnoc(difes[1..], last, n + 1, AddDife(f, difes[0], n));
    }
  }

  lemma FieldsNone(dif: byte)
    ensures FieldsOf(dif, []) == Fields((dif / 64) % 2, 0, 0)
  {
  }

  lemma FieldsSnoc(dif: byte, difes: Bytes, last: byte)
    ensures FieldsOf(dif, difes + [last]) == AddDife(FieldsOf(dif, difes), last, |difes|)
  {
    AccumulateSnoc(difes, last, 0, Fields((dif / 64) % 2, 0, 0));
  }

  /** The vife loop. */
  method ReadVifes(s: Bytes, at: nat, vif: byte) returns (vifes: Bytes)
    requires at <= |s|
    ensures vifes == Chain(s[at..], More(vif))
  {
    hide Chain, More, Partial;
    vifes := [];
    var hasAnotherVife := More(vif);
    ghost var whole := Chain(s[at..], More(vif));
    PartialStart(s, at, More(vif));
    while hasAnotherVife
      invariant at + |vifes| <= |s|
      invariant Partial(s, at, whole, vifes, hasAnotherVife)
      decreases |s| - |vifes|, hasAnotherVife
    {
      if at + |vifes| == |s| {
        break;
      }
      var vife := s[at + |vifes|];
      PartialStep(s, at, whole, vifes);
      vifes := vifes + [vife];
      hasAnotherVife := More(vife);
    }
    PartialEnd(s, at, whole, vifes, hasAnotherVife);
  }

  /** The hexadecimal identifier, byte by byte. */
  method HexId(idBytes: Bytes) returns (dv: string)
    ensures dv == Bin2Hex(idBytes)
  {
    hide Digit;
    dv := "";
    for i := 0 to |idBytes|
      invariant dv == Bin2Hex(idBytes[..i])
    {
      dv := dv + [Digit(idBytes[i] / 16), Digit(idBytes[i] % 16)];
      assert idBytes[..i + 1] == idBytes[..i] + [idBytes[i]];
      Bin2HexJoin(idBytes[..i], [idBytes[i]]);
      assert [idBytes[i]][1..] == [];
      assert Bin2Hex([idBytes[i]]) == [Digit(idBytes[i] / 16), Digit(idBytes[i] % 16)] + "";
    }
    assert idBytes[..|idBytes|] == idBytes;
  }

  /** The payload of a record: its bytes, its offset, the new cursor and whether the loop is done. */
  method TakePayload(d: Bytes, data0: nat, dif: byte, end: nat) returns (value: Bytes, at: nat, data: nat, done: bool)
    requires data0 <= |d| <= end && DifLen(dif) >= -1
    ensures Payload(value, at, data, done) == ReadPayload(d, data0, dif, end)
  {
    hide DifLen;
    data := data0;
    var datalen := DifLen(dif);
    var variableLength := datalen == -1;
    var remaining := |d| - data;
    if variableLength {
      if remaining > 2 {
        datalen := d[data];
      } else {
        datalen := remaining;
      }
    }
    if remaining < datalen {
      datalen := remaining - 1;
    }
    if variableLength {
      data := data + 1;
    }
    // bin2hex stops at the end of the data
    value := [];
    if datalen > 0 && data < |d| {
      value := if data + datalen <= |d| then d[data .. data + datalen] else d[data..];
    }
    at := data;
    if |value| > 0 {
      data := data + datalen;
    }
    done := remaining == datalen || data == end;
  }

  /** How often each identifier has been seen. */
  ghost predicate CountsAre(counts: map<string, nat>, rs: seq<Record>) {
    forall dv: string :: (if dv in counts then counts[dv] else 0) == Occurrences(rs, dv)
  }

  lemma CountsNext(counts: map<string, nat>, rs: seq<Record>, r: Record, count: nat)
    requires CountsAre(counts, rs) && count == (if Dv(r) in counts then counts[Dv(r)] else 0) + 1
    ensures count == Occurrences(rs + [r], Dv(r))
    ensures CountsAre(counts[Dv(r) := count], rs + [r])
  {
    hide Dv;
    assert (rs + [r])[..|rs|] == rs;
  }

  lemma StoreNext(values: Values, rs: seq<Record>, r: Record, base: nat)
    ensures Store(values, rs + [r], base) == Store(values, rs, base)[LastKey(rs + [r]) := Entry(r, base)]
  {
    hide LastKey, Entry;
    assert (rs + [r])[..|rs|] == rs;
  }

  /** What the loop has so far, and what is still to come, make up the whole outcome. */
  ghost predicate Progress(o: Outcome, rs: seq<Record>, formatBytes: Bytes, mfct: Option<nat>, done: bool,
                           aliased: bool, fmt: Bytes, q: nat, d: Bytes, p: nat, end: nat)
  {
    if done then o.records == rs && o.format == formatBytes && o.mfct == mfct
    else
      && q <= |fmt| && p <= |d| <= end && (aliased ==> fmt == d && p == q)
      && var rest := Parse(aliased, fmt, q, d, p, end);
      o.records == rs + rest.records && o.format == formatBytes + rest.format && o.mfct == rest.mfct
  }

  lemma ProgressStart(aliased: bool, fmt: Bytes, d: Bytes, end: nat)
    requires |d| <= end && (aliased ==> fmt == d)
    ensures Progress(Parse(aliased, fmt, 0, d, 0, end), [], [], None, false, aliased, fmt, 0, d, 0, end)
  {
    hide Parse;
    var o := Parse(aliased, fmt, 0, d, 0, end);
    assert [] + o.records == o.records && [] + o.format == o.format;
  }

  lemma InRange(o: Outcome, rs: seq<Record>, formatBytes: Bytes, mfct: Option<nat>,
                aliased: bool, fmt: Bytes, q: nat, d: Bytes, p: nat, end: nat)
    requires Progress(o, rs, formatBytes, mfct, false, aliased, fmt, q, d, p, end)
    ensures q <= |fmt| && p <= |d| <= end && (aliased ==> fmt == d && p == q)
  {
  }

  lemma NotSpecial(dif: byte)
    requires DifLen(dif) != -2
    ensures DifLen(dif) >= -1
  {
  }

  lemma ProgressDone(o: Outcome, rs: seq<Record>, formatBytes: Bytes, mfct: Option<nat>,
                     aliased: bool, fmt: Bytes, q: nat, d: Bytes, p: nat, end: nat, more: Bytes, m: Option<nat>)
    requires Progress(o, rs, formatBytes, mfct, false, aliased, fmt, q, d, p, end)
    requires var rest := Parse(aliased, fmt, q, d, p, end); rest.records == [] && rest.format == more && rest.mfct == m
    ensures forall q', p' :: Progress(o, rs, formatBytes + more, m, true, aliased, fmt, q', d, p', end)
  {
    hide Parse;
    assert rs + [] == rs;
  }

  lemma ProgressFiller(o: Outcome, rs: seq<Record>, formatBytes: Bytes, mfct: Option<nat>,
                       aliased: bool, fmt: Bytes, q: nat, d: Bytes, p: nat, end: nat)
    requires Progress(o, rs, formatBytes, mfct, false, aliased, fmt, q, d, p, end) && q < |fmt| && fmt[q] == SKIP
    ensures Progress(o, rs, formatBytes, mfct, false, aliased, fmt, q + 1, d, if aliased then p + 1 else p, end)
  {
    hide Parse;
    ParseFillerByte(aliased, fmt, q, d, p, end);
  }

  lemma ProgressRecord(o: Outcome, rs: seq<Record>, formatBytes: Bytes,
                       aliased: bool, fmt: Bytes, q: nat, d: Bytes, p: nat, end: nat, h: Header)
    requires Progress(o, rs, formatBytes, None, false, aliased, fmt, q, d, p, end)
    requires ReadHead(fmt[q..]) == Found(h)
    ensures var q1 := q + |h.Id()|;
            var p1 := if aliased then q1 else p;
            && q1 <= |fmt| && p1 <= |d|
            && var r := ReadPayload(d, p1, h.dif, end);
            && (!r.stop ==> p1 <= r.next <= |d|)
            && Progress(o, rs + [Record(h, r.at, r.value)], formatBytes + (if aliased then h.Id() else []), None,
                        r.stop, aliased, fmt, if aliased && !r.stop then r.next else q1, d, r.next, end)
  {
    hide Parse, ReadHead, ReadPayload;
    ParseFound(aliased, fmt, q, d, p, end, h);
    var q1 := q + |h.Id()|;
    var r := ReadPayload(d, if aliased then q1 else p, h.dif, end);
    var known := if aliased then h.Id() else [];
    var record := Record(h, r.at, r.value);
    if !r.stop {
      var rest := Parse(aliased, fmt, if aliased then r.next else q1, d, r.next, end);
      assert rs + ([record] + rest.records) == (rs + [record]) + rest.records;
      assert formatBytes + (known + rest.format) == (formatBytes + known) + rest.format;
    }
  }

  lemma NothingStored(before: Values, base: nat)
    ensures Store(before, [], base) == before && CountsAre(map[], [])
  {
  }

  lemma ParseSpecial(aliased: bool, fmt: Bytes, q: nat, d: Bytes, p: nat, end: nat)
    requires q < |fmt| && p <= |d| <= end && (aliased ==> fmt == d && p == q) && DifLen(fmt[q]) == -2
    ensures var o := Parse(aliased, fmt, q, d, p, end);
            o.records == [] && o.format == [] && o.mfct == if fmt[q] == MANUFACTURER then Some(p + 1) else None
  {
    assert fmt[q..][0] == fmt[q];
  }

  lemma ParseFillerByte(aliased: bool, fmt: Bytes, q: nat, d: Bytes, p: nat, end: nat)
    requires q < |fmt| && p <= |d| <= end && (aliased ==> fmt == d && p == q) && fmt[q] == SKIP
    ensures Parse(aliased, fmt, q, d, p, end) == Parse(aliased, fmt, q + 1, d, if aliased then p + 1 else p, end)
  {
    assert fmt[q..][0] == fmt[q];
    ParseFiller(aliased, fmt, q, d, p, end);
  }

  lemma ParseNoVif(aliased: bool, fmt: Bytes, q: nat, d: Bytes, p: nat, end: nat)
    requires q < |fmt| && p <= |d| <= end && (aliased ==> fmt == d && p == q)
    requires ReadHead(fmt[q..]) == NoVif(fmt[q..])
    ensures var o := Parse(aliased, fmt, q, d, p, end);
            o.records == [] && o.mfct == None && o.format == if aliased then fmt[q..] else []
  {
    hide ReadHead;
  }

  lemma HeadWithoutVif(fmt: Bytes, q: nat, difes: Bytes)
    requires q < |fmt| && DifLen(fmt[q]) != -2 && fmt[q] != SKIP
    requires difes == Chain(fmt[q + 1..], More(fmt[q])) && q + 1 + |difes| == |fmt|
    ensures fmt[q..] == [fmt[q]] + difes && ReadHead(fmt[q..]) == NoVif(fmt[q..])
  {
    hide Chain;
    assert fmt[q..][1..] == fmt[q + 1..];
    assert difes == fmt[q + 1..];
  }

  lemma HeadFound(fmt: Bytes, q: nat, h: Header)
    requires q < |fmt| && h.dif == fmt[q] && DifLen(fmt[q]) != -2 && fmt[q] != SKIP
    requires h.difes == Chain(fmt[q + 1..], More(fmt[q])) && q + 1 + |h.difes| < |fmt|
    requires h.vif == fmt[q + 1 + |h.difes|] && h.vifes == Chain(fmt[q + 2 + |h.difes|..], More(h.vif))
    ensures ReadHead(fmt[q..]) == Found(h)
  {
    hide Chain;
    assert fmt[q..][1..] == fmt[q + 1..];
    var at := 1 + |h.difes|;
    assert fmt[q..][at] == fmt[q + at];
    assert fmt[q..][at + 1..] == fmt[q + at + 1..];
  }

  /** The bytes of a header, as far as they go; the vif is missing if the data ends first. */
  method ReadHeader(s: Bytes, fpos: nat) returns (complete: bool, h: Header, f: Fields)
    requires fpos < |s| && DifLen(s[fpos]) != -2 && s[fpos] != SKIP
    ensures h.dif == s[fpos] && f == FieldsOf(h.dif, h.difes)
    ensures complete ==> ReadHead(s[fpos..]) == Found(h)
    ensures !complete ==> ReadHead(s[fpos..]) == NoVif(s[fpos..]) && s[fpos..] == [h.dif] + h.difes
  {
    hide Chain, DifLen, FieldsOf, ReadHead;
    var dif := s[fpos];
    var difes: Bytes;
    difes, f := ReadDifes(s, fpos + 1, dif);
    var cursor := fpos + 1 + |difes|;
    assert cursor <= |s| by { assert |Chain(s[fpos + 1..], More(dif))| <= |s[fpos + 1..]|; }
    if cursor == |s| {
      HeadWithoutVif(s, fpos, difes);
      return false, Header(dif, difes, 0, []), f;
    }
    var vif := s[cursor];
    var vifes := ReadVifes(s, cursor + 1, vif);
    h := Header(dif, difes, vif, vifes);
    HeadFound(s, fpos, h);
    complete := true;
  }

  /** The parser and its remembered formats. */
  class Parser {
    var hashToFormat: Cache
    ghost var learned: seq<Bytes>

    /** The cache is what the formats learned so far make of an empty one. */
    ghost predicate Valid()
      reads this
    {
      hashToFormat == CacheAfter(learned)
    }

    constructor ()
      ensures Valid() && learned == []
    {
      hashToFormat := map[];
      learned := [];
    }

    /** Nothing, or the first format learned with this signature. */
    method LoadFormatBytesFromSignature(signature: Signature) returns (ok: bool, formatBytes: Bytes)
      requires Valid()
      ensures ok == First(learned, signature).Some?
      ensures ok ==> formatBytes == First(learned, signature).value && Crc(formatBytes) == signature
      ensures !ok ==> formatBytes == []
    {
      hide Crc, Hex2Bin, Bin2Hex;
      LoadIsFirst(learned, signature);
      FirstHasSignature(learned, signature);
      ok, formatBytes := false, [];
      if signature in hashToFormat {
        formatBytes := Hex2Bin(hashToFormat[signature]).1;
        ok := true;
      }
    }

    /** Parses the data `d` of a telegram: `end` is where the telegram ends, counted from the start of the
        data, and `startParseHere` the telegram offset of the data. Without a format the descriptors are
        in the data, and the format they make up is remembered. */
    method ParseDV(d: Bytes, end: nat, startParseHere: nat, before: Values, format: Option<Bytes>)
      returns (values: Values, mfct: Option<nat>)
      requires Valid() && |d| <= end
      modifies this
      ensures Valid()
      ensures var o := Parse(format.None?, if format.None? then d else format.value, 0, d, 0, end);
              && values == Store(before, o.records, startParseHere) && mfct == o.mfct
              && learned == if format.None? then old(learned) + [o.format] else old(learned)
    {
      hide Parse, Store, Crc, Bin2Hex;
      var formatBytes: Bytes;
      values, mfct, formatBytes := ParseLoop(d, end, startParseHere, before, format);
      if format.None? {
        var hash := Crc(formatBytes);
        if hash !in hashToFormat {
          hashToFormat := hashToFormat[hash := Bin2Hex(formatBytes)];
        }
        learned := learned + [formatBytes];
        assert learned[..|learned| - 1] == old(learned);
      }
    }

    method ParseLoop(d: Bytes, end: nat, startParseHere: nat, before: Values, format: Option<Bytes>)
      returns (values: Values, mfct: Option<nat>, formatBytes: Bytes)
      requires |d| <= end
      ensures var o := Parse(format.None?, if format.None? then d else format.value, 0, d, 0, end);
              && values == Store(before, o.records, startParseHere) && mfct == o.mfct && formatBytes == o.format
    {
      hide Parse, Store, CountsAre, ReadHead, ReadPayload, Chain, DifLen;
      var dataHasDifvifs := format.None?;
      var s := if dataHasDifvifs then d else format.value;
      // The format cursor and the data cursor move together when the descriptors are in the data.
      var fpos: nat, data: nat := 0, 0;
      values, mfct, formatBytes := before, None, [];
      var dvCount: map<string, nat> := map[];
      ghost var rs: seq<Record> := [];
      ghost var o := Parse(dataHasDifvifs, s, 0, d, 0, end);
      NothingStored(before, startParseHere);
      ProgressStart(dataHasDifvifs, s, d, end);
      var done := false;
      while !done
        invariant CountsAre(dvCount, rs) && values == Store(before, rs, startParseHere)
        invariant !done ==> mfct == None
        invariant Progress(o, rs, formatBytes, mfct, done, dataHasDifvifs, s, fpos, d, data, end)
        decreases !done, |s| - fpos
      {
        hide Progress;
        assert fpos <= |s| && data <= |d| && (dataHasDifvifs ==> s == d && data == fpos) by {
          InRange(o, rs, formatBytes, mfct, dataHasDifvifs, s, fpos, d, data, end);
        }
        if fpos == |s| {
          ParseEnd(dataHasDifvifs, s, d, data, end);
          ProgressDone(o, rs, formatBytes, mfct, dataHasDifvifs, s, fpos, d, data, end, [], None);
          assert formatBytes + [] == formatBytes;
          done := true;
        } else if DifLen(s[fpos]) == -2 {
          ParseSpecial(dataHasDifvifs, s, fpos, d, data, end);
          ProgressDone(o, rs, formatBytes, mfct, dataHasDifvifs, s, fpos, d, data, end, [],
                       if s[fpos] == MANUFACTURER then Some(data + 1) else None);
          assert formatBytes + [] == formatBytes;
          if s[fpos] == 0x0f {
            mfct := Some(1 + data);
            data := |d|;
          }
          done := true;
        } else if s[fpos] == 0x2f {
          ProgressFiller(o, rs, formatBytes, mfct, dataHasDifvifs, s, fpos, d, data, end);
          fpos := fpos + 1;
          if dataHasDifvifs {
            data := data + 1;
          }
        } else {
          var complete, h, f := ReadHeader(s, fpos);
          if !complete {
            assert |s[fpos..]| == |s| - fpos;
            ParseNoVif(dataHasDifvifs, s, fpos, d, data, end);
            ProgressDone(o, rs, formatBytes, mfct, dataHasDifvifs, s, fpos, d, data, end,
                         if dataHasDifvifs then s[fpos..] else [], None);
            if dataHasDifvifs {
              formatBytes := formatBytes + ([h.dif] + h.difes);
            } else {
              assert formatBytes + [] == formatBytes;
            }
            done := true;
          } else {
            ProgressRecord(o, rs, formatBytes, dataHasDifvifs, s, fpos, d, data, end, h);
            var idBytes := h.Id();
            fpos := fpos + |idBytes|;
            if dataHasDifvifs {
              formatBytes := formatBytes + idBytes;
              data := fpos;
            } else {
              assert formatBytes + [] == formatBytes;
            }
            assert DifLen(h.dif) >= -1 by { NotSpecial(h.dif); }
            var value: Bytes, at: nat;
            value, at, data, done := TakePayload(d, data, h.dif, end);
            ghost var r := Record(h, at, value);
            dvCount, values := StoreRecord(dvCount, values, idBytes, f, h.vif, value, startParseHere + at, before, rs,
                r, startParseHere);
            rs := rs + [r];
            if dataHasDifvifs && !done {
              fpos := data;
            }
          }
        }
      }
    }

    /** Counts the identifier and stores the value under its numbered key. */
    method StoreRecord(dvCount: map<string, nat>, values: Values, idBytes: Bytes, f: Fields, vif: byte, value: Bytes,
                       offset: nat, ghost before: Values, ghost rs: seq<Record>, ghost r: Record, ghost base: nat)
      returns (newCount: map<string, nat>, newValues: Values)
      requires CountsAre(dvCount, rs) && values == Store(before, rs, base)
      requires idBytes == r.header.Id() && vif == r.header.vif && value == r.value && offset == base + r.at
      requires f == FieldsOf(r.header.dif, r.header.difes)
      ensures CountsAre(newCount, rs + [r]) && newValues == Store(before, rs + [r], base)
    {
      hide Store, CountsAre, FieldsOf;
      var dv := HexId(idBytes);
      var count := (if dv in dvCount then dvCount[dv] else 0) + 1;
      CountsNext(dvCount, rs, r, count);
      StoreNext(before, rs, r, base);
      newCount := dvCount[dv := count];
      var key := Key(dv, count);
      newValues := values[key := (offset,
          DVEntry(TypeOfDif(idBytes[0]), vif % 128, f.storage, f.tariff, f.subunit, Bin2Hex(value)))];
    }
  }
}
