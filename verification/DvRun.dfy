/** Runs of full and compact telegrams through one parser. */
module DvRun {
  import opened Wrappers
  import opened DvSpec
  import opened DvValues
  import opened DvCache
  import opened DvKnown
  import opened DvParser

  datatype Frame = Full(data: Bytes) | Compact(signature: Signature, data: Bytes)

  /** The formats that a run leaves behind. */
  function FormatsOf(frames: seq<Frame>): seq<Bytes> {
    if frames == [] then []
    else FormatsOf(frames[..|frames| - 1]) + LearnedFrom(frames[|frames| - 1])
  }

  function LearnedFrom(f: Frame): seq<Bytes> {
    match f
    case Full(d) => [Parse(true, d, 0, d, 0, |d|).format]
    case Compact(_, _) => []
  }

  lemma FormatsNone(frames: seq<Frame>)
    requires frames == []
    ensures FormatsOf(frames) == []
  {
  }

  lemma FormatsNext(frames: seq<Frame>, n: nat)
    requires n < |frames|
    ensures FormatsOf(frames[..n + 1]) == FormatsOf(frames[..n]) + LearnedFrom(frames[n])
  {
    assert frames[..n + 1][..n] == frames[..n];
  }

  /** The format for a compact frame: the first one that came in under its signature, or else a format that is
      known in advance. */
  function FormatFor(history: seq<Bytes>, signature: Signature): Option<Bytes> {
    if First(history, signature).Some? then First(history, signature) else KnownFormat(signature)
  }

  /** Whatever came before, a compact frame is only ever decoded with a format that has its signature. */
  lemma FormatHasSignature(history: seq<Bytes>, signature: Signature)
    ensures FormatFor(history, signature).Some? ==> Crc(FormatFor(history, signature).value) == signature
  {
    hide Crc, First, KnownFormat;
    FirstHasSignature(history, signature);
    KnownHasSignature(signature);
  }

  /** What a frame yields after the formats in `history`; a compact frame without a format is dropped. */
  function ResultOf(history: seq<Bytes>, f: Frame): Option<Values> {
    match f
    case Full(d) => Some(Store(map[], Parse(true, d, 0, d, 0, |d|).records, 0))
    case Compact(signature, d) =>
      match FormatFor(history, signature)
      case None => None
      case Some(format) => Some(Store(map[], Parse(false, format, 0, d, 0, |d|).records, 0))
  }

  method Receive(parser: Parser, f: Frame) returns (result: Option<Values>)
    requires parser.Valid()
    modifies parser
    ensures parser.Valid()
    ensures result == ResultOf(old(parser.learned), f)
    ensures parser.learned == old(parser.learned) + LearnedFrom(f)
  {
    hide Parse, Store, First, KnownFormat;
    match f
    case Full(d) =>
      var values, mfct := parser.ParseDV(d, |d|, 0, map[], None);
      result := Some(values);
    case Compact(signature, d) =>
      var ok, format := parser.LoadFormatBytesFromSignature(signature);
      if !ok {
        var known := KnownFormat(signature);
        if known.Some? {
          ok, format := true, known.value;
        }
      }
      if ok {
        var values, mfct := parser.ParseDV(d, |d|, 0, map[], Some(format));
        result := Some(values);
      } else {
        result := None;
      }
      assert parser.learned + [] == parser.learned;
  }

  /** Over any run, every frame is decoded as its own history prescribes. */
  method ReceiveAll(parser: Parser, frames: seq<Frame>) returns (results: seq<Option<Values>>)
    requires parser.Valid()
    modifies parser
    ensures parser.Valid() && parser.learned == old(parser.learned) + FormatsOf(frames)
    ensures |results| == |frames|
    ensures forall i :: 0 <= i < |frames| ==>
              results[i] == ResultOf(old(parser.learned) + FormatsOf(frames[..i]), frames[i])
  {
    hide ResultOf, LearnedFrom, FormatsOf, CacheAfter;
    results := [];
    ghost var before := parser.learned;
    assert before + [] == before;
    assert FormatsOf(frames[..0]) == [] by { FormatsNone(frames[..0]); }
    for n := 0 to |frames|
      invariant parser.Valid() && parser.learned == before + FormatsOf(frames[..n])
      invariant |results| == n
      invariant forall i :: 0 <= i < n ==> results[i] == ResultOf(before + FormatsOf(frames[..i]), frames[i])
    {
      var result := Receive(parser, frames[n]);
      results := results + [result];
      FormatsNext(frames, n);
      assert (before + FormatsOf(frames[..n])) + LearnedFrom(frames[n]) == before + FormatsOf(frames[..n + 1]);
    }
    assert frames[..|frames|] == frames;
  }
}
