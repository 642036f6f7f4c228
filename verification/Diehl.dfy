/** The Diehl stream cipher and frame rewriting of src/manufacturer_specificities.cc. */
module DiehlLfsr {

  // The register.

  /** The new bit: the exclusive or of bits 1, 2, 11 and 31 of the register. */
  function Feedback(key: bv32): bv32 {
    ((key >> 1) ^ (key >> 2) ^ (key >> 11) ^ (key >> 31)) & 1
  }

  function Step(key: bv32): bv32 {
    (key << 1) | Feedback(key)
  }

  /** The register before a step, from the register after it. */
  function Unstep(next: bv32): bv32 {
    (next >> 1) | ((next ^ (next >> 2) ^ (next >> 3) ^ (next >> 12)) << 31)
  }

  lemma UnstepOfStep(key: bv32)
    ensures Unstep(Step(key)) == key
  {
  }

  lemma StepOfUnstep(key: bv32)
    ensures Step(Unstep(key)) == key
  {
  }

  /** A step is a bijection on the 32-bit states. */
  lemma StepInverse(key: bv32)
    ensures Unstep(Step(key)) == key
    ensures Step(Unstep(key)) == key
  {
    hide Step, Unstep;
    UnstepOfStep(key);
    StepOfUnstep(key);
  }

  function Steps(key: bv32, n: nat): bv32
    decreases n
  {
    if n == 0 then key else Steps(Step(key), n - 1)
  }

  function Unsteps(key: bv32, n: nat): bv32 {
    if n == 0 then key else Unstep(Unsteps(key, n - 1))
  }

  lemma {:induction false} StepsSplit(key: bv32, m: nat, n: nat)
    ensures Steps(key, m + n) == Steps(Steps(key, m), n)
    decreases m
  {
    hide Step;
    if m > 0 {
      StepsSplit(Step(key), m - 1, n);
    }
  }

  /** Any number of steps is a bijection on the 32-bit states. */
  lemma {:induction false} StepsInverse(key: bv32, n: nat)
    ensures Unsteps(Steps(key, n), n) == key
    ensures Steps(Unsteps(key, n), n) == key
    decreases n
  {
    hide Step, Unstep;
    if n > 0 {
      StepsInverse(Step(key), n - 1);
      StepInverse(key);
      StepsInverse(key, n - 1);
      StepInverse(Unsteps(key, n - 1));
    }
  }

  lemma {:induction false} StepsOfZero(n: nat)
    ensures Steps(0, n) == 0
  {
    if n > 0 {
      assert Step(0) == 0;
      StepsOfZero(n - 1);
    }
  }

  /** The register is zero after `n` steps exactly when it was zero before them. */
  lemma ZeroOnlyFromZero(key: bv32, n: nat)
    ensures Steps(key, n) == 0 <==> key == 0
  {
    StepsOfZero(n);
    StepsInverse(key, n);
    StepsInverse(0, n);
  }

  // The keystream.

  function Low(key: bv32): bv8 {
    (key & 0xff) as bv8
  }

  function Mask(b: bv8, k: bv8): bv8 {
    b ^ k
  }

  lemma MaskTwice(b: bv8, k: bv8)
    ensures Mask(Mask(b, k), k) == b
  {
  }

  /** One byte for every eight steps. */
  function Keystream(key: bv32, n: nat): (s: seq<bv8>)
    ensures |s| == n
    decreases n
  {
    if n == 0 then [] else [Low(Steps(key, 8))] + Keystream(Steps(key, 8), n - 1)
  }

  /** The same bytes by position. */
  lemma {:induction false} KeystreamAt(key: bv32, n: nat, i: nat)
    requires i < n
    ensures Keystream(key, n)[i] == Low(Steps(key, 8 * (i + 1)))
    decreases n
  {
    hide Low, Steps;
    if i > 0 {
      KeystreamAt(Steps(key, 8), n - 1, i - 1);
      StepsSplit(key, 8, 8 * i);
      assert 8 + 8 * i == 8 * (i + 1);
    }
  }

  function Apply(key: bv32, data: seq<bv8>): (r: seq<bv8>)
    ensures |r| == |data|
  {
    seq(|data|, i requires 0 <= i < |data| => Mask(data[i], Keystream(key, |data|)[i]))
  }

  /** The keystream does not depend on the data, so applying it twice restores any payload. */
  lemma ApplyTwice(key: bv32, data: seq<bv8>)
    ensures Apply(key, Apply(key, data)) == data
  {
    hide Mask, Keystream;
    forall i | 0 <= i < |data|
      ensures Apply(key, Apply(key, data))[i] == data[i]
    {
      MaskTwice(data[i], Keystream(key, |data|)[i]);
    }
  }

  // Four bytes of keystream fill the register.

  lemma EightShifts(key: bv32, f1: bv32, f2: bv32, f3: bv32, f4: bv32, f5: bv32, f6: bv32, f7: bv32, f8: bv32)
    requires f1 < 2 && f2 < 2 && f3 < 2 && f4 < 2 && f5 < 2 && f6 < 2 && f7 < 2 && f8 < 2
    ensures var k4 := (((((((key << 1) | f1) << 1) | f2) << 1) | f3) << 1) | f4;
            var k8 := (((((((k4 << 1) | f5) << 1) | f6) << 1) | f7) << 1) | f8;
            k8 == (key << 8) | (k8 & 0xff)
  {
  }

  lemma FeedbackIsBit(key: bv32)
    ensures Feedback(key) < 2
  {
  }

  lemma Steps8(key: bv32)
    ensures Steps(key, 8) == Step(Step(Step(Step(Step(Step(Step(Step(key))))))))
  {
    hide Step;
    assert Steps(key, 8) == Steps(Step(Step(Step(Step(key)))), 4) by {
      StepsSplit(key, 4, 4);
    }
  }

  /** The register has moved up by one byte. */
  predicate Shifted(before: bv32, after: bv32) {
    after == (before << 8) | (after & 0xff)
  }

  /** After eight steps the register has moved up by one byte, and its low byte is the keystream byte. */
  lemma Step8Shifts(key: bv32)
    ensures Shifted(key, Steps(key, 8))
  {
    hide Feedback;
    Steps8(key);
    var k1 := Step(key);
    var k2 := Step(k1);
    var k3 := Step(k2);
    var k4 := Step(k3);
    var k5 := Step(k4);
    var k6 := Step(k5);
    var k7 := Step(k6);
    FeedbackIsBit(key);
    FeedbackIsBit(k1);
    FeedbackIsBit(k2);
    FeedbackIsBit(k3);
    FeedbackIsBit(k4);
    FeedbackIsBit(k5);
    FeedbackIsBit(k6);
    FeedbackIsBit(k7);
    EightShifts(key, Feedback(key), Feedback(k1), Feedback(k2), Feedback(k3), Feedback(k4), Feedback(k5), Feedback(k6),
        Feedback(k7));
  }

  function FourBytes(a: bv8, b: bv8, c: bv8, d: bv8): bv32 {
    ((a as bv32) << 24) | ((b as bv32) << 16) | ((c as bv32) << 8) | (d as bv32)
  }

  lemma FourShifts(key: bv32, k1: bv32, k2: bv32, k3: bv32, k4: bv32)
    requires Shifted(key, k1) && Shifted(k1, k2) && Shifted(k2, k3) && Shifted(k3, k4)
    ensures k4 == FourBytes(Low(k1), Low(k2), Low(k3), Low(k4))
  {
  }

  lemma RegisterIsKeystream(key: bv32, n: nat)
    requires n >= 4
    ensures var s := Keystream(key, n); Steps(key, 32) == FourBytes(s[0], s[1], s[2], s[3])
  {
    hide Step, Steps, Low, FourBytes, Keystream, Shifted;
    KeystreamAt(key, n, 0);
    KeystreamAt(key, n, 1);
    KeystreamAt(key, n, 2);
    KeystreamAt(key, n, 3);
    StepsSplit(key, 8, 8);
    StepsSplit(key, 16, 8);
    StepsSplit(key, 24, 8);
    Step8Shifts(key);
    Step8Shifts(Steps(key, 8));
    Step8Shifts(Steps(key, 16));
    Step8Shifts(Steps(key, 24));
    FourShifts(key, Steps(key, 8), Steps(key, 16), Steps(key, 24), Steps(key, 32));
  }

  /** Four or more bytes of keystream determine the register they came from. */
  lemma KeystreamDeterminesKey(k: bv32, l: bv32, n: nat)
    requires n >= 4 && Keystream(k, n) == Keystream(l, n)
    ensures k == l
  {
    hide Steps, Unsteps, Keystream;
    RegisterIsKeystream(k, n);
    RegisterIsKeystream(l, n);
    StepsInverse(k, 32);
    StepsInverse(l, 32);
  }
}

/** Decoding, key fallback and address rewriting. */
module Diehl {
  import opened DiehlLfsr

  type Bytes = seq<bv8>

  function Uint32FromBytes(data: Bytes, offset: nat): bv32
    requires offset + 4 <= |data|
  {
    FourBytes(data[offset], data[offset + 1], data[offset + 2], data[offset + 3])
  }

  function ConvertKey(bytes: Bytes): bv32
    requires |bytes| >= 8
  {
    Uint32FromBytes(bytes, 0) ^ Uint32FromBytes(bytes, 4)
  }

  datatype CheckMethod = ChecksumAnd0xEF | Header1Byte

  // Decoding.

  /** The register that the header bytes and the key start from. */
  function Seed(origin: Bytes, frame: Bytes, key: bv32): bv32
    requires |origin| >= 10 && |frame| >= 14
  {
    Stirred(key, Uint32FromBytes(origin, 2), Uint32FromBytes(origin, 6), Uint32FromBytes(frame, 10))
  }

  function Stirred(key: bv32, a: bv32, b: bv32, c: bv32): bv32 {
    key ^ a ^ b ^ c
  }

  function AddByte(sum: bv32, b: bv8): bv32 {
    sum + (b as bv32)
  }

  function Sum(data: Bytes): bv32 {
    if data == [] then 0 else AddByte(Sum(data[..|data| - 1]), data[|data| - 1])
  }

  predicate Passes(check: CheckMethod, data: Bytes, checkValue: bv32) {
    data != [] &&
    match check
    case Header1Byte => data[0] == 0x4B
    case ChecksumAnd0xEF => Sum(data) & 0xEF == checkValue
  }

  /** Decode everything, then check: the whole payload if the check passes, and otherwise nothing. */
  function Decoded(origin: Bytes, frame: Bytes, key: bv32, check: CheckMethod, checkValue: bv32): Bytes
    requires |origin| >= 10 && |frame| >= 15
  {
    var plain := Apply(Seed(origin, frame, key), frame[15..]);
    if Passes(check, plain, checkValue) then plain else []
  }

  function Flag(key: bv32, mask: bv32): bv32 {
    if key & mask != 0 then 1 else 0
  }

  lemma FlagIsBit(key: bv32)
    ensures Flag(key, 0x2) == (key >> 1) & 1
    ensures Flag(key, 0x4) == (key >> 2) & 1
    ensures Flag(key, 0x800) == (key >> 11) & 1
    ensures Flag(key, 0x8000_0000) == (key >> 31) & 1
  {
  }

  lemma LowBits(a: bv32, b: bv32, c: bv32, d: bv32)
    ensures (a & 1) ^ (b & 1) ^ (c & 1) ^ (d & 1) == (a ^ b ^ c ^ d) & 1
  {
  }

  /** The new bit, as the source computes it from four tests. */
  lemma FeedbackFromFlags(key: bv32)
    ensures Flag(key, 0x2) ^ Flag(key, 0x4) ^ Flag(key, 0x800) ^ Flag(key, 0x8000_0000) == Feedback(key)
  {
    hide Flag;
    FlagIsBit(key);
    LowBits(key >> 1, key >> 2, key >> 11, key >> 31);
  }

  lemma StepsNext(key: bv32, n: nat)
    ensures Steps(key, n + 1) == Step(Steps(key, n))
  {
    hide Step;
    StepsSplit(key, n, 1);
  }

  lemma StepFromBit(key: bv32, bit: bv32)
    requires bit == Feedback(key)
    ensures (key << 1) | bit == Step(key)
  {
    hide Feedback;
  }

  /** The inner loop: eight steps. */
  method ShiftEight(start: bv32) returns (key: bv32)
    ensures key == Steps(start, 8)
  {
    hide Step, Feedback, Flag;
    key := start;
    for j := 0 to 8
      invariant key == Steps(start, j)
    {
      var bit := Flag(key, 0x2) ^ Flag(key, 0x4) ^ Flag(key, 0x800) ^ Flag(key, 0x8000_0000);
      FeedbackFromFlags(key);
      StepFromBit(key, bit);
      StepsNext(start, j);
      key := (key << 1) | bit;
    }
  }

  method Checksum(data: array<bv8>) returns (checksum: bv32)
    ensures checksum == Sum(data[..])
  {
    hide Sum, AddByte;
    checksum := 0;
    SumNone(data[..0]);
    for index := 0 to data.Length
      invariant checksum == Sum(data[..index])
    {
      SumNext(data[..], index);
      assert data[..][..index] == data[..index] && data[..][..index + 1] == data[..index + 1];
      checksum := AddByte(checksum, data[index]);
    }
    assert data[..data.Length] == data[..];
  }

  /** The decoder with its early exits: it leaves at once when the check byte is wrong, and checks the
      sum only with the last byte. */
  method DecodeDiehlLfsr(origin: Bytes, frame: Bytes, initialKey: bv32, check: CheckMethod, checkValue: bv32)
    returns (decoded: Bytes)
    requires |origin| >= 10 && |frame| >= 15
    ensures decoded == Decoded(origin, frame, initialKey, check, checkValue)
  {
    hide Steps, Low, Mask, Uint32FromBytes, Sum, Keystream;
    var key := initialKey ^ Uint32FromBytes(origin, 2) ^ Uint32FromBytes(origin, 6) ^ Uint32FromBytes(frame, 10);
    ghost var seed := Seed(origin, frame, initialKey);
    var size := |frame| - 15;
    ghost var plain := Apply(seed, frame[15..]);
    var buf := new bv8[size];
    assert Steps(seed, 0) == seed by { StepsNone(seed); }
    for i := 0 to size
      invariant key == Steps(seed, 8 * i)
      invariant forall k :: 0 <= k < i ==> buf[k] == plain[k]
      invariant 0 < i && check.Header1Byte? ==> Passes(check, plain, checkValue)
      invariant 0 < i == size && check.ChecksumAnd0xEF? ==> Passes(check, plain, checkValue)
    {
      StepsSplit(seed, 8 * i, 8);
      key := ShiftEight(key);
      KeystreamAt(seed, size, i);
      assert 8 * i + 8 == 8 * (i + 1);
      buf[i] := Mask(frame[i + 15], Low(key));
      assert buf[i] == plain[i];
      if check == Header1Byte {
        if buf[0] != 0x4B {
          decoded := [];
          return;
        }
      } else {
        if i == size - 1 {
          var checksum := Checksum(buf);
          assert buf[..] == plain;
          if checksum & 0xEF != checkValue {
            decoded := [];
            return;
          }
        }
      }
    }
    decoded := buf[..];
    assert decoded == plain;
  }

  lemma StepsNone(key: bv32)
    ensures Steps(key, 0) == key
  {
  }

  lemma SumNone(data: Bytes)
    requires data == []
    ensures Sum(data) == 0
  {
  }

  lemma SumNext(data: Bytes, n: nat)
    requires n < |data|
    ensures Sum(data[..n + 1]) == AddByte(Sum(data[..n]), data[n])
  {
    hide AddByte;
    assert data[..n + 1][..n] == data[..n];
  }

  // Key fallback.

  const PRIOS_DEFAULT_KEY1: Bytes := [0x39, 0xBC, 0x8A, 0x10, 0xE6, 0x6D, 0x83, 0xF8]
  const PRIOS_DEFAULT_KEY2: Bytes := [0x51, 0x72, 0x89, 0x10, 0xE6, 0x6D, 0x83, 0xF8]

  /** A custom key replaces the defaults; without one, and with no keys yet, both defaults are tried. */
  function CandidateKeys(confidentialityKey: Bytes, keys: seq<bv32>): seq<bv32>
    requires confidentialityKey == [] || |confidentialityKey| >= 8
  {
    if confidentialityKey != [] then keys + [ConvertKey(confidentialityKey)]
    else if keys != [] then keys
    else [ConvertKey(PRIOS_DEFAULT_KEY1), ConvertKey(PRIOS_DEFAULT_KEY2)]
  }

  method InitializeDefaultKeySupport(confidentialityKey: Bytes, given: seq<bv32>) returns (keys: seq<bv32>)
    requires confidentialityKey == [] || |confidentialityKey| >= 8
    ensures keys == CandidateKeys(confidentialityKey, given)
  {
    hide ConvertKey;
    keys := given;
    if confidentialityKey != [] {
      keys := keys + [ConvertKey(confidentialityKey)];
    }
    if keys == [] {
      keys := keys + [ConvertKey(PRIOS_DEFAULT_KEY1)];
      keys := keys + [ConvertKey(PRIOS_DEFAULT_KEY2)];
    }
  }

  /** What key `key` makes of a real-data frame. */
  function RealData(origin: Bytes, frame: Bytes, key: bv32): Bytes
    requires |origin| >= 10 && |frame| >= 15
  {
    Decoded(origin, frame, key, ChecksumAnd0xEF, (frame[14] & 0xEF) as bv32)
  }

  /** The first key in `keys` that gives a nonempty, checksum-valid decode; none if there is no such key. */
  ghost predicate FirstThatDecodes(origin: Bytes, frame: Bytes, keys: seq<bv32>, i: nat)
    requires |origin| >= 10 && |frame| >= 15
  {
    && i < |keys| && RealData(origin, frame, keys[i]) != []
    && forall j :: 0 <= j < i ==> RealData(origin, frame, keys[j]) == []
  }

  // Frame interpretation.

  datatype Interpretation = NA | REAL_DATA | OMS | PRIOS | SAP_PRIOS | SAP_PRIOS_STD | PRIOS_SCR | RESERVED
  datatype TransformMethod = NONE | SWAPPING | SAP | SAP_STANDARD

  const DME: bv16 := 0x11A5
  const EWT: bv16 := 0x16F4
  const HYD: bv16 := 0x2324
  const SAPPEL: bv16 := 0x4C30
  const SPL: bv16 := 0x4E0C

  function Interpret(c: bv8, m: bv16, ci: bv8, cfgHigh: bv8): Interpretation {
    if m !in {DME, EWT, HYD, SAPPEL, SPL} then NA
    else if c != 0x44 && c != 0x46 then NA
    else if ci == 0x71 then REAL_DATA
    else if ci == 0x7A then (if cfgHigh & 0x10 == 0x10 then REAL_DATA else OMS)
    else if 0xA0 <= ci <= 0xA7 then (if m == SAPPEL then SAP_PRIOS else PRIOS)
    else if ci == 0xB0 then (if m == SAPPEL then SAP_PRIOS_STD else RESERVED)
    else if 0xA8 <= ci <= 0xAF || 0xB4 <= ci <= 0xB7 then RESERVED
    else if 0xB1 <= ci <= 0xB3 then PRIOS_SCR
    else OMS
  }

  function Manufacturer(lo: bv8, hi: bv8): bv16 {
    ((hi as bv16) << 8) | (lo as bv16)
  }

  function InterpretationOf(frame: Bytes): Interpretation {
    if |frame| < 15 then NA
    else Interpret(frame[1], Manufacturer(frame[2], frame[3]), frame[10], frame[14])
  }

  function MethodFor(i: Interpretation): TransformMethod {
    match i
    case PRIOS | PRIOS_SCR | REAL_DATA => SWAPPING
    case SAP_PRIOS => SAP
    case SAP_PRIOS_STD => SAP_STANDARD
    case RESERVED | OMS | NA => NONE
  }

  /** The frame with its address field rewritten. */
  function Transformed(frame: Bytes, how: TransformMethod): (r: Bytes)
    requires |frame| >= 10
    ensures |r| == |frame| && r[..4] == frame[..4] && r[10..] == frame[10..]
  {
    match how
    case SWAPPING =>
      frame[4 := frame[6]][5 := frame[7]][6 := frame[8]][7 := frame[9]][8 := frame[4]][9 := frame[5]]
    case SAP => frame[8 := 0x00][9 := 0x07]
    case _ => frame
  }

  /** Rewriting the address changes no byte that the interpretation depends on. */
  lemma TransformKeepsInterpretation(frame: Bytes, how: TransformMethod)
    requires |frame| >= 10
    ensures InterpretationOf(Transformed(frame, how)) == InterpretationOf(frame)
  {
    hide Interpret, Manufacturer, Transformed;
    var r := Transformed(frame, how);
    if |frame| >= 15 {
      assert r[1] == r[..4][1] && r[2] == r[..4][2] && r[3] == r[..4][3];
      assert r[10] == r[10..][0] && r[14] == r[10..][4];
    }
  }

  /** Swapping is a rotation of the six address bytes: three times is no change. */
  lemma SwappingHasOrderThree(frame: Bytes)
    requires |frame| >= 10
    ensures Transformed(Transformed(Transformed(frame, SWAPPING), SWAPPING), SWAPPING) == frame
  {
  }

  /** A frame of which bytes 6 and up have moved two places down, to `i`. */
  function MovedDown(f: Bytes, i: nat): (r: Bytes)
    requires 4 <= i <= 8 && |f| >= 10
    ensures |r| == |f|
  {
    f[..4] + f[6 .. i + 2] + f[i..]
  }

  lemma MovedDownStart(f: Bytes)
    requires |f| >= 10
    ensures MovedDown(f, 4) == f
  {
  }

  lemma MovedDownNext(f: Bytes, i: nat)
    requires 4 <= i < 8 && |f| >= 10
    ensures MovedDown(f, i)[i := MovedDown(f, i)[i + 2]] == MovedDown(f, i + 1)
  {
  }

  lemma MovedDownEnd(f: Bytes)
    requires |f| >= 10
    ensures MovedDown(f, 8)[8 := f[4]][9 := f[5]] == Transformed(f, SWAPPING)
  {
    var s := MovedDown(f, 8);
    assert s[4] == f[6] && s[5] == f[7] && s[6] == f[8] && s[7] == f[9];
  }

  /** The fields of a telegram that these operations use. */
  class Telegram {
    var frame: Bytes
    var original: Bytes

    ghost predicate Valid()
      reads this
    {
      original == [] || |original| >= 10
    }

    ghost function Origin(): Bytes
      reads this
    {
      if original == [] then frame else original
    }

    constructor (bytes: Bytes)
      ensures Valid() && frame == bytes && original == []
    {
      frame, original := bytes, [];
    }

    method TransformDiehlAddress(how: TransformMethod)
      requires how != NONE ==> |frame| >= 10
      modifies this`frame
      ensures frame == if how == NONE then old(frame) else Transformed(old(frame), how)
    {
      if how == SWAPPING {
        hide MovedDown, Transformed;
        ghost var f := frame;
        MovedDownStart(f);
        var version := frame[4];
        var type_ := frame[5];
        for i := 4 to 8
          invariant frame == MovedDown(f, i)
        {
          MovedDownNext(f, i);
          frame := frame[i := frame[i + 2]];
        }
        MovedDownEnd(f);
        frame := frame[8 := version];
        frame := frame[9 := type_];
      } else if how == SAP {
        frame := frame[8 := 0x00];
        frame := frame[9 := 0x07];
      }
    }

    /** Keeps the first ten bytes before rewriting the address. */
    method PreProcess()
      requires Valid() && original == []
      modifies this
      ensures Valid()
      ensures frame == Rewritten(old(frame))
      ensures original == if MethodFor(InterpretationOf(frame)) == NONE then [] else old(frame)[..10]
    {
      hide Interpret;
      var how := MethodFor(InterpretationOf(frame));
      if how != NONE {
        original := frame[..10];
        TransformKeepsInterpretation(frame, how);
        TransformDiehlAddress(how);
      }
    }

    /** Tries the candidate keys in order; on success the payload from `pos` on is replaced. */
    method DecryptRealData(pos: nat, confidentialityKey: Bytes) returns (ok: bool)
      requires Valid() && |frame| >= 15 && pos <= |frame|
      requires confidentialityKey == [] || |confidentialityKey| >= 8
      modifies this`frame
      ensures var keys := CandidateKeys(confidentialityKey, []);
              && (ok <==> exists i :: 0 <= i < |keys| && RealData(old(Origin()), old(frame), keys[i]) != [])
              && (forall i: nat :: FirstThatDecodes(old(Origin()), old(frame), keys, i) ==>
                    frame == old(frame)[..pos] + RealData(old(Origin()), old(frame), keys[i]))
              && (!ok ==> frame == old(frame))
    {
      hide Decoded, CandidateKeys;
      var keys := InitializeDefaultKeySupport(confidentialityKey, []);
      var decoded: Bytes := [];
      var i := 0;
      while i < |keys|
        invariant 0 <= i <= |keys| && decoded == [] && frame == old(frame)
        invariant forall j :: 0 <= j < i ==> RealData(Origin(), frame, keys[j]) == []
      {
        decoded := DecodeDiehlLfsr(if original == [] then frame else original, frame, keys[i], ChecksumAnd0xEF,
            (frame[14] & 0xEF) as bv32);
        assert decoded == RealData(Origin(), frame, keys[i]);
        if decoded != [] {
          break;
        }
        i := i + 1;
      }
      if decoded == [] {
        return false;
      }
      frame := frame[..pos];
      frame := frame + decoded;
      return true;
    }
  }

  // The operations together.

  /** The kept bytes make the decoder work as if the address had never been rewritten. */
  lemma PreProcessKeepsDecode(frame: Bytes, how: TransformMethod, key: bv32)
    requires |frame| >= 15
    ensures RealData(frame[..10], Transformed(frame, how), key) == RealData(frame, frame, key)
  {
    hide Transformed, Apply, Passes, Seed;
    var r := Transformed(frame, how);
    assert r[15..] == r[10..][5..] == frame[15..];
    assert r[10..][4] == r[14] && frame[10..][4] == frame[14];
    SeedKept(frame, how, key);
  }

  lemma SeedKept(frame: Bytes, how: TransformMethod, key: bv32)
    requires |frame| >= 15
    ensures Seed(frame[..10], Transformed(frame, how), key) == Seed(frame, frame, key)
  {
    hide Transformed, Uint32FromBytes, Stirred;
    var r := Transformed(frame, how);
    SameUint32(frame[..10], 2, frame, 2);
    SameUint32(frame[..10], 6, frame, 6);
    SameUint32(r, 10, r[10..], 0);
    SameUint32(frame, 10, frame[10..], 0);
  }

  lemma SameUint32(a: Bytes, i: nat, b: Bytes, j: nat)
    requires i + 4 <= |a| && j + 4 <= |b|
    requires a[i] == b[j] && a[i + 1] == b[j + 1] && a[i + 2] == b[j + 2] && a[i + 3] == b[j + 3]
    ensures Uint32FromBytes(a, i) == Uint32FromBytes(b, j)
  {
    hide FourBytes;
  }

  /** The frame as pre-processing leaves it. */
  function Rewritten(frame: Bytes): Bytes {
    var how := MethodFor(InterpretationOf(frame));
    if how == NONE then frame else Transformed(frame, how)
  }

  /** How far these operations take a frame: thrown away, its payload decoded or not, taken for plain because it is
      simulated, or left to the other layers. */
  datatype Reception = Rejected | Decrypted | DecryptionFailed | TakenForPlain | PassedOn

  const CI_71: bv8 := 0x71
  const CI_7A: bv8 := 0x7A

  /** A frame with fewer bytes than its first byte announces. */
  predicate CutShort(bytes: Bytes) {
    |bytes| == 0 || |bytes| < bytes[0] as int
  }

  /** The five mode bits of the configuration field name a security mode of 16 or more. */
  predicate ManufacturerMode(cfgHigh: bv8) {
    cfgHigh & 0x1f >= 16
  }

  /** Only two fields lead to real data, and with the second the mode bits always ask for decryption. */
  lemma RealDataFields(bytes: Bytes)
    requires InterpretationOf(bytes) == REAL_DATA
    ensures |bytes| >= 15 && bytes[10] in {CI_71, CI_7A}
    ensures bytes[10] == CI_7A ==> ManufacturerMode(bytes[14])
    ensures Rewritten(bytes) == Transformed(bytes, SWAPPING)
  {
    hide Transformed, Manufacturer;
  }

  lemma RewrittenKeeps(bytes: Bytes)
    ensures |Rewritten(bytes)| == |bytes| && InterpretationOf(Rewritten(bytes)) == InterpretationOf(bytes)
    ensures bytes != [] ==> Rewritten(bytes)[0] == bytes[0]
    ensures |bytes| > 10 ==> Rewritten(bytes)[10] == bytes[10]
    ensures |bytes| >= 15 ==> Rewritten(bytes)[14] == bytes[14]
  {
    hide Transformed, Interpret;
    var how := MethodFor(InterpretationOf(bytes));
    if how != NONE {
      TransformKeepsInterpretation(bytes, how);
      var r := Transformed(bytes, how);
      assert r[0] == r[..4][0] && r[10] == r[10..][0] && r[14] == r[10..][4];
    }
  }

  /** A received frame, from its first byte: the address is rewritten. A frame that is cut short is thrown away, and
      so is one with nothing behind its address, and one with control information 0x71, which the transport layer does
      not know. A frame with 0x7A that carries real data is decoded with the first candidate key that fits the frame as
      it was received. */
  method Receive(bytes: Bytes, confidentialityKey: Bytes, simulated: bool) returns (t: Telegram, r: Reception)
    requires confidentialityKey == [] || |confidentialityKey| >= 8
    ensures r == Rejected <==> CutShort(bytes) || |bytes| <= 10 || bytes[10] == CI_71
    ensures r == PassedOn <==> r != Rejected && InterpretationOf(bytes) != REAL_DATA
    ensures r != Decrypted ==> t.frame == Rewritten(bytes)
    ensures InterpretationOf(bytes) == REAL_DATA && r != Rejected ==>
              var keys := CandidateKeys(confidentialityKey, []);
              && |bytes| >= 15 && bytes[10] == CI_7A
              && (r == Decrypted <==> exists i :: 0 <= i < |keys| && RealData(bytes, bytes, keys[i]) != [])
              && (forall i: nat :: FirstThatDecodes(bytes, bytes, keys, i) ==>
                    t.frame == Transformed(bytes, SWAPPING)[..15] + RealData(bytes, bytes, keys[i]))
              && (r != Decrypted ==> r == if simulated then TakenForPlain else DecryptionFailed)
  {
    hide RealData, CandidateKeys, Interpret, Transformed, ManufacturerMode;
    t := new Telegram(bytes);
    t.PreProcess();
    RewrittenKeeps(bytes);
    if InterpretationOf(bytes) == REAL_DATA {
      RealDataFields(bytes);
    }
    if |t.frame| == 0 || |t.frame| < t.frame[0] as int {
      return t, Rejected;
    }
    if |t.frame| <= 10 {
      return t, Rejected;
    }
    if t.frame[10] == CI_71 {
      return t, Rejected;
    }
    if |t.frame| >= 15 {
      if t.frame[10] == CI_7A && ManufacturerMode(t.frame[14]) && InterpretationOf(t.frame) == REAL_DATA {
        var ok := DecryptReceived(t, bytes, confidentialityKey);
        r := if ok then Decrypted else if simulated then TakenForPlain else DecryptionFailed;
        return;
      }
    }
    r := PassedOn;
  }

  method DecryptReceived(t: Telegram, ghost bytes: Bytes, confidentialityKey: Bytes) returns (ok: bool)
    requires t.Valid() && |bytes| >= 15 && t.frame == Transformed(bytes, SWAPPING) && t.original == bytes[..10]
    requires confidentialityKey == [] || |confidentialityKey| >= 8
    modifies t`frame
    ensures var keys := CandidateKeys(confidentialityKey, []);
            && (ok <==> exists i :: 0 <= i < |keys| && RealData(bytes, bytes, keys[i]) != [])
            && (forall i: nat :: FirstThatDecodes(bytes, bytes, keys, i) ==>
                  t.frame == Transformed(bytes, SWAPPING)[..15] + RealData(bytes, bytes, keys[i]))
            && (!ok ==> t.frame == Transformed(bytes, SWAPPING))
  {
    hide RealData, CandidateKeys, Transformed;
    ghost var keys := CandidateKeys(confidentialityKey, []);
    forall i | 0 <= i < |keys|
      ensures RealData(bytes[..10], Transformed(bytes, SWAPPING), keys[i]) == RealData(bytes, bytes, keys[i])
    {
      PreProcessKeepsDecode(bytes, SWAPPING, keys[i]);
    }
    ghost var before := t.frame;
    ok := t.DecryptRealData(15, confidentialityKey);
    forall i: nat | FirstThatDecodes(bytes, bytes, keys, i)
      ensures t.frame == before[..15] + RealData(bytes, bytes, keys[i])
    {
      assert FirstThatDecodes(bytes[..10], before, keys, i);
    }
  }

  /** The frame a meter sends: a header whose last byte carries the checksum, and the masked payload. */
  function Encoded(header: Bytes, key: bv32, payload: Bytes): Bytes
    requires |header| == 15
  {
    header + Apply(Seed(header, header, key), payload)
  }

  /** Decoding an encoded frame with its own key gives the payload back. */
  lemma RealDataOfEncoded(header: Bytes, key: bv32, payload: Bytes)
    requires |header| == 15 && payload != [] && Sum(payload) & 0xEF == (header[14] & 0xEF) as bv32
    ensures RealData(Encoded(header, key, payload), Encoded(header, key, payload), key) == payload
  {
    hide Apply, Sum, FourBytes;
    var seed := Seed(header, header, key);
    var frame := Encoded(header, key, payload);
    assert Seed(frame, frame, key) == seed;
    assert frame[15..] == Apply(seed, payload);
    ApplyTwice(seed, payload);
  }

  /** What a meter encodes is decoded by whoever holds its key, and no default key is tried then. Without a key, what
      is encoded under a default key is decoded, as the second one unless the first fits too. */
  lemma EncodedIsDecoded(header: Bytes, confidentialityKey: Bytes, payload: Bytes)
    requires |header| == 15 && payload != [] && Sum(payload) & 0xEF == (header[14] & 0xEF) as bv32
    requires confidentialityKey == [] || |confidentialityKey| >= 8
    ensures var keys := CandidateKeys(confidentialityKey, []);
            if confidentialityKey != [] then
              var frame := Encoded(header, ConvertKey(confidentialityKey), payload);
              && |keys| == 1 && FirstThatDecodes(frame, frame, keys, 0) && RealData(frame, frame, keys[0]) == payload
            else
              var first := Encoded(header, ConvertKey(PRIOS_DEFAULT_KEY1), payload);
              var second := Encoded(header, ConvertKey(PRIOS_DEFAULT_KEY2), payload);
              && |keys| == 2
              && FirstThatDecodes(first, first, keys, 0) && RealData(first, first, keys[0]) == payload
              && FirstThatDecodes(second, second, keys, if RealData(second, second, keys[0]) == [] then 1 else 0)
              && RealData(second, second, keys[1]) == payload
  {
    hide RealData, ConvertKey, Sum;
    if confidentialityKey != [] {
      RealDataOfEncoded(header, ConvertKey(confidentialityKey), payload);
    } else {
      RealDataOfEncoded(header, ConvertKey(PRIOS_DEFAULT_KEY1), payload);
      RealDataOfEncoded(header, ConvertKey(PRIOS_DEFAULT_KEY2), payload);
    }
  }
}
