/** The Diehl decoder and frame rewriting in literal terms: every header byte matters to the keystream, the
    rewriting byte by byte, and a telegram for each default key, from simulations/simulation_izars.txt and
    simulations/simulation_t1.txt. */
module DiehlKnown {
  import opened DiehlLfsr
  import opened Diehl

  // The seed.

  lemma BytesDiffer(a0: bv8, a1: bv8, a2: bv8, a3: bv8, b0: bv8, b1: bv8, b2: bv8, b3: bv8)
    ensures FourBytes(a0, a1, a2, a3) == FourBytes(b0, b1, b2, b3) <==> a0 == b0 && a1 == b1 && a2 == b2 && a3 == b3
  {
  }

  lemma WordsDiffer(f: Bytes, g: Bytes, at: nat)
    requires at + 4 <= |f| == |g|
    ensures Uint32FromBytes(f, at) == Uint32FromBytes(g, at) <==> f[at .. at + 4] == g[at .. at + 4]
  {
    hide FourBytes;
    BytesDiffer(f[at], f[at + 1], f[at + 2], f[at + 3], g[at], g[at + 1], g[at + 2], g[at + 3]);
    var u, v := f[at .. at + 4], g[at .. at + 4];
    assert u[0] == f[at] && u[1] == f[at + 1] && u[2] == f[at + 2] && u[3] == f[at + 3];
    assert v[0] == g[at] && v[1] == g[at + 1] && v[2] == g[at + 2] && v[3] == g[at + 3];
  }

  lemma KeyStirred(k: bv32, l: bv32, a: bv32, b: bv32, c: bv32)
    ensures Stirred(k, a, b, c) == Stirred(l, a, b, c) <==> k == l
  {
  }

  lemma FirstStirred(key: bv32, a: bv32, b: bv32, c: bv32, d: bv32)
    ensures Stirred(key, a, b, c) == Stirred(key, d, b, c) <==> a == d
  {
  }

  lemma SecondStirred(key: bv32, a: bv32, b: bv32, c: bv32, d: bv32)
    ensures Stirred(key, a, b, c) == Stirred(key, a, d, c) <==> b == d
  {
  }

  lemma ThirdStirred(key: bv32, a: bv32, b: bv32, c: bv32, d: bv32)
    ensures Stirred(key, a, b, c) == Stirred(key, a, b, d) <==> c == d
  {
  }

  /** The two frames agree up to byte 14, except in the four bytes at `at`. */
  ghost predicate DifferAt(f: Bytes, g: Bytes, at: nat) {
    && 14 <= |f| == |g| && at in {2, 6, 10} && f[at .. at + 4] != g[at .. at + 4]
    && (at != 2 ==> f[2..6] == g[2..6]) && (at != 6 ==> f[6..10] == g[6..10]) && (at != 10 ==> f[10..14] == g[10..14])
  }

  lemma SeedsDiffer(f: Bytes, g: Bytes, key: bv32, at: nat)
    requires DifferAt(f, g, at)
    ensures Seed(f, f, key) != Seed(g, g, key)
  {
    hide Uint32FromBytes, Stirred;
    WordsDiffer(f, g, 2);
    WordsDiffer(f, g, 6);
    WordsDiffer(f, g, 10);
    var a, b, c := Uint32FromBytes(f, 2), Uint32FromBytes(f, 6), Uint32FromBytes(f, 10);
    var d := Uint32FromBytes(g, at);
    FirstStirred(key, a, b, c, d);
    SecondStirred(key, a, b, c, d);
    ThirdStirred(key, a, b, c, d);
  }

  lemma AppliesDiffer(k: bv32, l: bv32, data: Bytes)
    requires k != l && |data| >= 4
    ensures Apply(k, data) != Apply(l, data)
  {
    hide Keystream, Mask;
    var n := |data|;
    if Apply(k, data) == Apply(l, data) {
      forall i | 0 <= i < n
        ensures Keystream(k, n)[i] == Keystream(l, n)[i]
      {
        assert Apply(k, data)[i] == Apply(l, data)[i];
        MaskCancels(data[i], Keystream(k, n)[i], Keystream(l, n)[i]);
      }
      assert Keystream(k, n) == Keystream(l, n);
      KeystreamDeterminesKey(k, l, n);
    }
  }

  lemma MaskCancels(b: bv8, k: bv8, l: bv8)
    ensures Mask(b, k) == Mask(b, l) <==> k == l
  {
  }

  /** What the decoder makes of a frame, before any check. */
  function Unchecked(frame: Bytes, key: bv32): Bytes
    requires |frame| >= 15
  {
    Apply(Seed(frame, frame, key), frame[15..])
  }

  /** Every header byte from the third to the fourteenth matters: change one of them and nothing else, and a
      payload of four bytes or more is decoded differently. */
  lemma HeaderBytesMatter(f: Bytes, g: Bytes, key: bv32, j: nat)
    requires 19 <= |f| == |g| && 2 <= j < 14 && f[j] != g[j]
    requires forall i :: 0 <= i < |f| && i != j ==> f[i] == g[i]
    ensures Unchecked(f, key) != Unchecked(g, key)
  {
    hide Seed, Apply;
    var at := if j < 6 then 2 else if j < 10 then 6 else 10;
    assert f[at .. at + 4][j - at] != g[at .. at + 4][j - at];
    assert at != 2 ==> f[2..6] == g[2..6];
    assert at != 6 ==> f[6..10] == g[6..10];
    assert at != 10 ==> f[10..14] == g[10..14];
    SeedsDiffer(f, g, key, at);
    assert f[15..] == g[15..];
    AppliesDiffer(Seed(f, f, key), Seed(g, g, key), f[15..]);
  }

  /** So does every bit of the key. */
  lemma KeyMatters(f: Bytes, k: bv32, l: bv32)
    requires |f| >= 19 && k != l
    ensures Unchecked(f, k) != Unchecked(f, l)
  {
    hide Uint32FromBytes, Apply, Stirred;
    KeyStirred(k, l, Uint32FromBytes(f, 2), Uint32FromBytes(f, 6), Uint32FromBytes(f, 10));
    AppliesDiffer(Seed(f, f, k), Seed(f, f, l), f[15..]);
  }

  // Two telegrams.

  lemma PlainByte(seed: bv32, data: Bytes, i: nat, before: bv32, after: bv32, c: bv8, p: bv8)
    requires i < |data| && data[i] == c && Steps(seed, 8 * i) == before && Steps(before, 8) == after
    requires Mask(c, Low(after)) == p
    ensures Apply(seed, data)[i] == p && Steps(seed, 8 * (i + 1)) == after
  {
    hide Mask, Low, Keystream, Steps;
    StepsSplit(seed, 8 * i, 8);
    assert 8 * i + 8 == 8 * (i + 1);
    KeystreamAt(seed, |data|, i);
  }

  const IZAR: Bytes := [0x19, 0x44, 0x30, 0x4c, 0x72, 0x24, 0x24, 0x21, 0xd4, 0x01, 0xa2, 0x01, 0x3d,
                          0x40, 0x13, 0xdd, 0x8b, 0x46, 0xa4, 0x99, 0x9c, 0x12, 0x93, 0xe5, 0x82, 0xcc]

  lemma IzarSeed()
    ensures Seed(IZAR, IZAR, ConvertKey(PRIOS_DEFAULT_KEY1)) == 0x69bd928d
  {
    assert ConvertKey(PRIOS_DEFAULT_KEY1) == 0xdfd109e8;
    assert Uint32FromBytes(IZAR, 2) == 0x304c7224;
    assert Uint32FromBytes(IZAR, 6) == 0x2421d401;
    assert Uint32FromBytes(IZAR, 10) == 0xa2013d40;
  }

  lemma IzarRegisters()
    ensures Steps(0x69bd928d, 8) == 0xbd928d96
    ensures Steps(0xbd928d96, 8) == 0x928d962b
    ensures Steps(0x928d962b, 8) == 0x8d962b4b
    ensures Steps(0x8d962b4b, 8) == 0x962b4ba4
    ensures Steps(0x962b4ba4, 8) == 0x2b4ba499
    ensures Steps(0x2b4ba499, 8) == 0x4ba49902
    ensures Steps(0x4ba49902, 8) == 0xa499021f
    ensures Steps(0xa499021f, 8) == 0x99021f93
    ensures Steps(0x99021f93, 8) == 0x021f93e5
    ensures Steps(0x021f93e5, 8) == 0x1f93e5fc
    ensures Steps(0x1f93e5fc, 8) == 0x93e5fce5
  {
    hide Steps;
    Steps8(0x69bd928d);
    Steps8(0xbd928d96);
    Steps8(0x928d962b);
    Steps8(0x8d962b4b);
    Steps8(0x962b4ba4);
    Steps8(0x2b4ba499);
    Steps8(0x4ba49902);
    Steps8(0xa499021f);
    Steps8(0x99021f93);
    Steps8(0x021f93e5);
    Steps8(0x1f93e5fc);
  }

  lemma IzarPlain(data: Bytes)
    requires data == IZAR[15..]
    ensures Apply(0x69bd928d, data) == [0x4b, 0xa0, 0x0d, 0x00, 0x00, 0x9e, 0x0d, 0x00, 0x00, 0x7e, 0x29]
  {
    hide Steps, Apply;
    IzarRegisters();
    StepsNone(0x69bd928d);
    PlainByte(0x69bd928d, data, 0, 0x69bd928d, 0xbd928d96, 0xdd, 0x4b);
    PlainByte(0x69bd928d, data, 1, 0xbd928d96, 0x928d962b, 0x8b, 0xa0);
    PlainByte(0x69bd928d, data, 2, 0x928d962b, 0x8d962b4b, 0x46, 0x0d);
    PlainByte(0x69bd928d, data, 3, 0x8d962b4b, 0x962b4ba4, 0xa4, 0x00);
    PlainByte(0x69bd928d, data, 4, 0x962b4ba4, 0x2b4ba499, 0x99, 0x00);
    PlainByte(0x69bd928d, data, 5, 0x2b4ba499, 0x4ba49902, 0x9c, 0x9e);
    PlainByte(0x69bd928d, data, 6, 0x4ba49902, 0xa499021f, 0x12, 0x0d);
    PlainByte(0x69bd928d, data, 7, 0xa499021f, 0x99021f93, 0x93, 0x00);
    PlainByte(0x69bd928d, data, 8, 0x99021f93, 0x021f93e5, 0xe5, 0x00);
    PlainByte(0x69bd928d, data, 9, 0x021f93e5, 0x1f93e5fc, 0x82, 0x7e);
    PlainByte(0x69bd928d, data, 10, 0x1f93e5fc, 0x93e5fce5, 0xcc, 0x29);
  }

  /** With the first default key: a water meter at 3488 litres, which had 3486 at the end of the month. */
  lemma IzarTelegram()
    ensures
      Decoded(IZAR, IZAR, ConvertKey(PRIOS_DEFAULT_KEY1), Header1Byte, 0)
      == [0x4b, 0xa0, 0x0d, 0x00, 0x00, 0x9e, 0x0d, 0x00, 0x00, 0x7e, 0x29]
  {
    hide Apply, Seed, ConvertKey;
    IzarSeed();
    IzarPlain(IZAR[15..]);
  }

  const HYDRUS: Bytes := [0x19, 0x44, 0x24, 0x23, 0x85, 0x07, 0x98, 0x16, 0x00, 0x18, 0xa2, 0x41, 0x01,
                            0x00, 0x13, 0x3e, 0xbb, 0xd4, 0x40, 0x81, 0x05, 0x3f, 0x24, 0x3a, 0x82, 0xa3]

  lemma HydrusSeed()
    ensures Seed(HYDRUS, HYDRUS, ConvertKey(PRIOS_DEFAULT_KEY2)) == 0xa96b8ef7
  {
    assert ConvertKey(PRIOS_DEFAULT_KEY2) == 0xb71f0ae8;
    assert Uint32FromBytes(HYDRUS, 2) == 0x24238507;
    assert Uint32FromBytes(HYDRUS, 6) == 0x98160018;
    assert Uint32FromBytes(HYDRUS, 10) == 0xa2410100;
  }

  lemma HydrusRegisters()
    ensures Steps(0xa96b8ef7, 8) == 0x6b8ef775
    ensures Steps(0x6b8ef775, 8) == 0x8ef775d2
    ensures Steps(0x8ef775d2, 8) == 0xf775d214
    ensures Steps(0xf775d214, 8) == 0x75d2144c
    ensures Steps(0x75d2144c, 8) == 0xd2144c81
    ensures Steps(0xd2144c81, 8) == 0x144c816c
    ensures Steps(0x144c816c, 8) == 0x4c816cbb
    ensures Steps(0x4c816cbb, 8) == 0x816cbb28
    ensures Steps(0x816cbb28, 8) == 0x6cbb283a
    ensures Steps(0x6cbb283a, 8) == 0xbb283a23
    ensures Steps(0xbb283a23, 8) == 0x283a238a
  {
    hide Steps;
    Steps8(0xa96b8ef7);
    Steps8(0x6b8ef775);
    Steps8(0x8ef775d2);
    Steps8(0xf775d214);
    Steps8(0x75d2144c);
    Steps8(0xd2144c81);
    Steps8(0x144c816c);
    Steps8(0x4c816cbb);
    Steps8(0x816cbb28);
    Steps8(0x6cbb283a);
    Steps8(0xbb283a23);
  }

  lemma HydrusPlain(data: Bytes)
    requires data == HYDRUS[15..]
    ensures Apply(0xa96b8ef7, data) == [0x4b, 0x69, 0xc0, 0x0c, 0x00, 0x69, 0x84, 0x0c, 0x00, 0xa1, 0x29]
  {
    hide Steps, Apply;
    HydrusRegisters();
    StepsNone(0xa96b8ef7);
    PlainByte(0xa96b8ef7, data, 0, 0xa96b8ef7, 0x6b8ef775, 0x3e, 0x4b);
    PlainByte(0xa96b8ef7, data, 1, 0x6b8ef775, 0x8ef775d2, 0xbb, 0x69);
    PlainByte(0xa96b8ef7, data, 2, 0x8ef775d2, 0xf775d214, 0xd4, 0xc0);
    PlainByte(0xa96b8ef7, data, 3, 0xf775d214, 0x75d2144c, 0x40, 0x0c);
    PlainByte(0xa96b8ef7, data, 4, 0x75d2144c, 0xd2144c81, 0x81, 0x00);
    PlainByte(0xa96b8ef7, data, 5, 0xd2144c81, 0x144c816c, 0x05, 0x69);
    PlainByte(0xa96b8ef7, data, 6, 0x144c816c, 0x4c816cbb, 0x3f, 0x84);
    PlainByte(0xa96b8ef7, data, 7, 0x4c816cbb, 0x816cbb28, 0x24, 0x0c);
    PlainByte(0xa96b8ef7, data, 8, 0x816cbb28, 0x6cbb283a, 0x3a, 0x00);
    PlainByte(0xa96b8ef7, data, 9, 0x6cbb283a, 0xbb283a23, 0x82, 0xa1);
    PlainByte(0xa96b8ef7, data, 10, 0xbb283a23, 0x283a238a, 0xa3, 0x29);
  }

  /** With the second default key: a water meter at 835689 litres. */
  lemma HydrusTelegram()
    ensures
      Decoded(HYDRUS, HYDRUS, ConvertKey(PRIOS_DEFAULT_KEY2), Header1Byte, 0)
      == [0x4b, 0x69, 0xc0, 0x0c, 0x00, 0x69, 0x84, 0x0c, 0x00, 0xa1, 0x29]
  {
    hide Apply, Seed, ConvertKey;
    HydrusSeed();
    HydrusPlain(HYDRUS[15..]);
  }

  /** The checksum adds the bytes, and the fifth bit of the sum is left out of the comparison. */
  lemma ChecksumExample()
    ensures Passes(ChecksumAnd0xEF, [0xff, 0x20, 0x14], 0x23) && Passes(ChecksumAnd0xEF, [0x10], 0x00)
    ensures !Passes(ChecksumAnd0xEF, [0x20], 0x00) && !Passes(ChecksumAnd0xEF, [], 0x00)
    ensures Passes(Header1Byte, [0x4b], 0x00) && !Passes(Header1Byte, [0x4a], 0x00)
  {
    SumNext([0x10], 0);
    SumNext([0x20], 0);
    SumNext([0xff, 0x20, 0x14], 0);
    SumNext([0xff, 0x20, 0x14], 1);
    SumNext([0xff, 0x20, 0x14], 2);
    assert [0xff, 0x20, 0x14][..3] == [0xff, 0x20, 0x14];
    assert [0x10][..1] == [0x10] && [0x20][..1] == [0x20];
  }

  // Rewriting.

  /** A frame of one of the five manufacturers, with a control field of its devices. */
  predicate IsDiehl(frame: Bytes) {
    && |frame| >= 15 && (frame[1] == 0x44 || frame[1] == 0x46)
    && (|| (frame[2] == 0xa5 && frame[3] == 0x11) || (frame[2] == 0xf4 && frame[3] == 0x16)
        || (frame[2] == 0x24 && frame[3] == 0x23) || (frame[2] == 0x30 && frame[3] == 0x4c)
        || (frame[2] == 0x0c && frame[3] == 0x4e))
  }

  lemma ManufacturerIs(lo: bv8, hi: bv8)
    ensures Manufacturer(lo, hi) == DME <==> lo == 0xa5 && hi == 0x11
    ensures Manufacturer(lo, hi) == EWT <==> lo == 0xf4 && hi == 0x16
    ensures Manufacturer(lo, hi) == HYD <==> lo == 0x24 && hi == 0x23
    ensures Manufacturer(lo, hi) == SAPPEL <==> lo == 0x30 && hi == 0x4c
    ensures Manufacturer(lo, hi) == SPL <==> lo == 0x0c && hi == 0x4e
  {
  }

  /** Which frames hold real data, in their bytes. */
  lemma RealDataIff(frame: Bytes)
    ensures InterpretationOf(frame) == REAL_DATA <==>
            IsDiehl(frame) && (frame[10] == 0x71 || (frame[10] == 0x7a && frame[14] & 0x10 == 0x10))
  {
    hide Manufacturer;
    if |frame| >= 15 {
      ManufacturerIs(frame[2], frame[3]);
    }
  }

  /** The frame after pre-processing, byte by byte: of a water meter of one manufacturer the version and type are
      set, in other frames they are moved behind the number, and all other frames are left alone. */
  lemma RewrittenBytes(frame: Bytes)
    ensures
      Rewritten(frame) ==
      if !IsDiehl(frame) then frame
      else
        var ci := frame[10];
        if frame[2] == 0x30 && frame[3] == 0x4c && 0xa0 <= ci <= 0xa7 then frame[..8] + [0x00, 0x07] + frame[10..]
        else if
          || ci == 0x71 || (ci == 0x7a && frame[14] & 0x10 == 0x10) || 0xa0 <= ci <= 0xa7 || 0xb1 <= ci <= 0xb3
        then frame[..4] + frame[6..10] + frame[4..6] + frame[10..]
        else frame
  {
    hide Manufacturer, Transformed;
    if |frame| >= 15 {
      ManufacturerIs(frame[2], frame[3]);
      TransformedBytes(frame);
    }
  }

  lemma TransformedBytes(frame: Bytes)
    requires |frame| >= 10
    ensures Transformed(frame, SWAPPING) == frame[..4] + frame[6..10] + frame[4..6] + frame[10..]
    ensures Transformed(frame, SAP) == frame[..8] + [0x00, 0x07] + frame[10..]
    ensures Transformed(frame, SAP_STANDARD) == frame
  {
  }
}
