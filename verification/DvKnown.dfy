/** The formats that are known before any full frame has come in. */
module DvKnown {
  import opened Wrappers
  import opened DvSpec
  import opened DvCache

  function KnownFormat(signature: Signature): Option<Bytes> {
    if signature == 0xA8ED then Some([0x02, 0xff, 0x20, 0x04, 0x13, 0x44, 0x13, 0x61, 0x5b, 0x61, 0x67])
    else if signature == 0xC412
        then Some([0x02, 0xff, 0x20, 0x04, 0x13, 0x92, 0x01, 0x3b, 0xa1, 0x01, 0x5b, 0x81, 0x01, 0xe7, 0xff, 0x0f])
    else if signature == 0x61EB
        then Some([0x02, 0xff, 0x20, 0x04, 0x13, 0x44, 0x13, 0xa1, 0x01, 0x5b, 0x81, 0x01, 0xe7, 0xff, 0x0f])
    else if signature == 0xD2F7 then Some([0x02, 0xff, 0x20, 0x04, 0x13, 0x44, 0x13, 0x61, 0x5b, 0x51, 0x67])
    else if signature == 0xDD34 then Some([0x02, 0xff, 0x20, 0x04, 0x13, 0x44, 0x13])
    else None
  }

  lemma CrcAt(bytes: Bytes, i: nat, b: bv8, crc: bv16, next: bv16)
    requires i < |bytes| && bytes[i] == b as int && CrcBits(crc, b, 8) == next
    ensures CrcBytes(crc, bytes[i..]) == CrcBytes(next, bytes[i + 1..])
  {
    hide CrcBits;
    assert bytes[i..][1..] == bytes[i + 1..];
  }

  lemma CrcStart(bytes: Bytes, i: nat)
    requires i + 5 <= |bytes| && bytes[i] == 0x02 && bytes[i + 1] == 0xff && bytes[i + 2] == 0x20
        && bytes[i + 3] == 0x04 && bytes[i + 4] == 0x13
    ensures CrcBytes(0x0000, bytes[i..]) == CrcBytes(0xff44, bytes[i + 5..])
  {
    hide CrcBytes;
    CrcAt(bytes, i, 0x02, 0x0000, 0x7aca);
    CrcAt(bytes, i + 1, 0xff, 0x7aca, 0x789d);
    CrcAt(bytes, i + 2, 0x20, 0x789d, 0xe784);
    CrcAt(bytes, i + 3, 0x04, 0xe784, 0x9a6e);
    CrcAt(bytes, i + 4, 0x13, 0x9a6e, 0xff44);
  }

  lemma CrcVolumes(bytes: Bytes, i: nat)
    requires i + 2 <= |bytes| && bytes[i] == 0x44 && bytes[i + 1] == 0x13
    ensures CrcBytes(0xff44, bytes[i..]) == CrcBytes(0x22cb, bytes[i + 2..])
  {
    hide CrcBytes;
    CrcAt(bytes, i, 0x44, 0xff44, 0x20ea);
    CrcAt(bytes, i + 1, 0x13, 0x20ea, 0x22cb);
  }

  lemma CrcTemperatures(bytes: Bytes, i: nat)
    requires i + 2 <= |bytes| && bytes[i] == 0x61 && bytes[i + 1] == 0x5b
    ensures CrcBytes(0x22cb, bytes[i..]) == CrcBytes(0x6c46, bytes[i + 2..])
  {
    hide CrcBytes;
    CrcAt(bytes, i, 0x61, 0x22cb, 0xb199);
    CrcAt(bytes, i + 1, 0x5b, 0xb199, 0x6c46);
  }

  lemma CrcEndA8ED(bytes: Bytes, i: nat)
    requires i + 2 <= |bytes| && bytes[i] == 0x61 && bytes[i + 1] == 0x67
    ensures CrcBytes(0x6c46, bytes[i..]) == CrcBytes(0x5712, bytes[i + 2..])
  {
    hide CrcBytes;
    CrcAt(bytes, i, 0x61, 0x6c46, 0x58bc);
    CrcAt(bytes, i + 1, 0x67, 0x58bc, 0x5712);
  }

  lemma CrcEndD2F7(bytes: Bytes, i: nat)
    requires i + 2 <= |bytes| && bytes[i] == 0x51 && bytes[i + 1] == 0x67
    ensures CrcBytes(0x6c46, bytes[i..]) == CrcBytes(0x2d08, bytes[i + 2..])
  {
    hide CrcBytes;
    CrcAt(bytes, i, 0x51, 0x6c46, 0xd7d8);
    CrcAt(bytes, i + 1, 0x67, 0xd7d8, 0x2d08);
  }

  lemma CrcMiddle61EB(bytes: Bytes, i: nat)
    requires i + 4 <= |bytes| && bytes[i] == 0xa1 && bytes[i + 1] == 0x01 && bytes[i + 2] == 0x5b
        && bytes[i + 3] == 0x81
    ensures CrcBytes(0x22cb, bytes[i..]) == CrcBytes(0xddcc, bytes[i + 4..])
  {
    hide CrcBytes;
    CrcAt(bytes, i, 0xa1, 0x22cb, 0xf6c3);
    CrcAt(bytes, i + 1, 0x01, 0xf6c3, 0xb905);
    CrcAt(bytes, i + 2, 0x5b, 0xb905, 0x260b);
    CrcAt(bytes, i + 3, 0x81, 0x260b, 0xddcc);
  }

  lemma CrcEnd61EB(bytes: Bytes, i: nat)
    requires i + 4 <= |bytes| && bytes[i] == 0x01 && bytes[i + 1] == 0xe7 && bytes[i + 2] == 0xff
        && bytes[i + 3] == 0x0f
    ensures CrcBytes(0xddcc, bytes[i..]) == CrcBytes(0x9e14, bytes[i + 4..])
  {
    hide CrcBytes;
    CrcAt(bytes, i, 0x01, 0xddcc, 0x397c);
    CrcAt(bytes, i + 1, 0xe7, 0x397c, 0xf3b6);
    CrcAt(bytes, i + 2, 0xff, 0xf3b6, 0x95d9);
    CrcAt(bytes, i + 3, 0x0f, 0x95d9, 0x9e14);
  }

  lemma CrcMiddleC412(bytes: Bytes, i: nat)
    requires i + 3 <= |bytes| && bytes[i] == 0x92 && bytes[i + 1] == 0x01 && bytes[i + 2] == 0x3b
    ensures CrcBytes(0xff44, bytes[i..]) == CrcBytes(0x7b25, bytes[i + 3..])
  {
    hide CrcBytes;
    CrcAt(bytes, i, 0x92, 0xff44, 0x7911);
    CrcAt(bytes, i + 1, 0x01, 0x7911, 0x751f);
    CrcAt(bytes, i + 2, 0x3b, 0x751f, 0x7b25);
  }

  lemma CrcLaterC412(bytes: Bytes, i: nat)
    requires i + 4 <= |bytes| && bytes[i] == 0xa1 && bytes[i + 1] == 0x01 && bytes[i + 2] == 0x5b
        && bytes[i + 3] == 0x81
    ensures CrcBytes(0x7b25, bytes[i..]) == CrcBytes(0xcfca, bytes[i + 4..])
  {
    hide CrcBytes;
    CrcAt(bytes, i, 0xa1, 0x7b25, 0x5f22);
    CrcAt(bytes, i + 1, 0x01, 0x5f22, 0xd7da);
    CrcAt(bytes, i + 2, 0x5b, 0xd7da, 0x83b5);
    CrcAt(bytes, i + 3, 0x81, 0x83b5, 0xcfca);
  }

  lemma CrcEndC412(bytes: Bytes, i: nat)
    requires i + 4 <= |bytes| && bytes[i] == 0x01 && bytes[i + 1] == 0xe7 && bytes[i + 2] == 0xff
        && bytes[i + 3] == 0x0f
    ensures CrcBytes(0xcfca, bytes[i..]) == CrcBytes(0x3bed, bytes[i + 4..])
  {
    hide CrcBytes;
    CrcAt(bytes, i, 0x01, 0xcfca, 0xd449);
    CrcAt(bytes, i + 1, 0xe7, 0xd449, 0x81cb);
    CrcAt(bytes, i + 2, 0xff, 0x81cb, 0x2041);
    CrcAt(bytes, i + 3, 0x0f, 0x2041, 0x3bed);
  }

  lemma CrcOf(bytes: Bytes, crc: bv16)
    requires CrcBytes(0, bytes[0..]) == CrcBytes(crc, bytes[|bytes|..])
    ensures Crc(bytes) == (!crc) as int
  {
    assert bytes[0..] == bytes;
  }

  lemma KnownA8ED(f: Bytes)
    requires f == [0x02, 0xff, 0x20, 0x04, 0x13, 0x44, 0x13, 0x61, 0x5b, 0x61, 0x67]
    ensures Crc(f) == 0xA8ED
  {
    hide CrcBytes, Crc;
    CrcStart(f, 0); CrcVolumes(f, 5); CrcTemperatures(f, 7); CrcEndA8ED(f, 9);
    CrcOf(f, 0x5712);
  }

  lemma KnownC412(f: Bytes)
    requires f == [0x02, 0xff, 0x20, 0x04, 0x13, 0x92, 0x01, 0x3b, 0xa1, 0x01, 0x5b, 0x81, 0x01, 0xe7, 0xff, 0x0f]
    ensures Crc(f) == 0xC412
  {
    hide CrcBytes, Crc;
    CrcStart(f, 0); CrcMiddleC412(f, 5); CrcLaterC412(f, 8); CrcEndC412(f, 12);
    CrcOf(f, 0x3bed);
  }

  lemma Known61EB(f: Bytes)
    requires f == [0x02, 0xff, 0x20, 0x04, 0x13, 0x44, 0x13, 0xa1, 0x01, 0x5b, 0x81, 0x01, 0xe7, 0xff, 0x0f]
    ensures Crc(f) == 0x61EB
  {
    hide CrcBytes, Crc;
    CrcStart(f, 0); CrcVolumes(f, 5); CrcMiddle61EB(f, 7); CrcEnd61EB(f, 11);
    CrcOf(f, 0x9e14);
  }

  lemma KnownD2F7(f: Bytes)
    requires f == [0x02, 0xff, 0x20, 0x04, 0x13, 0x44, 0x13, 0x61, 0x5b, 0x51, 0x67]
    ensures Crc(f) == 0xD2F7
  {
    hide CrcBytes, Crc;
    CrcStart(f, 0); CrcVolumes(f, 5); CrcTemperatures(f, 7); CrcEndD2F7(f, 9);
    CrcOf(f, 0x2d08);
  }

  lemma KnownDD34(f: Bytes)
    requires f == [0x02, 0xff, 0x20, 0x04, 0x13, 0x44, 0x13]
    ensures Crc(f) == 0xDD34
  {
    hide CrcBytes, Crc;
    CrcStart(f, 0); CrcVolumes(f, 5);
    CrcOf(f, 0x22cb);
  }

  /** Every format that is known in advance has its signature as checksum, so it is the format that a full frame
      with that signature would teach, short of a collision. */
  lemma KnownHasSignature(signature: Signature)
    ensures KnownFormat(signature).Some? ==> Crc(KnownFormat(signature).value) == signature
  {
    hide Crc;
    var known := KnownFormat(signature);
    if known.Some? {
      if signature == 0xA8ED { KnownA8ED(known.value); }
      else if signature == 0xC412 { KnownC412(known.value); }
      else if signature == 0x61EB { Known61EB(known.value); }
      else if signature == 0xD2F7 { KnownD2F7(known.value); }
      else { KnownDD34(known.value); }
    }
  }
}
