/** One step of the key schedule and one round of the cipher, on blocks written as 128-bit numbers: what a
    computation with known numbers needs. */
module AesRounds {
  import opened Gf256
  import opened SBoxes
  import opened AesSpec

  /** The bytes of `b` are those of the number `q`, most significant first. */
  ghost predicate Reads(b: Block, q: bv128) {
    && b[0] == Entry(q, 0) && b[1] == Entry(q, 1) && b[2] == Entry(q, 2) && b[3] == Entry(q, 3)
    && b[4] == Entry(q, 4) && b[5] == Entry(q, 5) && b[6] == Entry(q, 6) && b[7] == Entry(q, 7)
    && b[8] == Entry(q, 8) && b[9] == Entry(q, 9) && b[10] == Entry(q, 10) && b[11] == Entry(q, 11)
    && b[12] == Entry(q, 12) && b[13] == Entry(q, 13) && b[14] == Entry(q, 14) && b[15] == Entry(q, 15)
  }

  lemma ReadsSame(a: Block, b: Block, q: bv128)
    requires Reads(a, q) && Reads(b, q)
    ensures a == b
  {
    hide Entry;
  }

  // One round key from the one before.

  lemma RoundKeyBytes(key: Block, r: nat, i: nat)
    requires r <= 10 && i < 16
    ensures RoundKeyAt(ExpandedKey(key), r)[i] == KeyWord(key, 4 * r + i / 4)[i % 4]
  {
    hide KeyWord;
    assert (16 * r + i) / 4 == 4 * r + i / 4 && (16 * r + i) % 4 == i % 4;
  }

  lemma FirstWord(key: Block, i: nat, r: nat)
    requires i == 4 * r
    ensures
      var t := XorWord(SubWord(RotWord(KeyWord(key, i + 3))), [PowerOfX(r), 0, 0, 0]);
      KeyWord(key, i + 4) == XorWord(KeyWord(key, i), t)
  {
    hide XorWord, SubWord, RotWord, PowerOfX;
    assert (i + 4) % 4 == 0 && (i + 4) / 4 - 1 == r;
  }

  lemma RotatedWord(k: Word, t: Word, c: bv8)
    ensures
      var n := XorWord(k, XorWord(SubWord(RotWord(t)), [c, 0, 0, 0]));
      && n[0] == Add(k[0], Add(SBox(t[1]), c)) && n[1] == Add(k[1], SBox(t[2]))
      && n[2] == Add(k[2], SBox(t[3])) && n[3] == Add(k[3], SBox(t[0]))
  {
    hide SBox, Add;
    AddLaws(SBox(t[2]), 0, 0);
    AddLaws(SBox(t[3]), 0, 0);
    AddLaws(SBox(t[0]), 0, 0);
  }

  lemma FirstWordBytes(key: Block, i: nat, r: nat)
    requires i == 4 * r
    ensures
      var k, t, n := KeyWord(key, i), KeyWord(key, i + 3), KeyWord(key, i + 4);
      && n[0] == Add(k[0], Add(SBox(t[1]), PowerOfX(r))) && n[1] == Add(k[1], SBox(t[2]))
      && n[2] == Add(k[2], SBox(t[3])) && n[3] == Add(k[3], SBox(t[0]))
  {
    hide SBox, PowerOfX, Add, KeyWord, XorWord, SubWord, RotWord;
    FirstWord(key, i, r);
    RotatedWord(KeyWord(key, i), KeyWord(key, i + 3), PowerOfX(r));
  }

  lemma LaterWord(key: Block, i: nat, j: nat)
    requires i >= 4 && i % 4 != 0 && j < 4
    ensures KeyWord(key, i)[j] == Add(KeyWord(key, i - 4)[j], KeyWord(key, i - 1)[j])
  {
    hide SBox, PowerOfX, Add;
  }

  /** The key schedule byte by byte: the first word of a round key, from the round key before it. */
  lemma FirstBytes(key: Block, r: nat)
    requires 1 <= r <= 10
    ensures
      var k, n := RoundKeyAt(ExpandedKey(key), r - 1), RoundKeyAt(ExpandedKey(key), r);
      && n[0] == Add(k[0], Add(SBox(k[13]), PowerOfX(r - 1))) && n[1] == Add(k[1], SBox(k[14]))
      && n[2] == Add(k[2], SBox(k[15])) && n[3] == Add(k[3], SBox(k[12]))
  {
    hide SBox, PowerOfX, Add, KeyWord, RoundKeyAt, ExpandedKey;
    FirstWordBytes(key, 4 * (r - 1), r - 1);
    RoundKeyBytes(key, r, 0);
    RoundKeyBytes(key, r, 1);
    RoundKeyBytes(key, r, 2);
    RoundKeyBytes(key, r, 3);
    RoundKeyBytes(key, r - 1, 0);
    RoundKeyBytes(key, r - 1, 1);
    RoundKeyBytes(key, r - 1, 2);
    RoundKeyBytes(key, r - 1, 3);
    RoundKeyBytes(key, r - 1, 12);
    RoundKeyBytes(key, r - 1, 13);
    RoundKeyBytes(key, r - 1, 14);
    RoundKeyBytes(key, r - 1, 15);
  }

  /** And its other words. */
  lemma LaterByte(key: Block, r: nat, i: nat)
    requires 1 <= r <= 10 && 4 <= i < 16
    ensures
      var k, n := RoundKeyAt(ExpandedKey(key), r - 1), RoundKeyAt(ExpandedKey(key), r);
      n[i] == Add(k[i], n[i - 4])
  {
    hide Add, KeyWord, RoundKeyAt, ExpandedKey;
    LaterWord(key, 4 * r + i / 4, i % 4);
    assert (i - 4) / 4 == i / 4 - 1 && (i - 4) % 4 == i % 4;
    assert 4 * r + i / 4 - 4 == 4 * (r - 1) + i / 4;
    RoundKeyBytes(key, r, i);
    RoundKeyBytes(key, r, i - 4);
    RoundKeyBytes(key, r - 1, i);
  }

  /** Each of the last three words is the sum of the word it replaces and the word before it. */
  predicate LaterWords(k: bv128, n: bv128) {
    (n & 0xffffffff_ffffffff_ffffffff) == ((n >> 32) ^ k) & 0xffffffff_ffffffff_ffffffff
  }

  predicate NextKey(k: bv128, rcon: bv8, n: bv128) {
    && Entry(n, 0) == Add(Entry(k, 0), Add(SBox(Entry(k, 13)), rcon))
    && Entry(n, 1) == Add(Entry(k, 1), SBox(Entry(k, 14)))
    && Entry(n, 2) == Add(Entry(k, 2), SBox(Entry(k, 15)))
    && Entry(n, 3) == Add(Entry(k, 3), SBox(Entry(k, 12)))
    && LaterWords(k, n)
  }

  lemma NextByte(k: bv128, n: bv128, i: bv8)
    requires 4 <= i < 16 && LaterWords(k, n)
    ensures Entry(n, i) == Add(Entry(k, i), Entry(n, i - 4))
  {
  }

  lemma LaterBytes(key: Block, r: nat, k: bv128, n: bv128, i: nat, j: bv8)
    requires 1 <= r <= 10 && 4 <= i < 16 && 4 <= j < 16 && LaterWords(k, n)
    requires RoundKeyAt(ExpandedKey(key), r - 1)[i] == Entry(k, j)
    requires RoundKeyAt(ExpandedKey(key), r)[i - 4] == Entry(n, j - 4)
    ensures RoundKeyAt(ExpandedKey(key), r)[i] == Entry(n, j)
  {
    hide Add, Entry, LaterWords, ExpandedKey, RoundKeyAt;
    LaterByte(key, r, i);
    NextByte(k, n, j);
  }

  ghost predicate KeyIs(key: Block, r: nat, k: bv128)
    requires r <= 10
  {
    Reads(RoundKeyAt(ExpandedKey(key), r), k)
  }

  lemma KeyStep(key: Block, r: nat, k: bv128, rcon: bv8, n: bv128)
    requires 1 <= r <= 10 && KeyIs(key, r - 1, k)
    requires PowerOfX(r - 1) == rcon && NextKey(k, rcon, n)
    ensures KeyIs(key, r, n)
  {
    hide Add, Entry, LaterWords, ExpandedKey, RoundKeyAt, SBox, PowerOfX;
    FirstBytes(key, r);
    LaterBytes(key, r, k, n, 4, 4);
    LaterBytes(key, r, k, n, 5, 5);
    LaterBytes(key, r, k, n, 6, 6);
    LaterBytes(key, r, k, n, 7, 7);
    LaterBytes(key, r, k, n, 8, 8);
    LaterBytes(key, r, k, n, 9, 9);
    LaterBytes(key, r, k, n, 10, 10);
    LaterBytes(key, r, k, n, 11, 11);
    LaterBytes(key, r, k, n, 12, 12);
    LaterBytes(key, r, k, n, 13, 13);
    LaterBytes(key, r, k, n, 14, 14);
    LaterBytes(key, r, k, n, 15, 15);
  }

  lemma FirstKey(key: Block, k: bv128)
    requires Reads(key, k)
    ensures KeyIs(key, 0, k)
  {
    hide Entry;
    assert RoundKeyAt(ExpandedKey(key), 0) == key;
  }

  lemma PowersOfX()
    ensures PowerOfX(0) == 0x01 && PowerOfX(1) == 0x02 && PowerOfX(2) == 0x04 && PowerOfX(3) == 0x08
    ensures PowerOfX(4) == 0x10 && PowerOfX(5) == 0x20 && PowerOfX(6) == 0x40 && PowerOfX(7) == 0x80
    ensures PowerOfX(8) == 0x1b && PowerOfX(9) == 0x36
  {
  }

  // One round.

  /** Multiplying by {03} and {02} is a shift and an addition. */
  function MixedByte(a0: bv8, a1: bv8, a2: bv8, a3: bv8, k: bv8): bv8 {
    Xtime(a0 ^ a1) ^ a1 ^ a2 ^ a3 ^ k
  }

  lemma XtimeAdds(a: bv8, b: bv8)
    ensures Add(Xtime(a), Xtime(b)) == Xtime(a ^ b)
  {
  }

  lemma MixedByteIsMix(a0: bv8, a1: bv8, a2: bv8, a3: bv8, k: bv8)
    ensures MixedByte(a0, a1, a2, a3, k) == Add(Mix(a0, a1, a2, a3), k)
  {
    hide GfMul, Xtime;
    XtimeIsProduct(a0);
    SmallProducts(a1);
    SmallProducts(a2);
    SmallProducts(a3);
    XtimeAdds(a0, a1);
  }

  /** `u` is `s` after the substitution and the row shifts. */
  predicate Substituted(s: bv128, u: bv128) {
    && Entry(u, 0) == SBox(Entry(s, 0)) && Entry(u, 1) == SBox(Entry(s, 5))
    && Entry(u, 2) == SBox(Entry(s, 10)) && Entry(u, 3) == SBox(Entry(s, 15))
    && Entry(u, 4) == SBox(Entry(s, 4)) && Entry(u, 5) == SBox(Entry(s, 9))
    && Entry(u, 6) == SBox(Entry(s, 14)) && Entry(u, 7) == SBox(Entry(s, 3))
    && Entry(u, 8) == SBox(Entry(s, 8)) && Entry(u, 9) == SBox(Entry(s, 13))
    && Entry(u, 10) == SBox(Entry(s, 2)) && Entry(u, 11) == SBox(Entry(s, 7))
    && Entry(u, 12) == SBox(Entry(s, 12)) && Entry(u, 13) == SBox(Entry(s, 1))
    && Entry(u, 14) == SBox(Entry(s, 6)) && Entry(u, 15) == SBox(Entry(s, 11))
  }

  /** `t` is `u` after the column mix and the addition of the round key `k`. */
  predicate Mixed(u: bv128, k: bv128, t: bv128) {
    && Entry(t, 0) == MixedByte(Entry(u, 0), Entry(u, 1), Entry(u, 2), Entry(u, 3), Entry(k, 0))
    && Entry(t, 1) == MixedByte(Entry(u, 1), Entry(u, 2), Entry(u, 3), Entry(u, 0), Entry(k, 1))
    && Entry(t, 2) == MixedByte(Entry(u, 2), Entry(u, 3), Entry(u, 0), Entry(u, 1), Entry(k, 2))
    && Entry(t, 3) == MixedByte(Entry(u, 3), Entry(u, 0), Entry(u, 1), Entry(u, 2), Entry(k, 3))
    && Entry(t, 4) == MixedByte(Entry(u, 4), Entry(u, 5), Entry(u, 6), Entry(u, 7), Entry(k, 4))
    && Entry(t, 5) == MixedByte(Entry(u, 5), Entry(u, 6), Entry(u, 7), Entry(u, 4), Entry(k, 5))
    && Entry(t, 6) == MixedByte(Entry(u, 6), Entry(u, 7), Entry(u, 4), Entry(u, 5), Entry(k, 6))
    && Entry(t, 7) == MixedByte(Entry(u, 7), Entry(u, 4), Entry(u, 5), Entry(u, 6), Entry(k, 7))
    && Entry(t, 8) == MixedByte(Entry(u, 8), Entry(u, 9), Entry(u, 10), Entry(u, 11), Entry(k, 8))
    && Entry(t, 9) == MixedByte(Entry(u, 9), Entry(u, 10), Entry(u, 11), Entry(u, 8), Entry(k, 9))
    && Entry(t, 10) == MixedByte(Entry(u, 10), Entry(u, 11), Entry(u, 8), Entry(u, 9), Entry(k, 10))
    && Entry(t, 11) == MixedByte(Entry(u, 11), Entry(u, 8), Entry(u, 9), Entry(u, 10), Entry(k, 11))
    && Entry(t, 12) == MixedByte(Entry(u, 12), Entry(u, 13), Entry(u, 14), Entry(u, 15), Entry(k, 12))
    && Entry(t, 13) == MixedByte(Entry(u, 13), Entry(u, 14), Entry(u, 15), Entry(u, 12), Entry(k, 13))
    && Entry(t, 14) == MixedByte(Entry(u, 14), Entry(u, 15), Entry(u, 12), Entry(u, 13), Entry(k, 14))
    && Entry(t, 15) == MixedByte(Entry(u, 15), Entry(u, 12), Entry(u, 13), Entry(u, 14), Entry(k, 15))
  }

  lemma SubstitutedAt(b: Block, i: nat, j: nat)
    requires i < 16 && j == (i + 4 * (i % 4)) % 16
    ensures ShiftRows(SubBytes(b))[i] == SBox(b[j])
  {
    hide SBox;
  }

  lemma SubstitutedIs(b: Block, s: bv128, u: bv128)
    requires Reads(b, s) && Substituted(s, u)
    ensures Reads(ShiftRows(SubBytes(b)), u)
  {
    hide Entry, SBox, ShiftRows, SubBytes;
    SubstitutedAt(b, 0, 0);
    SubstitutedAt(b, 1, 5);
    SubstitutedAt(b, 2, 10);
    SubstitutedAt(b, 3, 15);
    SubstitutedAt(b, 4, 4);
    SubstitutedAt(b, 5, 9);
    SubstitutedAt(b, 6, 14);
    SubstitutedAt(b, 7, 3);
    SubstitutedAt(b, 8, 8);
    SubstitutedAt(b, 9, 13);
    SubstitutedAt(b, 10, 2);
    SubstitutedAt(b, 11, 7);
    SubstitutedAt(b, 12, 12);
    SubstitutedAt(b, 13, 1);
    SubstitutedAt(b, 14, 6);
    SubstitutedAt(b, 15, 11);
  }

  lemma MixedAt(b: Block, k: Block, i: nat)
    requires i < 16
    ensures
      Xor(MixColumns(b), k)[i] == MixedByte(b[Below(i, 0)], b[Below(i, 1)], b[Below(i, 2)], b[Below(i, 3)], k[i])
  {
    hide Mix, MixedByte, Add;
    MixedByteIsMix(b[Below(i, 0)], b[Below(i, 1)], b[Below(i, 2)], b[Below(i, 3)], k[i]);
  }

  lemma RowsBelow(i: nat)
    requires i <= 12 && i % 4 == 0
    ensures Below(i, 0) == i && Below(i, 1) == i + 1 && Below(i, 2) == i + 2 && Below(i, 3) == i + 3
    ensures Below(i + 1, 0) == i + 1 && Below(i + 1, 1) == i + 2 && Below(i + 1, 2) == i + 3 && Below(i + 1, 3) == i
    ensures Below(i + 2, 0) == i + 2 && Below(i + 2, 1) == i + 3 && Below(i + 2, 2) == i && Below(i + 2, 3) == i + 1
    ensures Below(i + 3, 0) == i + 3 && Below(i + 3, 1) == i && Below(i + 3, 2) == i + 1 && Below(i + 3, 3) == i + 2
  {
    assert (i + 1) / 4 == i / 4 && (i + 2) / 4 == i / 4 && (i + 3) / 4 == i / 4;
  }

  lemma MixedColumn(b: Block, k: Block, i: nat)
    requires i <= 12 && i % 4 == 0
    ensures
      var m := Xor(MixColumns(b), k);
      && m[i] == MixedByte(b[i], b[i + 1], b[i + 2], b[i + 3], k[i])
      && m[i + 1] == MixedByte(b[i + 1], b[i + 2], b[i + 3], b[i], k[i + 1])
      && m[i + 2] == MixedByte(b[i + 2], b[i + 3], b[i], b[i + 1], k[i + 2])
      && m[i + 3] == MixedByte(b[i + 3], b[i], b[i + 1], b[i + 2], k[i + 3])
  {
    hide MixedByte, MixColumns, Xor, Below;
    RowsBelow(i);
    MixedAt(b, k, i);
    MixedAt(b, k, i + 1);
    MixedAt(b, k, i + 2);
    MixedAt(b, k, i + 3);
  }

  lemma MixedIs(b: Block, rk: Block, u: bv128, k: bv128, t: bv128)
    requires Reads(b, u) && Reads(rk, k) && Mixed(u, k, t)
    ensures Reads(Xor(MixColumns(b), rk), t)
  {
    hide Entry, MixedByte, MixColumns, Xor;
    MixedColumn(b, rk, 0);
    MixedColumn(b, rk, 4);
    MixedColumn(b, rk, 8);
    MixedColumn(b, rk, 12);
  }

  predicate Added(s: bv128, k: bv128, t: bv128) {
    t == s ^ k
  }

  lemma AddedAt(b: Block, rk: Block, s: bv128, k: bv128, t: bv128, i: nat, j: bv8)
    requires i < 16 && j < 16 && b[i] == Entry(s, j) && rk[i] == Entry(k, j) && Added(s, k, t)
    ensures Xor(b, rk)[i] == Entry(t, j)
  {
    EntryOfSum(s, k, t, j);
    hide Entry, Added;
  }

  lemma EntryOfSum(s: bv128, k: bv128, t: bv128, i: bv8)
    requires i < 16 && Added(s, k, t)
    ensures Entry(t, i) == Add(Entry(s, i), Entry(k, i))
  {
  }

  lemma AddedIs(b: Block, rk: Block, s: bv128, k: bv128, t: bv128)
    requires Reads(b, s) && Reads(rk, k) && Added(s, k, t)
    ensures Reads(Xor(b, rk), t)
  {
    hide Entry, Add, Added, Xor;
    AddedAt(b, rk, s, k, t, 0, 0);
    AddedAt(b, rk, s, k, t, 1, 1);
    AddedAt(b, rk, s, k, t, 2, 2);
    AddedAt(b, rk, s, k, t, 3, 3);
    AddedAt(b, rk, s, k, t, 4, 4);
    AddedAt(b, rk, s, k, t, 5, 5);
    AddedAt(b, rk, s, k, t, 6, 6);
    AddedAt(b, rk, s, k, t, 7, 7);
    AddedAt(b, rk, s, k, t, 8, 8);
    AddedAt(b, rk, s, k, t, 9, 9);
    AddedAt(b, rk, s, k, t, 10, 10);
    AddedAt(b, rk, s, k, t, 11, 11);
    AddedAt(b, rk, s, k, t, 12, 12);
    AddedAt(b, rk, s, k, t, 13, 13);
    AddedAt(b, rk, s, k, t, 14, 14);
    AddedAt(b, rk, s, k, t, 15, 15);
  }

  // The rounds of one block.

  ghost predicate After(key: Block, p: Block, n: nat, s: bv128)
    requires n <= 9
  {
    Reads(EncryptRounds(ExpandedKey(key), p, n), s)
  }

  ghost predicate Encrypts(key: Block, p: Block, c: bv128) {
    Reads(Cipher(ExpandedKey(key), p), c)
  }

  lemma EncryptsIs(key: Block, p: Block, c: bv128)
    requires Encrypts(key, p, c)
    ensures Reads(Cipher(ExpandedKey(key), p), c)
  {
  }

  lemma Start(key: Block, p: Block, s: bv128, k: bv128, t: bv128)
    requires Reads(p, s) && KeyIs(key, 0, k) && Added(s, k, t)
    ensures After(key, p, 0, t)
  {
    hide Reads, RoundKeyAt, ExpandedKey, Xor, Added;
    AddedIs(p, RoundKeyAt(ExpandedKey(key), 0), s, k, t);
  }

  lemma Step(key: Block, p: Block, n: nat, s: bv128, u: bv128, k: bv128, t: bv128)
    requires 1 <= n <= 9 && After(key, p, n - 1, s) && KeyIs(key, n, k)
    requires Substituted(s, u) && Mixed(u, k, t)
    ensures After(key, p, n, t)
  {
    hide Reads, RoundKeyAt, ExpandedKey, Xor, Substituted, Mixed, MixColumns, ShiftRows, SubBytes;
    var before := EncryptRounds(ExpandedKey(key), p, n - 1);
    SubstitutedIs(before, s, u);
    MixedIs(ShiftRows(SubBytes(before)), RoundKeyAt(ExpandedKey(key), n), u, k, t);
  }

  lemma Finish(key: Block, p: Block, n: nat, s: bv128, u: bv128, k: bv128, t: bv128)
    requires n <= 9 && After(key, p, n, s) && KeyIs(key, n + 1, k)
    requires Substituted(s, u) && Added(u, k, t) && n == 9
    ensures Encrypts(key, p, t)
  {
    hide Reads, RoundKeyAt, ExpandedKey, Xor, Substituted, ShiftRows, SubBytes, EncryptRounds, Added;
    var before := EncryptRounds(ExpandedKey(key), p, n);
    SubstitutedIs(before, s, u);
    AddedIs(ShiftRows(SubBytes(before)), RoundKeyAt(ExpandedKey(key), 10), u, k, t);
  }
}
