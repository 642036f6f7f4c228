/** AES-128 on values: the four layers of section 5.1 of FIPS 197 and their inverses, the key schedule
    of section 5.2, and the two ciphers. A block is its sixteen bytes in the order of the buffer, so that
    byte 4*c + r is row r of column c. */
module AesSpec {
  import opened Gf256
  import opened SBoxes

  type Block = s: seq<bv8> | |s| == 16 witness seq(16, _ => 0)
  type Schedule = s: seq<bv8> | |s| == 176 witness seq(176, _ => 0)
  type Word = s: seq<bv8> | |s| == 4 witness seq(4, _ => 0)

  const ZEROS: Block := [0, 0, 0, 0, 0, 0, 0, 0, 0, 0, 0, 0, 0, 0, 0, 0]

  function Xor(a: Block, b: Block): Block {
    seq(16, i requires 0 <= i < 16 => Add(a[i], b[i]))
  }

  lemma XorTwice(a: Block, b: Block)
    ensures Xor(Xor(a, b), b) == a
  {
    hide Add;
    forall i | 0 <= i < 16
      ensures Xor(Xor(a, b), b)[i] == a[i]
    {
      AddTwice(a[i], b[i]);
    }
  }

  /** Two states of a buffer that agree outside the block at `at`. */
  ghost predicate Around(before: seq<bv8>, after: seq<bv8>, at: nat) {
    && at + 16 <= |before| == |after|
    && before[..at] == after[..at]
    && before[at + 16..] == after[at + 16..]
  }

  // The layers.

  function RoundKeyAt(w: Schedule, round: nat): Block
    requires round <= 10
  {
    w[16 * round .. 16 * round + 16]
  }

  function AddRoundKey(s: Block, w: Schedule, round: nat): Block
    requires round <= 10
  {
    Xor(s, RoundKeyAt(w, round))
  }

  function SubBytes(s: Block): Block {
    seq(16, i requires 0 <= i < 16 => SBox(s[i]))
  }

  function InvSubBytes(s: Block): Block {
    seq(16, i requires 0 <= i < 16 => InvSBox(s[i]))
  }

  /** The byte `k` columns to the right of byte `i`, around its row. */
  function Right(i: nat, k: nat): (j: nat)
    requires i < 16
    ensures j < 16
  {
    (i + 4 * k) % 16
  }

  /** Row r moves r columns to the left, around. */
  function ShiftRows(s: Block): Block {
    seq(16, i requires 0 <= i < 16 => s[Right(i, i % 4)])
  }

  /** Row r moves r columns to the right, around. */
  function InvShiftRows(s: Block): Block {
    seq(16, i requires 0 <= i < 16 => s[Right(i, 4 - i % 4)])
  }

  /** The byte `k` rows below byte `i`, around its column. */
  function Below(i: nat, k: nat): (j: nat)
    requires i < 16
    ensures j < 16
  {
    4 * (i / 4) + (i % 4 + k) % 4
  }

  function MixColumns(s: Block): Block {
    seq(16, i requires 0 <= i < 16 => Mix(s[Below(i, 0)], s[Below(i, 1)], s[Below(i, 2)], s[Below(i, 3)]))
  }

  function InvMixColumns(s: Block): Block {
    seq(16, i requires 0 <= i < 16 => InvMix(s[Below(i, 0)], s[Below(i, 1)], s[Below(i, 2)], s[Below(i, 3)]))
  }

  // Each layer is undone by its inverse, on either side.

  lemma SubBytesInverse(s: Block)
    ensures InvSubBytes(SubBytes(s)) == s
    ensures SubBytes(InvSubBytes(s)) == s
  {
    hide SBox, InvSBox;
    forall i | 0 <= i < 16
      ensures InvSubBytes(SubBytes(s))[i] == s[i] && SubBytes(InvSubBytes(s))[i] == s[i]
    {
      InvSBoxOfSBox(s[i]);
      SBoxOfInvSBox(s[i]);
    }
  }

  lemma ShiftRowsInverse(s: Block)
    ensures InvShiftRows(ShiftRows(s)) == s
    ensures ShiftRows(InvShiftRows(s)) == s
  {
    hide Right;
    forall i | 0 <= i < 16
      ensures InvShiftRows(ShiftRows(s))[i] == s[i] && ShiftRows(InvShiftRows(s))[i] == s[i]
    {
      RightAround(i, i % 4);
      RightAround(i, 4 - i % 4);
    }
  }

  lemma RightAround(i: nat, k: nat)
    requires i < 16 && k <= 4
    ensures Right(i, k) % 4 == i % 4
    ensures Right(Right(i, k), 4 - k) == i
  {
  }

  lemma BelowZero(i: nat)
    requires i < 16
    ensures Below(i, 0) == i
  {
  }

  lemma BelowAround(i: nat, k: nat, m: nat)
    requires i < 16 && k < 4 && m < 4
    ensures Below(Below(i, k), m) == Below(i, if k + m < 4 then k + m else k + m - 4)
  {
    var j := Below(i, k);
    assert j / 4 == i / 4 && j % 4 == (i % 4 + k) % 4;
  }

  lemma MixColumnsInverse(s: Block)
    ensures InvMixColumns(MixColumns(s)) == s
    ensures MixColumns(InvMixColumns(s)) == s
  {
    hide Mix, InvMix, Below;
    forall i | 0 <= i < 16
      ensures InvMixColumns(MixColumns(s))[i] == s[i] && MixColumns(InvMixColumns(s))[i] == s[i]
    {
      forall k, m | 0 <= k < 4 && 0 <= m < 4
        ensures Below(Below(i, k), m) == Below(i, if k + m < 4 then k + m else k + m - 4)
      {
        BelowAround(i, k, m);
      }
      assert Below(i, 0) == i by { BelowZero(i); }
      InvMixOfMix(s[Below(i, 0)], s[Below(i, 1)], s[Below(i, 2)], s[Below(i, 3)]);
      MixOfInvMix(s[Below(i, 0)], s[Below(i, 1)], s[Below(i, 2)], s[Below(i, 3)]);
    }
  }

  // The ciphers.

  /** The state after the initial key addition and `n` full rounds. */
  function EncryptRounds(w: Schedule, s: Block, n: nat): Block
    requires n <= 9
  {
    if n == 0 then AddRoundKey(s, w, 0)
    else AddRoundKey(MixColumns(ShiftRows(SubBytes(EncryptRounds(w, s, n - 1)))), w, n)
  }

  function Cipher(w: Schedule, s: Block): Block {
    AddRoundKey(ShiftRows(SubBytes(EncryptRounds(w, s, 9))), w, 10)
  }

  /** The state after the last round key and the inverse rounds 9 down to `n`. */
  function DecryptRounds(w: Schedule, s: Block, n: nat): Block
    requires 1 <= n <= 10
    decreases 10 - n
  {
    if n == 10 then AddRoundKey(s, w, 10)
    else InvMixColumns(AddRoundKey(InvSubBytes(InvShiftRows(DecryptRounds(w, s, n + 1))), w, n))
  }

  function InvCipher(w: Schedule, s: Block): Block {
    AddRoundKey(InvSubBytes(InvShiftRows(DecryptRounds(w, s, 1))), w, 0)
  }

  lemma {:induction false} DecryptMeetsEncrypt(w: Schedule, s: Block, n: nat)
    requires 1 <= n <= 10
    ensures DecryptRounds(w, Cipher(w, s), n) == ShiftRows(SubBytes(EncryptRounds(w, s, n - 1)))
    decreases 10 - n
  {
    hide SubBytes, ShiftRows, MixColumns, InvSubBytes, InvShiftRows, InvMixColumns, Xor;
    var before := ShiftRows(SubBytes(EncryptRounds(w, s, n - 1)));
    if n == 10 {
      XorTwice(before, RoundKeyAt(w, 10));
    } else {
      DecryptMeetsEncrypt(w, s, n + 1);
      SubBytesInverse(EncryptRounds(w, s, n));
      ShiftRowsInverse(SubBytes(EncryptRounds(w, s, n)));
      XorTwice(MixColumns(before), RoundKeyAt(w, n));
      MixColumnsInverse(before);
    }
  }

  /** Sections 5.1 and 5.3 of FIPS 197 invert each other: decryption undoes encryption. */
  lemma InvCipherOfCipher(w: Schedule, s: Block)
    ensures InvCipher(w, Cipher(w, s)) == s
  {
    hide SubBytes, ShiftRows, MixColumns, InvSubBytes, InvShiftRows, InvMixColumns, Xor;
    DecryptMeetsEncrypt(w, s, 1);
    var first := EncryptRounds(w, s, 0);
    SubBytesInverse(first);
    ShiftRowsInverse(SubBytes(first));
    XorTwice(s, RoundKeyAt(w, 0));
  }

  lemma {:induction false} EncryptMeetsDecrypt(w: Schedule, s: Block, n: nat)
    requires n <= 9
    ensures EncryptRounds(w, InvCipher(w, s), n) == InvSubBytes(InvShiftRows(DecryptRounds(w, s, n + 1)))
  {
    hide SubBytes, ShiftRows, MixColumns, InvSubBytes, InvShiftRows, InvMixColumns, Xor;
    var after := InvSubBytes(InvShiftRows(DecryptRounds(w, s, n + 1)));
    if n == 0 {
      XorTwice(after, RoundKeyAt(w, 0));
    } else {
      EncryptMeetsDecrypt(w, s, n - 1);
      ShiftRowsInverse(DecryptRounds(w, s, n));
      SubBytesInverse(InvShiftRows(DecryptRounds(w, s, n)));
      MixColumnsInverse(AddRoundKey(after, w, n));
      XorTwice(after, RoundKeyAt(w, n));
    }
  }

  /** ... and encryption undoes decryption. */
  lemma CipherOfInvCipher(w: Schedule, s: Block)
    ensures Cipher(w, InvCipher(w, s)) == s
  {
    hide SubBytes, ShiftRows, MixColumns, InvSubBytes, InvShiftRows, InvMixColumns, Xor;
    EncryptMeetsDecrypt(w, s, 9);
    var last := DecryptRounds(w, s, 10);
    ShiftRowsInverse(last);
    SubBytesInverse(InvShiftRows(last));
    XorTwice(s, RoundKeyAt(w, 10));
  }

  // The key schedule.

  function SubWord(t: Word): Word {
    [SBox(t[0]), SBox(t[1]), SBox(t[2]), SBox(t[3])]
  }

  function RotWord(t: Word): Word {
    [t[1], t[2], t[3], t[0]]
  }

  function XorWord(a: Word, b: Word): Word {
    [Add(a[0], b[0]), Add(a[1], b[1]), Add(a[2], b[2]), Add(a[3], b[3])]
  }

  /** The powers of {02}. */
  function PowerOfX(n: nat): bv8 {
    if n == 0 then 1 else GfMul(PowerOfX(n - 1), 2)
  }

  /** Word `i` of the key schedule of section 5.2 of FIPS 197, with Nk = 4. */
  function KeyWord(key: Block, i: nat): Word {
    if i < 4 then key[4 * i .. 4 * i + 4]
    else if i % 4 == 0 then
      XorWord(KeyWord(key, i - 4), XorWord(SubWord(RotWord(KeyWord(key, i - 1))), [PowerOfX(i / 4 - 1), 0, 0, 0]))
    else
      XorWord(KeyWord(key, i - 4), KeyWord(key, i - 1))
  }

  function ExpandedKey(key: Block): Schedule {
    seq(176, i requires 0 <= i < 176 => KeyWord(key, i / 4)[i % 4])
  }
}
