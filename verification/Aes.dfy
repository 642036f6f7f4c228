/** The in-place AES of src/aes.cc. The file-level variables (the round keys, the pointer to the block
    being worked on, and the pointer to the current initialisation vector) are fields here; a C pointer
    is an array together with an offset. */
module Aes {
  import opened Gf256
  import opened SBoxes
  import Spec = AesSpec
  import Cbc

  type Block = Spec.Block

  lemma BlockByByte(before: seq<bv8>, after: seq<bv8>, at: nat, block: Block)
    requires at + 16 <= |before| == |after|
    requires forall k :: 0 <= k < |before| && !(at <= k < at + 16) ==> after[k] == before[k]
    requires forall k :: at <= k < at + 16 ==> after[k] == block[k - at]
    ensures after[at .. at + 16] == block
    ensures Spec.Around(before, after, at)
  {
  }

  lemma KeptAround(before: seq<bv8>, after: seq<bv8>, at: nat, other: nat)
    requires Spec.Around(before, after, at) && other + 16 <= |before|
    requires other + 16 <= at || at + 16 <= other
    ensures after[other .. other + 16] == before[other .. other + 16]
  {
    if other + 16 <= at {
      assert after[other .. other + 16] == after[..at][other .. other + 16];
    } else {
      var k := other - (at + 16);
      assert after[other .. other + 16] == after[at + 16..][k .. k + 16];
      assert before[other .. other + 16] == before[at + 16..][k .. k + 16];
    }
  }

  /** The round constants; entry 0 is not used. */
  function Rcon(i: nat): bv8
    requires i <= 10
  {
    [0x8d, 0x01, 0x02, 0x04, 0x08, 0x10, 0x20, 0x40, 0x80, 0x1b, 0x36][i]
  }

  lemma {:induction false} RconIsPower(i: nat)
    requires 1 <= i <= 10
    ensures Rcon(i) == Spec.PowerOfX(i - 1)
  {
    if i == 1 {
    } else {
      RconIsPower(i - 1);
      XtimeIsProduct(Rcon(i - 1));
      hide GfMul;
      assert Rcon(i) == Xtime(Rcon(i - 1));
    }
  }

  /** All four bytes of a mixed column at once, as the in-place code computes them. */
  lemma ColumnShortcuts(a0: bv8, a1: bv8, a2: bv8, a3: bv8, sum: bv8)
    requires sum == Add(Add(Add(a0, a1), a2), a3)
    ensures Shortcut(a0, a1, sum) == Mix(a0, a1, a2, a3)
    ensures Shortcut(a1, a2, sum) == Mix(a1, a2, a3, a0)
    ensures Shortcut(a2, a3, sum) == Mix(a2, a3, a0, a1)
    ensures Shortcut(a3, a0, sum) == Mix(a3, a0, a1, a2)
  {
    hide Add, Shortcut, Mix;
    AddLaws(Add(a0, a1), a2, a3);
    Sum4Rotate(a0, a1, a2, a3);
    Sum4Rotate(a3, a0, a1, a2);
    Sum4Rotate(a2, a3, a0, a1);
    ShortcutIsMix(a0, a1, a2, a3);
    ShortcutIsMix(a1, a2, a3, a0);
    ShortcutIsMix(a2, a3, a0, a1);
    ShortcutIsMix(a3, a0, a1, a2);
  }

  /** All four bytes of an unmixed column, as the shift-and-xor code computes them. */
  lemma UnmixedIsInvMix(a: bv8, b: bv8, c: bv8, d: bv8)
    ensures Add(Add(Add(Multiply(a, 0x0e), Multiply(b, 0x0b)), Multiply(c, 0x0d)), Multiply(d, 0x09))
        == InvMix(a, b, c, d)
    ensures Add(Add(Add(Multiply(a, 0x09), Multiply(b, 0x0e)), Multiply(c, 0x0b)), Multiply(d, 0x0d))
        == InvMix(b, c, d, a)
    ensures Add(Add(Add(Multiply(a, 0x0d), Multiply(b, 0x09)), Multiply(c, 0x0e)), Multiply(d, 0x0b))
        == InvMix(c, d, a, b)
    ensures Add(Add(Add(Multiply(a, 0x0b), Multiply(b, 0x0d)), Multiply(c, 0x09)), Multiply(d, 0x0e))
        == InvMix(d, a, b, c)
  {
    hide Add, Sum4, Multiply, GfMul;
    RowOfMultiples(0x0e, 0x0b, 0x0d, 0x09, a, b, c, d);
    RowOfMultiples(0x09, 0x0e, 0x0b, 0x0d, a, b, c, d);
    RowOfMultiples(0x0d, 0x09, 0x0e, 0x0b, a, b, c, d);
    RowOfMultiples(0x0b, 0x0d, 0x09, 0x0e, a, b, c, d);
  }

  lemma RowOfMultiples(k0: bv8, k1: bv8, k2: bv8, k3: bv8, a: bv8, b: bv8, c: bv8, d: bv8)
    requires k0 < 0x20 && k1 < 0x20 && k2 < 0x20 && k3 < 0x20
    ensures var r := Add(Add(Add(Multiply(a, k0), Multiply(b, k1)), Multiply(c, k2)), Multiply(d, k3));
            && r == Row(k0, k1, k2, k3, a, b, c, d) && r == Row(k1, k2, k3, k0, b, c, d, a)
            && r == Row(k2, k3, k0, k1, c, d, a, b) && r == Row(k3, k0, k1, k2, d, a, b, c)
  {
    hide Add, Multiply, GfMul;
    MultiplyIsProduct(a, k0);
    MultiplyIsProduct(b, k1);
    MultiplyIsProduct(c, k2);
    MultiplyIsProduct(d, k3);
    AddLaws(Add(Multiply(a, k0), Multiply(b, k1)), Multiply(c, k2), Multiply(d, k3));
    Sum4Rotate(GfMul(a, k0), GfMul(b, k1), GfMul(c, k2), GfMul(d, k3));
    Sum4Rotate(GfMul(d, k3), GfMul(a, k0), GfMul(b, k1), GfMul(c, k2));
    Sum4Rotate(GfMul(c, k2), GfMul(d, k3), GfMul(a, k0), GfMul(b, k1));
  }

  lemma SameBytes(a: Block, b: Block)
    requires a[0] == b[0] && a[1] == b[1] && a[2] == b[2] && a[3] == b[3]
    requires a[4] == b[4] && a[5] == b[5] && a[6] == b[6] && a[7] == b[7]
    requires a[8] == b[8] && a[9] == b[9] && a[10] == b[10] && a[11] == b[11]
    requires a[12] == b[12] && a[13] == b[13] && a[14] == b[14] && a[15] == b[15]
    ensures a == b
  {
  }

  lemma ShiftRowsByte(s: Block, k: nat, j: nat)
    requires k < 16 && j == (k + 4 * (k % 4)) % 16
    ensures Spec.ShiftRows(s)[k] == s[j]
  {
    assert j == Spec.Right(k, k % 4);
    hide Spec.Right;
  }

  lemma ShiftRowsBytes(s: Block, t: Block)
    requires t[0] == s[0] && t[1] == s[5] && t[2] == s[10] && t[3] == s[15]
    requires t[4] == s[4] && t[5] == s[9] && t[6] == s[14] && t[7] == s[3]
    requires t[8] == s[8] && t[9] == s[13] && t[10] == s[2] && t[11] == s[7]
    requires t[12] == s[12] && t[13] == s[1] && t[14] == s[6] && t[15] == s[11]
    ensures t == Spec.ShiftRows(s)
  {
    hide *;
    ShiftRowsByte(s, 0, 0); ShiftRowsByte(s, 1, 5); ShiftRowsByte(s, 2, 10); ShiftRowsByte(s, 3, 15);
    ShiftRowsByte(s, 4, 4); ShiftRowsByte(s, 5, 9); ShiftRowsByte(s, 6, 14); ShiftRowsByte(s, 7, 3);
    ShiftRowsByte(s, 8, 8); ShiftRowsByte(s, 9, 13); ShiftRowsByte(s, 10, 2); ShiftRowsByte(s, 11, 7);
    ShiftRowsByte(s, 12, 12); ShiftRowsByte(s, 13, 1); ShiftRowsByte(s, 14, 6); ShiftRowsByte(s, 15, 11);
    SameBytes(t, Spec.ShiftRows(s));
  }

  lemma InvShiftRowsByte(s: Block, k: nat, j: nat)
    requires k < 16 && j == (k + 4 * (4 - k % 4)) % 16
    ensures Spec.InvShiftRows(s)[k] == s[j]
  {
    assert j == Spec.Right(k, 4 - k % 4);
    hide Spec.Right;
  }

  lemma InvShiftRowsBytes(s: Block, t: Block)
    requires t[0] == s[0] && t[1] == s[13] && t[2] == s[10] && t[3] == s[7]
    requires t[4] == s[4] && t[5] == s[1] && t[6] == s[14] && t[7] == s[11]
    requires t[8] == s[8] && t[9] == s[5] && t[10] == s[2] && t[11] == s[15]
    requires t[12] == s[12] && t[13] == s[9] && t[14] == s[6] && t[15] == s[3]
    ensures t == Spec.InvShiftRows(s)
  {
    hide *;
    InvShiftRowsByte(s, 0, 0); InvShiftRowsByte(s, 1, 13); InvShiftRowsByte(s, 2, 10); InvShiftRowsByte(s, 3, 7);
    InvShiftRowsByte(s, 4, 4); InvShiftRowsByte(s, 5, 1); InvShiftRowsByte(s, 6, 14); InvShiftRowsByte(s, 7, 11);
    InvShiftRowsByte(s, 8, 8); InvShiftRowsByte(s, 9, 5); InvShiftRowsByte(s, 10, 2); InvShiftRowsByte(s, 11, 15);
    InvShiftRowsByte(s, 12, 12); InvShiftRowsByte(s, 13, 9); InvShiftRowsByte(s, 14, 6); InvShiftRowsByte(s, 15, 3);
    SameBytes(t, Spec.InvShiftRows(s));
  }

  /** Four bytes of a block move one place around. */
  function Cycled(b: Block, p0: nat, p1: nat, p2: nat, p3: nat): Block
    requires p0 < 16 && p1 < 16 && p2 < 16 && p3 < 16
  {
    b[p0 := b[p1]][p1 := b[p2]][p2 := b[p3]][p3 := b[p0]]
  }

  lemma CycledInBuffer(before: seq<bv8>, after: seq<bv8>, at: nat, p0: nat, p1: nat, p2: nat, p3: nat)
    requires at + 16 <= |before| && p0 < 16 && p1 < 16 && p2 < 16 && p3 < 16
    requires p0 != p1 && p0 != p2 && p0 != p3 && p1 != p2 && p1 != p3 && p2 != p3 && |after| == |before|
    requires after[at + p0] == before[at + p1] && after[at + p1] == before[at + p2]
    requires after[at + p2] == before[at + p3] && after[at + p3] == before[at + p0]
    requires forall k | 0 <= k < |before| && k != at + p0 && k != at + p1 && k != at + p2 && k != at + p3 ::
        after[k] == before[k]
    ensures after[at .. at + 16] == Cycled(before[at .. at + 16], p0, p1, p2, p3)
    ensures Spec.Around(before, after, at)
  {
  }

  function Exchanged(b: Block, p: nat, q: nat): Block
    requires p < 16 && q < 16
  {
    b[p := b[q]][q := b[p]]
  }

  lemma ShiftRowsSteps(b: Block)
    ensures Cycled(Exchanged(Exchanged(Cycled(b, 1, 5, 9, 13), 2, 10), 6, 14), 3, 15, 11, 7) == Spec.ShiftRows(b)
  {
    hide Spec.ShiftRows;
    ShiftRowsBytes(b, Cycled(Exchanged(Exchanged(Cycled(b, 1, 5, 9, 13), 2, 10), 6, 14), 3, 15, 11, 7));
  }

  lemma InvShiftRowsSteps(b: Block)
    ensures Cycled(Exchanged(Exchanged(Cycled(b, 13, 9, 5, 1), 2, 10), 6, 14), 3, 7, 11, 15) == Spec.InvShiftRows(b)
  {
    hide Spec.InvShiftRows;
    InvShiftRowsBytes(b, Cycled(Exchanged(Exchanged(Cycled(b, 13, 9, 5, 1), 2, 10), 6, 14), 3, 7, 11, 15));
  }

  lemma BelowIs(i: nat, r: nat, k: nat)
    requires i < 4 && r < 4 && k < 4
    ensures Spec.Below(4 * i + r, k) == 4 * i + (if r + k < 4 then r + k else r + k - 4)
  {
    assert (4 * i + r) / 4 == i && (4 * i + r) % 4 == r;
  }

  lemma BelowInColumn(i: nat, r: nat)
    requires i < 4 && r < 4
    ensures Spec.Below(4 * i + r, 0) == 4 * i + r
    ensures Spec.Below(4 * i + r, 1) == 4 * i + (if r < 3 then r + 1 else r - 3)
    ensures Spec.Below(4 * i + r, 2) == 4 * i + (if r < 2 then r + 2 else r - 2)
    ensures Spec.Below(4 * i + r, 3) == 4 * i + (if r < 1 then r + 3 else r - 1)
  {
    hide Spec.Below;
    BelowIs(i, r, 0);
    BelowIs(i, r, 1);
    BelowIs(i, r, 2);
    BelowIs(i, r, 3);
  }

  lemma MixedByte(s: Block, k: nat)
    requires k < 16
    ensures Spec.MixColumns(s)[k]
         == Mix(s[Spec.Below(k, 0)], s[Spec.Below(k, 1)], s[Spec.Below(k, 2)], s[Spec.Below(k, 3)])
  {
    hide Mix, Spec.Below;
  }

  lemma MixedColumn(s: Block, i: nat)
    requires i < 4
    ensures var m := Spec.MixColumns(s);
            var a0, a1, a2, a3 := s[4 * i], s[4 * i + 1], s[4 * i + 2], s[4 * i + 3];
            && m[4 * i] == Mix(a0, a1, a2, a3) && m[4 * i + 1] == Mix(a1, a2, a3, a0)
            && m[4 * i + 2] == Mix(a2, a3, a0, a1) && m[4 * i + 3] == Mix(a3, a0, a1, a2)
  {
    hide Mix, Spec.Below, Spec.MixColumns;
    MixedByte(s, 4 * i);
    MixedByte(s, 4 * i + 1);
    MixedByte(s, 4 * i + 2);
    MixedByte(s, 4 * i + 3);
    BelowInColumn(i, 0);
    BelowInColumn(i, 1);
    BelowInColumn(i, 2);
    BelowInColumn(i, 3);
  }

  lemma UnmixedByte(s: Block, k: nat)
    requires k < 16
    ensures Spec.InvMixColumns(s)[k]
         == InvMix(s[Spec.Below(k, 0)], s[Spec.Below(k, 1)], s[Spec.Below(k, 2)], s[Spec.Below(k, 3)])
  {
    hide InvMix, Spec.Below;
  }

  lemma UnmixedColumn(s: Block, i: nat)
    requires i < 4
    ensures var m := Spec.InvMixColumns(s);
            var a0, a1, a2, a3 := s[4 * i], s[4 * i + 1], s[4 * i + 2], s[4 * i + 3];
            && m[4 * i] == InvMix(a0, a1, a2, a3) && m[4 * i + 1] == InvMix(a1, a2, a3, a0)
            && m[4 * i + 2] == InvMix(a2, a3, a0, a1) && m[4 * i + 3] == InvMix(a3, a0, a1, a2)
  {
    hide InvMix, Spec.Below, Spec.InvMixColumns;
    UnmixedByte(s, 4 * i);
    UnmixedByte(s, 4 * i + 1);
    UnmixedByte(s, 4 * i + 2);
    UnmixedByte(s, 4 * i + 3);
    BelowInColumn(i, 0);
    BelowInColumn(i, 1);
    BelowInColumn(i, 2);
    BelowInColumn(i, 3);
  }

  /** The first `n` bytes of the block at `at` are those of `block`, and nothing else has changed. */
  ghost predicate Prefix(before: seq<bv8>, now: seq<bv8>, at: nat, n: nat, block: Block) {
    && at + 16 <= |before| == |now| && n <= 16
    && forall k :: 0 <= k < |now| ==> now[k] == if at <= k < at + n then block[k - at] else before[k]
  }

  /** Only the four bytes from `c` on have been written. */
  ghost predicate FourWritten(now: seq<bv8>, next: seq<bv8>, c: nat, b0: bv8, b1: bv8, b2: bv8, b3: bv8) {
    && c + 4 <= |now| == |next|
    && next[c] == b0 && next[c + 1] == b1 && next[c + 2] == b2 && next[c + 3] == b3
    && forall k :: 0 <= k < |now| && !(c <= k < c + 4) ==> next[k] == now[k]
  }

  lemma PrefixByte(before: seq<bv8>, now: seq<bv8>, next: seq<bv8>, at: nat, n: nat, block: Block)
    requires Prefix(before, now, at, n, block) && n < 16 && next == now[at + n := block[n]]
    ensures Prefix(before, next, at, n + 1, block)
  {
  }

  lemma PrefixNext(before: seq<bv8>, now: seq<bv8>, next: seq<bv8>, at: nat, n: nat, block: Block)
    requires Prefix(before, now, at, n, block) && n + 4 <= 16
    requires FourWritten(now, next, at + n, block[n], block[n + 1], block[n + 2], block[n + 3])
    ensures Prefix(before, next, at, n + 4, block)
  {
    forall k | 0 <= k < |next|
      ensures next[k] == if at <= k < at + n + 4 then block[k - at] else before[k]
    {
      if at + n <= k < at + n + 4 {
        assert k in {at + n, at + n + 1, at + n + 2, at + n + 3};
      }
    }
  }

  lemma PrefixAll(before: seq<bv8>, now: seq<bv8>, at: nat, block: Block)
    requires Prefix(before, now, at, 16, block)
    ensures now[at .. at + 16] == block
    ensures Spec.Around(before, now, at)
  {
    BlockByByte(before, now, at, block);
  }

  lemma PrefixAt(before: seq<bv8>, now: seq<bv8>, at: nat, n: nat, block: Block)
    requires Prefix(before, now, at, n, block) && n < 16
    ensures now[at + n] == before[at .. at + 16][n]
  {
  }

  lemma XoredByte(a: Block, b: Block, k: nat)
    requires k < 16
    ensures Spec.Xor(a, b)[k] == Add(a[k], b[k])
  {
    hide Add;
  }

  lemma AddedByte(s: Block, w: Spec.Schedule, round: nat, k: nat)
    requires round <= 10 && k < 16
    ensures Spec.AddRoundKey(s, w, round)[k] == Add(s[k], w[16 * round + k])
  {
    hide Add;
  }

  lemma PrefixNone(before: seq<bv8>, at: nat, block: Block)
    requires at + 16 <= |before|
    ensures Prefix(before, before, at, 0, block)
  {
  }

  /** The column that is next has not been changed yet. */
  lemma PrefixColumn(before: seq<bv8>, now: seq<bv8>, at: nat, n: nat, block: Block)
    requires Prefix(before, now, at, n, block) && n + 4 <= 16
    ensures now[at + n] == before[at .. at + 16][n] && now[at + n + 1] == before[at .. at + 16][n + 1]
    ensures now[at + n + 2] == before[at .. at + 16][n + 2] && now[at + n + 3] == before[at .. at + 16][n + 3]
  {
  }

  /** The bytes that a loop over rows `i` and, inside it, columns `j` has passed. */
  predicate Passed(k: nat, i: nat, j: nat) {
    k % 4 < i || (k % 4 == i && k / 4 < j)
  }

  /** Those bytes of the block at `at` are those of `block`, and nothing else has changed. */
  ghost predicate ByRows(before: seq<bv8>, now: seq<bv8>, at: nat, i: nat, j: nat, block: Block) {
    && at + 16 <= |before| == |now|
    && forall k :: 0 <= k < |now| ==>
         now[k] == if at <= k < at + 16 && Passed(k - at, i, j) then block[k - at] else before[k]
  }

  lemma ByRowsNone(before: seq<bv8>, at: nat, block: Block)
    requires at + 16 <= |before|
    ensures ByRows(before, before, at, 0, 0, block)
  {
  }

  lemma PassedNext(k: nat, i: nat, j: nat)
    requires i < 4 && j < 4
    ensures Passed(k, i, j + 1) <==> Passed(k, i, j) || k == 4 * j + i
    ensures !Passed(4 * j + i, i, j)
  {
  }

  lemma ByRowsNext(before: seq<bv8>, now: seq<bv8>, next: seq<bv8>, at: nat, i: nat, j: nat, block: Block)
    requires ByRows(before, now, at, i, j, block) && i < 4 && j < 4
    requires next == now[at + 4 * j + i := block[4 * j + i]]
    ensures ByRows(before, next, at, i, j + 1, block)
  {
    hide Passed;
    forall k | 0 <= k < |next|
      ensures next[k] == if at <= k < at + 16 && Passed(k - at, i, j + 1) then block[k - at] else before[k]
    {
      if at <= k < at + 16 {
        PassedNext(k - at, i, j);
      }
    }
  }

  lemma ByRowsAt(before: seq<bv8>, now: seq<bv8>, at: nat, i: nat, j: nat, block: Block)
    requires ByRows(before, now, at, i, j, block) && i < 4 && j < 4
    ensures now[at + 4 * j + i] == before[at .. at + 16][4 * j + i]
  {
    hide Passed;
    PassedNext(4 * j + i, i, j);
  }

  lemma ByRowsRow(before: seq<bv8>, now: seq<bv8>, at: nat, i: nat, block: Block)
    requires ByRows(before, now, at, i, 4, block) && i < 4
    ensures ByRows(before, now, at, i + 1, 0, block)
  {
    hide Passed;
    forall k | 0 <= k < 16
      ensures Passed(k, i, 4) <==> Passed(k, i + 1, 0)
    {
      PassedRow(k, i);
    }
  }

  lemma PassedRow(k: nat, i: nat)
    requires k < 16
    ensures Passed(k, i, 4) <==> Passed(k, i + 1, 0)
    ensures Passed(k, 4, 0)
  {
  }

  lemma ByRowsAll(before: seq<bv8>, now: seq<bv8>, at: nat, block: Block)
    requires ByRows(before, now, at, 4, 0, block)
    ensures now[at .. at + 16] == block
    ensures Spec.Around(before, now, at)
  {
    hide Passed;
    forall k | 0 <= k < 16
      ensures Passed(k, 4, 0)
    {
      PassedRow(k, 4);
    }
    BlockByByte(before, now, at, block);
  }

  /** The first `n` words of the schedule are in place. */
  ghost predicate Expanded(w: seq<bv8>, key: Block, n: nat) {
    && 4 * n <= |w|
    && forall j :: 0 <= j < n ==> w[4 * j .. 4 * j + 4] == Spec.KeyWord(key, j)
  }

  /** What the second loop holds in `tempa` when it adds word `i - 4`. */
  function Temp(prev: Spec.Word, i: nat): Spec.Word
    requires 4 <= i < 44
  {
    if i % 4 == 0 then [Add(SBox(prev[1]), Rcon(i / 4)), SBox(prev[2]), SBox(prev[3]), SBox(prev[0])] else prev
  }

  lemma TempIsNextWord(key: Block, i: nat)
    requires 4 <= i < 44
    ensures Spec.XorWord(Spec.KeyWord(key, i - 4), Temp(Spec.KeyWord(key, i - 1), i)) == Spec.KeyWord(key, i)
  {
    hide SBox, Add, GfMul;
    if i % 4 == 0 {
      RconIsPower(i / 4);
      var prev := Spec.KeyWord(key, i - 1);
      AddLaws(SBox(prev[2]), 0, 0);
      AddLaws(SBox(prev[3]), 0, 0);
      AddLaws(SBox(prev[0]), 0, 0);
      assert Temp(prev, i) == Spec.XorWord(Spec.SubWord(Spec.RotWord(prev)), [Spec.PowerOfX(i / 4 - 1), 0, 0, 0]);
    }
  }

  lemma ExpandedFour(w: seq<bv8>, key: Block)
    requires |w| == 176 && w[..16] == key
    ensures Expanded(w, key, 4)
  {
    forall j | 0 <= j < 4
      ensures w[4 * j .. 4 * j + 4] == Spec.KeyWord(key, j)
    {
      assert w[4 * j .. 4 * j + 4] == w[..16][4 * j .. 4 * j + 4];
    }
  }

  lemma ExpandedNext(before: seq<bv8>, after: seq<bv8>, key: Block, i: nat)
    requires 4 <= i < 44 && |before| == |after| == 176 && Expanded(before, key, i)
    requires after[..4 * i] == before[..4 * i]
    requires after[4 * i .. 4 * i + 4]
          == Spec.XorWord(before[4 * (i - 4) .. 4 * (i - 4) + 4], Temp(before[4 * (i - 1) .. 4 * (i - 1) + 4], i))
    ensures Expanded(after, key, i + 1)
  {
    hide Temp, Spec.XorWord, Spec.KeyWord;
    TempIsNextWord(key, i);
    forall j | 0 <= j < i
      ensures after[4 * j .. 4 * j + 4] == Spec.KeyWord(key, j)
    {
      assert after[4 * j .. 4 * j + 4] == after[..4 * i][4 * j .. 4 * j + 4] == before[4 * j .. 4 * j + 4];
    }
  }

  lemma ExpandedAll(w: Spec.Schedule, key: Block)
    requires Expanded(w, key, 44)
    ensures w == Spec.ExpandedKey(key)
  {
    forall i | 0 <= i < 176
      ensures w[i] == Spec.ExpandedKey(key)[i]
    {
      assert w[4 * (i / 4) .. 4 * (i / 4) + 4][i % 4] == w[i];
      assert Spec.KeyWord(key, i / 4) == w[4 * (i / 4) .. 4 * (i / 4) + 4];
    }
  }

  class Aes {
    const roundKey: array<bv8>
    var state: array<bv8>
    var stateAt: nat
    var iv: array<bv8>
    var ivAt: nat

    ghost predicate Valid()
      reads this
    {
      && roundKey.Length == 176
      && stateAt + 16 <= state.Length && state != roundKey
      && ivAt + 16 <= iv.Length && iv != roundKey
    }

    constructor ()
      ensures Valid()
    {
      roundKey := new bv8[176];
      state, stateAt := new bv8[16], 0;
      iv, ivAt := new bv8[16], 0;
    }

    ghost function State(): Block
      requires Valid()
      reads this, state
    {
      state[stateAt .. stateAt + 16]
    }

    ghost function Schedule(): Spec.Schedule
      requires Valid()
      reads this, roundKey
    {
      roundKey[..]
    }

    method AddRoundKey(round: nat)
      requires Valid() && round <= 10
      modifies state
      ensures State() == Spec.AddRoundKey(old(State()), old(Schedule()), round)
      ensures Spec.Around(old(state[..]), state[..], stateAt)
    {
      hide Add, Prefix, Spec.AddRoundKey, Spec.Around;
      ghost var before, w := state[..], Schedule();
      ghost var added := Spec.AddRoundKey(State(), w, round);
      PrefixNone(before, stateAt, added);
      for i := 0 to 4
        invariant Prefix(before, state[..], stateAt, 4 * i, added)
      {
        for j := 0 to 4
          invariant Prefix(before, state[..], stateAt, 4 * i + j, added)
        {
          ghost var now := state[..];
          PrefixAt(before, now, stateAt, 4 * i + j, added);
          AddedByte(before[stateAt .. stateAt + 16], w, round, 4 * i + j);
          state[stateAt + 4 * i + j] := Add(state[stateAt + 4 * i + j], roundKey[round * 16 + i * 4 + j]);
          PrefixByte(before, now, state[..], stateAt, 4 * i + j, added);
        }
      }
      PrefixAll(before, state[..], stateAt, added);
    }

    method SubBytes()
      requires Valid()
      modifies state
      ensures State() == Spec.SubBytes(old(State()))
      ensures Spec.Around(old(state[..]), state[..], stateAt)
    {
      hide SBox, ByRows, Spec.Around;
      ghost var before, block := state[..], Spec.SubBytes(State());
      ByRowsNone(before, stateAt, block);
      for i := 0 to 4
        invariant ByRows(before, state[..], stateAt, i, 0, block)
      {
        for j := 0 to 4
          invariant ByRows(before, state[..], stateAt, i, j, block)
        {
          ghost var now := state[..];
          ByRowsAt(before, now, stateAt, i, j, block);
          state[stateAt + 4 * j + i] := SBox(state[stateAt + 4 * j + i]);
          ByRowsNext(before, now, state[..], stateAt, i, j, block);
        }
        ByRowsRow(before, state[..], stateAt, i, block);
      }
      ByRowsAll(before, state[..], stateAt, block);
    }

    method InvSubBytes()
      requires Valid()
      modifies state
      ensures State() == Spec.InvSubBytes(old(State()))
      ensures Spec.Around(old(state[..]), state[..], stateAt)
    {
      hide InvSBox, ByRows, Spec.Around;
      ghost var before, block := state[..], Spec.InvSubBytes(State());
      ByRowsNone(before, stateAt, block);
      for i := 0 to 4
        invariant ByRows(before, state[..], stateAt, i, 0, block)
      {
        for j := 0 to 4
          invariant ByRows(before, state[..], stateAt, i, j, block)
        {
          ghost var now := state[..];
          ByRowsAt(before, now, stateAt, i, j, block);
          state[stateAt + 4 * j + i] := InvSBox(state[stateAt + 4 * j + i]);
          ByRowsNext(before, now, state[..], stateAt, i, j, block);
        }
        ByRowsRow(before, state[..], stateAt, i, block);
      }
      ByRowsAll(before, state[..], stateAt, block);
    }

    /** The four bytes at these places of the buffer move one place around. */
    method Rotate(q0: nat, q1: nat, q2: nat, q3: nat)
      requires q0 < state.Length && q1 < state.Length && q2 < state.Length && q3 < state.Length
      requires q0 != q1 && q0 != q2 && q0 != q3 && q1 != q2 && q1 != q3 && q2 != q3
      modifies state
      ensures state[q0] == old(state[q1]) && state[q1] == old(state[q2])
      ensures state[q2] == old(state[q3]) && state[q3] == old(state[q0])
      ensures forall k | 0 <= k < state.Length && k != q0 && k != q1 && k != q2 && k != q3 :: state[k] == old(state[k])
    {
      var temp := state[q0];
      state[q0] := state[q1];
      state[q1] := state[q2];
      state[q2] := state[q3];
      state[q3] := temp;
    }

    method Cycle(p0: nat, p1: nat, p2: nat, p3: nat)
      requires Valid() && p0 < 16 && p1 < 16 && p2 < 16 && p3 < 16
      requires p0 != p1 && p0 != p2 && p0 != p3 && p1 != p2 && p1 != p3 && p2 != p3
      modifies state
      ensures State() == Cycled(old(State()), p0, p1, p2, p3)
      ensures Spec.Around(old(state[..]), state[..], stateAt)
    {
      hide Cycled, Spec.Around;
      Rotate(stateAt + p0, stateAt + p1, stateAt + p2, stateAt + p3);
      CycledInBuffer(old(state[..]), state[..], stateAt, p0, p1, p2, p3);
    }

    method Exchange(p: nat, q: nat)
      requires Valid() && p < 16 && q < 16
      modifies state
      ensures State() == Exchanged(old(State()), p, q)
      ensures Spec.Around(old(state[..]), state[..], stateAt)
    {
      var temp := state[stateAt + p];
      state[stateAt + p] := state[stateAt + q];
      state[stateAt + q] := temp;
      BlockByByte(old(state[..]), state[..], stateAt, Exchanged(old(State()), p, q));
    }

    method ShiftRows()
      requires Valid()
      modifies state
      ensures State() == Spec.ShiftRows(old(State()))
      ensures Spec.Around(old(state[..]), state[..], stateAt)
    {
      hide Spec.ShiftRows, Cycled, Exchanged;
      Cycle(1, 5, 9, 13);
      Exchange(2, 10);
      Exchange(6, 14);
      Cycle(3, 15, 11, 7);
      ShiftRowsSteps(old(State()));
    }

    method InvShiftRows()
      requires Valid()
      modifies state
      ensures State() == Spec.InvShiftRows(old(State()))
      ensures Spec.Around(old(state[..]), state[..], stateAt)
    {
      hide Spec.InvShiftRows, Cycled, Exchanged;
      Cycle(13, 9, 5, 1);
      Exchange(2, 10);
      Exchange(6, 14);
      Cycle(3, 7, 11, 15);
      InvShiftRowsSteps(old(State()));
    }

    /** The column that starts at `c`, mixed in place; `t`, `tmp` and `tm` are the source's. */
    method MixColumn(c: nat)
      requires c + 4 <= state.Length
      modifies state
      ensures var a0, a1, a2, a3 := old(state[c]), old(state[c + 1]), old(state[c + 2]), old(state[c + 3]);
              FourWritten(old(state[..]), state[..], c,
                Mix(a0, a1, a2, a3), Mix(a1, a2, a3, a0), Mix(a2, a3, a0, a1), Mix(a3, a0, a1, a2))
    {
      hide Add, Xtime, Mix;
      ghost var a0, a1, a2, a3 := state[c], state[c + 1], state[c + 2], state[c + 3];
      var t := state[c];
      var tmp := Add(Add(Add(state[c], state[c + 1]), state[c + 2]), state[c + 3]);
      var tm := Add(state[c], state[c + 1]);
      tm := Xtime(tm);
      state[c] := Add(state[c], Add(tm, tmp));
      tm := Add(state[c + 1], state[c + 2]);
      tm := Xtime(tm);
      state[c + 1] := Add(state[c + 1], Add(tm, tmp));
      tm := Add(state[c + 2], state[c + 3]);
      tm := Xtime(tm);
      state[c + 2] := Add(state[c + 2], Add(tm, tmp));
      tm := Add(state[c + 3], t);
      tm := Xtime(tm);
      state[c + 3] := Add(state[c + 3], Add(tm, tmp));
      ColumnShortcuts(a0, a1, a2, a3, tmp);
    }

    method MixColumns()
      requires Valid()
      modifies state
      ensures State() == Spec.MixColumns(old(State()))
      ensures Spec.Around(old(state[..]), state[..], stateAt)
    {
      hide Prefix, Spec.Around, Spec.MixColumns;
      ghost var before := state[..];
      ghost var mixed := Spec.MixColumns(State());
      PrefixNone(before, stateAt, mixed);
      for i := 0 to 4
        invariant Prefix(before, state[..], stateAt, 4 * i, mixed)
      {
        MixColumnNext(before, i);
      }
      PrefixAll(before, state[..], stateAt, mixed);
    }

    method MixColumnNext(ghost before: seq<bv8>, i: nat)
      requires Valid() && i < 4 && stateAt + 16 <= |before|
      requires Prefix(before, state[..], stateAt, 4 * i, Spec.MixColumns(before[stateAt .. stateAt + 16]))
      modifies state
      ensures Prefix(before, state[..], stateAt, 4 * i + 4, Spec.MixColumns(before[stateAt .. stateAt + 16]))
    {
      hide Prefix, FourWritten, Mix, Spec.MixColumns;
      ghost var now, block := state[..], before[stateAt .. stateAt + 16];
      PrefixColumn(before, now, stateAt, 4 * i, Spec.MixColumns(block));
      MixedColumn(block, i);
      MixColumn(stateAt + 4 * i);
      PrefixNext(before, now, state[..], stateAt, 4 * i, Spec.MixColumns(block));
    }

    method InvMixColumn(s: nat)
      requires s + 4 <= state.Length
      modifies state
      ensures var a, b, c, d := old(state[s]), old(state[s + 1]), old(state[s + 2]), old(state[s + 3]);
              FourWritten(old(state[..]), state[..], s,
                InvMix(a, b, c, d), InvMix(b, c, d, a), InvMix(c, d, a, b), InvMix(d, a, b, c))
    {
      hide Add, Multiply, InvMix;
      var a, b, c, d := state[s], state[s + 1], state[s + 2], state[s + 3];
      state[s] := Add(Add(Add(Multiply(a, 0x0e), Multiply(b, 0x0b)), Multiply(c, 0x0d)), Multiply(d, 0x09));
      state[s + 1] := Add(Add(Add(Multiply(a, 0x09), Multiply(b, 0x0e)), Multiply(c, 0x0b)), Multiply(d, 0x0d));
      state[s + 2] := Add(Add(Add(Multiply(a, 0x0d), Multiply(b, 0x09)), Multiply(c, 0x0e)), Multiply(d, 0x0b));
      state[s + 3] := Add(Add(Add(Multiply(a, 0x0b), Multiply(b, 0x0d)), Multiply(c, 0x09)), Multiply(d, 0x0e));
      UnmixedIsInvMix(a, b, c, d);
    }

    method InvMixColumns()
      requires Valid()
      modifies state
      ensures State() == Spec.InvMixColumns(old(State()))
      ensures Spec.Around(old(state[..]), state[..], stateAt)
    {
      hide Prefix, Spec.Around, Spec.InvMixColumns;
      ghost var before := state[..];
      ghost var unmixed := Spec.InvMixColumns(State());
      PrefixNone(before, stateAt, unmixed);
      for i := 0 to 4
        invariant Prefix(before, state[..], stateAt, 4 * i, unmixed)
      {
        InvMixColumnNext(before, i);
      }
      PrefixAll(before, state[..], stateAt, unmixed);
    }

    method InvMixColumnNext(ghost before: seq<bv8>, i: nat)
      requires Valid() && i < 4 && stateAt + 16 <= |before|
      requires Prefix(before, state[..], stateAt, 4 * i, Spec.InvMixColumns(before[stateAt .. stateAt + 16]))
      modifies state
      ensures Prefix(before, state[..], stateAt, 4 * i + 4, Spec.InvMixColumns(before[stateAt .. stateAt + 16]))
    {
      hide Prefix, FourWritten, InvMix, Spec.InvMixColumns;
      ghost var now, block := state[..], before[stateAt .. stateAt + 16];
      PrefixColumn(before, now, stateAt, 4 * i, Spec.InvMixColumns(block));
      UnmixedColumn(block, i);
      InvMixColumn(stateAt + 4 * i);
      PrefixNext(before, now, state[..], stateAt, 4 * i, Spec.InvMixColumns(block));
    }

    /** Writes the key schedule for the sixteen key bytes at `keyAt`. */
    method KeyExpansion(key: array<bv8>, keyAt: nat)
      requires Valid() && keyAt + 16 <= key.Length && key != roundKey
      modifies roundKey
      ensures Schedule() == Spec.ExpandedKey(key[keyAt .. keyAt + 16])
    {
      hide Expanded;
      ghost var k: Block := key[keyAt .. keyAt + 16];
      for i := 0 to 4
        invariant forall j | 0 <= j < 4 * i :: roundKey[j] == k[j]
      {
        roundKey[4 * i] := key[keyAt + 4 * i];
        roundKey[4 * i + 1] := key[keyAt + 4 * i + 1];
        roundKey[4 * i + 2] := key[keyAt + 4 * i + 2];
        roundKey[4 * i + 3] := key[keyAt + 4 * i + 3];
      }
      assert roundKey[..][..16] == k;
      ExpandedFour(roundKey[..], k);
      for i := 4 to 44
        invariant Expanded(roundKey[..], k, i)
      {
        KeyExpansionStep(k, i);
      }
      ExpandedAll(roundKey[..], k);
    }

    /** One turn of the second loop of the key expansion: word `i` from the words before it. */
    method KeyExpansionStep(ghost k: Block, i: nat)
      requires Valid() && 4 <= i < 44 && Expanded(roundKey[..], k, i)
      modifies roundKey
      ensures Expanded(roundKey[..], k, i + 1)
    {
      hide Expanded, Temp, Spec.XorWord;
      ghost var before := roundKey[..];
      var t0, t1, t2, t3 := NextTemp(i);
      StoreWord(i, t0, t1, t2, t3);
      ExpandedNext(before, roundKey[..], k, i);
    }

    method NextTemp(i: nat) returns (t0: bv8, t1: bv8, t2: bv8, t3: bv8)
      requires Valid() && 4 <= i < 44
      ensures [t0, t1, t2, t3] == Temp(roundKey[..][4 * (i - 1) .. 4 * (i - 1) + 4], i)
    {
      hide SBox, Add, Rcon;
      t0, t1, t2, t3 := roundKey[(i - 1) * 4], roundKey[(i - 1) * 4 + 1], roundKey[(i - 1) * 4 + 2],
          roundKey[(i - 1) * 4 + 3];
      assert roundKey[..][4 * (i - 1) .. 4 * (i - 1) + 4] == [t0, t1, t2, t3];
      if i % 4 == 0 {
        t0, t1, t2, t3 := t1, t2, t3, t0;
        t0, t1, t2, t3 := SBox(t0), SBox(t1), SBox(t2), SBox(t3);
        t0 := Add(t0, Rcon(i / 4));
      }
    }

    /** Writes word `i`: word `i - 4` with `t0 .. t3` added. */
    method StoreWord(i: nat, t0: bv8, t1: bv8, t2: bv8, t3: bv8)
      requires Valid() && 4 <= i < 44
      modifies roundKey
      ensures roundKey[..4 * i] == old(roundKey[..4 * i])
      ensures roundKey[..][4 * i .. 4 * i + 4]
           == Spec.XorWord(old(roundKey[..])[4 * (i - 4) .. 4 * (i - 4) + 4], [t0, t1, t2, t3])
    {
      hide Add;
      var p := (i - 4) * 4;
      roundKey[i * 4] := Add(roundKey[p], t0);
      roundKey[i * 4 + 1] := Add(roundKey[p + 1], t1);
      roundKey[i * 4 + 2] := Add(roundKey[p + 2], t2);
      roundKey[i * 4 + 3] := Add(roundKey[p + 3], t3);
    }

    method Cipher()
      requires Valid()
      modifies state
      ensures State() == Spec.Cipher(old(Schedule()), old(State()))
      ensures Spec.Around(old(state[..]), state[..], stateAt)
    {
      hide Spec.AddRoundKey, Spec.SubBytes, Spec.ShiftRows, Spec.MixColumns;
      AddRoundKey(0);
      for round := 1 to 10
        invariant State() == Spec.EncryptRounds(Schedule(), old(State()), round - 1)
        invariant Spec.Around(old(state[..]), state[..], stateAt)
      {
        SubBytes();
        ShiftRows();
        MixColumns();
        AddRoundKey(round);
      }
      SubBytes();
      ShiftRows();
      AddRoundKey(10);
    }

    method InvCipher()
      requires Valid()
      modifies state
      ensures State() == Spec.InvCipher(old(Schedule()), old(State()))
      ensures Spec.Around(old(state[..]), state[..], stateAt)
    {
      hide Spec.AddRoundKey, Spec.InvSubBytes, Spec.InvShiftRows, Spec.InvMixColumns;
      AddRoundKey(10);
      for round := 10 downto 1
        invariant State() == Spec.DecryptRounds(Schedule(), old(State()), round)
        invariant Spec.Around(old(state[..]), state[..], stateAt)
      {
        InvShiftRows();
        InvSubBytes();
        AddRoundKey(round);
        InvMixColumns();
      }
      InvShiftRows();
      InvSubBytes();
      AddRoundKey(0);
    }

    ghost function Iv(): Block
      requires Valid()
      reads this, iv
    {
      iv[ivAt .. ivAt + 16]
    }

    /** memcpy between different buffers. */
    method Copy(dst: array<bv8>, dstAt: nat, src: array<bv8>, srcAt: nat, n: nat)
      requires dstAt + n <= dst.Length && srcAt + n <= src.Length && dst != src
      modifies dst
      ensures dst[dstAt .. dstAt + n] == src[srcAt .. srcAt + n]
      ensures dst[..dstAt] == old(dst[..dstAt]) && dst[dstAt + n..] == old(dst[dstAt + n..])
    {
      for i := 0 to n
        invariant dst[dstAt .. dstAt + i] == src[srcAt .. srcAt + i]
        invariant dst[..dstAt] == old(dst[..dstAt]) && dst[dstAt + i..] == old(dst[dstAt + i..])
      {
        dst[dstAt + i] := src[srcAt + i];
      }
    }

    /** Encrypts the first block of the output, after copying `length` bytes of input to it; with fewer than sixteen,
        the bytes that the output held behind them are encrypted with them. */
    method EcbEncrypt(input: array<bv8>, key: array<bv8>, output: array<bv8>, length: nat)
      requires Valid() && key.Length >= 16 && length <= input.Length && length <= output.Length && 16 <= output.Length
      requires input != output && input != roundKey && output != roundKey && key != roundKey && key != output
      modifies this`state, this`stateAt, roundKey, output
      ensures Valid()
      ensures Schedule() == Spec.ExpandedKey(key[..16])
      ensures var copied := input[..length] + old(output[length..]);
              output[..16] == Spec.Cipher(Schedule(), copied[..16]) && output[16..] == copied[16..]
    {
      hide Spec.Cipher, Spec.InvCipher, Spec.ExpandedKey;
      Copy(output, 0, input, 0, length);
      ghost var copied := output[..];
      assert copied == input[..length] + old(output[length..]);
      state, stateAt := output, 0;
      KeyExpansion(key, 0);
      assert State() == copied[..16];
      Cipher();
      assert output[..16] == State();
      assert output[16..] == output[..][0 + 16..] == copied[0 + 16..];
    }

    method EcbDecrypt(input: array<bv8>, key: array<bv8>, output: array<bv8>, length: nat)
      requires Valid() && key.Length >= 16 && length <= input.Length && length <= output.Length && 16 <= output.Length
      requires input != output && input != roundKey && output != roundKey && key != roundKey && key != output
      modifies this`state, this`stateAt, roundKey, output
      ensures Valid()
      ensures Schedule() == Spec.ExpandedKey(key[..16])
      ensures var copied := input[..length] + old(output[length..]);
              output[..16] == Spec.InvCipher(Schedule(), copied[..16]) && output[16..] == copied[16..]
    {
      hide Spec.Cipher, Spec.InvCipher, Spec.ExpandedKey;
      Copy(output, 0, input, 0, length);
      ghost var copied := output[..];
      assert copied == input[..length] + old(output[length..]);
      state, stateAt := output, 0;
      KeyExpansion(key, 0);
      assert State() == copied[..16];
      InvCipher();
      assert output[..16] == State();
      assert output[16..] == output[..][0 + 16..] == copied[0 + 16..];
    }

    method XorWithIv(buf: array<bv8>, at: nat)
      requires Valid() && at + 16 <= buf.Length && buf != roundKey
      requires buf != iv || at <= ivAt || ivAt + 16 <= at
      modifies buf
      ensures buf[at .. at + 16] == Spec.Xor(old(buf[at .. at + 16]), old(Iv()))
      ensures Spec.Around(old(buf[..]), buf[..], at)
    {
      hide Add, Prefix, Spec.Xor, Spec.Around;
      ghost var before, mask := buf[..], Iv();
      ghost var xored := Spec.Xor(before[at .. at + 16], mask);
      PrefixNone(before, at, xored);
      for i := 0 to 16
        invariant Prefix(before, buf[..], at, i, xored)
        invariant forall k :: i <= k < 16 ==> iv[ivAt + k] == mask[k]
      {
        ghost var now := buf[..];
        PrefixAt(before, now, at, i, xored);
        XoredByte(before[at .. at + 16], mask, i);
        buf[at + i] := Add(buf[at + i], iv[ivAt + i]);
        PrefixByte(before, now, buf[..], at, i, xored);
      }
      PrefixAll(before, buf[..], at, xored);
    }

    /** One turn of the CBC encryption loop. */
    method CbcEncryptBlock(output: array<bv8>, outAt: nat, input: array<bv8>, inAt: nat)
      requires Valid() && input != output && input != roundKey && output != roundKey
      requires outAt + 16 <= output.Length && inAt + 16 <= input.Length
      requires input != iv || inAt + 16 <= ivAt || ivAt + 16 <= inAt
      modifies this, input, output
      ensures Valid() && Schedule() == old(Schedule())
      ensures iv == output && ivAt == outAt
      ensures input[inAt .. inAt + 16] == Spec.Xor(old(input[inAt .. inAt + 16]), old(Iv()))
      ensures output[outAt .. outAt + 16] == Spec.Cipher(Schedule(), input[inAt .. inAt + 16])
      ensures Spec.Around(old(input[..]), input[..], inAt) && Spec.Around(old(output[..]), output[..], outAt)
    {
      hide Spec.Xor, Spec.Cipher;
      XorWithIv(input, inAt);
      Copy(output, outAt, input, inAt, 16);
      state, stateAt := output, outAt;
      Cipher();
      iv, ivAt := output, outAt;
    }

    /** The start of both CBC calls: a null `key` keeps the round keys, a null `newIv` goes on from the
        block the previous call ended on. */
    method Prepare(key: array?<bv8>, newIv: array?<bv8>)
      requires Valid()
      requires key != null ==> key.Length >= 16 && key != roundKey
      requires newIv != null ==> newIv.Length >= 16 && newIv != roundKey
      modifies this`iv, this`ivAt, roundKey
      ensures Valid()
      ensures Schedule() == if key != null then Spec.ExpandedKey(key[..16]) else old(Schedule())
      ensures if newIv != null then iv == newIv && ivAt == 0 else iv == old(iv) && ivAt == old(ivAt)
    {
      hide Spec.ExpandedKey;
      if key != null {
        KeyExpansion(key, 0);
      }
      if newIv != null {
        iv, ivAt := newIv, 0;
      }
    }

    /** The initialisation vector that a call starts from. */
    ghost function StartIv(newIv: array?<bv8>): Block
      requires Valid() && (newIv != null ==> newIv.Length >= 16)
      reads this, iv, newIv
    {
      if newIv != null then newIv[..16] else Iv()
    }

    /** No byte of the initialisation vector lies in `n` blocks of a buffer. */
    ghost predicate IvApart(buf: array<bv8>, at: nat, n: nat)
      reads this
    {
      iv != buf || ivAt + 16 <= at || at + 16 * n <= ivAt
    }

    /** CBC encryption of a buffer. A last partial block is processed as a whole block. */
    method CbcEncryptBuffer(output: array<bv8>, outAt: nat, input: array<bv8>, inAt: nat, length: nat,
                            key: array?<bv8>, newIv: array?<bv8>)
      requires Valid() && input != output && input != roundKey && output != roundKey
      requires var n := Cbc.BlocksIn(length); outAt + 16 * n <= output.Length && inAt + 16 * n <= input.Length
      requires key != null ==> key.Length >= 16 && key != roundKey
      requires newIv != null ==> newIv.Length >= 16 && newIv != roundKey && (newIv != input || 16 <= inAt)
      requires newIv == null ==> IvApart(input, inAt, Cbc.BlocksIn(length))
      modifies this, roundKey, input, output
      ensures Valid()
      ensures Schedule() == if key != null then Spec.ExpandedKey(old(key[..16])) else old(Schedule())
      ensures var n := Cbc.BlocksIn(length);
              && Cbc.Encrypted(Schedule(), old(StartIv(newIv)), n, old(input[..]), input[..], inAt, old(output[..]),
                  output[..], outAt)
              && (n > 0 ==> iv == output && ivAt == outAt + 16 * n - 16)
              && (n == 0 ==> Iv() == old(StartIv(newIv)) && iv == (if newIv != null then newIv else old(iv))
                             && ivAt == (if newIv != null then 0 else old(ivAt)))
    {
      hide Spec.ExpandedKey, Cbc.Encrypted;
      Prepare(key, newIv);
      CbcEncryptBlocks(output, outAt, input, inAt, length);
    }

    /** One turn of the CBC encryption loop, at block `j` of the buffer. */
    method CbcEncryptNext(output: array<bv8>, outAt: nat, input: array<bv8>, inAt: nat, i: nat, ghost w: Spec.Schedule,
                          ghost iv0: Block, ghost n: nat, ghost in0: seq<bv8>, ghost out0: seq<bv8>, ghost j: nat)
      requires Valid() && input != output && input != roundKey && output != roundKey && Schedule() == w
      requires j < n && i == 16 * j && outAt + 16 * n <= output.Length && inAt + 16 * n <= input.Length
      requires Cbc.EncryptedPrefix(w, iv0, n, in0, input[..], inAt, out0, output[..], outAt, j)
      requires Iv() == Cbc.Last(iv0, Cbc.Blocks(output[..], outAt, j))
      requires if j == 0 then IvApart(input, inAt, n) else iv == output
      modifies this, input, output
      ensures Valid() && Schedule() == w && iv == output && ivAt == outAt + i
      ensures Cbc.EncryptedPrefix(w, iv0, n, in0, input[..], inAt, out0, output[..], outAt, j + 1)
      ensures Iv() == Cbc.Last(iv0, Cbc.Blocks(output[..], outAt, j + 1))
    {
      hide Spec.Cipher, Spec.Xor, Spec.Around, Cbc.EncryptedPrefix, Cbc.Blocks, Cbc.Last;
      ghost var in1, out1 := input[..], output[..];
      CbcEncryptBlock(output, outAt + i, input, inAt + i);
      Cbc.EncryptedNext(w, iv0, n, in0, in1, input[..], inAt, out0, out1, output[..], outAt, j);
    }

    method CbcEncryptBlocks(output: array<bv8>, outAt: nat, input: array<bv8>, inAt: nat, length: nat)
      requires Valid() && input != output && input != roundKey && output != roundKey
      requires var n := Cbc.BlocksIn(length); outAt + 16 * n <= output.Length && inAt + 16 * n <= input.Length
      requires IvApart(input, inAt, Cbc.BlocksIn(length))
      modifies this, input, output
      ensures Valid() && Schedule() == old(Schedule())
      ensures var n := Cbc.BlocksIn(length);
              && Cbc.Encrypted(Schedule(), old(Iv()), n, old(input[..]), input[..], inAt, old(output[..]), output[..],
                  outAt)
              && (n > 0 ==> iv == output && ivAt == outAt + 16 * n - 16)
              && (n == 0 ==> Iv() == old(Iv()) && iv == old(iv) && ivAt == old(ivAt))
    {
      hide Spec.Cipher, Spec.Xor, Spec.Around, Cbc.EncryptedPrefix, Cbc.Blocks, Cbc.Last, Cbc.BlocksIn;
      ghost var n := Cbc.BlocksIn(length);
      ghost var w, iv0, in0, out0 := Schedule(), Iv(), input[..], output[..];
      ghost var j := 0;
      Cbc.EncryptedNone(w, iv0, n, in0, inAt, out0, outAt);
      var i := 0;
      while i < length
        invariant i == 16 * j && j <= n
        invariant Valid() && Schedule() == w
        invariant Cbc.EncryptedPrefix(w, iv0, n, in0, input[..], inAt, out0, output[..], outAt, j)
        invariant Iv() == Cbc.Last(iv0, Cbc.Blocks(output[..], outAt, j))
        invariant if j == 0 then IvApart(input, inAt, n) && Iv() == iv0 && iv == old(iv) && ivAt == old(ivAt)
                  else iv == output && ivAt == outAt + 16 * j - 16
      {
        Cbc.BlocksLeft(length, j);
        CbcEncryptNext(output, outAt, input, inAt, i, w, iv0, n, in0, out0, j);
        i := i + 16;
        j := j + 1;
      }
      Cbc.BlocksLeft(length, j);
    }

    /** One turn of the CBC decryption loop. */
    method CbcDecryptBlock(output: array<bv8>, outAt: nat, input: array<bv8>, inAt: nat)
      requires Valid() && input != output && input != roundKey && output != roundKey
      requires outAt + 16 <= output.Length && inAt + 16 <= input.Length
      requires IvApart(output, outAt, 1)
      modifies this, output
      ensures Valid() && Schedule() == old(Schedule())
      ensures iv == input && ivAt == inAt
      ensures output[outAt .. outAt + 16] == Spec.Xor(Spec.InvCipher(Schedule(), input[inAt .. inAt + 16]), old(Iv()))
      ensures Spec.Around(old(output[..]), output[..], outAt)
    {
      hide Spec.Xor, Spec.InvCipher;
      Copy(output, outAt, input, inAt, 16);
      state, stateAt := output, outAt;
      InvCipher();
      assert Iv() == old(Iv()) by {
        if iv == output {
          KeptAround(old(output[..]), output[..], outAt, ivAt);
        }
      }
      XorWithIv(output, outAt);
      iv, ivAt := input, inAt;
    }

    /** CBC decryption of a buffer. */
    method CbcDecryptBuffer(output: array<bv8>, outAt: nat, input: array<bv8>, inAt: nat, length: nat,
                            key: array?<bv8>, newIv: array?<bv8>)
      requires Valid() && input != output && input != roundKey && output != roundKey
      requires var n := Cbc.BlocksIn(length); outAt + 16 * n <= output.Length && inAt + 16 * n <= input.Length
      requires key != null ==> key.Length >= 16 && key != roundKey
      requires newIv != null ==> newIv.Length >= 16 && newIv != roundKey && (newIv != output || 16 <= outAt)
      requires newIv == null ==> IvApart(output, outAt, Cbc.BlocksIn(length))
      modifies this, roundKey, output
      ensures Valid()
      ensures Schedule() == if key != null then Spec.ExpandedKey(old(key[..16])) else old(Schedule())
      ensures var n := Cbc.BlocksIn(length);
              && Cbc.Decrypted(Schedule(), old(StartIv(newIv)), n, input[..], inAt, old(output[..]), output[..], outAt)
              && (n > 0 ==> iv == input && ivAt == inAt + 16 * n - 16)
              && (n == 0 ==> Iv() == old(StartIv(newIv)) && iv == (if newIv != null then newIv else old(iv))
                             && ivAt == (if newIv != null then 0 else old(ivAt)))
    {
      hide Spec.ExpandedKey, Cbc.Decrypted;
      Prepare(key, newIv);
      CbcDecryptBlocks(output, outAt, input, inAt, length);
    }

    method CbcDecryptNext(output: array<bv8>, outAt: nat, input: array<bv8>, inAt: nat, i: nat, ghost w: Spec.Schedule,
                          ghost iv0: Block, ghost n: nat, ghost out0: seq<bv8>, ghost j: nat)
      requires Valid() && input != output && input != roundKey && output != roundKey && Schedule() == w
      requires j < n && i == 16 * j && outAt + 16 * n <= output.Length && inAt + 16 * n <= input.Length
      requires Cbc.DecryptedPrefix(w, iv0, n, input[..], inAt, out0, output[..], outAt, j)
      requires Iv() == Cbc.Last(iv0, Cbc.Blocks(input[..], inAt, j))
      requires if j == 0 then IvApart(output, outAt, n) else iv == input
      modifies this, output
      ensures Valid() && Schedule() == w && iv == input && ivAt == inAt + i
      ensures Cbc.DecryptedPrefix(w, iv0, n, input[..], inAt, out0, output[..], outAt, j + 1)
      ensures Iv() == Cbc.Last(iv0, Cbc.Blocks(input[..], inAt, j + 1))
    {
      hide Spec.InvCipher, Spec.Xor, Spec.Around, Cbc.DecryptedPrefix, Cbc.Blocks, Cbc.Last;
      ghost var out1 := output[..];
      CbcDecryptBlock(output, outAt + i, input, inAt + i);
      Cbc.DecryptedNext(w, iv0, n, input[..], inAt, out0, out1, output[..], outAt, j);
    }

    method CbcDecryptBlocks(output: array<bv8>, outAt: nat, input: array<bv8>, inAt: nat, length: nat)
      requires Valid() && input != output && input != roundKey && output != roundKey
      requires var n := Cbc.BlocksIn(length); outAt + 16 * n <= output.Length && inAt + 16 * n <= input.Length
      requires IvApart(output, outAt, Cbc.BlocksIn(length))
      modifies this, output
      ensures Valid() && Schedule() == old(Schedule())
      ensures var n := Cbc.BlocksIn(length);
              && Cbc.Decrypted(Schedule(), old(Iv()), n, input[..], inAt, old(output[..]), output[..], outAt)
              && (n > 0 ==> iv == input && ivAt == inAt + 16 * n - 16)
              && (n == 0 ==> Iv() == old(Iv()) && iv == old(iv) && ivAt == old(ivAt))
    {
      hide Spec.InvCipher, Spec.Xor, Spec.Around, Cbc.DecryptedPrefix, Cbc.Blocks, Cbc.Last, Cbc.BlocksIn;
      ghost var n := Cbc.BlocksIn(length);
      ghost var w, iv0, out0 := Schedule(), Iv(), output[..];
      ghost var j := 0;
      Cbc.DecryptedNone(w, iv0, n, input[..], inAt, out0, outAt);
      var i := 0;
      while i < length
        invariant i == 16 * j && j <= n
        invariant Valid() && Schedule() == w
        invariant Cbc.DecryptedPrefix(w, iv0, n, input[..], inAt, out0, output[..], outAt, j)
        invariant Iv() == Cbc.Last(iv0, Cbc.Blocks(input[..], inAt, j))
        invariant if j == 0 then IvApart(output, outAt, n) && Iv() == iv0 && iv == old(iv) && ivAt == old(ivAt)
                  else iv == input && ivAt == inAt + 16 * j - 16
      {
        Cbc.BlocksLeft(length, j);
        CbcDecryptNext(output, outAt, input, inAt, i, w, iv0, n, out0, j);
        i := i + 16;
        j := j + 1;
      }
      Cbc.BlocksLeft(length, j);
    }
  }
}
