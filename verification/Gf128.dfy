/** Doubling in GF(2^128), as section 2.3 of RFC 4493 needs it: blocks read as numbers, most significant
    byte first, and the bytewise shift of src/util.cc proved to shift the number. */
module Gf128 {
  import opened Gf256
  import opened AesSpec

  function Cat16(a: bv8, b: bv8): bv16 {
    ((a as bv16) << 8) | (b as bv16)
  }

  function Cat32(a: bv16, b: bv16): bv32 {
    ((a as bv32) << 16) | (b as bv32)
  }

  function Cat64(a: bv32, b: bv32): bv64 {
    ((a as bv64) << 32) | (b as bv64)
  }

  function Cat128(a: bv64, b: bv64): bv128 {
    ((a as bv128) << 64) | (b as bv128)
  }

  function Word32(b: Block, i: nat): bv32
    requires i <= 12
  {
    Cat32(Cat16(b[i], b[i + 1]), Cat16(b[i + 2], b[i + 3]))
  }

  /** A block read as a 128-bit number. */
  function AsNumber(b: Block): bv128 {
    Cat128(Cat64(Word32(b, 0), Word32(b, 4)), Cat64(Word32(b, 8), Word32(b, 12)))
  }

  // Shifting left by one with a carry in, and the bit that goes out, at each width.

  function Top8(x: bv8): bv8 { x >> 7 }
  function Top16(x: bv16): bv8 { (x >> 15) as bv8 }
  function Top32(x: bv32): bv8 { (x >> 31) as bv8 }
  function Top64(x: bv64): bv8 { (x >> 63) as bv8 }
  function Top128(x: bv128): bv8 { (x >> 127) as bv8 }

  function Shl8(x: bv8, carry: bv8): bv8 { (x << 1) | carry }
  function Shl16(x: bv16, carry: bv8): bv16 { (x << 1) | (carry as bv16) }
  function Shl32(x: bv32, carry: bv8): bv32 { (x << 1) | (carry as bv32) }
  function Shl64(x: bv64, carry: bv8): bv64 { (x << 1) | (carry as bv64) }
  function Shl128(x: bv128, carry: bv8): bv128 { (x << 1) | (carry as bv128) }

  lemma Shift16(a: bv8, b: bv8, carry: bv8)
    requires carry < 2
    ensures Cat16(Shl8(a, Top8(b)), Shl8(b, carry)) == Shl16(Cat16(a, b), carry)
    ensures Top16(Cat16(a, b)) == Top8(a)
  {
  }

  lemma Shift32(a: bv16, b: bv16, carry: bv8)
    requires carry < 2
    ensures Cat32(Shl16(a, Top16(b)), Shl16(b, carry)) == Shl32(Cat32(a, b), carry)
    ensures Top32(Cat32(a, b)) == Top16(a)
  {
  }

  lemma Shift64(a: bv32, b: bv32, carry: bv8)
    requires carry < 2
    ensures Cat64(Shl32(a, Top32(b)), Shl32(b, carry)) == Shl64(Cat64(a, b), carry)
    ensures Top64(Cat64(a, b)) == Top32(a)
  {
  }

  lemma Shift128(a: bv64, b: bv64, carry: bv8)
    requires carry < 2
    ensures Cat128(Shl64(a, Top64(b)), Shl64(b, carry)) == Shl128(Cat128(a, b), carry)
    ensures Top128(Cat128(a, b)) == Top64(a)
  {
  }

  function ShiftLeft(b: Block): Block {
    seq(16, i requires 0 <= i < 16 => Shl8(b[i], if i < 15 then Top8(b[i + 1]) else 0))
  }

  lemma TopIsBit(x: bv8)
    ensures Top8(x) < 2
  {
  }

  lemma ShiftWord32(b: Block, i: nat)
    requires i <= 12
    ensures Word32(ShiftLeft(b), i) == Shl32(Word32(b, i), if i < 12 then Top8(b[i + 4]) else 0)
    ensures Top32(Word32(b, i)) == Top8(b[i])
  {
    hide Cat16, Cat32, Shl8, Shl16, Shl32, Top8, Top16, Top32;
    var carry := if i < 12 then Top8(b[i + 4]) else 0;
    TopIsBit(b[i + 2]);
    if i < 12 { TopIsBit(b[i + 4]); }
    Shift16(b[i], b[i + 1], Top8(b[i + 2]));
    Shift16(b[i + 2], b[i + 3], carry);
    Shift32(Cat16(b[i], b[i + 1]), Cat16(b[i + 2], b[i + 3]), carry);
  }

  lemma ShiftNumber(b: Block)
    ensures AsNumber(ShiftLeft(b)) == Shl128(AsNumber(b), 0)
    ensures Top128(AsNumber(b)) == Top8(b[0])
  {
    hide Word32, ShiftLeft, Cat64, Cat128, Shl32, Shl64, Shl128, Top8, Top32, Top64, Top128;
    ShiftWord32(b, 0);
    ShiftWord32(b, 4);
    ShiftWord32(b, 8);
    ShiftWord32(b, 12);
    TopIsBit(b[8]);
    Shift64(Word32(b, 0), Word32(b, 4), Top32(Word32(b, 8)));
    Shift64(Word32(b, 8), Word32(b, 12), 0);
    Shift128(Cat64(Word32(b, 0), Word32(b, 4)), Cat64(Word32(b, 8), Word32(b, 12)), 0);
  }

  const VEC87: Block := [0, 0, 0, 0, 0, 0, 0, 0, 0, 0, 0, 0, 0, 0, 0, 0x87]

  lemma XorVec87Bytes(b: Block)
    ensures forall i | 0 <= i < 15 :: Xor(b, VEC87)[i] == b[i]
    ensures Xor(b, VEC87)[15] == Add(b[15], 0x87)
  {
    hide Add;
    forall i | 0 <= i < 15
      ensures Xor(b, VEC87)[i] == b[i]
    {
      AddLaws(b[i], 0, 0);
    }
  }

  lemma XorVec87(b: Block)
    ensures AsNumber(Xor(b, VEC87)) == AsNumber(b) ^ 0x87
  {
    hide Xor, Add, Word32, Cat64, Cat128;
    var x := Xor(b, VEC87);
    XorVec87Bytes(b);
    SameWord32(x, b, 0);
    SameWord32(x, b, 4);
    SameWord32(x, b, 8);
    XorWord32(b, x);
    XorWords(Word32(b, 0), Word32(b, 4), Word32(b, 8), Word32(b, 12));
  }

  lemma XorWords(a: bv32, b: bv32, c: bv32, d: bv32)
    ensures Cat128(Cat64(a, b), Cat64(c, d ^ 0x87)) == Cat128(Cat64(a, b), Cat64(c, d)) ^ 0x87
  {
    hide Cat64, Cat128;
    XorCat64(c, d);
    XorCat128(Cat64(a, b), Cat64(c, d));
  }

  lemma SameWord32(a: Block, b: Block, i: nat)
    requires i <= 12 && a[i] == b[i] && a[i + 1] == b[i + 1] && a[i + 2] == b[i + 2] && a[i + 3] == b[i + 3]
    ensures Word32(a, i) == Word32(b, i)
  {
    hide Cat16, Cat32;
  }

  lemma XorWord32(b: Block, x: Block)
    requires x[12] == b[12] && x[13] == b[13] && x[14] == b[14] && x[15] == Add(b[15], 0x87)
    ensures Word32(x, 12) == Word32(b, 12) ^ 0x87
  {
    hide Cat16, Cat32, Add;
    XorBytes32(b[12], b[13], b[14], b[15]);
  }

  lemma XorBytes32(a: bv8, b: bv8, c: bv8, d: bv8)
    ensures Cat32(Cat16(a, b), Cat16(c, Add(d, 0x87))) == Cat32(Cat16(a, b), Cat16(c, d)) ^ 0x87
  {
    hide Cat16, Cat32, Add;
    XorCat16(c, d);
    XorCat32(Cat16(a, b), Cat16(c, d));
  }

  lemma XorCat16(a: bv8, b: bv8)
    ensures Cat16(a, Add(b, 0x87)) == Cat16(a, b) ^ 0x87
  {
  }

  lemma XorCat32(a: bv16, b: bv16)
    ensures Cat32(a, b ^ 0x87) == Cat32(a, b) ^ 0x87
  {
  }

  lemma XorCat64(a: bv32, b: bv32)
    ensures Cat64(a, b ^ 0x87) == Cat64(a, b) ^ 0x87
  {
  }

  lemma XorCat128(a: bv64, b: bv64)
    ensures Cat128(a, b ^ 0x87) == Cat128(a, b) ^ 0x87
  {
  }

  /** Multiplication by x in GF(2^128), modulo x^128 + x^7 + x^2 + x + 1. */
  function TimesX(v: bv128): bv128 {
    var p := (v as bv129) << 1;
    var r := if p & 0x1_0000_0000_0000_0000_0000_0000_0000_0000 != 0
             then p ^ 0x1_0000_0000_0000_0000_0000_0000_0000_0087 else p;
    (r & 0xffff_ffff_ffff_ffff_ffff_ffff_ffff_ffff) as bv128
  }

  lemma TimesXIsShift(v: bv128)
    ensures TimesX(v) == if Top128(v) == 1 then Shl128(v, 0) ^ 0x87 else Shl128(v, 0)
  {
  }

  /** The subkey step of section 2.3 of RFC 4493. */
  function Double(b: Block): Block {
    if Top8(b[0]) == 1 then Xor(ShiftLeft(b), VEC87) else ShiftLeft(b)
  }

  lemma DoubleIsTimesX(b: Block)
    ensures AsNumber(Double(b)) == TimesX(AsNumber(b))
  {
    hide AsNumber, ShiftLeft, Xor, TimesX, Shl128, Top8, Top128;
    ShiftNumber(b);
    XorVec87(ShiftLeft(b));
    TimesXIsShift(AsNumber(b));
  }
}
