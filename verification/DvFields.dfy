/** The storage number, tariff and subunit that a chain of dife bytes spells out, least significant
    digits first. */
module DvFields {
  import opened Hex
  import opened DvSpec

  function Pow2(n: nat): (r: nat)
    ensures r >= 1
  {
    if n == 0 then 1 else 2 * Pow2(n - 1)
  }

  lemma {:induction false} Pow2Join(m: nat, n: nat)
    ensures Pow2(m + n) == Pow2(m) * Pow2(n)
  {
    if m > 0 {
      Pow2Join(m - 1, n);
      assert Pow2(m + n) == 2 * Pow2(m - 1 + n);
    }
  }

  /** Bitwise or of two numbers. */
  function BitOr(a: nat, b: nat): nat
    decreases a + b
  {
    if a == 0 && b == 0 then 0
    else (if a % 2 == 1 || b % 2 == 1 then 1 else 0) + 2 * BitOr(a / 2, b / 2)
  }

  lemma {:induction false} BitOrZero(b: nat)
    ensures BitOr(0, b) == b
  {
    if b > 0 {
      BitOrZero(b / 2);
    }
  }

  /** Numbers in different bit ranges: the or is the sum. */
  lemma {:induction false} BitOrAbove(a: nat, b: nat, k: nat)
    requires a < Pow2(k)
    ensures BitOr(a, b * Pow2(k)) == a + b * Pow2(k)
    decreases k
  {
    if k == 0 {
      BitOrZero(b);
    } else {
      var h := b * Pow2(k - 1);
      assert b * Pow2(k) == 2 * h;
      BitOrAbove(a / 2, b, k - 1);
      assert (2 * h) / 2 == h && (2 * h) % 2 == 0;
    }
  }

  datatype Fields = Fields(storage: nat, tariff: nat, subunit: nat)

  function StorageBits(dife: byte): nat { dife % 16 }
  function TariffBits(dife: byte): nat { (dife / 16) % 4 }
  function SubunitBit(dife: byte): nat { (dife / 64) % 2 }

  /** One turn of the dife loop, for dife number `n`. */
  function AddDife(f: Fields, dife: byte, n: nat): Fields {
    Fields(BitOr(f.storage, StorageBits(dife) * Pow2(1 + 4 * n)),
           BitOr(f.tariff, TariffBits(dife) * Pow2(2 * n)),
           BitOr(f.subunit, SubunitBit(dife) * Pow2(n)))
  }

  function Accumulate(difes: Bytes, n: nat, f: Fields): Fields
    decreases |difes|
  {
    if difes == [] then f else Accumulate(difes[1..], n + 1, AddDife(f, difes[0], n))
  }

  /** The fields that the or-and-shift loop computes. */
  function FieldsOf(dif: byte, difes: Bytes): Fields {
    Accumulate(difes, 0, Fields((dif / 64) % 2, 0, 0))
  }

  // The same numbers in positional notation.

  function StorageValue(difes: Bytes): nat {
    if difes == [] then 0 else StorageBits(difes[0]) + 16 * StorageValue(difes[1..])
  }

  function TariffValue(difes: Bytes): nat {
    if difes == [] then 0 else TariffBits(difes[0]) + 4 * TariffValue(difes[1..])
  }

  function SubunitValue(difes: Bytes): nat {
    if difes == [] then 0 else SubunitBit(difes[0]) + 2 * SubunitValue(difes[1..])
  }

  lemma AddDifeIsSum(f: Fields, dife: byte, n: nat)
    requires f.storage < Pow2(1 + 4 * n) && f.tariff < Pow2(2 * n) && f.subunit < Pow2(n)
    ensures var g := AddDife(f, dife, n);
            && g.storage == f.storage + StorageBits(dife) * Pow2(1 + 4 * n) < Pow2(1 + 4 * (n + 1))
            && g.tariff == f.tariff + TariffBits(dife) * Pow2(2 * n) < Pow2(2 * (n + 1))
            && g.subunit == f.subunit + SubunitBit(dife) * Pow2(n) < Pow2(n + 1)
  {
    hide BitOr, Pow2, StorageBits, TariffBits, SubunitBit;
    SmallPowers();
    BitRanges(dife);
    BitOrAbove(f.storage, StorageBits(dife), 1 + 4 * n);
    BitOrAbove(f.tariff, TariffBits(dife), 2 * n);
    BitOrAbove(f.subunit, SubunitBit(dife), n);
    DigitFits(f.storage, StorageBits(dife), 1 + 4 * n, 4);
    DigitFits(f.tariff, TariffBits(dife), 2 * n, 2);
    DigitFits(f.subunit, SubunitBit(dife), n, 1);
    assert 1 + 4 * (n + 1) == 1 + 4 * n + 4 && 2 * (n + 1) == 2 * n + 2;
  }

  lemma SmallPowers()
    ensures Pow2(1) == 2 && Pow2(2) == 4 && Pow2(4) == 16
  {
    assert Pow2(3) == 8;
  }

  lemma DigitBelow(digit: nat, w: nat, p: nat)
    requires digit < w
    ensures digit * p + p <= p * w
  {
    var d := w - 1 - digit;
    assert p * w == p * (digit + 1 + d) == p * digit + p + p * d;
  }

  lemma DigitFits(a: nat, digit: nat, k: nat, width: nat)
    requires a < Pow2(k) && digit < Pow2(width)
    ensures a + digit * Pow2(k) < Pow2(k + width)
  {
    hide Pow2;
    Pow2Join(k, width);
    DigitBelow(digit, Pow2(width), Pow2(k));
  }

  /** The loop computes exact positional arithmetic, on chains of any length: base 16 above the low
      storage bit, base 4 for the tariff, base 2 for the subunit. */
  lemma {:induction false} AccumulateIsPositional(difes: Bytes, n: nat, f: Fields)
    requires f.storage < Pow2(1 + 4 * n) && f.tariff < Pow2(2 * n) && f.subunit < Pow2(n)
    ensures Accumulate(difes, n, f)
         == Fields(f.storage + Pow2(1 + 4 * n) * StorageValue(difes),
                   f.tariff + Pow2(2 * n) * TariffValue(difes),
                   f.subunit + Pow2(n) * SubunitValue(difes))
    decreases |difes|
  {
    hide Pow2, AddDife, StorageBits, TariffBits, SubunitBit;
    if difes != [] {
      AddDifeIsSum(f, difes[0], n);
      AccumulateIsPositional(difes[1..], n + 1, AddDife(f, difes[0], n));
      SmallPowers();
      HornerStep(1 + 4 * n, 4, StorageBits(difes[0]), StorageValue(difes[1..]));
      HornerStep(2 * n, 2, TariffBits(difes[0]), TariffValue(difes[1..]));
      HornerStep(n, 1, SubunitBit(difes[0]), SubunitValue(difes[1..]));
    }
  }

  lemma HornerStep(k: nat, width: nat, digit: nat, rest: nat)
    ensures digit * Pow2(k) + Pow2(k + width) * rest == Pow2(k) * (digit + Pow2(width) * rest)
  {
    Pow2Join(k, width);
    var p, w := Pow2(k), Pow2(width);
    assert (p * w) * rest == p * (w * rest);
    assert p * (digit + w * rest) == p * digit + p * (w * rest);
  }

  lemma FieldsArePositional(dif: byte, difes: Bytes)
    ensures FieldsOf(dif, difes)
         == Fields((dif / 64) % 2 + 2 * StorageValue(difes), TariffValue(difes), SubunitValue(difes))
  {
    SmallPowers();
    AccumulateIsPositional(difes, 0, Fields((dif / 64) % 2, 0, 0));
  }

  /** With at most seven dife bytes every field, and so every shifted digit, fits a 32-bit int. */
  lemma {:induction false} FieldsFit(difes: Bytes)
    ensures StorageValue(difes) < Pow2(4 * |difes|)
    ensures TariffValue(difes) < Pow2(2 * |difes|)
    ensures SubunitValue(difes) < Pow2(|difes|)
  {
    hide Pow2, StorageBits, TariffBits, SubunitBit;
    if difes == [] {
      assert Pow2(0) == 1 by { PowerOfZero(); }
    } else {
      var n := |difes| - 1;
      FieldsFit(difes[1..]);
      BitRanges(difes[0]);
      SmallPowers();
      Pow2Join(4, 4 * n);
      Pow2Join(2, 2 * n);
      Pow2Join(1, n);
    }
  }

  lemma PowerOfZero()
    ensures Pow2(0) == 1
  {
  }

  lemma BitRanges(dife: byte)
    ensures StorageBits(dife) < 16 && TariffBits(dife) < 4 && SubunitBit(dife) < 2
  {
  }

  lemma SevenDifesFit(dif: byte, difes: Bytes)
    requires |difes| <= 7
    ensures FieldsOf(dif, difes).storage < 0x2000_0000
    ensures FieldsOf(dif, difes).tariff < 0x4000 && FieldsOf(dif, difes).subunit < 0x80
  {
    hide FieldsOf;
    FieldsArePositional(dif, difes);
    FieldsFit(difes);
    PowMonotone(4 * |difes|, 28);
    PowMonotone(2 * |difes|, 14);
    PowMonotone(|difes|, 7);
    PowerValues();
  }

  lemma PowerValues()
    ensures Pow2(28) == 0x1000_0000 && Pow2(14) == 0x4000 && Pow2(7) == 0x80
  {
    SmallPowers();
    Pow2Join(4, 3);
    Pow2Join(7, 7);
    Pow2Join(14, 14);
    assert Pow2(3) == 8;
  }

  lemma PowMonotone(m: nat, n: nat)
    requires m <= n
    ensures Pow2(m) <= Pow2(n)
  {
    Pow2Join(m, n - m);
    assert Pow2(m) * 1 <= Pow2(m) * Pow2(n - m);
  }

  // An encoder.

  /** `n` dife bytes for the storage number above its low bit, the tariff and the subunit. */
  function DifesFor(storage: nat, tariff: nat, subunit: nat, n: nat): (difes: Bytes)
    ensures |difes| == n
    decreases n
  {
    if n == 0 then []
    else [storage % 16 + 16 * (tariff % 4) + 64 * (subunit % 2) + (if n > 1 then 128 else 0)]
         + DifesFor(storage / 16, tariff / 4, subunit / 2, n - 1)
  }

  lemma DifeDigits(storage: nat, tariff: nat, subunit: nat, more: nat)
    requires storage < 16 && tariff < 4 && subunit < 2 && more < 2
    ensures var dife: byte := storage + 16 * tariff + 64 * subunit + 128 * more;
            StorageBits(dife) == storage && TariffBits(dife) == tariff && SubunitBit(dife) == subunit
  {
  }

  lemma {:induction false} DifesForValues(storage: nat, tariff: nat, subunit: nat, n: nat)
    requires storage < Pow2(4 * n) && tariff < Pow2(2 * n) && subunit < Pow2(n)
    ensures var difes := DifesFor(storage, tariff, subunit, n);
            StorageValue(difes) == storage && TariffValue(difes) == tariff && SubunitValue(difes) == subunit
    decreases n
  {
    hide Pow2, StorageBits, TariffBits, SubunitBit;
    if n == 0 {
      PowerOfZero();
    } else {
      SmallPowers();
      Pow2Join(4, 4 * (n - 1));
      Pow2Join(2, 2 * (n - 1));
      Pow2Join(1, n - 1);
      DifesForValues(storage / 16, tariff / 4, subunit / 2, n - 1);
      DifeDigits(storage % 16, tariff % 4, subunit % 2, if n > 1 then 1 else 0);
    }
  }

  /** Every storage number, tariff and subunit that `n` dife bytes can hold comes back from them; for
      n = 7 that is every storage number below 2^29, tariff below 2^14 and subunit below 2^7. */
  lemma FieldsRoundTrip(dif: byte, storage: nat, tariff: nat, subunit: nat, n: nat)
    requires storage < 2 * Pow2(4 * n) && tariff < Pow2(2 * n) && subunit < Pow2(n)
    requires (dif / 64) % 2 == storage % 2
    ensures FieldsOf(dif, DifesFor(storage / 2, tariff, subunit, n)) == Fields(storage, tariff, subunit)
  {
    hide Pow2, DifesFor;
    DifesForValues(storage / 2, tariff, subunit, n);
    FieldsArePositional(dif, DifesFor(storage / 2, tariff, subunit, n));
  }
}
