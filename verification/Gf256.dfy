/** Arithmetic in GF(2^8) as section 4.2 of FIPS 197 defines it, and the shortcuts that src/aes.cc
    uses instead: the shift-and-xor `Xtime` and `Multiply`. */
module Gf256 {

  /** Addition in GF(2^8). */
  function Add(a: bv8, b: bv8): bv8 {
    a ^ b
  }

  function Sum4(a: bv8, b: bv8, c: bv8, d: bv8): bv8 {
    Add(Add(a, b), Add(c, d))
  }

  lemma AddLaws(a: bv8, b: bv8, c: bv8)
    ensures Add(Add(a, b), c) == Add(a, Add(b, c))
    ensures Add(a, b) == Add(b, a)
    ensures Add(a, 0) == a
  {
  }

  lemma AddTwice(a: bv8, b: bv8)
    ensures Add(Add(a, b), b) == a
  {
  }

  lemma AddSwap(a: bv8, b: bv8, c: bv8, d: bv8)
    ensures Add(Add(a, b), Add(c, d)) == Add(Add(a, c), Add(b, d))
  {
    hide Add;
    AddLaws(a, b, Add(c, d));
    AddLaws(b, c, d);
    AddLaws(c, b, d);
    AddLaws(a, c, Add(b, d));
  }

  lemma Sum4Pairs(a0: bv8, a1: bv8, a2: bv8, a3: bv8, b0: bv8, b1: bv8, b2: bv8, b3: bv8)
    ensures Add(Sum4(a0, a1, a2, a3), Sum4(b0, b1, b2, b3))
         == Sum4(Add(a0, b0), Add(a1, b1), Add(a2, b2), Add(a3, b3))
  {
    hide Add;
    AddSwap(Add(a0, a1), Add(a2, a3), Add(b0, b1), Add(b2, b3));
    AddSwap(a0, a1, b0, b1);
    AddSwap(a2, a3, b2, b3);
  }

  lemma Sum4Rotate(a: bv8, b: bv8, c: bv8, d: bv8)
    ensures Sum4(a, b, c, d) == Sum4(d, a, b, c)
  {
    hide Add;
    AddSwap(a, b, d, c);
    AddLaws(c, d, 0);
    AddLaws(a, d, 0);
  }

  /** A 4x4 table may be summed by rows or by columns. */
  lemma Sum4Transpose(a0: bv8, a1: bv8, a2: bv8, a3: bv8, b0: bv8, b1: bv8, b2: bv8, b3: bv8,
                      c0: bv8, c1: bv8, c2: bv8, c3: bv8, d0: bv8, d1: bv8, d2: bv8, d3: bv8)
    ensures Sum4(Sum4(a0, a1, a2, a3), Sum4(b0, b1, b2, b3), Sum4(c0, c1, c2, c3), Sum4(d0, d1, d2, d3))
         == Sum4(Sum4(a0, b0, c0, d0), Sum4(a1, b1, c1, d1), Sum4(a2, b2, c2, d2), Sum4(a3, b3, c3, d3))
  {
    hide Add;
    Sum4Pairs(a0, a1, a2, a3, b0, b1, b2, b3);
    Sum4Pairs(c0, c1, c2, c3, d0, d1, d2, d3);
    Sum4Pairs(Add(a0, b0), Add(a1, b1), Add(a2, b2), Add(a3, b3), Add(c0, d0), Add(c1, d1), Add(c2, d2), Add(c3, d3));
  }

  /** Multiplication by {02}. */
  function Xtime(x: bv8): bv8 {
    (x << 1) ^ (((x >> 7) & 1) * 0x1b)
  }

  /** The source's multiplication macro; it only looks at the low five bits of `y`. */
  function Multiply(x: bv8, y: bv8): bv8 {
    ((y & 1) * x)
    ^ (((y >> 1) & 1) * Xtime(x))
    ^ (((y >> 2) & 1) * Xtime(Xtime(x)))
    ^ (((y >> 3) & 1) * Xtime(Xtime(Xtime(x))))
    ^ (((y >> 4) & 1) * Xtime(Xtime(Xtime(Xtime(x)))))
  }

  /** The field product: the product of two polynomials over GF(2), reduced modulo
      x^8 + x^4 + x^3 + x + 1 (0x11b) by long division from the top coefficient down. */
  function GfMul(a: bv8, b: bv8): bv8 {
    var w := a as bv16;
    var p := (if b & 0x01 != 0 then w else 0) ^ (if b & 0x02 != 0 then w << 1 else 0)
             ^ (if b & 0x04 != 0 then w << 2 else 0) ^ (if b & 0x08 != 0 then w << 3 else 0)
             ^ (if b & 0x10 != 0 then w << 4 else 0) ^ (if b & 0x20 != 0 then w << 5 else 0)
             ^ (if b & 0x40 != 0 then w << 6 else 0) ^ (if b & 0x80 != 0 then w << 7 else 0);
    var p6 := if p & 0x4000 != 0 then p ^ (0x11b << 6) else p;
    var p5 := if p6 & 0x2000 != 0 then p6 ^ (0x11b << 5) else p6;
    var p4 := if p5 & 0x1000 != 0 then p5 ^ (0x11b << 4) else p5;
    var p3 := if p4 & 0x0800 != 0 then p4 ^ (0x11b << 3) else p4;
    var p2 := if p3 & 0x0400 != 0 then p3 ^ (0x11b << 2) else p3;
    var p1 := if p2 & 0x0200 != 0 then p2 ^ (0x11b << 1) else p2;
    var p0 := if p1 & 0x0100 != 0 then p1 ^ 0x11b else p1;
    (p0 & 0xff) as bv8
  }

  lemma XtimeIsProduct(x: bv8)
    ensures Xtime(x) == GfMul(x, 2)
  {
  }

  /** `Multiply` is the field product wherever its five-bit shortcut can be: for every `y` below 32. */
  lemma MultiplyIsProduct(x: bv8, y: bv8)
    requires y < 0x20
    ensures Multiply(x, y) == GfMul(x, y)
  {
    if y < 0x08 {
      MultiplyIsProduct0(x, y);
    } else if y < 0x0c {
      MultiplyIsProduct1(x, y);
    } else if y < 0x10 {
      MultiplyIsProduct2(x, y);
    } else if y < 0x14 {
      MultiplyIsProduct3(x, y);
    } else if y < 0x18 {
      MultiplyIsProduct4(x, y);
    } else if y < 0x1c {
      MultiplyIsProduct5(x, y);
    } else {
      MultiplyIsProduct6(x, y);
    }
  }

  lemma MultiplyIsProduct0(x: bv8, y: bv8)
    requires y < 0x08
    ensures Multiply(x, y) == GfMul(x, y)
  {
  }

  lemma MultiplyIsProduct1(x: bv8, y: bv8)
    requires 0x08 <= y < 0x0c
    ensures Multiply(x, y) == GfMul(x, y)
  {
  }

  lemma MultiplyIsProduct2(x: bv8, y: bv8)
    requires 0x0c <= y < 0x10
    ensures Multiply(x, y) == GfMul(x, y)
  {
  }

  lemma MultiplyIsProduct3(x: bv8, y: bv8)
    requires 0x10 <= y < 0x14
    ensures Multiply(x, y) == GfMul(x, y)
  {
  }

  lemma MultiplyIsProduct4(x: bv8, y: bv8)
    requires 0x14 <= y < 0x18
    ensures Multiply(x, y) == GfMul(x, y)
  {
  }

  lemma MultiplyIsProduct5(x: bv8, y: bv8)
    requires 0x18 <= y < 0x1c
    ensures Multiply(x, y) == GfMul(x, y)
  {
  }

  lemma MultiplyIsProduct6(x: bv8, y: bv8)
    requires 0x1c <= y < 0x20
    ensures Multiply(x, y) == GfMul(x, y)
  {
  }

  // Distributivity over addition, from that of `Xtime`.

  lemma XtimeDistributes(x: bv8, y: bv8)
    ensures Xtime(Add(x, y)) == Add(Xtime(x), Xtime(y))
  {
  }

  function Select(bit: bv8, x: bv8): bv8 {
    bit * x
  }

  lemma SelectDistributes(bit: bv8, x: bv8, y: bv8)
    requires bit < 2
    ensures Select(bit, Add(x, y)) == Add(Select(bit, x), Select(bit, y))
  {
    if bit == 0 {
      assert Select(0, Add(x, y)) == 0 && Select(0, x) == 0 && Select(0, y) == 0;
    } else {
      assert bit == 1;
    }
  }

  /** The sum in the order in which `Multiply` writes it. */
  function Sum5(a: bv8, b: bv8, c: bv8, d: bv8, e: bv8): bv8 {
    Add(Add(Add(Add(a, b), c), d), e)
  }

  lemma Sum5Pairs(a0: bv8, a1: bv8, a2: bv8, a3: bv8, a4: bv8, b0: bv8, b1: bv8, b2: bv8, b3: bv8, b4: bv8)
    ensures Sum5(Add(a0, b0), Add(a1, b1), Add(a2, b2), Add(a3, b3), Add(a4, b4))
         == Add(Sum5(a0, a1, a2, a3, a4), Sum5(b0, b1, b2, b3, b4))
  {
    hide Add;
    AddSwap(a0, b0, a1, b1);
    AddSwap(Add(a0, a1), Add(b0, b1), a2, b2);
    AddSwap(Add(Add(a0, a1), a2), Add(Add(b0, b1), b2), a3, b3);
    AddSwap(Add(Add(Add(a0, a1), a2), a3), Add(Add(Add(b0, b1), b2), b3), a4, b4);
  }

  lemma MultiplyIsSum(x: bv8, k: bv8)
    ensures Multiply(x, k)
         == Sum5(Select(k & 1, x), Select((k >> 1) & 1, Xtime(x)), Select((k >> 2) & 1, Xtime(Xtime(x))),
                 Select((k >> 3) & 1, Xtime(Xtime(Xtime(x)))), Select((k >> 4) & 1, Xtime(Xtime(Xtime(Xtime(x))))))
  {
    hide Xtime;
  }

  lemma MultiplyDistributes(x: bv8, y: bv8, k: bv8)
    ensures Multiply(Add(x, y), k) == Add(Multiply(x, k), Multiply(y, k))
  {
    hide *;
    var x1, y1 := Xtime(x), Xtime(y);
    var x2, y2 := Xtime(x1), Xtime(y1);
    var x3, y3 := Xtime(x2), Xtime(y2);
    var x4, y4 := Xtime(x3), Xtime(y3);
    XtimeDistributes(x, y);
    XtimeDistributes(x1, y1);
    XtimeDistributes(x2, y2);
    XtimeDistributes(x3, y3);
    var k0, k1, k2, k3, k4 := k & 1, (k >> 1) & 1, (k >> 2) & 1, (k >> 3) & 1, (k >> 4) & 1;
    SelectDistributes(k0, x, y);
    SelectDistributes(k1, x1, y1);
    SelectDistributes(k2, x2, y2);
    SelectDistributes(k3, x3, y3);
    SelectDistributes(k4, x4, y4);
    Sum5Pairs(Select(k0, x), Select(k1, x1), Select(k2, x2), Select(k3, x3), Select(k4, x4),
              Select(k0, y), Select(k1, y1), Select(k2, y2), Select(k3, y3), Select(k4, y4));
    MultiplyIsSum(x, k);
    MultiplyIsSum(y, k);
    MultiplyIsSum(Add(x, y), k);
  }

  lemma Distributes(x: bv8, y: bv8, k: bv8)
    requires k < 0x20
    ensures GfMul(Add(x, y), k) == Add(GfMul(x, k), GfMul(y, k))
  {
    hide *;
    MultiplyIsProduct(Add(x, y), k);
    MultiplyIsProduct(x, k);
    MultiplyIsProduct(y, k);
    MultiplyDistributes(x, y, k);
  }

  lemma DistributesSum4(k: bv8, a: bv8, b: bv8, c: bv8, d: bv8)
    requires k < 0x20
    ensures GfMul(Sum4(a, b, c, d), k) == Sum4(GfMul(a, k), GfMul(b, k), GfMul(c, k), GfMul(d, k))
  {
    hide Add, GfMul;
    Distributes(Add(a, b), Add(c, d), k);
    Distributes(a, b, k);
    Distributes(c, d, k);
  }

  // The column matrices.

  /** One row of a 4x4 matrix times a column. */
  function Row(k0: bv8, k1: bv8, k2: bv8, k3: bv8, a0: bv8, a1: bv8, a2: bv8, a3: bv8): bv8 {
    Sum4(GfMul(a0, k0), GfMul(a1, k1), GfMul(a2, k2), GfMul(a3, k3))
  }

  /** The first row of the circulant matrix of section 5.1.3 of FIPS 197; the others are its rotations. */
  function Mix(a0: bv8, a1: bv8, a2: bv8, a3: bv8): bv8 {
    Row(0x02, 0x03, 0x01, 0x01, a0, a1, a2, a3)
  }

  /** The first row of the circulant matrix of section 5.3.3 of FIPS 197. */
  function InvMix(a0: bv8, a1: bv8, a2: bv8, a3: bv8): bv8 {
    Row(0x0e, 0x0b, 0x0d, 0x09, a0, a1, a2, a3)
  }

  // The product of the two matrices, entry by entry: 1 on the diagonal, 0 off it.

  lemma Product0(a: bv8)
    ensures Sum4(GfMul(GfMul(a, 0x02), 0x0e), GfMul(GfMul(a, 0x01), 0x0b),
                 GfMul(GfMul(a, 0x01), 0x0d), GfMul(GfMul(a, 0x03), 0x09)) == a
  {
  }

  lemma Product1(a: bv8)
    ensures Sum4(GfMul(GfMul(a, 0x03), 0x0e), GfMul(GfMul(a, 0x02), 0x0b),
                 GfMul(GfMul(a, 0x01), 0x0d), GfMul(GfMul(a, 0x01), 0x09)) == 0
  {
  }

  lemma Product2(a: bv8)
    ensures Sum4(GfMul(GfMul(a, 0x01), 0x0e), GfMul(GfMul(a, 0x03), 0x0b),
                 GfMul(GfMul(a, 0x02), 0x0d), GfMul(GfMul(a, 0x01), 0x09)) == 0
  {
  }

  lemma Product3(a: bv8)
    ensures Sum4(GfMul(GfMul(a, 0x01), 0x0e), GfMul(GfMul(a, 0x01), 0x0b),
                 GfMul(GfMul(a, 0x03), 0x0d), GfMul(GfMul(a, 0x02), 0x09)) == 0
  {
  }

  /** A circulant matrix `k` times a circulant matrix `m`, gathered by the bytes of the column. */
  lemma RowsInOrder(m0: bv8, m1: bv8, m2: bv8, m3: bv8, k0: bv8, k1: bv8, k2: bv8, k3: bv8,
                    a0: bv8, a1: bv8, a2: bv8, a3: bv8)
    requires k0 < 0x20 && k1 < 0x20 && k2 < 0x20 && k3 < 0x20
    ensures Row(k0, k1, k2, k3,
                Row(m0, m1, m2, m3, a0, a1, a2, a3), Row(m0, m1, m2, m3, a1, a2, a3, a0),
                Row(m0, m1, m2, m3, a2, a3, a0, a1), Row(m0, m1, m2, m3, a3, a0, a1, a2))
         == Sum4(Sum4(GfMul(GfMul(a0, m0), k0), GfMul(GfMul(a0, m3), k1),
                      GfMul(GfMul(a0, m2), k2), GfMul(GfMul(a0, m1), k3)),
                 Sum4(GfMul(GfMul(a1, m1), k0), GfMul(GfMul(a1, m0), k1),
                      GfMul(GfMul(a1, m3), k2), GfMul(GfMul(a1, m2), k3)),
                 Sum4(GfMul(GfMul(a2, m2), k0), GfMul(GfMul(a2, m1), k1),
                      GfMul(GfMul(a2, m0), k2), GfMul(GfMul(a2, m3), k3)),
                 Sum4(GfMul(GfMul(a3, m3), k0), GfMul(GfMul(a3, m2), k1),
                      GfMul(GfMul(a3, m1), k2), GfMul(GfMul(a3, m0), k3)))
  {
    hide Add, Sum4, GfMul;
    DistributesSum4(k0, GfMul(a0, m0), GfMul(a1, m1), GfMul(a2, m2), GfMul(a3, m3));
    DistributesSum4(k1, GfMul(a1, m0), GfMul(a2, m1), GfMul(a3, m2), GfMul(a0, m3));
    DistributesSum4(k2, GfMul(a2, m0), GfMul(a3, m1), GfMul(a0, m2), GfMul(a1, m3));
    DistributesSum4(k3, GfMul(a3, m0), GfMul(a0, m1), GfMul(a1, m2), GfMul(a2, m3));
    Sum4Rotate(GfMul(GfMul(a1, m0), k1), GfMul(GfMul(a2, m1), k1), GfMul(GfMul(a3, m2), k1), GfMul(GfMul(a0, m3), k1));
    Sum4Rotate(GfMul(GfMul(a2, m0), k2), GfMul(GfMul(a3, m1), k2), GfMul(GfMul(a0, m2), k2), GfMul(GfMul(a1, m3), k2));
    Sum4Rotate(GfMul(GfMul(a1, m3), k2), GfMul(GfMul(a2, m0), k2), GfMul(GfMul(a3, m1), k2), GfMul(GfMul(a0, m2), k2));
    Sum4Rotate(GfMul(GfMul(a0, m1), k3), GfMul(GfMul(a1, m2), k3), GfMul(GfMul(a2, m3), k3), GfMul(GfMul(a3, m0), k3));
    Sum4Transpose(GfMul(GfMul(a0, m0), k0), GfMul(GfMul(a1, m1), k0),
                  GfMul(GfMul(a2, m2), k0), GfMul(GfMul(a3, m3), k0),
                  GfMul(GfMul(a0, m3), k1), GfMul(GfMul(a1, m0), k1),
                  GfMul(GfMul(a2, m1), k1), GfMul(GfMul(a3, m2), k1),
                  GfMul(GfMul(a0, m2), k2), GfMul(GfMul(a1, m3), k2),
                  GfMul(GfMul(a2, m0), k2), GfMul(GfMul(a3, m1), k2),
                  GfMul(GfMul(a0, m1), k3), GfMul(GfMul(a1, m2), k3),
                  GfMul(GfMul(a2, m3), k3), GfMul(GfMul(a3, m0), k3));
  }

  lemma SumOfOne(a: bv8)
    ensures Sum4(a, 0, 0, 0) == a
  {
  }

  /** The inverse matrix undoes the matrix, on every column. */
  lemma InvMixOfMix(a0: bv8, a1: bv8, a2: bv8, a3: bv8)
    ensures InvMix(Mix(a0, a1, a2, a3), Mix(a1, a2, a3, a0), Mix(a2, a3, a0, a1), Mix(a3, a0, a1, a2)) == a0
  {
    hide Add, Sum4, GfMul;
    RowsInOrder(0x02, 0x03, 0x01, 0x01, 0x0e, 0x0b, 0x0d, 0x09, a0, a1, a2, a3);
    Product0(a0);
    Product1(a1);
    Product2(a2);
    Product3(a3);
    SumOfOne(a0);
  }

  lemma ProductInv0(a: bv8)
    ensures Sum4(GfMul(GfMul(a, 0x0e), 0x02), GfMul(GfMul(a, 0x09), 0x03),
                 GfMul(GfMul(a, 0x0d), 0x01), GfMul(GfMul(a, 0x0b), 0x01)) == a
  {
  }

  lemma ProductInv1(a: bv8)
    ensures Sum4(GfMul(GfMul(a, 0x0b), 0x02), GfMul(GfMul(a, 0x0e), 0x03),
                 GfMul(GfMul(a, 0x09), 0x01), GfMul(GfMul(a, 0x0d), 0x01)) == 0
  {
  }

  lemma ProductInv2(a: bv8)
    ensures Sum4(GfMul(GfMul(a, 0x0d), 0x02), GfMul(GfMul(a, 0x0b), 0x03),
                 GfMul(GfMul(a, 0x0e), 0x01), GfMul(GfMul(a, 0x09), 0x01)) == 0
  {
  }

  lemma ProductInv3(a: bv8)
    ensures Sum4(GfMul(GfMul(a, 0x09), 0x02), GfMul(GfMul(a, 0x0d), 0x03),
                 GfMul(GfMul(a, 0x0b), 0x01), GfMul(GfMul(a, 0x0e), 0x01)) == 0
  {
  }

  /** The matrix undoes the inverse matrix, on every column. */
  lemma MixOfInvMix(a0: bv8, a1: bv8, a2: bv8, a3: bv8)
    ensures Mix(InvMix(a0, a1, a2, a3), InvMix(a1, a2, a3, a0), InvMix(a2, a3, a0, a1), InvMix(a3, a0, a1, a2)) == a0
  {
    hide Add, Sum4, GfMul;
    RowsInOrder(0x0e, 0x0b, 0x0d, 0x09, 0x02, 0x03, 0x01, 0x01, a0, a1, a2, a3);
    ProductInv0(a0);
    ProductInv1(a1);
    ProductInv2(a2);
    ProductInv3(a3);
    SumOfOne(a0);
  }

  lemma SmallProducts(a: bv8)
    ensures GfMul(a, 1) == a
    ensures GfMul(a, 3) == Add(Xtime(a), a)
  {
  }

  /** The Tmp/Tm shortcut for one byte of a mixed column: the byte itself, plus {02} times the sum of
      it and its neighbour, plus the sum of the whole column. */
  function Shortcut(a0: bv8, a1: bv8, sum: bv8): bv8 {
    Add(a0, Add(Xtime(Add(a0, a1)), sum))
  }

  lemma ShortcutIsMix(a0: bv8, a1: bv8, a2: bv8, a3: bv8)
    ensures Shortcut(a0, a1, Sum4(a0, a1, a2, a3)) == Mix(a0, a1, a2, a3)
  {
    hide GfMul, Xtime, Add, Sum4;
    SmallProducts(a1);
    SmallProducts(a2);
    SmallProducts(a3);
    XtimeIsProduct(a0);
    XtimeDistributes(a0, a1);
    ShortcutSum(a0, a1, a2, a3, Xtime(a0), Xtime(a1));
  }

  lemma ShortcutSum(a0: bv8, a1: bv8, a2: bv8, a3: bv8, x0: bv8, x1: bv8)
    ensures Add(a0, Add(Add(x0, x1), Sum4(a0, a1, a2, a3))) == Sum4(x0, Add(x1, a1), a2, a3)
  {
  }
}
