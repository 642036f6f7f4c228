/** Hexadecimal text, as bin2hex and hex2bin of src/util.cc write and read it, and decimal numbers. */
module Hex {
  type byte = n: int | 0 <= n < 256

  function Digit(n: nat): char
    requires n < 16
  {
    if n < 10 then ('0' as int + n) as char else ('A' as int + n - 10) as char
  }

  function Char2Int(c: char): int {
    if '0' <= c <= '9' then c as int - '0' as int
    else if 'A' <= c <= 'F' then c as int - 'A' as int + 10
    else if 'a' <= c <= 'f' then c as int - 'a' as int + 10
    else -1
  }

  lemma Char2IntOfDigit(n: nat)
    requires n < 16
    ensures Char2Int(Digit(n)) == n && Digit(n) != ' ' && Digit(n) != '_'
  {
  }

  function Bin2Hex(b: seq<byte>): (s: string)
    ensures |s| == 2 * |b|
  {
    if b == [] then "" else [Digit(b[0] / 16), Digit(b[0] % 16)] + Bin2Hex(b[1..])
  }

  /** The bytes read so far are kept when a character is not a digit; the flag tells. Blanks are skipped. */
  function Hex2Bin(s: string): (r: (bool, seq<byte>)) {
    if |s| < 2 then (true, [])
    else if s[0] == ' ' then Hex2Bin(s[1..])
    else
      var hi, lo := Char2Int(s[0]), Char2Int(s[1]);
      if hi < 0 || lo < 0 then (false, [])
      else
        var rest := Hex2Bin(s[2..]);
        (rest.0, [hi * 16 + lo] + rest.1)
  }

  lemma Hex2BinStep(x: byte, tail: string)
    ensures Hex2Bin([Digit(x / 16), Digit(x % 16)] + tail) == (Hex2Bin(tail).0, [x] + Hex2Bin(tail).1)
  {
    hide Digit, Char2Int;
    Char2IntOfDigit(x / 16);
    Char2IntOfDigit(x % 16);
    assert ([Digit(x / 16), Digit(x % 16)] + tail)[2..] == tail;
  }

  /** Reading back hexadecimal text with more text behind it. */
  lemma {:induction false} Hex2BinOfBin2Hex(b: seq<byte>, tail: string)
    ensures Hex2Bin(Bin2Hex(b) + tail) == (Hex2Bin(tail).0, b + Hex2Bin(tail).1)
  {
    if b == [] {
      assert Bin2Hex(b) + tail == tail;
      assert b + Hex2Bin(tail).1 == Hex2Bin(tail).1;
    } else {
      hide Digit, Hex2Bin;
      var rest := Bin2Hex(b[1..]) + tail;
      Hex2BinStep(b[0], rest);
      assert Bin2Hex(b) + tail == [Digit(b[0] / 16), Digit(b[0] % 16)] + rest;
      Hex2BinOfBin2Hex(b[1..], tail);
      assert [b[0]] + (b[1..] + Hex2Bin(tail).1) == b + Hex2Bin(tail).1;
    }
  }

  lemma Hex2BinInverse(b: seq<byte>)
    ensures Hex2Bin(Bin2Hex(b)) == (true, b)
  {
    Hex2BinOfBin2Hex(b, "");
    assert Bin2Hex(b) + "" == Bin2Hex(b);
    assert b + [] == b;
  }

  lemma Bin2HexInjective(a: seq<byte>, b: seq<byte>)
    requires Bin2Hex(a) == Bin2Hex(b)
    ensures a == b
  {
    Hex2BinInverse(a);
    Hex2BinInverse(b);
  }

  lemma {:induction false} NoUnderscore(b: seq<byte>)
    ensures '_' !in Bin2Hex(b)
  {
    if b != [] {
      Char2IntOfDigit(b[0] / 16);
      Char2IntOfDigit(b[0] % 16);
      NoUnderscore(b[1..]);
    }
  }

  lemma {:induction false} Bin2HexAt(b: seq<byte>, i: nat)
    requires i < |b|
    ensures Bin2Hex(b)[2 * i] == Digit(b[i] / 16) && Bin2Hex(b)[2 * i + 1] == Digit(b[i] % 16)
  {
    if i > 0 {
      Bin2HexAt(b[1..], i - 1);
    }
  }

  lemma {:induction false} Bin2HexJoin(a: seq<byte>, b: seq<byte>)
    ensures Bin2Hex(a + b) == Bin2Hex(a) + Bin2Hex(b)
  {
    if a == [] {
      assert a + b == b;
    } else {
      assert (a + b)[1..] == a[1..] + b;
      Bin2HexJoin(a[1..], b);
    }
  }

  /** A number as printf writes it with %d. */
  function Decimal(n: nat): (s: string)
    ensures |s| >= 1
  {
    if n < 10 then [Digit(n)] else Decimal(n / 10) + [Digit(n % 10)]
  }

  function FromDecimal(s: string): int {
    if s == "" then 0 else 10 * FromDecimal(s[..|s| - 1]) + Char2Int(s[|s| - 1])
  }

  lemma {:induction false} DecimalInverse(n: nat)
    ensures FromDecimal(Decimal(n)) == n
  {
    if n < 10 {
      Char2IntOfDigit(n);
      assert Decimal(n)[..0] == "";
    } else {
      var s := Decimal(n);
      Char2IntOfDigit(n % 10);
      DecimalInverse(n / 10);
      assert s[..|s| - 1] == Decimal(n / 10);
    }
  }

  lemma DecimalInjective(m: nat, n: nat)
    requires Decimal(m) == Decimal(n)
    ensures m == n
  {
    DecimalInverse(m);
    DecimalInverse(n);
  }
}
