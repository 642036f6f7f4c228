/** AES-CMAC on values, after sections 2.3 and 2.4 of RFC 4493. */
module CmacSpec {
  import opened AesSpec
  import opened Gf256
  import opened Gf128
  import Cbc

  function K1(w: Schedule): Block {
    Double(Cipher(w, ZEROS))
  }

  function K2(w: Schedule): Block {
    Double(K1(w))
  }

  /** The two subkeys are one and two doublings of the encrypted zero block in GF(2^128). */
  lemma SubkeysAreDoublings(w: Schedule)
    ensures AsNumber(K1(w)) == TimesX(AsNumber(Cipher(w, ZEROS)))
    ensures AsNumber(K2(w)) == TimesX(TimesX(AsNumber(Cipher(w, ZEROS))))
  {
    hide AsNumber, TimesX, Double, Cipher;
    DoubleIsTimesX(Cipher(w, ZEROS));
    DoubleIsTimesX(K1(w));
  }

  /** A partial block, a one bit, and zeros. */
  function Padded(m: seq<bv8>): Block
    requires |m| < 16
  {
    m + [0x80] + ZEROS[..15 - |m|]
  }

  /** The number of blocks: the empty message has one. */
  function BlockCount(len: nat): (n: nat)
    ensures n >= 1 && 16 * (n - 1) <= len <= 16 * n
    ensures len > 0 ==> 16 * (n - 1) < len
  {
    if len == 0 then 1 else (len + 15) / 16
  }

  function LastBlock(w: Schedule, m: seq<bv8>): Block {
    var n := BlockCount(|m|);
    var tail := m[16 * (n - 1)..];
    if |tail| == 16 then Xor(tail, K1(w)) else Xor(Padded(tail), K2(w))
  }

  /** The message as blocks, with its last block replaced by M_last. */
  function Prepared(w: Schedule, m: seq<bv8>): seq<Block> {
    Cbc.Blocks(m, 0, BlockCount(|m|) - 1) + [LastBlock(w, m)]
  }

  /** The chain of step 6 of the algorithm. */
  function Chain(w: Schedule, x: Block, m: seq<Block>): Block
    decreases |m|
  {
    if m == [] then x else Chain(w, Cipher(w, Xor(x, m[0])), m[1..])
  }

  function Mac(w: Schedule, m: seq<bv8>): Block {
    Chain(w, ZEROS, Prepared(w, m))
  }

  lemma XorCommutes(a: Block, b: Block)
    ensures Xor(a, b) == Xor(b, a)
  {
    hide Add;
    forall i | 0 <= i < 16
      ensures Xor(a, b)[i] == Xor(b, a)[i]
    {
      AddLaws(a[i], b[i], 0);
    }
  }

  lemma {:induction false} ChainIsCbc(w: Schedule, x: Block, m: seq<Block>)
    ensures Chain(w, x, m) == Cbc.Last(x, Cbc.Encrypt(w, x, m))
    decreases |m|
  {
    hide Cipher, Xor;
    if m != [] {
      var next := Cipher(w, Xor(x, m[0]));
      XorCommutes(x, m[0]);
      ChainIsCbc(w, next, m[1..]);
      assert Cbc.Encrypt(w, x, m) == [next] + Cbc.Encrypt(w, next, m[1..]);
    }
  }

  /** The code is the last ciphertext block of a CBC encryption, from a zero vector, of the message with
      its last block replaced by M_last. */
  lemma MacIsLastCbcBlock(w: Schedule, m: seq<bv8>)
    ensures Mac(w, m) == Cbc.Last(ZEROS, Cbc.Encrypt(w, ZEROS, Prepared(w, m)))
  {
    hide Prepared;
    ChainIsCbc(w, ZEROS, Prepared(w, m));
  }

  lemma ChainNone(w: Schedule, x: Block, m: seq<Block>)
    requires m == []
    ensures Chain(w, x, m) == x
  {
  }

  lemma {:induction false} ChainSnoc(w: Schedule, x: Block, m: seq<Block>, last: Block)
    ensures Chain(w, x, m + [last]) == Cipher(w, Xor(Chain(w, x, m), last))
    decreases |m|
  {
    hide Cipher, Xor;
    if m == [] {
      assert m + [last] == [last];
    } else {
      assert (m + [last])[1..] == m[1..] + [last];
      ChainSnoc(w, Cipher(w, Xor(x, m[0])), m[1..], last);
    }
  }
}

/** The code of src/aescmac.cc. Each call goes through the one AES object, whose fields stand for the
    file-level variables of src/aes.cc. */
module Cmac {
  import opened Gf256
  import opened Gf128
  import Spec = AesSpec
  import MacSpec = CmacSpec
  import Cbc
  import Aes

  type Block = Spec.Block

  /** memset to zero. */
  method Clear(a: array<bv8>)
    requires a.Length == 16
    modifies a
    ensures a[..] == Spec.ZEROS
  {
    for i := 0 to 16
      invariant forall k :: 0 <= k < i ==> a[k] == 0
    {
      a[i] := 0;
    }
  }

  method Xorit(a: array<bv8>, aAt: nat, b: array<bv8>, bAt: nat, dest: array<bv8>)
    requires aAt + 16 <= a.Length && bAt + 16 <= b.Length && dest.Length == 16 && dest != a && dest != b
    modifies dest
    ensures dest[..] == Spec.Xor(a[aAt .. aAt + 16], b[bAt .. bAt + 16])
  {
    hide Add;
    ghost var r := Spec.Xor(a[aAt .. aAt + 16], b[bAt .. bAt + 16]);
    for i := 0 to 16
      invariant forall k :: 0 <= k < i ==> dest[k] == r[k]
    {
      dest[i] := Add(a[aAt + i], b[bAt + i]);
    }
  }

  method ShiftLeft(src: array<bv8>, dest: array<bv8>)
    requires src.Length == dest.Length == 16 && src != dest
    modifies dest
    ensures dest[..] == Gf128.ShiftLeft(src[..])
  {
    hide Shl8, Top8;
    ghost var r := Gf128.ShiftLeft(src[..]);
    var overflow := 0;
    for i := 16 downto 0
      invariant overflow == if i < 16 then Top8(src[i]) else 0
      invariant forall k :: i <= k < 16 ==> dest[k] == r[k]
    {
      dest[i] := src[i] << 1;
      dest[i] := dest[i] | overflow;
      ShiftedByte(src[i], overflow);
      overflow := (src[i] & 0x80) >> 7;
    }
  }

  lemma ShiftedByte(x: bv8, carry: bv8)
    ensures (x << 1) | carry == Shl8(x, carry)
    ensures (x & 0x80) >> 7 == Top8(x)
  {
  }

  method DoubleInto(src: array<bv8>, dest: array<bv8>, tmp: array<bv8>, vec87: array<bv8>)
    requires src.Length == dest.Length == tmp.Length == 16
    requires src != dest && src != tmp && dest != tmp && dest != vec87 && tmp != vec87
    requires vec87[..] == VEC87
    modifies dest, tmp
    ensures dest[..] == Double(src[..])
  {
    hide Gf128.ShiftLeft, Top8, Spec.Xor;
    TopBitTest(src[0]);
    if src[0] & 0x80 == 0 {
      ShiftLeft(src, dest);
    } else {
      ShiftLeft(src, tmp);
      Xorit(tmp, 0, vec87, 0, dest);
      assert tmp[0 .. 16] == tmp[..] && vec87[0 .. 16] == vec87[..];
    }
  }

  lemma TopBitTest(x: bv8)
    ensures Top8(x) == 1 <==> x & 0x80 != 0
  {
  }

  method GenerateSubkeys(aes: Aes.Aes, key: array<bv8>, k1: array<bv8>, k2: array<bv8>)
    requires aes.Valid() && key.Length >= 16 && k1.Length == k2.Length == 16 && k1 != k2
    requires key != aes.roundKey && k1 != aes.roundKey && k2 != aes.roundKey && k1 != key && k2 != key
    modifies aes, aes.roundKey, k1, k2
    ensures aes.Valid()
    ensures var w := Spec.ExpandedKey(key[..16]); k1[..] == MacSpec.K1(w) && k2[..] == MacSpec.K2(w)
  {
    hide Spec.ExpandedKey, Spec.Cipher, Double;
    var l := new bv8[16];
    var z := new bv8[16];
    var tmp := new bv8[16];
    var vec87 := new bv8[16] [0, 0, 0, 0, 0, 0, 0, 0, 0, 0, 0, 0, 0, 0, 0, 0x87];
    Clear(z);
    assert z[..16] == z[..];
    aes.EcbEncrypt(z, key, l, 16);
    assert l[..16] == l[..];
    DoubleInto(l, k1, tmp, vec87);
    DoubleInto(k1, k2, tmp, vec87);
  }

  method Pad(input: array<bv8>, at: nat, out: array<bv8>, len: nat)
    requires at + len <= input.Length && len < 16 && out.Length == 16 && out != input
    modifies out
    ensures out[..] == MacSpec.Padded(input[at .. at + len])
  {
    for i := 0 to 16
      invariant forall k :: 0 <= k < i ==> out[k] == if k < len then input[at + k] else if k == len then 0x80 else 0
    {
      if i < len {
        out[i] := input[at + i];
      } else if i == len {
        out[i] := 0x80;
      } else {
        out[i] := 0x00;
      }
    }
  }

  /** Writes the code of the first `len` bytes of `input` to `mac`. */
  method AesCmac(aes: Aes.Aes, key: array<bv8>, input: array<bv8>, len: nat, mac: array<bv8>)
    requires aes.Valid() && key.Length >= 16 && len <= input.Length && mac.Length >= 16
    requires key != aes.roundKey && input != aes.roundKey && mac != aes.roundKey && mac != key && mac != input
    modifies aes, aes.roundKey, mac
    ensures aes.Valid()
    ensures mac[..16] == MacSpec.Mac(Spec.ExpandedKey(key[..16]), input[..len])
    ensures mac[16..] == old(mac[16..])
  {
    hide Spec.ExpandedKey, MacSpec.LastBlock, MacSpec.Mac, MacSpec.K1, MacSpec.K2;
    ghost var w := Spec.ExpandedKey(key[..16]);
    var x, y := new bv8[16], new bv8[16];
    var k1, k2 := new bv8[16], new bv8[16];
    var mLast, padded := new bv8[16], new bv8[16];
    GenerateSubkeys(aes, key, k1, k2);
    var numBlocks := (len + 15) / 16;
    var lenIsMultipleOfBlock: bool;
    if numBlocks == 0 {
      numBlocks := 1;
      lenIsMultipleOfBlock := false;
    } else {
      lenIsMultipleOfBlock := len % 16 == 0;
    }
    MakeLast(w, input, len, k1, k2, padded, mLast, numBlocks, lenIsMultipleOfBlock);
    Finish(aes, key, input, len, mac, x, y, mLast, numBlocks);
  }

  method MakeLast(ghost w: Spec.Schedule, input: array<bv8>, len: nat, k1: array<bv8>, k2: array<bv8>,
                  padded: array<bv8>, mLast: array<bv8>, numBlocks: nat, lenIsMultipleOfBlock: bool)
    requires len <= input.Length && k1.Length == k2.Length == padded.Length == mLast.Length == 16
    requires {input, k1, k2} !! {padded, mLast} && padded != mLast
    requires k1[..] == MacSpec.K1(w) && k2[..] == MacSpec.K2(w)
    requires numBlocks == MacSpec.BlockCount(len) && lenIsMultipleOfBlock == (len > 0 && len % 16 == 0)
    modifies padded, mLast
    ensures mLast[..] == MacSpec.LastBlock(w, input[..len])
  {
    hide Spec.Xor, MacSpec.K1, MacSpec.K2, MacSpec.Padded;
    ghost var m := input[..len];
    var at := 16 * (numBlocks - 1);
    assert k1[0 .. 16] == k1[..] && k2[0 .. 16] == k2[..];
    if lenIsMultipleOfBlock {
      Xorit(input, at, k1, 0, mLast);
      assert m[at..] == input[at .. at + 16];
    } else {
      Pad(input, at, padded, len % 16);
      assert m[at..] == input[at .. at + len % 16];
      Xorit(padded, 0, k2, 0, mLast);
      assert padded[0 .. 16] == padded[..];
    }
  }

  /** The chain over the first `n` blocks, in `x`. */
  method ChainBlocks(aes: Aes.Aes, key: array<bv8>, input: array<bv8>, len: nat, x: array<bv8>, y: array<bv8>, n: nat)
    requires aes.Valid() && key.Length >= 16 && 16 * n <= len <= input.Length
    requires x.Length == y.Length == 16
    requires |{aes.roundKey, x, y}| == 3 && {key, input} !! {aes.roundKey, x, y}
    modifies aes, aes.roundKey, x, y
    ensures aes.Valid()
    ensures x[..] == MacSpec.Chain(Spec.ExpandedKey(key[..16]), Spec.ZEROS, Cbc.Blocks(input[..len], 0, n))
  {
    hide Spec.ExpandedKey, Spec.Cipher, Spec.Xor, MacSpec.Chain, Cbc.Blocks;
    ghost var w := Spec.ExpandedKey(key[..16]);
    ghost var m := Cbc.Blocks(input[..len], 0, n);
    Clear(x);
    MacSpec.ChainNone(w, Spec.ZEROS, m[..0]);
    for i := 0 to n
      invariant aes.Valid() && x[..] == MacSpec.Chain(w, Spec.ZEROS, m[..i])
    {
      Cbc.BlockAt(input[..len], 0, n, i);
      assert input[..len][16 * i .. 16 * i + 16] == input[16 * i .. 16 * i + 16] == m[i];
      assert x[0 .. 16] == x[..];
      Xorit(x, 0, input, 16 * i, y);
      aes.EcbEncrypt(y, key, x, 16);
      MacSpec.ChainSnoc(w, Spec.ZEROS, m[..i], m[i]);
      assert x[..16] == x[..] && y[..16] == y[..];
      assert m[..i + 1] == m[..i] + [m[i]];
    }
    assert m[..n] == m;
  }

  /** The chain over the whole blocks, the last block, and the copy to `mac`. */
  method Finish(aes: Aes.Aes, key: array<bv8>, input: array<bv8>, len: nat, mac: array<bv8>,
                x: array<bv8>, y: array<bv8>, mLast: array<bv8>, numBlocks: nat)
    requires aes.Valid() && key.Length >= 16 && len <= input.Length && mac.Length >= 16
    requires x.Length == y.Length == mLast.Length == 16
    requires |{aes.roundKey, mac, x, y, mLast}| == 5 && {key, input} !! {aes.roundKey, mac, x, y}
    requires numBlocks == MacSpec.BlockCount(len)
    requires mLast[..] == MacSpec.LastBlock(Spec.ExpandedKey(key[..16]), input[..len])
    modifies aes, aes.roundKey, mac, x, y
    ensures aes.Valid()
    ensures mac[..16] == MacSpec.Mac(Spec.ExpandedKey(key[..16]), input[..len])
    ensures mac[16..] == old(mac[16..])
  {
    hide Spec.ExpandedKey, Spec.Cipher, Spec.Xor, MacSpec.LastBlock, MacSpec.Chain, Cbc.Blocks;
    ghost var w := Spec.ExpandedKey(key[..16]);
    ghost var m := Cbc.Blocks(input[..len], 0, numBlocks - 1);
    ChainBlocks(aes, key, input, len, x, y, numBlocks - 1);
    Xorit(x, 0, mLast, 0, y);
    assert x[0 .. 16] == x[..] && mLast[0 .. 16] == mLast[..] && y[..16] == y[..];
    aes.EcbEncrypt(y, key, x, 16);
    MacSpec.ChainSnoc(w, Spec.ZEROS, m, mLast[..]);
    aes.Copy(mac, 0, x, 0, 16);
    assert mac[..16] == mac[0 .. 16] && x[0 .. 16] == x[..16];
  }
}
