/** Cipher block chaining on values (section 6.2 of NIST SP 800-38A), for any number of blocks. */
module Cbc {
  import opened AesSpec

  function Encrypt(w: Schedule, iv: Block, p: seq<Block>): (c: seq<Block>)
    ensures |c| == |p|
    decreases |p|
  {
    if p == [] then [] else
      var first := Cipher(w, Xor(p[0], iv));
      [first] + Encrypt(w, first, p[1..])
  }

  function Decrypt(w: Schedule, iv: Block, c: seq<Block>): (p: seq<Block>)
    ensures |p| == |c|
    decreases |c|
  {
    if c == [] then [] else
      [Xor(InvCipher(w, c[0]), iv)] + Decrypt(w, c[0], c[1..])
  }

  /** The block that the next call chains from. */
  function Last(iv: Block, c: seq<Block>): Block {
    if c == [] then iv else c[|c| - 1]
  }

  /** The defining equations of the standard, block by block. */
  lemma {:induction false} EncryptAt(w: Schedule, iv: Block, p: seq<Block>, j: nat)
    requires j < |p|
    ensures var c := Encrypt(w, iv, p);
            c[j] == Cipher(w, Xor(p[j], if j == 0 then iv else c[j - 1]))
    decreases |p|
  {
    hide Cipher, Xor;
    if j > 0 {
      EncryptAt(w, Cipher(w, Xor(p[0], iv)), p[1..], j - 1);
    }
  }

  lemma {:induction false} DecryptAt(w: Schedule, iv: Block, c: seq<Block>, j: nat)
    requires j < |c|
    ensures Decrypt(w, iv, c)[j] == Xor(InvCipher(w, c[j]), if j == 0 then iv else c[j - 1])
    decreases |c|
  {
    hide InvCipher, Xor;
    if j > 0 {
      DecryptAt(w, c[0], c[1..], j - 1);
    }
  }

  /** Decrypting an encryption gives the plaintext back. */
  lemma {:induction false} DecryptOfEncrypt(w: Schedule, iv: Block, p: seq<Block>)
    ensures Decrypt(w, iv, Encrypt(w, iv, p)) == p
    decreases |p|
  {
    hide Cipher, InvCipher, Xor;
    if p != [] {
      var first := Cipher(w, Xor(p[0], iv));
      InvCipherOfCipher(w, Xor(p[0], iv));
      XorTwice(p[0], iv);
      DecryptOfEncrypt(w, first, p[1..]);
      assert Encrypt(w, iv, p)[1..] == Encrypt(w, first, p[1..]);
    }
  }

  /** ... and encrypting a decryption gives the ciphertext back. */
  lemma {:induction false} EncryptOfDecrypt(w: Schedule, iv: Block, c: seq<Block>)
    ensures Encrypt(w, iv, Decrypt(w, iv, c)) == c
    decreases |c|
  {
    hide Cipher, InvCipher, Xor;
    if c != [] {
      var p := Decrypt(w, iv, c);
      XorTwice(InvCipher(w, c[0]), iv);
      CipherOfInvCipher(w, c[0]);
      EncryptOfDecrypt(w, c[0], c[1..]);
      assert p[1..] == Decrypt(w, c[0], c[1..]);
    }
  }

  /** A long message may be encrypted in two calls, the second chaining from where the first stopped. */
  lemma {:induction false} EncryptSplit(w: Schedule, iv: Block, a: seq<Block>, b: seq<Block>)
    ensures Encrypt(w, iv, a + b) == Encrypt(w, iv, a) + Encrypt(w, Last(iv, Encrypt(w, iv, a)), b)
    decreases |a|
  {
    hide Cipher, Xor;
    if a == [] {
      assert a + b == b;
    } else {
      var first := Cipher(w, Xor(a[0], iv));
      EncryptSplit(w, first, a[1..], b);
      assert (a + b)[1..] == a[1..] + b;
      assert Encrypt(w, iv, a + b) == [first] + Encrypt(w, first, a[1..] + b);
      assert Encrypt(w, iv, a) == [first] + Encrypt(w, first, a[1..]);
      assert Last(iv, Encrypt(w, iv, a)) == Last(first, Encrypt(w, first, a[1..]));
    }
  }

  lemma {:induction false} DecryptSplit(w: Schedule, iv: Block, a: seq<Block>, b: seq<Block>)
    ensures Decrypt(w, iv, a + b) == Decrypt(w, iv, a) + Decrypt(w, Last(iv, a), b)
    decreases |a|
  {
    hide InvCipher, Xor;
    if a == [] {
      assert a + b == b;
    } else {
      DecryptSplit(w, a[0], a[1..], b);
      var first := Xor(InvCipher(w, a[0]), iv);
      assert (a + b)[1..] == a[1..] + b;
      assert Decrypt(w, iv, a + b) == [first] + Decrypt(w, a[0], a[1..] + b);
      assert Decrypt(w, iv, a) == [first] + Decrypt(w, a[0], a[1..]);
      assert Last(iv, a) == Last(a[0], a[1..]);
    }
  }

  /** The first `n` blocks of a buffer, from offset `at`. */
  function Blocks(buf: seq<bv8>, at: nat, n: nat): (r: seq<Block>)
    requires at + 16 * n <= |buf|
    ensures |r| == n
  {
    seq(n, j requires 0 <= j < n => buf[at + 16 * j .. at + 16 * j + 16])
  }

  /** A buffer whose first `n` blocks are kept and whose next block is known. */
  lemma BlocksSnoc(before: seq<bv8>, after: seq<bv8>, at: nat, n: nat)
    requires at + 16 * n + 16 <= |before| == |after|
    requires before[..at + 16 * n] == after[..at + 16 * n]
    ensures Blocks(after, at, n + 1) == Blocks(before, at, n) + [after[at + 16 * n .. at + 16 * n + 16]]
  {
    forall j | 0 <= j < n
      ensures Blocks(after, at, n + 1)[j] == Blocks(before, at, n)[j]
    {
      var lo := at + 16 * j;
      assert after[lo .. lo + 16] == after[..at + 16 * n][lo .. lo + 16] == before[lo .. lo + 16];
    }
  }

  /** What encryption leaves in the input buffer: each block with the preceding ciphertext block added. */
  function Masked(iv: Block, p: seq<Block>, c: seq<Block>): (m: seq<Block>)
    requires |c| == |p|
    ensures |m| == |p|
  {
    seq(|p|, j requires 0 <= j < |p| => Xor(p[j], if j == 0 then iv else c[j - 1]))
  }

  lemma MaskedSnoc(iv: Block, p: seq<Block>, c: seq<Block>, next: Block, last: Block)
    requires |c| == |p|
    ensures Masked(iv, p + [next], c + [last]) == Masked(iv, p, c) + [Xor(next, Last(iv, c))]
  {
    hide Xor;
  }

  lemma EncryptSnoc(w: Schedule, iv: Block, p: seq<Block>, n: nat)
    requires n < |p|
    ensures Encrypt(w, iv, p[..n + 1])
         == Encrypt(w, iv, p[..n]) + [Cipher(w, Xor(p[n], Last(iv, Encrypt(w, iv, p[..n]))))]
  {
    hide Cipher, Xor;
    EncryptSplit(w, iv, p[..n], [p[n]]);
    assert p[..n + 1] == p[..n] + [p[n]];
  }

  lemma DecryptSnoc(w: Schedule, iv: Block, c: seq<Block>, n: nat)
    requires n < |c|
    ensures Decrypt(w, iv, c[..n + 1]) == Decrypt(w, iv, c[..n]) + [Xor(InvCipher(w, c[n]), Last(iv, c[..n]))]
  {
    hide InvCipher, Xor;
    DecryptSplit(w, iv, c[..n], [c[n]]);
    assert c[..n + 1] == c[..n] + [c[n]];
  }

  /** The number of blocks that a call goes through; a last partial block counts. */
  function BlocksIn(length: nat): nat {
    (length + 15) / 16
  }

  lemma BlocksLeft(length: nat, j: nat)
    ensures 16 * j < length <==> j < BlocksIn(length)
  {
  }

  /** The state of the two buffers after `j` of the `n` blocks have been encrypted: the output holds the
      first `j` ciphertext blocks, the input blocks behind them are masked, and nothing else has changed. */
  ghost predicate EncryptedPrefix(w: Schedule, iv: Block, n: nat, in0: seq<bv8>, in1: seq<bv8>, inAt: nat,
                                  out0: seq<bv8>, out1: seq<bv8>, outAt: nat, j: nat)
  {
    && j <= n && inAt + 16 * n <= |in0| == |in1| && outAt + 16 * n <= |out0| == |out1|
    && var p := Blocks(in0, inAt, n)[..j];
    && Blocks(out1, outAt, j) == Encrypt(w, iv, p)
    && Blocks(in1, inAt, j) == Masked(iv, p, Encrypt(w, iv, p))
    && out1[..outAt] == out0[..outAt] && out1[outAt + 16 * j..] == out0[outAt + 16 * j..]
    && in1[..inAt] == in0[..inAt] && in1[inAt + 16 * j..] == in0[inAt + 16 * j..]
  }

  lemma EncryptedNone(w: Schedule, iv: Block, n: nat, in0: seq<bv8>, inAt: nat, out0: seq<bv8>, outAt: nat)
    requires inAt + 16 * n <= |in0| && outAt + 16 * n <= |out0|
    ensures EncryptedPrefix(w, iv, n, in0, in0, inAt, out0, out0, outAt, 0)
    ensures Last(iv, Blocks(out0, outAt, 0)) == iv
  {
  }

  lemma SameBlock(a: seq<bv8>, b: seq<bv8>, at: nat)
    requires at + 16 <= |a| == |b| && a[at..] == b[at..]
    ensures a[at .. at + 16] == b[at .. at + 16]
  {
    assert a[at .. at + 16] == a[at..][..16];
    assert b[at .. at + 16] == b[at..][..16];
  }

  lemma EncryptedNext(w: Schedule, iv: Block, n: nat, in0: seq<bv8>, in1: seq<bv8>, in2: seq<bv8>, inAt: nat,
                      out0: seq<bv8>, out1: seq<bv8>, out2: seq<bv8>, outAt: nat, j: nat)
    requires EncryptedPrefix(w, iv, n, in0, in1, inAt, out0, out1, outAt, j) && j < n
    requires Around(in1, in2, inAt + 16 * j) && Around(out1, out2, outAt + 16 * j)
    requires in2[inAt + 16 * j .. inAt + 16 * j + 16]
          == Xor(in1[inAt + 16 * j .. inAt + 16 * j + 16], Last(iv, Blocks(out1, outAt, j)))
    requires out2[outAt + 16 * j .. outAt + 16 * j + 16] == Cipher(w, in2[inAt + 16 * j .. inAt + 16 * j + 16])
    ensures EncryptedPrefix(w, iv, n, in0, in2, inAt, out0, out2, outAt, j + 1)
    ensures Last(iv, Blocks(out2, outAt, j + 1)) == out2[outAt + 16 * j .. outAt + 16 * j + 16]
  {
    hide Cipher, Xor, Encrypt, Masked, Blocks;
    var p, c := Blocks(in0, inAt, n), Blocks(out1, outAt, j);
    var at, to := inAt + 16 * j, outAt + 16 * j;
    SameBlock(in0, in1, at);
    BlockAt(in0, inAt, n, j);
    BlocksSnoc(in1, in2, inAt, j);
    BlocksSnoc(out1, out2, outAt, j);
    EncryptSnoc(w, iv, p, j);
    MaskedSnoc(iv, p[..j], c, p[j], out2[to .. to + 16]);
    assert p[..j + 1] == p[..j] + [p[j]];
    Outside(in0, in1, in2, inAt, j);
    Outside(out0, out1, out2, outAt, j);
  }

  lemma BlockAt(buf: seq<bv8>, at: nat, n: nat, j: nat)
    requires at + 16 * n <= |buf| && j < n
    ensures Blocks(buf, at, n)[j] == buf[at + 16 * j .. at + 16 * j + 16]
  {
  }

  lemma Outside(b0: seq<bv8>, b1: seq<bv8>, b2: seq<bv8>, at: nat, j: nat)
    requires at + 16 * j + 16 <= |b0| == |b1|
    requires b1[..at] == b0[..at] && b1[at + 16 * j..] == b0[at + 16 * j..]
    requires Around(b1, b2, at + 16 * j)
    ensures b2[..at] == b0[..at] && b2[at + 16 * (j + 1)..] == b0[at + 16 * (j + 1)..]
  {
    var m := at + 16 * j;
    assert b2[..at] == b2[..m][..at] == b1[..m][..at] == b1[..at];
    assert b2[m + 16..] == b1[m + 16..] == b1[m..][16..] == b0[m..][16..] == b0[m + 16..];
  }

  /** The effect of a whole encryption call. */
  ghost predicate Encrypted(w: Schedule, iv: Block, n: nat, in0: seq<bv8>, in1: seq<bv8>, inAt: nat,
                            out0: seq<bv8>, out1: seq<bv8>, outAt: nat)
  {
    EncryptedPrefix(w, iv, n, in0, in1, inAt, out0, out1, outAt, n)
  }

  /** The state of the output buffer after `j` of the `n` blocks have been decrypted. */
  ghost predicate DecryptedPrefix(w: Schedule, iv: Block, n: nat, input: seq<bv8>, inAt: nat,
                                  out0: seq<bv8>, out1: seq<bv8>, outAt: nat, j: nat)
  {
    && j <= n && inAt + 16 * n <= |input| && outAt + 16 * n <= |out0| == |out1|
    && Blocks(out1, outAt, j) == Decrypt(w, iv, Blocks(input, inAt, n)[..j])
    && out1[..outAt] == out0[..outAt] && out1[outAt + 16 * j..] == out0[outAt + 16 * j..]
  }

  lemma DecryptedNone(w: Schedule, iv: Block, n: nat, input: seq<bv8>, inAt: nat, out0: seq<bv8>, outAt: nat)
    requires inAt + 16 * n <= |input| && outAt + 16 * n <= |out0|
    ensures DecryptedPrefix(w, iv, n, input, inAt, out0, out0, outAt, 0)
    ensures Last(iv, Blocks(input, inAt, 0)) == iv
  {
  }

  lemma DecryptedNext(w: Schedule, iv: Block, n: nat, input: seq<bv8>, inAt: nat,
                      out0: seq<bv8>, out1: seq<bv8>, out2: seq<bv8>, outAt: nat, j: nat)
    requires j < n && inAt + 16 * n <= |input| && outAt + 16 * n <= |out2|
    requires Around(out1, out2, outAt + 16 * j)
    requires out2[outAt + 16 * j .. outAt + 16 * j + 16]
          == Xor(InvCipher(w, input[inAt + 16 * j .. inAt + 16 * j + 16]), Last(iv, Blocks(input, inAt, j)))
    requires DecryptedPrefix(w, iv, n, input, inAt, out0, out1, outAt, j)
    ensures DecryptedPrefix(w, iv, n, input, inAt, out0, out2, outAt, j + 1)
    ensures Last(iv, Blocks(input, inAt, j + 1)) == input[inAt + 16 * j .. inAt + 16 * j + 16]
  {
    hide InvCipher, Xor, Decrypt, Blocks;
    var c := Blocks(input, inAt, n);
    BlockAt(input, inAt, n, j);
    BlocksTake(input, inAt, n, j);
    BlocksSnoc(input, input, inAt, j);
    BlocksSnoc(out1, out2, outAt, j);
    DecryptSnoc(w, iv, c, j);
    Outside(out0, out1, out2, outAt, j);
  }

  lemma BlocksTake(buf: seq<bv8>, at: nat, n: nat, j: nat)
    requires at + 16 * n <= |buf| && j <= n
    ensures Blocks(buf, at, n)[..j] == Blocks(buf, at, j)
  {
  }

  /** The effect of a whole decryption call. */
  ghost predicate Decrypted(w: Schedule, iv: Block, n: nat, input: seq<bv8>, inAt: nat,
                            out0: seq<bv8>, out1: seq<bv8>, outAt: nat)
  {
    DecryptedPrefix(w, iv, n, input, inAt, out0, out1, outAt, n)
  }

  /** Buffers with equal blocks have equal bytes. */
  lemma EqualBlocks(a: seq<bv8>, b: seq<bv8>, n: nat)
    requires |a| == |b| == 16 * n && Blocks(a, 0, n) == Blocks(b, 0, n)
    ensures a == b
  {
    forall i | 0 <= i < 16 * n
      ensures a[i] == b[i]
    {
      BlockAt(a, 0, n, i / 16);
      BlockAt(b, 0, n, i / 16);
      assert a[16 * (i / 16) .. 16 * (i / 16) + 16][i % 16] == a[i];
      assert b[16 * (i / 16) .. 16 * (i / 16) + 16][i % 16] == b[i];
    }
  }

  lemma BlocksJoin(buf: seq<bv8>, at: nat, n: nat, m: nat)
    requires at + 16 * (n + m) <= |buf|
    ensures Blocks(buf, at, n + m) == Blocks(buf, at, n) + Blocks(buf, at + 16 * n, m)
  {
  }

  lemma BlocksSame(a: seq<bv8>, b: seq<bv8>, at: nat, n: nat, lo: nat, hi: nat)
    requires lo <= at && at + 16 * n <= hi <= |a| && hi <= |b| && a[lo..hi] == b[lo..hi]
    ensures Blocks(a, at, n) == Blocks(b, at, n)
  {
    forall j | 0 <= j < n
      ensures Blocks(a, at, n)[j] == Blocks(b, at, n)[j]
    {
      BlockAt(a, at, n, j);
      BlockAt(b, at, n, j);
      var k := at + 16 * j - lo;
      assert a[at + 16 * j .. at + 16 * j + 16] == a[lo..hi][k .. k + 16];
      assert b[at + 16 * j .. at + 16 * j + 16] == b[lo..hi][k .. k + 16];
    }
  }

  lemma MaskedJoin(iv: Block, p: seq<Block>, q: seq<Block>, c: seq<Block>, d: seq<Block>)
    requires |c| == |p| && |d| == |q|
    ensures Masked(iv, p + q, c + d) == Masked(iv, p, c) + Masked(Last(iv, c), q, d)
  {
    hide Xor;
  }

  lemma OutsideTwice(b0: seq<bv8>, b1: seq<bv8>, b2: seq<bv8>, at: nat, m: nat, n: nat)
    requires at + m + n <= |b0| == |b1| == |b2|
    requires b1[..at] == b0[..at] && b1[at + m..] == b0[at + m..]
    requires b2[..at + m] == b1[..at + m] && b2[at + m + n..] == b1[at + m + n..]
    ensures b2[..at] == b0[..at] && b2[at + m + n..] == b0[at + m + n..]
  {
    assert b2[..at] == b2[..at + m][..at] == b1[..at];
    assert b1[at + m + n..] == b1[at + m..][n..] == b0[at + m + n..];
  }

  /** Two encryption calls on adjacent stretches of the buffers, the second going on from the last
      ciphertext block of the first, do exactly what one call on the whole stretch does. */
  lemma EncryptedTwice(w: Schedule, iv: Block, m: nat, n: nat, in0: seq<bv8>, in1: seq<bv8>, in2: seq<bv8>, inAt: nat,
                       out0: seq<bv8>, out1: seq<bv8>, out2: seq<bv8>, outAt: nat)
    requires Encrypted(w, iv, m, in0, in1, inAt, out0, out1, outAt)
    requires Encrypted(w, Last(iv, Blocks(out1, outAt, m)), n, in1, in2, inAt + 16 * m, out1, out2, outAt + 16 * m)
    ensures Encrypted(w, iv, m + n, in0, in2, inAt, out0, out2, outAt)
  {
    hide Encrypt, Masked, Blocks;
    var p, q := Blocks(in0, inAt, m), Blocks(in1, inAt + 16 * m, n);
    var c, d := Blocks(out1, outAt, m), Blocks(out2, outAt + 16 * m, n);
    assert p[..m] == p && q[..n] == q;
    BlocksSame(in0, in1, inAt + 16 * m, n, inAt + 16 * m, |in0|);
    BlocksJoin(in0, inAt, m, n);
    assert Blocks(in0, inAt, m + n)[..m + n] == p + q;
    BlocksSame(out1, out2, outAt, m, 0, outAt + 16 * m);
    BlocksJoin(out2, outAt, m, n);
    BlocksSame(in1, in2, inAt, m, 0, inAt + 16 * m);
    BlocksJoin(in2, inAt, m, n);
    EncryptSplit(w, iv, p, q);
    MaskedJoin(iv, p, q, c, d);
    OutsideTwice(in0, in1, in2, inAt, 16 * m, 16 * n);
    OutsideTwice(out0, out1, out2, outAt, 16 * m, 16 * n);
  }

  /** ... and the same for decryption, the second call going on from the last block of the first input. */
  lemma DecryptedTwice(w: Schedule, iv: Block, m: nat, n: nat, input: seq<bv8>, inAt: nat,
                       out0: seq<bv8>, out1: seq<bv8>, out2: seq<bv8>, outAt: nat)
    requires Decrypted(w, iv, m, input, inAt, out0, out1, outAt)
    requires inAt + 16 * m <= |input|
    requires Decrypted(w, Last(iv, Blocks(input, inAt, m)), n, input, inAt + 16 * m, out1, out2, outAt + 16 * m)
    ensures Decrypted(w, iv, m + n, input, inAt, out0, out2, outAt)
  {
    hide Decrypt, Blocks;
    var c, d := Blocks(input, inAt, m), Blocks(input, inAt + 16 * m, n);
    assert c[..m] == c && d[..n] == d;
    BlocksJoin(input, inAt, m, n);
    assert Blocks(input, inAt, m + n)[..m + n] == c + d;
    BlocksSame(out1, out2, outAt, m, 0, outAt + 16 * m);
    BlocksJoin(out2, outAt, m, n);
    DecryptSplit(w, iv, c, d);
    OutsideTwice(out0, out1, out2, outAt, 16 * m, 16 * n);
  }
}
