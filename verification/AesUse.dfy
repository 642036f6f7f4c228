/** Uses of the AES object that go through several calls. */
module AesUse {
  import Spec = AesSpec
  import Cbc
  import Aes
  import MacSpec = CmacSpec
  import Cmac

  /** The repository's own CBC test: encrypt, then decrypt with the same key and vector, for a buffer of
      any number of blocks. The plaintext comes back although the call has overwritten the input. */
  method EncryptThenDecrypt(aes: Aes.Aes, input: array<bv8>, out: array<bv8>, back: array<bv8>,
                            key: array<bv8>, iv: array<bv8>)
    requires aes.Valid() && input.Length == out.Length == back.Length && input.Length % 16 == 0
    requires |{input, out, back}| == 3 && aes.roundKey !in {input, out, back, key, iv}
    requires key.Length >= 16 && iv.Length >= 16 && {key, iv} !! {input, out, back}
    modifies aes, aes.roundKey, input, out, back
    ensures back[..] == old(input[..])
  {
    hide Spec.ExpandedKey, Cbc.Blocks, Cbc.Encrypt, Cbc.Decrypt, Cbc.Masked;
    ghost var n := input.Length / 16;
    ghost var p := Cbc.Blocks(input[..], 0, n);
    aes.CbcEncryptBuffer(out, 0, input, 0, input.Length, key, iv);
    aes.CbcDecryptBuffer(back, 0, out, 0, input.Length, key, iv);
    ghost var w := Spec.ExpandedKey(old(key[..16]));
    assert p[..n] == p;
    ghost var c := Cbc.Blocks(out[..], 0, n);
    assert c[..n] == c;
    Cbc.DecryptOfEncrypt(w, iv[..16], p);
    Cbc.EqualBlocks(back[..], old(input[..]), n);
  }

  /** Two encryption calls, the second with a null key and a null vector, do what one call does. */
  method EncryptInTwoCalls(aes: Aes.Aes, input: array<bv8>, out: array<bv8>, first: nat, second: nat,
                           key: array<bv8>, iv: array<bv8>)
    requires aes.Valid() && input.Length == out.Length == 16 * (first + second)
    requires input != out && aes.roundKey !in {input, out, key, iv}
    requires key.Length >= 16 && iv.Length >= 16 && {key, iv} !! {input, out}
    modifies aes, aes.roundKey, input, out
    ensures Cbc.Encrypted(Spec.ExpandedKey(key[..16]), iv[..16], first + second, old(input[..]), input[..], 0,
        old(out[..]), out[..], 0)
  {
    hide Spec.ExpandedKey, Cbc.Blocks, Cbc.Encrypted, Cbc.Last;
    ghost var in0, out0 := input[..], out[..];
    aes.CbcEncryptBuffer(out, 0, input, 0, 16 * first, key, iv);
    ghost var in1, out1 := input[..], out[..];
    LastIs(iv[..16], out1, 0, first);
    aes.CbcEncryptBuffer(out, 16 * first, input, 16 * first, 16 * second, null, null);
    Cbc.EncryptedTwice(Spec.ExpandedKey(key[..16]), iv[..16], first, second, in0, in1, input[..], 0, out0, out1,
        out[..], 0);
  }

  method DecryptInTwoCalls(aes: Aes.Aes, input: array<bv8>, out: array<bv8>, first: nat, second: nat,
                           key: array<bv8>, iv: array<bv8>)
    requires aes.Valid() && input.Length == out.Length == 16 * (first + second)
    requires input != out && aes.roundKey !in {input, out, key, iv}
    requires key.Length >= 16 && iv.Length >= 16 && {key, iv} !! {input, out}
    modifies aes, aes.roundKey, out
    ensures Cbc.Decrypted(Spec.ExpandedKey(key[..16]), iv[..16], first + second, input[..], 0, old(out[..]), out[..], 0)
  {
    hide Spec.ExpandedKey, Cbc.Blocks, Cbc.Decrypted, Cbc.Last;
    ghost var out0 := out[..];
    aes.CbcDecryptBuffer(out, 0, input, 0, 16 * first, key, iv);
    ghost var out1 := out[..];
    LastIs(iv[..16], input[..], 0, first);
    aes.CbcDecryptBuffer(out, 16 * first, input, 16 * first, 16 * second, null, null);
    Cbc.DecryptedTwice(Spec.ExpandedKey(key[..16]), iv[..16], first, second, input[..], 0, out0, out1, out[..], 0);
  }

  /** The MAC of a message, and CBC encryption with a zero vector of the message with its last block replaced: the MAC
      is the last block of the ciphertext. */
  method MacByCbc(aes: Aes.Aes, key: array<bv8>, input: array<bv8>, len: nat, mac: array<bv8>,
                  prepared: array<bv8>, zero: array<bv8>, out: array<bv8>)
    requires aes.Valid() && key.Length >= 16 && len <= input.Length && mac.Length >= 16
    requires prepared.Length == out.Length == 16 * MacSpec.BlockCount(len)
    requires zero.Length == 16 && zero[..] == Spec.ZEROS
    requires |{mac, prepared, out}| == 3 && {key, input, zero} !! {mac, prepared, out}
    requires aes.roundKey !in {key, input, mac, prepared, zero, out}
    requires Cbc.Blocks(prepared[..], 0, MacSpec.BlockCount(len))
        == MacSpec.Prepared(Spec.ExpandedKey(key[..16]), input[..len])
    modifies aes, aes.roundKey, mac, prepared, out
    ensures mac[..16] == out[out.Length - 16..]
  {
    hide Spec.ExpandedKey, Cbc.Blocks, Cbc.Encrypt, Cbc.Masked, Cbc.Last, MacSpec.Mac, MacSpec.Prepared,
        MacSpec.BlockCount;
    ghost var w, m, n := Spec.ExpandedKey(key[..16]), input[..len], MacSpec.BlockCount(len);
    ghost var p := Cbc.Blocks(prepared[..], 0, n);
    Cmac.AesCmac(aes, key, input, len, mac);
    aes.CbcEncryptBuffer(out, 0, prepared, 0, prepared.Length, key, zero);
    assert zero[..16] == zero[..];
    assert Cbc.BlocksIn(prepared.Length) == n && p[..n] == p;
    MacSpec.MacIsLastCbcBlock(w, m);
    LastIs(Spec.ZEROS, out[..], 0, n);
    assert out[..][16 * n - 16 .. 16 * n] == out[out.Length - 16..];
  }

  lemma LastIs(iv: Spec.Block, buf: seq<bv8>, at: nat, n: nat)
    requires at + 16 * n <= |buf|
    ensures Cbc.Last(iv, Cbc.Blocks(buf, at, n)) == if n == 0 then iv else buf[at + 16 * n - 16 .. at + 16 * n]
  {
    if n > 0 {
      Cbc.BlockAt(buf, at, n, n - 1);
    }
  }
}
