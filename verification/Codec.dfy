/** security/aes_codec.go: a digest and the plaintext, padded and CBC-encrypted under an IV that is
    sent in front. The block cipher and SHA-1 are parameters. */
module Codec {
  import opened Common

  const BLOCK := 16
  const DIGEST := 20

  type Block = b: Bytes | |b| == BLOCK witness [0, 0, 0, 0, 0, 0, 0, 0, 0, 0, 0, 0, 0, 0, 0, 0]
  type Digest = b: Bytes | |b| == DIGEST witness [0, 0, 0, 0, 0, 0, 0, 0, 0, 0, 0, 0, 0, 0, 0, 0, 0, 0, 0, 0]

  /** AES under one key; all that is assumed is that decrypting a block inverts encrypting it. */
  datatype Cipher = Cipher(encrypt: Block -> Block, decrypt: Block -> Block) {
    ghost predicate Valid() {
      forall b: Block :: decrypt(encrypt(b)) == b
    }
  }

  function Xor(a: Block, b: Block): Block {
    seq(BLOCK, i requires 0 <= i < BLOCK => a[i] ^ b[i])
  }

  lemma XorTwice(a: Block, b: Block)
    ensures Xor(Xor(a, b), b) == a
  {
    forall i | 0 <= i < BLOCK ensures Xor(Xor(a, b), b)[i] == a[i] {
      XorByteTwice(a[i], b[i]);
    }
  }

  lemma XorByteTwice(x: bv8, y: bv8)
    ensures x ^ y ^ y == x
  {
  }

  // ---------- CBC, section 6.2 of NIST SP 800-38A ----------

  function CbcEncrypt(c: Cipher, iv: Block, data: Bytes): (r: Bytes)
    requires |data| % BLOCK == 0
    ensures |r| == |data|
    decreases |data|
  {
    if |data| == 0 then []
    else
      var x := c.encrypt(Xor(data[..BLOCK], iv));
      x + CbcEncrypt(c, x, data[BLOCK..])
  }

  function CbcDecrypt(c: Cipher, iv: Block, data: Bytes): (r: Bytes)
    requires |data| % BLOCK == 0
    ensures |r| == |data|
    decreases |data|
  {
    if |data| == 0 then []
    else
      var y: Block := data[..BLOCK];
      Xor(c.decrypt(y), iv) + CbcDecrypt(c, y, data[BLOCK..])
  }

  lemma {:induction false} CbcInverse(c: Cipher, iv: Block, data: Bytes)
    requires c.Valid() && |data| % BLOCK == 0
    ensures CbcDecrypt(c, iv, CbcEncrypt(c, iv, data)) == data
    decreases |data|
  {
    if |data| > 0 {
      assert |data| >= BLOCK;
      var first := data[..BLOCK];
      var x := c.encrypt(Xor(first, iv));
      var rest := CbcEncrypt(c, x, data[BLOCK..]);
      var sent := CbcEncrypt(c, iv, data);
      assert sent == x + rest;
      assert sent[..BLOCK] == x && sent[BLOCK..] == rest;
      CbcInverse(c, x, data[BLOCK..]);
      XorTwice(first, iv);
      assert data == first + data[BLOCK..];
    }
  }

  lemma EncryptStep(c: Cipher, previous: Block, done: Bytes, rest: Bytes)
    requires |rest| > 0 && |rest| % BLOCK == 0
    ensures var x := c.encrypt(Xor(rest[..BLOCK], previous));
            (done + x) + CbcEncrypt(c, x, rest[BLOCK..]) == done + CbcEncrypt(c, previous, rest)
  {
  }

  lemma DecryptStep(c: Cipher, previous: Block, done: Bytes, rest: Bytes)
    requires |rest| > 0 && |rest| % BLOCK == 0
    ensures (done + Xor(c.decrypt(rest[..BLOCK]), previous)) + CbcDecrypt(c, rest[..BLOCK], rest[BLOCK..])
         == done + CbcDecrypt(c, previous, rest)
  {
  }

  // ---------- padding ----------

  predicate IsPad(b: bv8) {
    b == 0 || b == 0x80
  }

  /** Padding, the "1 then 0s" of Appendix A of NIST SP 800-38A; the branch for 0 is never taken. */
  function Padding(data: Bytes): Bytes {
    var padding := BLOCK - |data| % BLOCK;
    if padding == 0 then data
    else if padding == 1 then data + [0x80]
    else data + ([0x80] + seq(padding - 1, _ => 0))
  }

  /** The callers pad only data that does not fill whole blocks. */
  function Padded(data: Bytes): Bytes {
    if |data| % BLOCK != 0 then Padding(data) else data
  }

  /** Data without its trailing 0x00 and 0x80 bytes: what the backward scan keeps. */
  function Strip(data: Bytes): Bytes {
    if data != [] && IsPad(data[|data| - 1]) then Strip(data[..|data| - 1]) else data
  }

  ghost predicate AllPad(data: Bytes) {
    forall i :: 0 <= i < |data| ==> IsPad(data[i])
  }

  lemma PaddedShape(data: Bytes)
    ensures |Padded(data)| % BLOCK == 0
    ensures |data| <= |Padded(data)| && Padded(data)[..|data|] == data && AllPad(Padded(data)[|data|..])
  {
  }

  lemma {:induction false} StripAppendPad(data: Bytes, pad: Bytes)
    requires AllPad(pad)
    ensures Strip(data + pad) == Strip(data)
  {
    if pad == [] {
      assert data + pad == data;
    } else {
      var n := |pad| - 1;
      assert (data + pad)[|data + pad| - 1] == pad[n];
      assert (data + pad)[..|data + pad| - 1] == data + pad[..n];
      StripAppendPad(data, pad[..n]);
    }
  }

  lemma {:induction false} StripPrefix(head: Bytes, data: Bytes)
    ensures Strip(data) != [] ==> Strip(head + data) == head + Strip(data)
    ensures Strip(data) == [] ==> Strip(head + data) == Strip(head)
  {
    if data == [] {
      assert head + data == head;
    } else if IsPad(data[|data| - 1]) {
      assert (head + data)[|head + data| - 1] == data[|data| - 1];
      assert (head + data)[..|head + data| - 1] == head + data[..|data| - 1];
      StripPrefix(head, data[..|data| - 1]);
    } else {
      assert (head + data)[|head + data| - 1] == data[|data| - 1];
    }
  }

  lemma {:induction false} StripIsPrefix(data: Bytes)
    ensures Strip(data) <= data
    ensures Strip(data) == data <==> data == [] || !IsPad(data[|data| - 1])
  {
    if data != [] && IsPad(data[|data| - 1]) {
      StripIsPrefix(data[..|data| - 1]);
    }
  }

  // ---------- the codec ----------

  /** OutOfRange is the index -1 the unpadding loop reaches when every byte is padding. */
  datatype Decrypted = Plain(bytes: Bytes) | TooShort | NotWholeBlocks | DecryptError | OutOfRange

  function Encrypted(c: Cipher, sha1: Bytes -> Digest, iv: Block, plain: Bytes): Bytes {
    PaddedShape(sha1(iv + plain) + plain);
    iv + CbcEncrypt(c, iv, Padded(sha1(iv + plain) + plain))
  }

  function Unpadded(data: Bytes): Decrypted {
    if Strip(data) == [] then OutOfRange
    else if |Strip(data)| - 1 < DIGEST then DecryptError
    else Plain(Strip(data)[DIGEST..])
  }

  function DecryptedOf(c: Cipher, input: Bytes): Decrypted {
    if |input| < BLOCK then TooShort
    else if |input[BLOCK..]| % BLOCK != 0 then NotWholeBlocks
    else Unpadded(CbcDecrypt(c, input[..BLOCK], input[BLOCK..]))
  }

  /** What comes back, for every key, IV and plaintext: the plaintext without its trailing 0x00 and
      0x80 bytes, and an error when nothing of it is left. */
  lemma DecryptAfterEncrypt(c: Cipher, sha1: Bytes -> Digest, iv: Block, plain: Bytes)
    requires c.Valid()
    ensures DecryptedOf(c, Encrypted(c, sha1, iv, plain)) ==
            if Strip(plain) != [] then Plain(Strip(plain))
            else if Strip(sha1(iv + plain)) == [] then OutOfRange else DecryptError
  {
    var digest := sha1(iv + plain);
    var data := digest + plain;
    PaddedShape(data);
    var sent := CbcEncrypt(c, iv, Padded(data));
    assert (iv + sent)[..BLOCK] == iv && (iv + sent)[BLOCK..] == sent;
    CbcInverse(c, iv, Padded(data));
    assert Padded(data) == data + Padded(data)[|data|..];
    StripAppendPad(data, Padded(data)[|data|..]);
    StripPrefix(digest, plain);
    StripIsPrefix(digest);
    if Strip(plain) != [] {
      assert (digest + Strip(plain))[DIGEST..] == Strip(plain);
    }
  }

  /** The plaintext itself comes back exactly when it is non-empty and its last byte is neither 0x00
      nor 0x80. */
  lemma RoundTripExactly(c: Cipher, sha1: Bytes -> Digest, iv: Block, plain: Bytes)
    requires c.Valid()
    ensures DecryptedOf(c, Encrypted(c, sha1, iv, plain)) == Plain(plain)
            <==> plain != [] && !IsPad(plain[|plain| - 1])
  {
    DecryptAfterEncrypt(c, sha1, iv, plain);
    StripIsPrefix(plain);
  }

  class AesCodec {
    const cipher: Cipher
    const sha1: Bytes -> Digest

    constructor (cipher: Cipher, sha1: Bytes -> Digest)
      ensures this.cipher == cipher && this.sha1 == sha1
    {
      this.cipher := cipher;
      this.sha1 := sha1;
    }

    /** CryptBlocks of the CBC encrypter, in place. */
    method EncryptBlocks(iv: Block, a: array<bv8>)
      requires a.Length % BLOCK == 0
      modifies a
      ensures a[..] == CbcEncrypt(cipher, iv, old(a[..]))
    {
      var i := 0;
      var previous: Block := iv;
      while i < a.Length
        invariant 0 <= i <= a.Length && i % BLOCK == 0
        invariant a[i..] == old(a[i..])
        invariant a[..i] + CbcEncrypt(cipher, previous, a[i..]) == CbcEncrypt(cipher, iv, old(a[..]))
      {
        ghost var rest, done := a[i..], a[..i];
        var block: Block := a[i..i + BLOCK];
        var x := cipher.encrypt(Xor(block, previous));
        assert rest[..BLOCK] == block;
        EncryptStep(cipher, previous, done, rest);
        Overwrite(a, i, x);
        assert rest[BLOCK..] == a[i + BLOCK..];
        previous := x;
        i := i + BLOCK;
      }
      assert a[..i] == a[..] && a[i..] == [];
    }

    /** CryptBlocks of the CBC decrypter, in place. */
    method DecryptBlocks(iv: Block, a: array<bv8>)
      requires a.Length % BLOCK == 0
      modifies a
      ensures a[..] == CbcDecrypt(cipher, iv, old(a[..]))
    {
      var i := 0;
      var previous: Block := iv;
      while i < a.Length
        invariant 0 <= i <= a.Length && i % BLOCK == 0
        invariant a[i..] == old(a[i..])
        invariant a[..i] + CbcDecrypt(cipher, previous, a[i..]) == CbcDecrypt(cipher, iv, old(a[..]))
      {
        ghost var rest, done := a[i..], a[..i];
        var block: Block := a[i..i + BLOCK];
        assert rest[..BLOCK] == block;
        DecryptStep(cipher, previous, done, rest);
        Overwrite(a, i, Xor(cipher.decrypt(block), previous));
        assert rest[BLOCK..] == a[i + BLOCK..];
        previous := block;
        i := i + BLOCK;
      }
      assert a[..i] == a[..] && a[i..] == [];
    }

    static method Overwrite(a: array<bv8>, i: nat, block: Block)
      requires i + BLOCK <= a.Length
      modifies a
      ensures a[..i + BLOCK] == old(a[..i]) + block
      ensures a[i + BLOCK..] == old(a[i + BLOCK..])
    {
      forall k | 0 <= k < BLOCK {
        a[i + k] := block[k];
      }
    }

    /** iv is the random vector the source draws. */
    method EncryptBytes(iv: Block, plain: Bytes) returns (ciphertext: array<bv8>)
      ensures fresh(ciphertext)
      ensures ciphertext[..] == Encrypted(cipher, sha1, iv, plain)
    {
      var hashedIvPlain := sha1(iv + plain) + plain;
      PaddedShape(hashedIvPlain);
      if |hashedIvPlain| % BLOCK != 0 {
        hashedIvPlain := Padding(hashedIvPlain);
      }
      var body := new bv8[|hashedIvPlain|](i requires 0 <= i < |hashedIvPlain| => hashedIvPlain[i]);
      assert body[..] == hashedIvPlain;
      EncryptBlocks(iv, body);
      var sent := iv + body[..];
      ciphertext := new bv8[|sent|](i requires 0 <= i < |sent| => sent[i]);
      assert ciphertext[..] == sent;
    }

    /** The scan for the last byte that is no padding; None is the index -1. */
    method LastDataIndex(a: array<bv8>) returns (index: int)
      ensures -1 <= index < a.Length
      ensures Strip(a[..]) == a[..index + 1]
    {
      index := a.Length - 1;
      assert a[..index + 1] == a[..];
      while index >= 0 && (a[index] == 0 || a[index] == 0x80)
        invariant -1 <= index < a.Length
        invariant Strip(a[..index + 1]) == Strip(a[..])
      {
        assert a[..index + 1][..index] == a[..index];
        index := index - 1;
      }
    }

    method DecryptBytes(input: array<bv8>) returns (r: Decrypted)
      ensures r == DecryptedOf(cipher, input[..])
    {
      if input.Length < BLOCK {
        return TooShort;
      }
      var iv: Block := input[..BLOCK];
      if (input.Length - BLOCK) % BLOCK != 0 {
        return NotWholeBlocks;
      }
      var rest := input[BLOCK..];
      assert input[..][BLOCK..] == rest && input[..][..BLOCK] == iv;
      var ciphertext := new bv8[|rest|](i requires 0 <= i < |rest| => rest[i]);
      assert ciphertext[..] == rest;
      DecryptBlocks(iv, ciphertext);
      var index := LastDataIndex(ciphertext);
      if index < 0 {
        return OutOfRange;
      }
      if index < DIGEST {
        return DecryptError;
      }
      assert ciphertext[..index + 1][DIGEST..] == ciphertext[DIGEST..index + 1];
      r := Plain(ciphertext[DIGEST..index + 1]);
    }
  }
}
