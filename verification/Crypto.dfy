/** encryptBytes and decryptBytes (core/common.go): PKCS#7 padding (section 6.3 of RFC 5652) under CBC
    (section 6.2 of NIST SP 800-38A) with a fixed initialisation vector. The block cipher is any
    permutation of 16-byte blocks with an inverse. */
module Crypto {
  import opened Basics

  const BlockSize := 16

  type Block = b: Bytes | |b| == 16 witness seq(16, _ => 0)

  datatype Cipher = Cipher(enc: Block -> Block, dec: Block -> Block)

  ghost predicate Invertible(c: Cipher) {
    forall b: Block :: c.dec(c.enc(b)) == b
  }

  /** What aes.NewCipher makes of a key: an empty key switches encryption off, a key of the wrong length
      is an error. */
  datatype Key = NoKey | BadKey | Keyed(cipher: Cipher)

  // ----- exclusive or

  function Xor(a: nat, b: nat, bits: nat): nat {
    if bits == 0 then 0
    else (if a % 2 == b % 2 then 0 else 1) + 2 * Xor(a / 2, b / 2, bits - 1)
  }

  lemma {:induction false} XorInvolutive(a: nat, b: nat, bits: nat)
    requires a < Pow2(bits)
    ensures Xor(Xor(a, b, bits), b, bits) == a
  {
    if bits == 0 {
    } else {
      XorInvolutive(a / 2, b / 2, bits - 1);
      var x := Xor(a, b, bits);
      assert x / 2 == Xor(a / 2, b / 2, bits - 1);
    }
  }

  predicate Bit(a: nat, k: nat) {
    if k == 0 then a % 2 == 1 else Bit(a / 2, k - 1)
  }

  /** It is the exclusive or of every bit. */
  lemma {:induction false} XorBits(a: nat, b: nat, bits: nat, k: nat)
    requires k < bits
    ensures Bit(Xor(a, b, bits), k) <==> Bit(a, k) != Bit(b, k)
  {
    var x := Xor(a, b, bits);
    assert x / 2 == Xor(a / 2, b / 2, bits - 1);
    if k > 0 {
      XorBits(a / 2, b / 2, bits - 1, k - 1);
    }
  }

  lemma {:induction false} XorBound(a: nat, b: nat, bits: nat)
    ensures Xor(a, b, bits) < Pow2(bits)
  {
    if bits == 0 {
    } else {
      XorBound(a / 2, b / 2, bits - 1);
    }
  }

  lemma Pow2Byte()
    ensures Pow2(8) == 256
  {
    assert Pow2(2) == 4 && Pow2(4) == 16 && Pow2(6) == 64;
  }

  function XorByte(a: Byte, b: Byte): Byte {
    XorBound(a, b, 8);
    Pow2Byte();
    Xor(a, b, 8)
  }

  function XorBlock(a: Block, b: Block): Block {
    seq(16, i requires 0 <= i < 16 => XorByte(a[i], b[i]))
  }

  lemma XorByteBits(a: Byte, b: Byte, k: nat)
    requires k < 8
    ensures Bit(XorByte(a, b), k) <==> Bit(a, k) != Bit(b, k)
  {
    XorBits(a, b, 8, k);
  }

  lemma XorBlockInvolutive(a: Block, b: Block)
    ensures XorBlock(XorBlock(a, b), b) == a
  {
    Pow2Byte();
    forall i | 0 <= i < 16 ensures XorByte(XorByte(a[i], b[i]), b[i]) == a[i] {
      XorInvolutive(a[i], b[i], 8);
    }
  }

  // ----- CBC

  function CbcEncrypt(c: Cipher, iv: Block, p: Bytes): (r: Bytes)
    requires |p| % BlockSize == 0
    ensures |r| == |p|
    decreases |p|
  {
    if p == [] then []
    else
      var y := c.enc(XorBlock(p[..16], iv));
      y + CbcEncrypt(c, y, p[16..])
  }

  function CbcDecrypt(c: Cipher, iv: Block, q: Bytes): (r: Bytes)
    requires |q| % BlockSize == 0
    ensures |r| == |q|
    decreases |q|
  {
    if q == [] then []
    else XorBlock(c.dec(q[..16]), iv) + CbcDecrypt(c, q[..16], q[16..])
  }

  /** Block k of the ciphertext is the cipher of block k of the plaintext, combined with the block of
      ciphertext before it, or with the initialisation vector. */
  lemma {:induction false} CbcBlock(c: Cipher, iv: Block, p: Bytes, k: nat)
    requires |p| % BlockSize == 0 && 16 * k + 16 <= |p|
    ensures var q := CbcEncrypt(c, iv, p);
            var prev: Block := if k == 0 then iv else q[16 * k - 16..16 * k];
            q[16 * k..16 * k + 16] == c.enc(seq(16, i requires 0 <= i < 16 => XorByte(p[16 * k + i], prev[i])))
    decreases |p|
  {
    var y := c.enc(XorBlock(p[..16], iv));
    var q, rest := CbcEncrypt(c, iv, p), CbcEncrypt(c, y, p[16..]);
    assert q == y + rest;
    if k == 0 {
      assert q[16 * k..16 * k + 16] == y;
      assert XorBlock(p[..16], iv) == seq(16, i requires 0 <= i < 16 => XorByte(p[16 * k + i], iv[i]));
    } else {
      CbcBlock(c, y, p[16..], k - 1);
      ShiftedBlocks(y, rest, k);
      var prev: Block := q[16 * k - 16..16 * k];
      assert seq(16, i requires 0 <= i < 16 => XorByte(p[16..][16 * (k - 1) + i], prev[i])) ==
             seq(16, i requires 0 <= i < 16 => XorByte(p[16 * k + i], prev[i]));
    }
  }

  lemma ShiftedBlocks(y: Block, rest: Bytes, k: nat)
    requires k >= 1 && 16 * k <= |rest|
    ensures var q := y + rest;
            && q[16 * k..16 * k + 16] == rest[16 * (k - 1)..16 * (k - 1) + 16]
            && q[16 * k - 16..16 * k] == if k == 1 then y else rest[16 * (k - 1) - 16..16 * (k - 1)]
  {}

  lemma {:induction false} CbcRoundTrip(c: Cipher, iv: Block, p: Bytes)
    requires Invertible(c) && |p| % BlockSize == 0
    ensures CbcDecrypt(c, iv, CbcEncrypt(c, iv, p)) == p
    decreases |p|
  {
    if p == [] {
    } else {
      var y := c.enc(XorBlock(p[..16], iv));
      var q := CbcEncrypt(c, iv, p);
      assert q[..16] == y && q[16..] == CbcEncrypt(c, y, p[16..]);
      CbcRoundTrip(c, y, p[16..]);
      XorBlockInvolutive(p[..16], iv);
      assert p == p[..16] + p[16..];
    }
  }

  // ----- padding

  function PadLen(n: nat): (k: Byte)
    ensures 1 <= k <= 16 && (n + k) % BlockSize == 0
  {
    BlockSize - n % BlockSize
  }

  function Pad(p: Bytes): (r: Bytes)
    ensures |r| % BlockSize == 0 && |p| < |r| <= |p| + 16
  {
    p + seq(PadLen(|p|), _ => PadLen(|p|))
  }

  /** pkcs7UnPadding looks at the last byte alone. */
  function Unpad(d: Bytes): Option<Bytes>
    requires |d| >= BlockSize
  {
    var n := d[|d| - 1];
    if n <= 0 || n > 16 then None else Some(d[..|d| - n])
  }

  /** The padding is one to sixteen bytes, each of them the number of bytes added. */
  lemma PadBytes(p: Bytes, i: nat)
    requires i < |Pad(p)|
    ensures 1 <= |Pad(p)| - |p| <= 16 && |Pad(p)| % 16 == 0
    ensures Pad(p)[i] == if i < |p| then p[i] else |Pad(p)| - |p|
  {}

  /** Padding is accepted exactly when the last byte is 1 to 16, and that many bytes are dropped. */
  lemma UnpadExact(d: Bytes, p: Bytes)
    requires |d| >= BlockSize
    ensures Unpad(d) == Some(p) <==>
            1 <= d[|d| - 1] <= 16 && |p| + d[|d| - 1] == |d| && p <= d
  {
    if p <= d {
      assert p == d[..|p|];
    }
  }

  lemma UnpadPad(p: Bytes)
    ensures Unpad(Pad(p)) == Some(p)
  {
    assert Pad(p)[..|p|] == p;
  }

  // ----- the two functions of the source

  function Encrypted(key: Key, iv: Block, p: Bytes): Option<Bytes> {
    match key
    case NoKey => Some(p)
    case BadKey => None
    case Keyed(c) => Some(CbcEncrypt(c, iv, Pad(p)))
  }

  /** Defined where the source does not panic: with a cipher, whole blocks and at least one. */
  function Decrypted(key: Key, iv: Block, q: Bytes): Option<Bytes>
    requires key.Keyed? ==> |q| % BlockSize == 0 && |q| > 0
  {
    match key
    case NoKey => Some(q)
    case BadKey => None
    case Keyed(c) => Unpad(CbcDecrypt(c, iv, q))
  }

  /** For every plaintext and every invertible cipher, decryption undoes encryption. */
  lemma CryptRoundTrip(key: Key, iv: Block, p: Bytes)
    requires key.Keyed? ==> Invertible(key.cipher)
    requires !key.BadKey?
    ensures Encrypted(key, iv, p).Some?
    ensures key.Keyed? ==> |Encrypted(key, iv, p).value| % BlockSize == 0 && |Encrypted(key, iv, p).value| > 0
    ensures Decrypted(key, iv, Encrypted(key, iv, p).value) == Some(p)
  {
    if key.Keyed? {
      CbcRoundTrip(key.cipher, iv, Pad(p));
      UnpadPad(p);
    }
  }

  const ReadBuffLen := 4096
  const PaddingSize := 16

  /** The overlay's buffers are large enough: what it reads into the first 4096 bytes can be padded in
      place, and the ciphertext fits the buffers at both ends. */
  lemma BuffersSuffice(key: Key, iv: Block, p: Bytes)
    requires |p| <= ReadBuffLen && key.Keyed?
    ensures |Pad(p)| <= ReadBuffLen + PaddingSize
    ensures |Encrypted(key, iv, p).value| == |Pad(p)|
  {}

  /** pkcs7Padding writes the padding into the buffer behind the data. */
  method Pkcs7Padding(plain: array<Byte>, dataLen: nat) returns (padLen: nat)
    requires dataLen + PadLen(dataLen) <= plain.Length
    modifies plain
    ensures padLen == PadLen(dataLen)
    ensures plain[..dataLen + padLen] == Pad(old(plain[..dataLen]))
    ensures plain[dataLen + padLen..] == old(plain[dataLen + padLen..])
  {
    padLen := PadLen(dataLen);
    for i := 0 to padLen
      invariant forall j :: dataLen <= j < dataLen + i ==> plain[j] == padLen
      invariant plain[..dataLen] == old(plain[..dataLen])
      invariant plain[dataLen + padLen..] == old(plain[dataLen + padLen..])
    {
      plain[dataLen + i] := padLen;
    }
  }

  method CopyInto(dst: array<Byte>, src: Bytes)
    requires |src| <= dst.Length
    modifies dst
    ensures dst[..|src|] == src && dst[|src|..] == old(dst[|src|..])
  {
    for i := 0 to |src|
      invariant dst[..i] == src[..i] && dst[|src|..] == old(dst[|src|..])
    {
      dst[i] := src[i];
    }
  }

  /** The buffers must have room for the padding; the source would panic otherwise. */
  method EncryptBytes(key: Key, iv: Block, output: array<Byte>, input: array<Byte>, plainLen: nat)
    returns (r: Option<Bytes>)
    requires plainLen <= input.Length
    requires key.Keyed? ==> plainLen + PadLen(plainLen) <= input.Length && plainLen + PadLen(plainLen) <= output.Length
    modifies output, input
    ensures r == Encrypted(key, iv, old(input[..plainLen]))
    ensures key.BadKey? ==> r == None
    ensures key.NoKey? ==> r == Some(old(input[..plainLen]))
    ensures key.Keyed? ==> output[..|r.value|] == r.value
    ensures !key.Keyed? ==> output[..] == old(output[..]) && input[..] == old(input[..])
  {
    if key.NoKey? {
      return Some(input[..plainLen]);
    }
    if key.BadKey? {
      return None;
    }
    var padLen := Pkcs7Padding(input, plainLen);
    var total := padLen + plainLen;
    CopyInto(output, CbcEncrypt(key.cipher, iv, input[..total]));
    return Some(output[..total]);
  }

  method DecryptBytes(key: Key, iv: Block, output: array<Byte>, input: array<Byte>, dataLen: nat)
    returns (r: Option<Bytes>)
    requires dataLen <= input.Length
    requires key.Keyed? ==> dataLen <= output.Length && dataLen % BlockSize == 0 && dataLen > 0
    modifies output
    ensures r == Decrypted(key, iv, old(input[..dataLen]))
    ensures key.BadKey? ==> r == None
    ensures key.NoKey? ==> r == Some(old(input[..dataLen]))
    ensures !key.Keyed? ==> output[..] == old(output[..])
  {
    if key.NoKey? {
      return Some(input[..dataLen]);
    }
    if key.BadKey? {
      return None;
    }
    CopyInto(output, CbcDecrypt(key.cipher, iv, input[..dataLen]));
    return Unpad(output[..dataLen]);
  }
}
