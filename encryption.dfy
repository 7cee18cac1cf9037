/**
 * The packet cipher of the BM2 client: AES-128 in CBC mode with a fixed key and
 * an all-zero initialisation vector, applied to plaintext zero-padded to whole
 * blocks. The block cipher itself (AES, FIPS 197) is a parameter; the CBC
 * chaining (NIST SP 800-38A, section 6.2) and the padding are written out.
 */
module Encryption {
  import opened Bytes
  import opened Wrappers

  const AesBlockSize: nat := 16

  /** The key shared with the device firmware. */
  const Bm2EncryptionKey: seq<byte> :=
    [0x6c, 0x65, 0x61, 0x67, 0x65, 0x6e, 0x64, 0xff, 0xfe, 0x31, 0x38, 0x38, 0x32, 0x34, 0x36, 0x36]

  /** The initialisation vector `create_aes` passes: one block of zero bytes. */
  function ZeroIv(): (iv: seq<byte>)
    ensures |iv| == AesBlockSize
  {
    Zeros(AesBlockSize)
  }

  // ---------------------------------------------------------------------------
  // pad_to_block
  // ---------------------------------------------------------------------------

  /** `x.ljust(required_size, b"\x00")` with `required_size` the length rounded up to a block. */
  function PadToBlock(x: seq<byte>): (r: seq<byte>)
    ensures |r| % AesBlockSize == 0
    ensures |x| <= |r| < |x| + AesBlockSize
    ensures r[..|x|] == x
    ensures forall i :: |x| <= i < |r| ==> r[i] == 0
  {
    var requiredSize := (|x| + (AesBlockSize - 1)) / AesBlockSize * AesBlockSize;
    if requiredSize <= |x| then x else x + Zeros(requiredSize - |x|)
  }

  /** Input already a whole number of blocks (the empty input included) is returned as it is. */
  lemma PadAlignedUnchanged(x: seq<byte>)
    requires |x| % AesBlockSize == 0
    ensures PadToBlock(x) == x
  {
  }

  /** Padding twice pads once. */
  lemma PadIdempotent(x: seq<byte>)
    ensures PadToBlock(PadToBlock(x)) == PadToBlock(x)
  {
    PadAlignedUnchanged(PadToBlock(x));
  }

  /** The padded length is the least multiple of the block size that holds the input. */
  lemma PadIsLeastBlockMultiple(x: seq<byte>, m: nat)
    requires m % AesBlockSize == 0 && |x| <= m
    ensures |PadToBlock(x)| <= m
  {
  }

  // ---------------------------------------------------------------------------
  // The block cipher and CBC mode
  // ---------------------------------------------------------------------------

  /** The block cipher pycryptodome's `AES.new` wraps: a keyed function and its inverse on 16-byte blocks. */
  datatype BlockCipher = BlockCipher(
    encryptBlock: (seq<byte>, seq<byte>) -> seq<byte>,
    decryptBlock: (seq<byte>, seq<byte>) -> seq<byte>)

  /** Under every 16-byte key, both directions map blocks to blocks and decryption undoes encryption. */
  ghost predicate IsAes(aes: BlockCipher) {
    forall key, block {:trigger aes.encryptBlock(key, block)} {:trigger aes.decryptBlock(key, block)} ::
      |key| == AesBlockSize && |block| == AesBlockSize ==>
        && |aes.encryptBlock(key, block)| == AesBlockSize
        && |aes.decryptBlock(key, block)| == AesBlockSize
        && aes.decryptBlock(key, aes.encryptBlock(key, block)) == block
  }

  ghost predicate PreservesBlocks(f: seq<byte> -> seq<byte>) {
    forall block :: |block| == AesBlockSize ==> |f(block)| == AesBlockSize
  }

  ghost predicate Inverts(d: seq<byte> -> seq<byte>, e: seq<byte> -> seq<byte>) {
    forall block :: |block| == AesBlockSize ==> d(e(block)) == block
  }

  /** Bitwise exclusive or of two naturals, lowest bit first. */
  function BitXor(a: nat, b: nat): nat
    decreases a + b
  {
    if a == 0 && b == 0 then 0
    else 2 * BitXor(a / 2, b / 2) + (if a % 2 == b % 2 then 0 else 1)
  }

  function Pow2(k: nat): nat {
    if k == 0 then 1 else 2 * Pow2(k - 1)
  }

  lemma {:induction false} BitXorBelow(a: nat, b: nat, k: nat)
    requires a < Pow2(k) && b < Pow2(k)
    ensures BitXor(a, b) < Pow2(k)
    decreases a + b
  {
    if a != 0 || b != 0 {
      BitXorBelow(a / 2, b / 2, k - 1);
    }
  }

  /** Exclusive or with the same number twice gives the number back. */
  lemma {:induction false} BitXorCancel(a: nat, b: nat)
    ensures BitXor(BitXor(a, b), b) == a
    decreases a + b
  {
    if a != 0 || b != 0 {
      var h, c := BitXor(a / 2, b / 2), if a % 2 == b % 2 then 0 else 1;
      var x := BitXor(a, b);
      assert x == 2 * h + c;
      assert x / 2 == h && x % 2 == c;
      BitXorCancel(a / 2, b / 2);
      assert BitXor(h, b / 2) == a / 2;
      assert (if c == b % 2 then 0 else 1) == a % 2;
    }
  }

  function XorByte(a: byte, b: byte): byte {
    assert Pow2(8) == 256;
    BitXorBelow(a, b, 8);
    BitXor(a, b)
  }

  /** Bytewise exclusive or of two blocks. */
  function XorBlocks(a: seq<byte>, b: seq<byte>): (r: seq<byte>)
    requires |a| == |b|
    ensures |r| == |a|
  {
    if a == [] then [] else [XorByte(a[0], b[0])] + XorBlocks(a[1..], b[1..])
  }

  lemma {:induction false} XorBlocksCancel(a: seq<byte>, b: seq<byte>)
    requires |a| == |b|
    ensures XorBlocks(XorBlocks(a, b), b) == a
  {
    if a != [] {
      var r := XorBlocks(a, b);
      assert r[0] == XorByte(a[0], b[0]) && r[1..] == XorBlocks(a[1..], b[1..]);
      BitXorCancel(a[0], b[0]);
      XorBlocksCancel(a[1..], b[1..]);
      assert a == [a[0]] + a[1..];
    }
  }

  /** CBC encryption: each plaintext block is xored with the previous ciphertext block (the IV first), then enciphered. */
  function CbcEncrypt(e: seq<byte> -> seq<byte>, iv: seq<byte>, plain: seq<byte>): (c: seq<byte>)
    requires PreservesBlocks(e) && |iv| == AesBlockSize && |plain| % AesBlockSize == 0
    ensures |c| == |plain|
    decreases |plain|
  {
    if plain == [] then []
    else
      var block := e(XorBlocks(plain[..AesBlockSize], iv));
      block + CbcEncrypt(e, block, plain[AesBlockSize..])
  }

  /** CBC decryption: each block is deciphered, then xored with the previous ciphertext block (the IV first). */
  function CbcDecrypt(d: seq<byte> -> seq<byte>, iv: seq<byte>, cipher: seq<byte>): (p: seq<byte>)
    requires PreservesBlocks(d) && |iv| == AesBlockSize && |cipher| % AesBlockSize == 0
    ensures |p| == |cipher|
    decreases |cipher|
  {
    if cipher == [] then []
    else
      var block := cipher[..AesBlockSize];
      XorBlocks(d(block), iv) + CbcDecrypt(d, block, cipher[AesBlockSize..])
  }

  lemma CbcEncryptFirstBlock(e: seq<byte> -> seq<byte>, iv: seq<byte>, plain: seq<byte>)
    requires PreservesBlocks(e) && |iv| == AesBlockSize && |plain| % AesBlockSize == 0 && plain != []
    ensures AesBlockSize <= |plain|
    ensures var block := e(XorBlocks(plain[..AesBlockSize], iv));
            |block| == AesBlockSize &&
            CbcEncrypt(e, iv, plain) == block + CbcEncrypt(e, block, plain[AesBlockSize..])
  {
    assert AesBlockSize <= |plain| && (|plain| - AesBlockSize) % AesBlockSize == 0;
  }

  lemma CbcDecryptFirstBlock(d: seq<byte> -> seq<byte>, iv: seq<byte>, block: seq<byte>, tail: seq<byte>)
    requires PreservesBlocks(d) && |iv| == AesBlockSize && |block| == AesBlockSize && |tail| % AesBlockSize == 0
    ensures CbcDecrypt(d, iv, block + tail) == XorBlocks(d(block), iv) + CbcDecrypt(d, block, tail)
  {
    var c := block + tail;
    assert c[..AesBlockSize] == block && c[AesBlockSize..] == tail;
  }

  lemma UndoBlock(e: seq<byte> -> seq<byte>, d: seq<byte> -> seq<byte>, iv: seq<byte>, first: seq<byte>)
    requires PreservesBlocks(e) && Inverts(d, e)
    requires |iv| == AesBlockSize && |first| == AesBlockSize
    ensures |e(XorBlocks(first, iv))| == AesBlockSize && XorBlocks(d(e(XorBlocks(first, iv))), iv) == first
  {
    XorBlocksCancel(first, iv);
  }

  /** With a decipher that inverts the encipher, CBC decryption undoes CBC encryption under the same IV. */
  lemma {:induction false} CbcRoundTrip(e: seq<byte> -> seq<byte>, d: seq<byte> -> seq<byte>, iv: seq<byte>, plain: seq<byte>)
    requires PreservesBlocks(e) && PreservesBlocks(d) && Inverts(d, e)
    requires |iv| == AesBlockSize && |plain| % AesBlockSize == 0
    ensures CbcDecrypt(d, iv, CbcEncrypt(e, iv, plain)) == plain
    decreases |plain|
  {
    if plain != [] {
      assert AesBlockSize <= |plain| && (|plain| - AesBlockSize) % AesBlockSize == 0;
      var first, rest := plain[..AesBlockSize], plain[AesBlockSize..];
      assert |rest| % AesBlockSize == 0 && |rest| < |plain|;
      var block := e(XorBlocks(first, iv));
      UndoBlock(e, d, iv, first);
      var tail := CbcEncrypt(e, block, rest);
      CbcEncryptFirstBlock(e, iv, plain);
      CbcDecryptFirstBlock(d, iv, block, tail);
      CbcRoundTrip(e, d, block, rest);
      calc {
        CbcDecrypt(d, iv, CbcEncrypt(e, iv, plain));
        CbcDecrypt(d, iv, block + tail);
        XorBlocks(d(block), iv) + CbcDecrypt(d, block, tail);
        first + rest;
        { assert plain == first + rest; }
        plain;
      }
    }
  }

  // ---------------------------------------------------------------------------
  // encrypt / decrypt
  // ---------------------------------------------------------------------------

  /** The cipher errors pycryptodome raises. */
  datatype CipherError = NotBlockAligned

  function Encipher(aes: BlockCipher): seq<byte> -> seq<byte> {
    block => aes.encryptBlock(Bm2EncryptionKey, block)
  }

  function Decipher(aes: BlockCipher): seq<byte> -> seq<byte> {
    block => aes.decryptBlock(Bm2EncryptionKey, block)
  }

  lemma AesUnderKey(aes: BlockCipher)
    requires IsAes(aes)
    ensures PreservesBlocks(Encipher(aes)) && PreservesBlocks(Decipher(aes))
    ensures Inverts(Decipher(aes), Encipher(aes))
  {
    assert |Bm2EncryptionKey| == AesBlockSize;
  }

  /** `encrypt`: a fresh CBC cipher (fixed key, zero IV) applied to the zero-padded plaintext. */
  function Encrypt(aes: BlockCipher, data: seq<byte>): (c: seq<byte>)
    requires IsAes(aes)
    ensures |c| == |PadToBlock(data)| && |c| % AesBlockSize == 0
  {
    AesUnderKey(aes);
    CbcEncrypt(Encipher(aes), ZeroIv(), PadToBlock(data))
  }

  /** `decrypt`: a fresh CBC cipher applied to the data; CBC refuses data that is not whole blocks. No padding is removed. */
  function Decrypt(aes: BlockCipher, data: seq<byte>): (r: Result<seq<byte>, CipherError>)
    requires IsAes(aes)
    ensures r.Success? <==> |data| % AesBlockSize == 0
    ensures r.Success? ==> |r.value| == |data|
  {
    AesUnderKey(aes);
    if |data| % AesBlockSize != 0 then Failure(NotBlockAligned)
    else Success(CbcDecrypt(Decipher(aes), ZeroIv(), data))
  }

  /** Decrypting what `encrypt` produced gives the plaintext with its zero padding still on. */
  lemma DecryptEncrypt(aes: BlockCipher, data: seq<byte>)
    requires IsAes(aes)
    ensures Decrypt(aes, Encrypt(aes, data)) == Success(PadToBlock(data))
  {
    AesUnderKey(aes);
    CbcRoundTrip(Encipher(aes), Decipher(aes), ZeroIv(), PadToBlock(data));
  }
}
