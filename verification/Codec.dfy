/**
 The encryption of messages between nodes: PKCS#7 padding (section 6.3 of RFC 5652)
 and cipher block chaining (section 6.2 of NIST SP 800-38A) over a block cipher that
 is given, and the key that is made from a token.
 */
module Codec {
  import opened Common

  datatype Result<+T> = Ok(value: T) | Err | Panic

  const BLOCK: nat := 16
  const KEY: nat := 32

  // ---------------------------------------------------------------- padding

  function Fill(b: byte, n: nat): (r: Bytes)
    ensures |r| == n && forall i :: 0 <= i < n ==> r[i] == b
  {
    seq(n, i => b)
  }

  function PaddingNum(length: nat, block: nat): (n: nat)
    requires 0 < block < 256
    ensures 1 <= n <= block && (length + n) % block == 0
  {
    PaddingFits(length, block);
    block - length % block
  }

  lemma PaddingFits(length: nat, block: nat)
    requires 0 < block
    ensures (length + (block - length % block)) % block == 0
  {
    var q := length / block;
    assert length + (block - length % block) == (q + 1) * block + 0;
    Remainder(length + (block - length % block), q + 1, 0, block);
  }

  lemma Remainder(a: nat, q: nat, r: nat, block: nat)
    requires r < block && a == q * block + r
    ensures a % block == r
  {
    var q', r' := a / block, a % block;
    assert a == q' * block + r';
    if q < q' {
      assert (q' - q) * block == r - r';
      AtLeast(q' - q, block);
      assert false;
    } else if q' < q {
      assert (q - q') * block == r' - r;
      AtLeast(q - q', block);
      assert false;
    }
  }

  lemma AtLeast(d: nat, block: nat)
    requires d >= 1
    ensures d * block >= block
  {
    assert d * block == (d - 1) * block + block;
  }

  function Pad(m: Bytes, block: nat): (r: Bytes)
    requires 0 < block < 256
    ensures |r| % block == 0 && |m| < |r| <= |m| + block && r[..|m|] == m
  {
    var n := PaddingNum(|m|, block);
    m + Fill(n as byte, n)
  }

  /** The padding itself is not looked at, only its last byte. */
  function Unpad(p: Bytes): Result<Bytes> {
    if p == [] then Err
    else
      var n := p[|p| - 1] as int;
      if |p| - n < 0 then Err else Ok(p[..|p| - n])
  }

  lemma UnpadPad(m: Bytes, block: nat)
    requires 0 < block < 256
    ensures Unpad(Pad(m, block)) == Ok(m)
  {
    var n := PaddingNum(|m|, block);
    assert Pad(m, block)[|m| + n - 1] == n as byte;
  }

  /** A text that padding produces: its last byte n is in 1..block and is repeated n times. */
  predicate WellPadded(p: Bytes, block: nat) {
    && 0 < |p| && 0 < block && |p| % block == 0
    && var n := p[|p| - 1] as int;
       && 1 <= n <= block && n <= |p|
       && forall i :: |p| - n <= i < |p| ==> p[i] == p[|p| - 1]
  }

  /** Padding undoes unpadding exactly on such texts. */
  lemma PadUnpad(p: Bytes, block: nat)
    requires 0 < block < 256
    ensures (Unpad(p).Ok? && Pad(Unpad(p).value, block) == p) <==> WellPadded(p, block)
  {
    if WellPadded(p, block) {
      var n := p[|p| - 1] as int;
      var m := p[..|p| - n];
      PaddingIs(|m|, n, block);
      assert Pad(m, block) == p;
    }
    if Unpad(p).Ok? && Pad(Unpad(p).value, block) == p {
      PadIsWell(Unpad(p).value, block);
    }
  }

  lemma PadIsWell(m: Bytes, block: nat)
    requires 0 < block < 256
    ensures WellPadded(Pad(m, block), block)
  {
    var n := PaddingNum(|m|, block);
    assert Pad(m, block)[|m| + n - 1] == n as byte;
  }

  /** The number of bytes to add is determined. */
  lemma PaddingIs(length: nat, n: nat, block: nat)
    requires 0 < block < 256 && 1 <= n <= block && (length + n) % block == 0
    ensures PaddingNum(length, block) == n
  {
    var k := PaddingNum(length, block);
    if k < n {
      OneMultiple(length + k, length + n, block);
    } else if n < k {
      OneMultiple(length + n, length + k, block);
    }
  }

  lemma OneMultiple(a: nat, b: nat, block: nat)
    requires 0 < block && a < b < a + block && a % block == 0
    ensures b % block != 0
  {
    var q := a / block;
    assert b == q * block + (b - a);
    Remainder(b, q, b - a, block);
  }

  // ---------------------------------------------------------------- chaining

  /** A block cipher under a fixed key. */
  datatype Cipher = Cipher(enc: Bytes -> Bytes, dec: Bytes -> Bytes)

  ghost predicate Sized(c: Cipher) {
    forall b: Bytes :: |b| == BLOCK ==> |c.enc(b)| == BLOCK && |c.dec(b)| == BLOCK
  }

  ghost predicate Invertible(c: Cipher) {
    Sized(c) && forall b: Bytes :: |b| == BLOCK ==> c.dec(c.enc(b)) == b
  }

  /** The other direction, which for a block cipher follows by counting. */
  ghost predicate Onto(c: Cipher) {
    forall b: Bytes :: |b| == BLOCK ==> c.enc(c.dec(b)) == b
  }

  /** Bit by bit, the lowest first. */
  function XorBits(a: nat, b: nat, bits: nat): (r: nat)
    ensures r < Pow2(bits)
  {
    if bits == 0 then 0 else XorBit(a, b) + 2 * XorBits(a / 2, b / 2, bits - 1)
  }

  function XorBit(a: nat, b: nat): (r: nat)
    ensures r < 2
  {
    if a % 2 == b % 2 then 0 else 1
  }

  function Pow2(n: nat): (r: nat)
    ensures r >= 1
  {
    if n == 0 then 1 else 2 * Pow2(n - 1)
  }

  /** The bit of weight 2^k. */
  function Bit(x: nat, k: nat): nat {
    (x / Pow2(k)) % 2
  }

  function BitOf(x: byte, k: nat): nat {
    (x as nat / Pow2(k)) % 2
  }

  lemma QuotientIs(a: nat, q: nat, r: nat, block: nat)
    requires r < block && a == q * block + r
    ensures a / block == q
  {
    var q', r' := a / block, a % block;
    assert a == q' * block + r';
    if q < q' {
      assert (q' - q) * block == r - r';
      AtLeast(q' - q, block);
      assert false;
    } else if q' < q {
      assert (q - q') * block == r' - r;
      AtLeast(q - q', block);
      assert false;
    }
  }

  lemma HalfTwice(x: nat, p: nat)
    requires p >= 1
    ensures x / (2 * p) == (x / 2) / p
  {
    var h := x / 2;
    var q, r := h / p, h % p;
    assert h == q * p + r;
    assert q * (2 * p) == 2 * (q * p);
    QuotientIs(x, q, 2 * r + x % 2, 2 * p);
  }

  lemma NextBit(x: nat, k: nat)
    requires k > 0
    ensures Bit(x, k) == Bit(x / 2, k - 1)
  {
    HalfTwice(x, Pow2(k - 1));
  }

  /** Each bit of the result is set exactly where the two arguments differ. */
  lemma {:induction false} XorBitsAt(a: nat, b: nat, bits: nat, k: nat)
    requires k < bits
    ensures Bit(XorBits(a, b, bits), k) == 1 <==> Bit(a, k) != Bit(b, k)
  {
    var bit, rest := XorBit(a, b), XorBits(a / 2, b / 2, bits - 1);
    Halves(bit, rest);
    if k == 0 {
      FirstBit(a);
      FirstBit(b);
      FirstBit(bit + 2 * rest);
    } else {
      XorBitsAt(a / 2, b / 2, bits - 1, k - 1);
      NextBit(a, k);
      NextBit(b, k);
      NextBit(bit + 2 * rest, k);
    }
    hide Bit;
  }

  lemma FirstBit(x: nat)
    ensures Bit(x, 0) == x % 2
  {
    assert Pow2(0) == 1;
  }

  /** Exclusive or of bytes, bit by bit. */
  lemma XorByteAt(a: byte, b: byte, k: nat)
    requires k < 8
    ensures BitOf(XorByte(a, b), k) == 1 <==> BitOf(a, k) != BitOf(b, k)
  {
    assert Pow2(8) == 256;
    XorBitsAt(a as nat, b as nat, 8, k);
    hide Pow2;
  }

  lemma {:induction false} XorNothing(a: nat, bits: nat)
    requires a < Pow2(bits)
    ensures XorBits(a, 0, bits) == a && XorBits(a, a, bits) == 0
  {
    if bits > 0 { XorNothing(a / 2, bits - 1); }
  }

  function XorByte(a: byte, b: byte): byte {
    assert Pow2(8) == 256;
    XorBits(a as nat, b as nat, 8) as byte
  }

  lemma {:induction false} XorBack(a: nat, b: nat, bits: nat)
    requires a < Pow2(bits)
    ensures XorBits(XorBits(a, b, bits), b, bits) == a
  {
    if bits > 0 {
      var bit, rest := XorBit(a, b), XorBits(a / 2, b / 2, bits - 1);
      Halves(bit, rest);
      XorBack(a / 2, b / 2, bits - 1);
      assert XorBits(bit + 2 * rest, b, bits) == XorBit(bit, b) + 2 * (a / 2);
    }
  }

  lemma Halves(bit: nat, rest: nat)
    requires bit < 2
    ensures (bit + 2 * rest) / 2 == rest && (bit + 2 * rest) % 2 == bit
  {
  }

  function Xor(a: Bytes, b: Bytes): (r: Bytes)
    requires |a| == |b|
    ensures |r| == |a|
  {
    seq(|a|, i requires 0 <= i < |a| => XorByte(a[i], b[i]))
  }

  lemma XorTwice(a: Bytes, b: Bytes)
    requires |a| == |b|
    ensures Xor(Xor(a, b), b) == a
  {
    forall i | 0 <= i < |a| ensures Xor(Xor(a, b), b)[i] == a[i] {
      assert Pow2(8) == 256;
      XorBack(a[i] as nat, b[i] as nat, 8);
    }
  }

  function CbcEncrypt(c: Cipher, iv: Bytes, data: Bytes): Bytes
    decreases |data|
  {
    if |data| < BLOCK || |iv| != BLOCK then []
    else
      var b := c.enc(Xor(data[..BLOCK], iv));
      b + CbcEncrypt(c, b, data[BLOCK..])
  }

  function CbcDecrypt(c: Cipher, iv: Bytes, data: Bytes): Bytes
    decreases |data|
  {
    if |data| < BLOCK || |iv| != BLOCK then []
    else
      var b := c.dec(data[..BLOCK]);
      (if |b| == BLOCK then Xor(b, iv) else []) + CbcDecrypt(c, data[..BLOCK], data[BLOCK..])
  }

  lemma {:induction false} CbcSize(c: Cipher, iv: Bytes, data: Bytes)
    requires Sized(c) && |iv| == BLOCK && |data| % BLOCK == 0
    ensures |CbcEncrypt(c, iv, data)| == |data| && |CbcDecrypt(c, iv, data)| == |data|
    decreases |data|
  {
    if data != [] {
      CbcSize(c, c.enc(Xor(data[..BLOCK], iv)), data[BLOCK..]);
      CbcSize(c, data[..BLOCK], data[BLOCK..]);
    }
  }

  lemma {:induction false} CbcBack(c: Cipher, iv: Bytes, data: Bytes)
    requires Invertible(c) && |iv| == BLOCK && |data| % BLOCK == 0
    ensures CbcDecrypt(c, iv, CbcEncrypt(c, iv, data)) == data
    decreases |data|
  {
    if data != [] {
      var x := Xor(data[..BLOCK], iv);
      var b := c.enc(x);
      var rest := CbcEncrypt(c, b, data[BLOCK..]);
      CbcBack(c, b, data[BLOCK..]);
      XorTwice(data[..BLOCK], iv);
      assert (b + rest)[..BLOCK] == b && (b + rest)[BLOCK..] == rest;
      assert data == data[..BLOCK] + data[BLOCK..];
    }
  }

  lemma {:induction false} CbcForth(c: Cipher, iv: Bytes, data: Bytes)
    requires Sized(c) && Onto(c) && |iv| == BLOCK && |data| % BLOCK == 0
    ensures CbcEncrypt(c, iv, CbcDecrypt(c, iv, data)) == data
    decreases |data|
  {
    if data != [] {
      var b := data[..BLOCK];
      var x := Xor(c.dec(b), iv);
      var rest := CbcDecrypt(c, b, data[BLOCK..]);
      CbcForth(c, b, data[BLOCK..]);
      XorTwice(c.dec(b), iv);
      assert (x + rest)[..BLOCK] == x && (x + rest)[BLOCK..] == rest;
      assert data == data[..BLOCK] + data[BLOCK..];
    }
  }

  /** Block j of the result, as NIST SP 800-38A defines it. */
  lemma {:induction false} ChainedBlock(c: Cipher, iv: Bytes, data: Bytes, j: nat)
    requires Sized(c) && |iv| == BLOCK && |data| % BLOCK == 0 && BLOCK * (j + 1) <= |data|
    ensures |CbcEncrypt(c, iv, data)| == |data|
    ensures var r := CbcEncrypt(c, iv, data);
            r[BLOCK * j..BLOCK * (j + 1)]
            == c.enc(Xor(data[BLOCK * j..BLOCK * (j + 1)], if j == 0 then iv else r[BLOCK * (j - 1)..BLOCK * j]))
    decreases |data|
  {
    CbcSize(c, iv, data);
    var b := c.enc(Xor(data[..BLOCK], iv));
    var rest := CbcEncrypt(c, b, data[BLOCK..]);
    var r := b + rest;
    assert r[..BLOCK] == b;
    if j > 0 {
      ChainedBlock(c, b, data[BLOCK..], j - 1);
      CbcSize(c, b, data[BLOCK..]);
      assert r[BLOCK * j..BLOCK * (j + 1)] == rest[BLOCK * (j - 1)..BLOCK * j];
      assert data[BLOCK * j..BLOCK * (j + 1)] == data[BLOCK..][BLOCK * (j - 1)..BLOCK * j];
      if j > 1 {
        assert r[BLOCK * (j - 1)..BLOCK * j] == rest[BLOCK * (j - 2)..BLOCK * (j - 1)];
      }
    }
  }

  // ---------------------------------------------------------------- messages

  /** The lengths of key that AES has. */
  predicate GoodKey(key: Bytes) {
    |key| == 16 || |key| == 24 || |key| == 32
  }

  /** The chain starts from the key's own first block. */
  function Encrypt(aes: Bytes -> Cipher, m: Bytes, key: Bytes): Result<Bytes> {
    if !GoodKey(key) then Err
    else Ok(CbcEncrypt(aes(key), key[..BLOCK], Pad(m, BLOCK)))
  }

  /** CryptBlocks panics on data that are not whole blocks. */
  function Decrypt(aes: Bytes -> Cipher, data: Bytes, key: Bytes): Result<Bytes> {
    if !GoodKey(key) then Err
    else if |data| % BLOCK != 0 then Panic
    else Unpad(CbcDecrypt(aes(key), key[..BLOCK], data))
  }

  /** Every message comes back. */
  lemma DecryptEncrypt(aes: Bytes -> Cipher, m: Bytes, key: Bytes)
    requires GoodKey(key) && Invertible(aes(key))
    ensures Encrypt(aes, m, key).Ok?
    ensures Decrypt(aes, Encrypt(aes, m, key).value, key) == Ok(m)
    ensures |Encrypt(aes, m, key).value| % BLOCK == 0 && |Encrypt(aes, m, key).value| > |m|
  {
    var p := Pad(m, BLOCK);
    CbcSize(aes(key), key[..BLOCK], p);
    CbcBack(aes(key), key[..BLOCK], p);
    UnpadPad(m, BLOCK);
  }

  /** The text that is encrypted: the message, then as many bytes as are missing, each of that number. */
  function PlainByte(m: Bytes, i: nat): byte {
    if i < |m| then m[i] else (16 - |m| % 16) as byte
  }

  lemma PaddedText(m: Bytes)
    ensures |Pad(m, BLOCK)| == 16 * (|m| / 16 + 1)
    ensures forall i :: 0 <= i < |Pad(m, BLOCK)| ==> Pad(m, BLOCK)[i] == PlainByte(m, i)
  {
  }

  /** The bits of x are set exactly where those of p and q differ. */
  ghost predicate IsXor(x: byte, p: byte, q: byte) {
    forall k: nat :: k < 8 ==> (BitOf(x, k) == 1 <==> BitOf(p, k) != BitOf(q, k))
  }

  lemma XorByteIs(p: byte, q: byte)
    ensures IsXor(XorByte(p, q), p, q)
  {
    hide Bit, XorByte;
    forall k: nat | k < 8 ensures BitOf(XorByte(p, q), k) == 1 <==> BitOf(p, k) != BitOf(q, k) {
      XorByteAt(p, q, k);
    }
  }

  /**
   Block j on the wire is the cipher of the block x, whose bits are set exactly where the text differs from the
   block sent before, or, for the first block, from the first 16 bytes of the key.
   */
  lemma EncryptExactly(aes: Bytes -> Cipher, m: Bytes, key: Bytes, j: nat) returns (x: Bytes)
    requires GoodKey(key) && Sized(aes(key)) && j <= |m| / 16
    ensures Encrypt(aes, m, key).Ok? && |Encrypt(aes, m, key).value| == 16 * (|m| / 16 + 1) && |x| == 16
    ensures var sent := Encrypt(aes, m, key).value;
            && sent[16 * j..16 * (j + 1)] == aes(key).enc(x)
            && forall i :: 0 <= i < 16 ==>
                 IsXor(x[i], PlainByte(m, 16 * j + i), if j == 0 then key[i] else sent[16 * (j - 1) + i])
  {
    var c, iv, p := aes(key), key[..BLOCK], Pad(m, BLOCK);
    PaddedText(m);
    CbcSize(c, iv, p);
    ChainedBlock(c, iv, p, j);
    EncryptIs(aes, m, key);
    var sent := CbcEncrypt(c, iv, p);
    var text := p[16 * j..16 * (j + 1)];
    var before := if j == 0 then iv else sent[16 * (j - 1)..16 * j];
    x := Xor(text, before);
    hide IsXor, CbcEncrypt, Pad, Encrypt, PlainByte, XorByte, Sized;
    forall i | 0 <= i < 16
      ensures IsXor(x[i], PlainByte(m, 16 * j + i), if j == 0 then key[i] else sent[16 * (j - 1) + i])
    {
      assert text[i] == p[16 * j + i] && before[i] == if j == 0 then key[i] else sent[16 * (j - 1) + i];
      XorByteIs(text[i], before[i]);
    }
  }

  lemma EncryptIs(aes: Bytes -> Cipher, m: Bytes, key: Bytes)
    requires GoodKey(key)
    ensures Encrypt(aes, m, key) == Ok(CbcEncrypt(aes(key), key[..BLOCK], Pad(m, BLOCK)))
  {
  }

  /** A key of another length is refused, and data that are not whole blocks make decryption panic. */
  lemma CipherRefuses(aes: Bytes -> Cipher, m: Bytes, key: Bytes)
    ensures |key| != 16 && |key| != 24 && |key| != 32 ==> Encrypt(aes, m, key) == Err && Decrypt(aes, m, key) == Err
    ensures (|key| == 16 || |key| == 24 || |key| == 32) && |m| % 16 != 0 ==> Decrypt(aes, m, key) == Panic
  {
  }

  /** Under a key of zeros the empty message is sent as the cipher of sixteen bytes of value 16. */
  lemma EmptyUnderZeros(aes: Bytes -> Cipher)
    requires Sized(aes(Fill(0, 32)))
    ensures Encrypt(aes, [], Fill(0, 32)) == Ok(aes(Fill(0, 32)).enc(Fill(16, 16)))
  {
    var key := Fill(0, 32);
    var c, iv, p := aes(key), key[..BLOCK], Pad([], BLOCK);
    SixteenSixteens();
    XorZeros(p, iv);
    OneBlock(c, iv, p);
    EncryptIs(aes, [], key);
  }

  lemma SixteenSixteens()
    ensures Pad([], BLOCK) == Fill(16, 16)
  {
  }

  lemma XorZeros(p: Bytes, zeros: Bytes)
    requires |zeros| == |p| && forall i :: 0 <= i < |p| ==> zeros[i] == 0
    ensures Xor(p, zeros) == p
  {
    assert Pow2(8) == 256;
    forall i | 0 <= i < |p| ensures XorByte(p[i], 0) == p[i] {
      XorNothing(p[i] as nat, 8);
    }
  }

  lemma OneBlock(c: Cipher, iv: Bytes, p: Bytes)
    requires |p| == BLOCK && |iv| == BLOCK && Xor(p, iv) == p
    ensures CbcEncrypt(c, iv, p) == c.enc(p)
  {
    assert p[..BLOCK] == p && p[BLOCK..] == [];
    assert CbcEncrypt(c, c.enc(p), []) == [];
    assert c.enc(p) + [] == c.enc(p);
  }

  /** Different messages are different on the wire. */
  lemma EncryptInjective(aes: Bytes -> Cipher, m1: Bytes, m2: Bytes, key: Bytes)
    requires GoodKey(key) && Invertible(aes(key)) && Encrypt(aes, m1, key) == Encrypt(aes, m2, key)
    ensures m1 == m2
  {
    DecryptEncrypt(aes, m1, key);
    DecryptEncrypt(aes, m2, key);
  }

  /** Data that decrypt are what encryption would have produced exactly when their text is well padded. */
  lemma EncryptDecrypt(aes: Bytes -> Cipher, data: Bytes, key: Bytes)
    requires GoodKey(key) && Invertible(aes(key)) && Onto(aes(key)) && |data| % BLOCK == 0
    ensures var m := Decrypt(aes, data, key);
            (m.Ok? && Encrypt(aes, m.value, key) == Ok(data))
                <==> WellPadded(CbcDecrypt(aes(key), key[..BLOCK], data), BLOCK)
  {
    var c, iv := aes(key), key[..BLOCK];
    var p := CbcDecrypt(c, iv, data);
    CbcSize(c, iv, data);
    CbcForth(c, iv, data);
    PadUnpad(p, BLOCK);
    if Unpad(p).Ok? {
      CbcBack(c, iv, Pad(Unpad(p).value, BLOCK));
    }
  }

  /**
   Sixteen zeros are not well padded: encrypted as they are, they are accepted, as a message that encrypts
   to more.
   */
  lemma BadPaddingAccepted(aes: Bytes -> Cipher, key: Bytes)
    requires GoodKey(key) && Invertible(aes(key))
    ensures var data := CbcEncrypt(aes(key), key[..BLOCK], Fill(0, BLOCK));
            && !WellPadded(Fill(0, BLOCK), BLOCK)
            && Decrypt(aes, data, key) == Ok(Fill(0, BLOCK))
            && Encrypt(aes, Fill(0, BLOCK), key) != Ok(data)
  {
    hide CbcEncrypt, CbcDecrypt, Pad;
    var zeros, c, iv := Fill(0, BLOCK), aes(key), key[..BLOCK];
    CbcSize(c, iv, zeros);
    CbcBack(c, iv, zeros);
    assert zeros[BLOCK - 1] == 0 && zeros[..BLOCK] == zeros;
    DecryptEncrypt(aes, zeros, key);
    hide Encrypt;
  }

  // ---------------------------------------------------------------- the key

  function KeyOf(token: Bytes): (key: Bytes)
    ensures |key| == 32 && GoodKey(key)
  {
    if |token| >= KEY then token[..KEY] else Pad(token, KEY)
  }

  /** The bytes of a key: those of the token, then the number of bytes it falls short of 32. */
  lemma KeyBytes(t: Bytes, i: nat)
    requires i < 32
    ensures i < |t| ==> KeyOf(t)[i] == t[i]
    ensures i >= |t| ==> KeyOf(t)[i] as int == 32 - |t|
  {
    if |t| < 32 {
      assert PaddingNum(|t|, 32) == 32 - |t|;
    }
  }

  /** When two tokens give the same key. */
  lemma SameKey(t: Bytes, u: Bytes)
    ensures |t| < KEY && |u| < KEY ==> (KeyOf(t) == KeyOf(u) <==> t == u)
    ensures |t| >= KEY && |u| >= KEY ==> (KeyOf(t) == KeyOf(u) <==> t[..KEY] == u[..KEY])
    ensures |t| < KEY <= |u| ==> (KeyOf(t) == KeyOf(u) <==> WellPadded(u[..KEY], KEY) && Unpad(u[..KEY]) == Ok(t))
  {
    if |t| < KEY { UnpadPad(t, KEY); }
    if |u| < KEY { UnpadPad(u, KEY); }
    if |t| < KEY <= |u| { PadUnpad(u[..KEY], KEY); }
    if |t| < KEY { PadIsWell(t, KEY); }
  }

  /** A short token and a long one may share a key: no token at all, and thirty-two spaces. */
  lemma ShortAndLong()
    ensures KeyOf([]) == KeyOf(Fill(32, 32))
  {
  }

  // ---------------------------------------------------------------- filling the buffers

  /** CryptBlocks of the encrypter: block after block, each chained to the one before. */
  method EncryptBlocks(c: Cipher, iv: Bytes, dst: array<byte>, src: Bytes)
    requires Sized(c) && |iv| == BLOCK && |src| % BLOCK == 0 && dst.Length == |src|
    modifies dst
    ensures dst[..] == CbcEncrypt(c, iv, src)
  {
    hide CbcEncrypt, Xor;
    var prev, n := iv, 0;
    assert src[0..] == src && dst[..0] == [];
    while n < |src|
      invariant 0 <= n <= |src| && n % BLOCK == 0 && |prev| == BLOCK
      invariant dst[..n] + CbcEncrypt(c, prev, src[n..]) == CbcEncrypt(c, iv, src)
    {
      var b := c.enc(Xor(src[n..n + BLOCK], prev));
      ghost var done, rest := dst[..n], CbcEncrypt(c, b, src[n + BLOCK..]);
      EncryptFirst(c, prev, src, n);
      PutBlock(dst, n, b);
      assert dst[..n + BLOCK] + rest == done + (b + rest);
      prev, n := b, n + BLOCK;
    }
    EncryptNothing(c, prev);
    assert src[n..] == [];
    assert dst[..n] == dst[..];
  }

  lemma EncryptFirst(c: Cipher, prev: Bytes, src: Bytes, n: nat)
    requires Sized(c) && |prev| == BLOCK && n + BLOCK <= |src|
    ensures var b := c.enc(Xor(src[n..n + BLOCK], prev));
            CbcEncrypt(c, prev, src[n..]) == b + CbcEncrypt(c, b, src[n + BLOCK..])
  {
    assert src[n..][..BLOCK] == src[n..n + BLOCK] && src[n..][BLOCK..] == src[n + BLOCK..];
  }

  lemma EncryptNothing(c: Cipher, prev: Bytes)
    ensures CbcEncrypt(c, prev, []) == []
  {
  }

  method DecryptBlocks(c: Cipher, iv: Bytes, dst: array<byte>, src: Bytes)
    requires Sized(c) && |iv| == BLOCK && |src| % BLOCK == 0 && dst.Length == |src|
    modifies dst
    ensures dst[..] == CbcDecrypt(c, iv, src)
  {
    hide CbcDecrypt, Xor;
    var prev, n := iv, 0;
    assert src[0..] == src && dst[..0] == [];
    while n < |src|
      invariant 0 <= n <= |src| && n % BLOCK == 0 && |prev| == BLOCK
      invariant dst[..n] + CbcDecrypt(c, prev, src[n..]) == CbcDecrypt(c, iv, src)
    {
      var b := src[n..n + BLOCK];
      var x := Xor(c.dec(b), prev);
      ghost var done, rest := dst[..n], CbcDecrypt(c, b, src[n + BLOCK..]);
      DecryptFirst(c, prev, src, n);
      PutBlock(dst, n, x);
      assert dst[..n + BLOCK] + rest == done + (x + rest);
      prev, n := b, n + BLOCK;
    }
    DecryptNothing(c, prev);
    assert src[n..] == [];
    assert dst[..n] == dst[..];
  }

  lemma DecryptFirst(c: Cipher, prev: Bytes, src: Bytes, n: nat)
    requires Sized(c) && |prev| == BLOCK && n + BLOCK <= |src|
    ensures CbcDecrypt(c, prev, src[n..])
        == Xor(c.dec(src[n..n + BLOCK]), prev) + CbcDecrypt(c, src[n..n + BLOCK], src[n + BLOCK..])
  {
    assert src[n..][..BLOCK] == src[n..n + BLOCK] && src[n..][BLOCK..] == src[n + BLOCK..];
  }

  lemma DecryptNothing(c: Cipher, prev: Bytes)
    ensures CbcDecrypt(c, prev, []) == []
  {
  }

  method PutBlock(dst: array<byte>, n: nat, b: Bytes)
    requires |b| == BLOCK && n + BLOCK <= dst.Length
    modifies dst
    ensures dst[..n + BLOCK] == old(dst[..n]) + b
  {
    var k := 0;
    while k < BLOCK
      invariant 0 <= k <= BLOCK && dst[..n + k] == old(dst[..n]) + b[..k]
    {
      dst[n + k] := b[k];
      k := k + 1;
    }
    assert b[..k] == b;
  }

  method EncryptWithAES(aes: Bytes -> Cipher, plaintext: Bytes, key: Bytes) returns (r: Result<Bytes>)
    requires forall k: Bytes :: GoodKey(k) ==> Sized(aes(k))
    ensures r == Encrypt(aes, plaintext, key)
  {
    if !GoodKey(key) { return Err; }
    var padded := Pad(plaintext, BLOCK);
    var encrypted := new byte[|padded|];
    EncryptBlocks(aes(key), key[..BLOCK], encrypted, padded);
    r := Ok(encrypted[..]);
  }

  method DecryptWithAES(aes: Bytes -> Cipher, data: Bytes, key: Bytes) returns (r: Result<Bytes>)
    requires forall k: Bytes :: GoodKey(k) ==> Sized(aes(k))
    ensures r == Decrypt(aes, data, key)
  {
    if !GoodKey(key) { return Err; }
    if |data| % BLOCK != 0 { return Panic; }
    var plain := new byte[|data|];
    DecryptBlocks(aes(key), key[..BLOCK], plain, data);
    r := Unpad(plain[..]);
  }
}
