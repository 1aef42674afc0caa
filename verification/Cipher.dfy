/** Authenticated encryption: AES-CBC with PKCS#7 padding, then HMAC (cipher.c). The block cipher and
    the hash functions are parameters. */
module Cipher {
  import opened Types

  const N_BLOCK := 16
  const CIPHER_MAX_ALLOC := 200

  type Bytes = seq<byte>

  datatype Primitives = Primitives(
    sha512: Bytes -> Bytes,
    hmac: (Bytes, Bytes) -> Bytes,
    encryptBlock: (Bytes, Bytes) -> Bytes,
    decryptBlock: (Bytes, Bytes) -> Bytes)
  {
    /** Output lengths, and decryption of a block undoes its encryption. */
    ghost predicate Sound() {
      && (forall s :: |sha512(s)| == 64)
      && (forall k, d :: |hmac(k, d)| == 32)
      && (forall k, b | |b| == N_BLOCK :: |encryptBlock(k, b)| == N_BLOCK && decryptBlock(k, encryptBlock(k, b)) == b)
      && (forall k, b | |b| == N_BLOCK :: |decryptBlock(k, b)| == N_BLOCK)
    }

    function EncryptionKey(secret: Bytes): Bytes
      requires Sound()
    {
      sha512(secret)[..32]
    }

    function AuthenticationKey(secret: Bytes): Bytes
      requires Sound()
    {
      sha512(secret)[32..]
    }

    /** Different 32-byte secrets never agree on a tag: what makes the tag an authentication. */
    ghost predicate Authentic()
      requires Sound()
    {
      && (forall s, t | |s| == |t| == 32 && s != t :: AuthenticationKey(s) != AuthenticationKey(t))
      && (forall k, l, d | |k| == |l| == 32 && k != l :: hmac(k, d) != hmac(l, d))
    }
  }

  /** The two assumptions can be met together. */
  lemma AssumptionsAreMet() returns (p: Primitives)
    ensures p.Sound() && p.Authentic()
  {
    p := Primitives(
      s => if |s| == 32 then s + s else Zeros(64),
      (k, d) => if |k| == 32 then k else Zeros(32),
      (k, b) => b,
      (k, b) => b);
    forall s, t | |s| == |t| == 32 && s != t
      ensures p.AuthenticationKey(s) != p.AuthenticationKey(t)
    {
      assert (s + s)[32..] == s && (t + t)[32..] == t;
    }
  }

  // Exclusive or, bit by bit

  function Pow2(n: nat): nat {
    if n == 0 then 1 else 2 * Pow2(n - 1)
  }

  function XorBits(a: nat, b: nat, n: nat): (r: nat)
    ensures r < Pow2(n)
  {
    if n == 0 then 0 else 2 * XorBits(a / 2, b / 2, n - 1) + if a % 2 != b % 2 then 1 else 0
  }

  lemma {:induction false} XorBitsInvolution(a: nat, b: nat, n: nat)
    requires a < Pow2(n)
    ensures XorBits(XorBits(a, b, n), b, n) == a
  {
    if n > 0 {
      var r, half := XorBits(a, b, n), XorBits(a / 2, b / 2, n - 1);
      XorBitsInvolution(a / 2, b / 2, n - 1);
      assert r / 2 == half && (r % 2 == 1 <==> a % 2 != b % 2);
    }
  }

  lemma Pow2Of8()
    ensures Pow2(8) == 0x100
  {
    assert Pow2(4) == 16;
    assert Pow2(8) == 16 * Pow2(4);
  }

  function Xor(a: Bytes, b: Bytes): (r: Bytes)
    requires |a| == |b|
    ensures |r| == |a|
  {
    Pow2Of8();
    seq<byte>(|a|, i requires 0 <= i < |a| => XorBits(a[i], b[i], 8))
  }

  lemma XorInvolution(a: Bytes, b: Bytes)
    requires |a| == |b|
    ensures Xor(Xor(a, b), b) == a
  {
    Pow2Of8();
    forall i | 0 <= i < |a|
      ensures Xor(Xor(a, b), b)[i] == a[i]
    {
      XorBitsInvolution(a[i], b[i], 8);
    }
  }

  // Cipher block chaining, section 6.2 of NIST SP 800-38A

  function CbcEncrypt(p: Primitives, key: Bytes, iv: Bytes, m: Bytes): (c: Bytes)
    requires p.Sound() && |iv| == N_BLOCK && |m| % N_BLOCK == 0
    ensures |c| == |m|
    decreases |m|
  {
    if m == [] then []
    else
      var block := p.encryptBlock(key, Xor(m[..N_BLOCK], iv));
      block + CbcEncrypt(p, key, block, m[N_BLOCK..])
  }

  function CbcDecrypt(p: Primitives, key: Bytes, iv: Bytes, c: Bytes): (m: Bytes)
    requires p.Sound() && |iv| == N_BLOCK && |c| % N_BLOCK == 0
    ensures |m| == |c|
    decreases |c|
  {
    if c == [] then []
    else
      Xor(p.decryptBlock(key, c[..N_BLOCK]), iv) + CbcDecrypt(p, key, c[..N_BLOCK], c[N_BLOCK..])
  }

  lemma {:induction false} CbcRoundTrip(p: Primitives, key: Bytes, iv: Bytes, m: Bytes)
    requires p.Sound() && |iv| == N_BLOCK && |m| % N_BLOCK == 0
    ensures CbcDecrypt(p, key, iv, CbcEncrypt(p, key, iv, m)) == m
    decreases |m|
  {
    if m != [] {
      var x := Xor(m[..N_BLOCK], iv);
      var block := p.encryptBlock(key, x);
      var rest := CbcEncrypt(p, key, block, m[N_BLOCK..]);
      var c := block + rest;
      assert c[..N_BLOCK] == block && c[N_BLOCK..] == rest;
      XorInvolution(m[..N_BLOCK], iv);
      CbcRoundTrip(p, key, block, m[N_BLOCK..]);
      assert m == m[..N_BLOCK] + m[N_BLOCK..];
    }
  }

  // Padding, section 6.3 of RFC 5652

  function PadLen(n: nat): nat {
    N_BLOCK - n % N_BLOCK
  }

  function Padding(n: byte): Bytes {
    seq<byte>(n, i => n)
  }

  function Pad(m: Bytes): (r: Bytes)
    ensures |r| == |m| + PadLen(|m|) && |r| % N_BLOCK == 0
  {
    m + Padding(PadLen(|m|))
  }

  /** What `_aes_decrypt` accepts: it also takes a last byte of zero, as an empty padding. */
  function Unpad(d: Bytes): Option<Bytes>
    requires d != []
  {
    var n := d[|d| - 1];
    if n > N_BLOCK || n > |d| || d[|d| - n..] != Padding(n) then None else Some(d[..|d| - n])
  }

  lemma PadRoundTrip(m: Bytes)
    ensures Unpad(Pad(m)) == Some(m)
  {
    var n := PadLen(|m|);
    assert Pad(m)[|m|..] == Padding(n);
    assert Pad(m)[..|m|] == m;
  }

  /** What is accepted is the padding of RFC 5652 if and only if it does not end in a zero byte. */
  lemma AcceptedPadding(d: Bytes)
    requires d != [] && |d| % N_BLOCK == 0 && Unpad(d).Some?
    ensures Pad(Unpad(d).value) == d <==> d[|d| - 1] != 0
  {
    var n, m := d[|d| - 1], Unpad(d).value;
    if n != 0 {
      PadLenOf(|m|, n);
      assert d == m + Padding(n);
    } else {
      assert |m| == |d| && |Pad(m)| > |d|;
    }
  }

  lemma PadLenOf(m: nat, n: nat)
    requires 0 < n <= N_BLOCK && (m + n) % N_BLOCK == 0
    ensures PadLen(m) == n
  {
  }

  /** A string that ends in a zero byte is taken whole, as if no padding followed. */
  lemma ZeroPadByte(d: Bytes)
    requires d != [] && d[|d| - 1] == 0
    ensures Unpad(d) == Some(d)
  {
    assert d[|d|..] == Padding(0) && d[..|d|] == d;
  }

  // The two layers

  function AesEncrypt(p: Primitives, key: Bytes, iv: Bytes, m: Bytes): Option<Bytes>
    requires p.Sound() && |iv| == N_BLOCK
  {
    if |m| > CIPHER_MAX_ALLOC then None else Some(iv + CbcEncrypt(p, key, iv, Pad(m)))
  }

  /** `stack` is what the decryption buffer holds where no whole block was decrypted into it. */
  function AesDecrypt(p: Primitives, key: Bytes, c: Bytes, stack: Bytes): Option<Bytes>
    requires p.Sound() && |c| >= 2 * N_BLOCK && |stack| == |c| % N_BLOCK
  {
    if |c| > CIPHER_MAX_ALLOC then None
    else Unpad(CbcDecrypt(p, key, c[..N_BLOCK], c[N_BLOCK..|c| - |c| % N_BLOCK]) + stack)
  }

  function Encrypt(p: Primitives, secret: Bytes, iv: Bytes, m: Bytes, outLen: nat): Option<Bytes>
    requires p.Sound() && |iv| == N_BLOCK
  {
    if outLen != |m| + N_BLOCK + N_BLOCK + 32 then None
    else
      match AesEncrypt(p, p.EncryptionKey(secret), iv, m)
      case None => None
      case Some(c) => Some(c + p.hmac(p.AuthenticationKey(secret), c))
  }

  function Decrypt(p: Primitives, secret: Bytes, blob: Bytes, outLen: nat, stack: Bytes): Option<Bytes>
    requires p.Sound() && |stack| == |blob| % N_BLOCK
  {
    if |blob| < N_BLOCK + N_BLOCK + 32 || outLen != |blob| - N_BLOCK - 32 then None
    else
      var c := blob[..|blob| - 32];
      if p.hmac(p.AuthenticationKey(secret), c) != blob[|blob| - 32..] then None
      else AesDecrypt(p, p.EncryptionKey(secret), c, stack)
  }

  lemma PaddedLength(n: nat)
    ensures n + PadLen(n) == 16 * (n / 16) + 16
    ensures 16 * (n / 16) % 16 == 0
    ensures 16 * (n / 16) + 32 <= CIPHER_MAX_ALLOC <==> n <= 175
  {
  }

  lemma AesRoundTrip(p: Primitives, key: Bytes, iv: Bytes, m: Bytes)
    requires p.Sound() && |iv| == N_BLOCK && |m| <= CIPHER_MAX_ALLOC
    ensures
      var c := AesEncrypt(p, key, iv, m).value;
      && |c| == 16 * (|m| / 16) + 32
      && |c| % N_BLOCK == 0
      && AesDecrypt(p, key, c, []) == if |m| <= 175 then Some(m) else None
  {
    PaddedLength(|m|);
    var e := CbcEncrypt(p, key, iv, Pad(m));
    var c := iv + e;
    assert |c| % N_BLOCK == 0;
    assert c[..N_BLOCK] == iv && c[N_BLOCK..|c|] == e;
    CbcRoundTrip(p, key, iv, Pad(m));
    assert CbcDecrypt(p, key, c[..N_BLOCK], c[N_BLOCK..|c| - |c| % N_BLOCK]) + [] == Pad(m);
    PadRoundTrip(m);
  }

  /** Encryption succeeds exactly up to 200 bytes, its output is 16 * (n / 16) + 64 bytes long, and
      decryption gives the message back exactly if it is at most 175 bytes long. */
  lemma RoundTrip(p: Primitives, secret: Bytes, iv: Bytes, m: Bytes)
    requires p.Sound() && |iv| == N_BLOCK
    ensures
      var blob := Encrypt(p, secret, iv, m, |m| + 64);
      && (blob.Some? <==> |m| <= CIPHER_MAX_ALLOC)
      && (blob.Some? ==>
          && |blob.value| == 16 * (|m| / 16) + 64
          && |blob.value| % N_BLOCK == 0
          && Decrypt(p, secret, blob.value, |blob.value| - 48, []) == if |m| <= 175 then Some(m) else None)
  {
    if |m| <= CIPHER_MAX_ALLOC {
      var key := p.EncryptionKey(secret);
      var c := AesEncrypt(p, key, iv, m).value;
      var tag := p.hmac(p.AuthenticationKey(secret), c);
      AesRoundTrip(p, key, iv, m);
      assert (c + tag)[..|c|] == c && (c + tag)[|c|..] == tag;
    }
  }

  /** Under any other secret the tag does not verify. */
  lemma WrongSecret(p: Primitives, secret: Bytes, iv: Bytes, m: Bytes, other: Bytes, outLen: nat)
    requires p.Sound() && p.Authentic() && |iv| == N_BLOCK && |m| <= CIPHER_MAX_ALLOC
    requires |secret| == |other| == 32 && other != secret
    ensures
      var blob := Encrypt(p, secret, iv, m, |m| + 64).value;
      |blob| % N_BLOCK == 0 && Decrypt(p, other, blob, outLen, []) == None
  {
    RoundTrip(p, secret, iv, m);
    var c := AesEncrypt(p, p.EncryptionKey(secret), iv, m).value;
    var ours, theirs := p.AuthenticationKey(secret), p.AuthenticationKey(other);
    assert ours != theirs;
    assert p.hmac(theirs, c) != p.hmac(ours, c);
    var blob := c + p.hmac(ours, c);
    assert blob[..|blob| - 32] == c && blob[|blob| - 32..] == p.hmac(ours, c);
  }

  // The C code: padding is written and checked byte by byte

  method EncryptPadded(p: Primitives, input: Bytes, key: Bytes, iv: Bytes) returns (out: Option<Bytes>)
    requires p.Sound() && |iv| == N_BLOCK
    ensures out == AesEncrypt(p, key, iv, input)
  {
    if |input| > CIPHER_MAX_ALLOC {
      return None;
    }
    var padlen := N_BLOCK - |input| % N_BLOCK;
    var inpad := new byte[|input| + padlen](i requires 0 <= i < |input| + padlen => if i < |input| then input[i] else 0);
    for i := 0 to padlen
      invariant inpad[..|input| + i] == input + Padding(padlen)[..i]
    {
      inpad[|input| + i] := padlen;
    }
    assert inpad[..] == Pad(input);
    out := Some(iv + CbcEncrypt(p, key, iv, inpad[..]));
  }

  method StripPadding(decPad: Bytes) returns (out: Option<Bytes>)
    requires decPad != []
    ensures out == Unpad(decPad)
  {
    var n := |decPad|;
    var padlen := decPad[n - 1];
    if padlen > N_BLOCK {
      return None;
    }
    if n + N_BLOCK < N_BLOCK + padlen {
      return None;
    }
    for i := 0 to padlen
      invariant forall k | n - i <= k < n :: decPad[k] == padlen
    {
      if decPad[n - 1 - i] != padlen {
        assert decPad[n - padlen..][padlen - 1 - i] != Padding(padlen)[padlen - 1 - i];
        return None;
      }
    }
    assert decPad[n - padlen..] == Padding(padlen);
    out := Some(decPad[..n - padlen]);
  }

  method DecryptPadded(p: Primitives, input: Bytes, key: Bytes, stack: Bytes) returns (out: Option<Bytes>)
    requires p.Sound() && |input| >= 2 * N_BLOCK && |stack| == |input| % N_BLOCK
    ensures out == AesDecrypt(p, key, input, stack)
  {
    if |input| > CIPHER_MAX_ALLOC {
      return None;
    }
    var decPad := CbcDecrypt(p, key, input[..N_BLOCK], input[N_BLOCK..|input| - |input| % N_BLOCK]) + stack;
    out := StripPadding(decPad);
  }

  method AesHmacEncrypt(p: Primitives, input: Bytes, outLen: nat, secret: Bytes, iv: Bytes) returns (out: Option<Bytes>)
    requires p.Sound() && |iv| == N_BLOCK
    ensures out == Encrypt(p, secret, iv, input, outLen)
  {
    if outLen != |input| + N_BLOCK + N_BLOCK + 32 {
      return None;
    }
    var c := EncryptPadded(p, input, p.EncryptionKey(secret), iv);
    if c.None? {
      return None;
    }
    out := Some(c.value + p.hmac(p.AuthenticationKey(secret), c.value));
  }

  method AesHmacDecrypt(p: Primitives, input: Bytes, outLen: nat, secret: Bytes, stack: Bytes)
    returns (out: Option<Bytes>)
    requires p.Sound() && |stack| == |input| % N_BLOCK
    ensures out == Decrypt(p, secret, input, outLen, stack)
  {
    if |input| < N_BLOCK + N_BLOCK + 32 {
      return None;
    }
    if outLen != |input| - N_BLOCK - 32 {
      return None;
    }
    var c := input[..|input| - 32];
    if p.hmac(p.AuthenticationKey(secret), c) != input[|input| - 32..] {
      return None;
    }
    out := DecryptPadded(p, c, p.EncryptionKey(secret), stack);
  }
}
