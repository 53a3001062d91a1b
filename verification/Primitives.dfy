/** The foreign cryptographic primitives, as functions known only through the laws the protocols rely on. */
module Primitives {
  import opened Bytes

  datatype Suite = Suite(
    hash: bytes -> bytes,                          // SHA-512
    hkdf: (bytes, bytes, bytes) -> bytes,          // HKDF-SHA512 of (ikm, salt, info), 32 bytes out
    seal: (bytes, bytes, bytes) -> bytes,          // ChaCha20-Poly1305 of (key, nonce, plaintext), empty AAD
    open: (bytes, bytes, bytes) -> Option<bytes>,
    edPublic: bytes -> bytes,                      // Ed25519 public key of a seed
    edSign: (bytes, bytes) -> bytes,               // (seed, message)
    edVerify: (bytes, bytes, bytes) -> bool,       // (public key, message, signature)
    xPublic: bytes -> bytes,                       // X25519 public key of a scalar
    xShared: (bytes, bytes) -> bytes,              // (scalar, peer public key)
    utf8: bytes -> bool,                           // accepted by `String::from_utf8`
    chacha: (bytes, bytes, nat) -> byte,           // byte number n of the ChaCha20 keystream of (key, nonce)
    poly1305: (bytes, bytes) -> bytes)             // the 16-byte tag of (one-time key, block-aligned data)

  const TAG_LEN := 16

  /** Opening undoes sealing under the same key and nonce, and sealing adds exactly the tag. */
  ghost predicate SealLaw(c: Suite)
  {
    forall k: bytes, n: bytes, p: bytes ::
      c.open(k, n, c.seal(k, n, p)) == Some(p) && |c.seal(k, n, p)| == |p| + TAG_LEN
  }

  /** A sealed frame opens under no other nonce: what a tag promises but for chance. Assumed only where it is named. */
  ghost predicate NonceLaw(c: Suite)
  {
    forall k: bytes, n: bytes, n': bytes, p: bytes :: |n| == |n'| == 12 && n != n' ==> c.open(k, n', c.seal(k, n, p)).None?
  }

  /** A signature verifies under the signer's public key; keys and signatures have their fixed widths. */
  ghost predicate SignLaw(c: Suite)
  {
    && (forall s: bytes, m: bytes :: c.edVerify(c.edPublic(s), m, c.edSign(s, m)) && |c.edSign(s, m)| == 64)
    && (forall s: bytes :: |c.edPublic(s)| == 32)
  }

  /** The two ends of a Diffie-Hellman exchange agree. */
  ghost predicate DhLaw(c: Suite)
  {
    && (forall a: bytes, b: bytes :: c.xShared(a, c.xPublic(b)) == c.xShared(b, c.xPublic(a)))
    && (forall a: bytes :: |c.xPublic(a)| == 32)
  }

  ghost predicate MacLaw(c: Suite)
  {
    forall k: bytes, d: bytes :: |c.poly1305(k, d)| == 16
  }

  ghost predicate Laws(c: Suite)
  {
    SealLaw(c) && SignLaw(c) && DhLaw(c) && MacLaw(c)
  }

  /** The 12-byte nonce holding an 8-byte label or counter after four zero bytes. */
  function Nonce(text: bytes): (n: bytes)
    requires |text| == 8
    ensures |n| == 12
  {
    Zeros(4) + text
  }

  const U64 := 0x1_0000_0000_0000_0000

  /** The nonce of message number `counter` (a `u64`). */
  function CounterNonce(counter: nat): (n: bytes)
    ensures |n| == 12
  {
    Nonce(LeBytes(counter, 8))
  }

  /** Byte by byte: four zeros, then the counter with its least significant byte first. */
  lemma CounterNonceAt(counter: nat, i: nat)
    requires i < 8
    ensures CounterNonce(counter)[..4] == [0, 0, 0, 0] && CounterNonce(counter)[4 + i] == DigitAt(counter, i)
  {
    LeBytesAt(counter, 8, i);
  }

  lemma U64IsPow256()
    ensures Pow256(8) == U64
  {
    assert Pow256(2) == 0x1_0000;
    assert Pow256(4) == 256 * (256 * Pow256(2)) == 0x1_0000_0000;
    assert Pow256(6) == 256 * (256 * Pow256(4)) == 0x1_0000_0000_0000;
  }

  /** Distinct counters below 2^64 give distinct nonces. */
  lemma CounterNonceInjective(a: nat, b: nat)
    requires a < U64 && b < U64
    ensures CounterNonce(a) == CounterNonce(b) ==> a == b
  {
    U64IsPow256();
    LeBytesInjective(a, b, 8);
    assert CounterNonce(a)[4..] == LeBytes(a, 8);
    assert CounterNonce(b)[4..] == LeBytes(b, 8);
  }

  /** Twelve bytes of a nonce to put in a tag. */
  function Stamp(n: bytes): (s: bytes)
    ensures |s| == TAG_LEN && (|n| == 12 ==> s[..12] == n)
  {
    if |n| == 12 then n + Zeros(4) else Zeros(TAG_LEN)
  }

  /** Some suite meets all the laws, so assuming them assumes nothing contradictory. */
  lemma LawsAreSatisfiable()
    ensures exists c: Suite :: Laws(c) && NonceLaw(c)
  {
    var c := Suite(
      m => m,
      (ikm: bytes, salt: bytes, info: bytes) => Zeros(32),
      (k: bytes, n: bytes, p: bytes) => p + Stamp(n),
      (k: bytes, n: bytes, d: bytes) => if |d| < TAG_LEN || d[|d| - TAG_LEN..] != Stamp(n) then None else Some(d[..|d| - TAG_LEN]),
      s => Zeros(32),
      (s: bytes, m: bytes) => Zeros(64),
      (pk: bytes, m: bytes, sig: bytes) => true,
      s => Zeros(32),
      (a: bytes, p: bytes) => Zeros(32),
      s => true,
      (k: bytes, n: bytes, i: nat) => 0,
      (k: bytes, d: bytes) => Zeros(16));
    forall k: bytes, n: bytes, n': bytes, p: bytes
      ensures c.open(k, n, c.seal(k, n, p)) == Some(p)
      ensures |n| == |n'| == 12 && n != n' ==> c.open(k, n', c.seal(k, n, p)).None?
    {
      assert (p + Stamp(n))[..|p|] == p && (p + Stamp(n))[|p|..] == Stamp(n);
    }
    assert SealLaw(c) && SignLaw(c) && DhLaw(c) && MacLaw(c);
    assert Laws(c) && NonceLaw(c);
  }
}
