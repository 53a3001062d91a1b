/** Encrypted broadcast notifications: ChaCha20 with a Poly1305 tag cut to four bytes. */
module Broadcast {
  import opened Bytes
  import opened Primitives

  const BLOCK := 64
  const TAG := 4

  // ---- The MAC input of section 2.8 of RFC 8439 ----

  /** Zero bytes up to the next multiple of 16. */
  function Padding(n: nat): (p: nat)
    ensures (n + p) % 16 == 0 && p < 16
  {
    (16 - n % 16) % 16
  }

  function MacData(aad: bytes, ciphertext: bytes): bytes
  {
    aad + Zeros(Padding(|aad|)) + ciphertext + Zeros(Padding(|ciphertext|)) + LeBytes(|aad|, 8) + LeBytes(|ciphertext|, 8)
  }

  method PadTo16(d: bytes) returns (r: bytes)
    ensures r == d + Zeros(Padding(|d|))
  {
    r := d;
    while |r| % 16 != 0
      invariant |d| <= |r| <= |d| + Padding(|d|) && r == d + Zeros(|r| - |d|)
      decreases |d| + 16 - |r|
    {
      r := r + [0];
    }
  }

  method BuildMacData(aad: bytes, ciphertext: bytes) returns (d: bytes)
    ensures d == MacData(aad, ciphertext)
  {
    d := PadTo16(aad);
    ghost var front := d;
    d := PadTo16(d + ciphertext);
    PaddingOfAligned(|front|, |ciphertext|);
    assert d == front + ciphertext + Zeros(Padding(|ciphertext|));
    d := d + LeBytes(|aad|, 8);
    d := d + LeBytes(|ciphertext|, 8);
  }

  lemma PaddingOfAligned(a: nat, n: nat)
    requires a % 16 == 0
    ensures Padding(a + n) == Padding(n)
  {
    assert (a + n) % 16 == n % 16 by { assert a + n == 16 * (a / 16) + n; }
  }

  /** Block-aligned, so the hash pads nothing. */
  lemma MacDataAligned(aad: bytes, ciphertext: bytes)
    ensures |MacData(aad, ciphertext)| % 16 == 0
  {
    MacDataFields(aad, ciphertext);
    SumAligned(|aad| + Padding(|aad|), |ciphertext| + Padding(|ciphertext|));
  }

  lemma SumAligned(a: nat, b: nat)
    requires a % 16 == 0 && b % 16 == 0
    ensures (a + b + 16) % 16 == 0
  {
  }

  /** No two pairs of `usize` length share a MAC input. */
  lemma MacDataInjective(aad: bytes, ciphertext: bytes, aad': bytes, ciphertext': bytes)
    requires |aad| < U64 && |ciphertext| < U64 && |aad'| < U64 && |ciphertext'| < U64
    ensures MacData(aad, ciphertext) == MacData(aad', ciphertext') ==> aad == aad' && ciphertext == ciphertext'
  {
    MacDataFields(aad, ciphertext);
    MacDataFields(aad', ciphertext');
    U64IsPow256();
    LeBytesInjective(|aad|, |aad'|, 8);
    LeBytesInjective(|ciphertext|, |ciphertext'|, 8);
  }

  /** Where each field sits, counted from the end for the lengths and from the front for the rest. */
  lemma MacDataFields(aad: bytes, ciphertext: bytes)
    ensures var d := MacData(aad, ciphertext);
            var start := |aad| + Padding(|aad|);
            && |d| == start + |ciphertext| + Padding(|ciphertext|) + 16
            && d[|d| - 16..|d| - 8] == LeBytes(|aad|, 8) && d[|d| - 8..] == LeBytes(|ciphertext|, 8)
            && d[..|aad|] == aad && d[start..start + |ciphertext|] == ciphertext
  {
    var p, q := Zeros(Padding(|aad|)), Zeros(Padding(|ciphertext|));
    var x, y := LeBytes(|aad|, 8), LeBytes(|ciphertext|, 8);
    SixFields(aad, p, ciphertext, q, x, y);
    assert |x| == 8 && |y| == 8;
  }

  lemma SixFields(a: bytes, p: bytes, c: bytes, q: bytes, x: bytes, y: bytes)
    ensures var d := a + p + c + q + x + y;
            && |d| == |a| + |p| + |c| + |q| + |x| + |y|
            && d[|d| - |x| - |y|..|d| - |y|] == x && d[|d| - |y|..] == y
            && d[..|a|] == a && d[|a| + |p|..|a| + |p| + |c|] == c
  {
  }

  // ---- The cipher and its two uses ----

  function Keystream(c: Suite, key: bytes, nonce: bytes, from: nat, len: nat): (k: bytes)
    ensures |k| == len
  {
    seq<byte>(len, i requires 0 <= i < len => c.chacha(key, nonce, from + i))
  }

  /** A ChaCha20 cipher that remembers how much keystream it has used. */
  class Cipher {
    const suite: Suite
    const key: bytes
    const nonce: bytes
    var position: nat

    constructor (suite: Suite, key: bytes, nonce: bytes)
      ensures this.suite == suite && this.key == key && this.nonce == nonce && position == 0
    {
      this.suite := suite;
      this.key := key;
      this.nonce := nonce;
      position := 0;
    }

    method ApplyKeystream(data: bytes) returns (r: bytes)
      modifies this`position
      ensures r == XorBytes(data, Keystream(suite, key, nonce, old(position), |data|))
      ensures position == old(position) + |data|
    {
      r := XorBytes(data, Keystream(suite, key, nonce, position, |data|));
      position := position + |data|;
    }

    /** The one-time key: the first half of block 0, all of which is used up. */
    method TakePolyKey() returns (k: bytes)
      modifies this`position
      requires position == 0
      ensures k == Keystream(suite, key, nonce, 0, 32) && position == BLOCK
    {
      var block := ApplyKeystream(Zeros(BLOCK));
      XorZeros(Keystream(suite, key, nonce, 0, BLOCK));
      k := block[..32];
    }
  }

  lemma {:induction false} XorZeroBits(b: nat, n: nat)
    requires b < Pow2(n)
    ensures XorBits(0, b, n) == b
  {
    if n > 0 { XorZeroBits(b / 2, n - 1); }
  }

  lemma {:induction false} XorZeros(k: bytes)
    ensures XorBytes(Zeros(|k|), k) == k
  {
    if k != [] {
      assert Zeros(|k|)[1..] == Zeros(|k[1..]|);
      XorZeros(k[1..]);
      assert Pow2(8) == 256 by { assert Pow2(4) == 16; }
      XorZeroBits(k[0], 8);
    }
  }

  /** The partial tag of a ciphertext under a state number. */
  function Tag(c: Suite, key: bytes, gsn: u16, ciphertext: bytes, id: bytes): (t: bytes)
    requires MacLaw(c)
    ensures |t| == TAG
  {
    c.poly1305(Keystream(c, key, CounterNonce(gsn), 0, 32), MacData(id, ciphertext))[..TAG]
  }

  /** The payload under the keystream from block 1 on; applying it twice changes nothing. */
  function Crypt(c: Suite, key: bytes, gsn: u16, text: bytes): (r: bytes)
    ensures |r| == |text|
    ensures XorBytes(r, Keystream(c, key, CounterNonce(gsn), BLOCK, |r|)) == text
  {
    XorBytesCancel(text, Keystream(c, key, CounterNonce(gsn), BLOCK, |text|));
    XorBytes(text, Keystream(c, key, CounterNonce(gsn), BLOCK, |text|))
  }

  ghost function Sealed(c: Suite, key: bytes, gsn: u16, plaintext: bytes, id: bytes): bytes
    requires MacLaw(c)
  {
    var ciphertext := Crypt(c, key, gsn, plaintext);
    ciphertext + Tag(c, key, gsn, ciphertext, id)
  }

  ghost function Unsealed(c: Suite, key: bytes, gsn: u16, combined: bytes, id: bytes): Option<bytes>
    requires MacLaw(c)
  {
    if |combined| < TAG then None
    else
      var ciphertext := combined[..|combined| - TAG];
      if Tag(c, key, gsn, ciphertext, id) != combined[|combined| - TAG..] then None
      else Some(Crypt(c, key, gsn, ciphertext))
  }

  method Seal(c: Suite, key: bytes, gsn: u16, plaintext: bytes, id: bytes) returns (r: bytes)
    requires MacLaw(c) && |id| == 6
    ensures r == Sealed(c, key, gsn, plaintext, id)
  {
    var cipher := new Cipher(c, key, CounterNonce(gsn));
    var polyKey := cipher.TakePolyKey();
    var ciphertext := cipher.ApplyKeystream(plaintext);
    var data := BuildMacData(id, ciphertext);
    var tag := c.poly1305(polyKey, data);
    r := ciphertext + tag[..TAG];
  }

  method Open(c: Suite, key: bytes, gsn: u16, combined: bytes, id: bytes) returns (r: Option<bytes>)
    requires MacLaw(c) && |id| == 6
    ensures r == Unsealed(c, key, gsn, combined, id)
  {
    if |combined| < TAG { return None; }
    var ciphertext := combined[..|combined| - TAG];
    var tag := combined[|combined| - TAG..];
    var cipher := new Cipher(c, key, CounterNonce(gsn));
    var polyKey := cipher.TakePolyKey();
    var data := BuildMacData(id, ciphertext);
    var full := c.poly1305(polyKey, data);
    if full[..TAG] != tag { return None; }
    var plaintext := cipher.ApplyKeystream(ciphertext);
    r := Some(plaintext);
  }

  /** `open` yields a plaintext exactly when it is given what `seal` makes of that plaintext. */
  lemma OpensExactlyTheSealed(c: Suite, key: bytes, gsn: u16, combined: bytes, plaintext: bytes, id: bytes)
    requires MacLaw(c)
    ensures Unsealed(c, key, gsn, combined, id) == Some(plaintext) <==> combined == Sealed(c, key, gsn, plaintext, id)
  {
    var sealed := Sealed(c, key, gsn, plaintext, id);
    assert sealed[..|sealed| - TAG] == Crypt(c, key, gsn, plaintext);
    if Unsealed(c, key, gsn, combined, id) == Some(plaintext) {
      assert combined == combined[..|combined| - TAG] + combined[|combined| - TAG..];
    }
  }

  /** Byte by byte: a byte of the text and one of the keystream, from byte 64 on. */
  lemma {:induction false} XorAt(a: bytes, b: bytes, i: nat)
    requires i < |a| == |b|
    ensures XorBytes(a, b)[i] == XorByte(a[i], b[i])
  {
    if i > 0 { XorAt(a[1..], b[1..], i - 1); }
  }

  /**
   What `seal` makes, from the primitives alone: the text under the keystream from byte 64 on, then the first four bytes
   of the tag, under the keystream's first 32, of the id and the ciphertext, each filled up to 16 bytes with zeros, and
   their two lengths.
   */
  lemma {:induction false} SealedExactly(c: Suite, key: bytes, gsn: u16, plaintext: bytes, id: bytes)
    requires MacLaw(c)
    ensures var nonce := [0, 0, 0, 0] + LeBytes(gsn, 8);
            var ciphertext: bytes := seq(|plaintext|, i requires 0 <= i < |plaintext| => XorByte(plaintext[i], c.chacha(key, nonce, 64 + i)));
            var oneTime: bytes := seq(32, i requires 0 <= i < 32 => c.chacha(key, nonce, i));
            var data := id + Zeros((16 - |id| % 16) % 16) + ciphertext + Zeros((16 - |ciphertext| % 16) % 16) + LeBytes(|id|, 8) + LeBytes(|ciphertext|, 8);
            Sealed(c, key, gsn, plaintext, id) == ciphertext + c.poly1305(oneTime, data)[..4]
  {
    var nonce := CounterNonce(gsn);
    assert nonce == [0, 0, 0, 0] + LeBytes(gsn, 8);
    var stream := Keystream(c, key, nonce, 64, |plaintext|);
    var ciphertext: bytes := seq(|plaintext|, i requires 0 <= i < |plaintext| => XorByte(plaintext[i], c.chacha(key, nonce, 64 + i)));
    forall i | 0 <= i < |plaintext| ensures Crypt(c, key, gsn, plaintext)[i] == ciphertext[i] { XorAt(plaintext, stream, i); }
    assert Crypt(c, key, gsn, plaintext) == ciphertext;
    var oneTime: bytes := seq(32, i requires 0 <= i < 32 => c.chacha(key, nonce, i));
    assert Keystream(c, key, nonce, 0, 32) == oneTime;
  }
}
