/** Byte strings and the fixed-width integer encodings shared by every wire format. */
module Bytes {

  datatype Option<+T> = None | Some(value: T)

  datatype Result<+T, +E> = Ok(value: T) | Err(error: E) {

    predicate IsFailure() {
      Err?
    }

    function PropagateFailure<U>(): Result<U, E>
      requires Err?
    {
      Err(error)
    }

    function Extract(): T
      requires Ok?
    {
      value
    }
  }

  type byte = b: int | 0 <= b < 256

  type bytes = seq<byte>

  /** A `u16` value. */
  type u16 = n: int | 0 <= n < 0x1_0000

  /** `256^n`, the number of distinct `n`-byte strings. */
  function Pow256(n: nat): (p: nat)
    ensures p > 0
  {
    if n == 0 then 1 else 256 * Pow256(n - 1)
  }

  /** The low `n` bytes of `v`, least significant first (`to_le_bytes`). */
  function LeBytes(v: nat, n: nat): (s: bytes)
    ensures |s| == n
  {
    if n == 0 then [] else [v % 256] + LeBytes(v / 256, n - 1)
  }

  /** The value of a little-endian byte string (`from_le_bytes`). */
  function FromLe(s: bytes): nat
  {
    if s == [] then 0 else s[0] + 256 * FromLe(s[1..])
  }

  /** Position by position: byte `i` is the digit of weight `256^i`. */
  lemma {:induction false} LeBytesAt(v: nat, n: nat, i: nat)
    requires i < n
    ensures LeBytes(v, n)[i] == DigitAt(v, i)
  {
    if i > 0 { LeBytesAt(v / 256, n - 1, i - 1); }
  }

  function DigitAt(v: nat, i: nat): byte
  {
    if i == 0 then v % 256 else DigitAt(v / 256, i - 1)
  }

  lemma {:induction false} FromLeBytes(v: nat, n: nat)
    ensures FromLe(LeBytes(v, n)) == v % Pow256(n)
  {
    if n > 0 {
      FromLeBytes(v / 256, n - 1);
      assert LeBytes(v, n)[1..] == LeBytes(v / 256, n - 1);
      ModSplit(v, Pow256(n - 1));
    } else {
      assert v % 1 == 0;
    }
  }

  lemma {:induction false} LeBytesInjective(a: nat, b: nat, n: nat)
    requires a < Pow256(n) && b < Pow256(n)
    ensures LeBytes(a, n) == LeBytes(b, n) ==> a == b
  {
    FromLeBytes(a, n);
    FromLeBytes(b, n);
    ModUnique(a, Pow256(n), 0, a);
    ModUnique(b, Pow256(n), 0, b);
  }

  lemma SliceOfSlice<T>(s: seq<T>, a: nat, b: nat, c: nat)
    requires b <= c && a + c <= |s|
    ensures s[a..][b..c] == s[a + b..a + c]
    ensures s[a..][c..] == s[a + c..]
  {
  }

  lemma ModSplit(v: nat, p: nat)
    requires p > 0
    ensures v % 256 + 256 * ((v / 256) % p) == v % (256 * p)
  {
    var q := v / 256;
    var k := q / p;
    var r := v % 256 + 256 * (q % p);
    assert q == k * p + q % p;
    assert v == 256 * q + v % 256;
    assert v == (256 * p) * k + r;
    assert r < 256 * p by {
      assert 256 * (q % p) <= 256 * (p - 1);
    }
    ModUnique(v, 256 * p, k, r);
  }

  lemma ModUnique(v: nat, m: nat, k: nat, r: nat)
    requires m > 0 && r < m && v == m * k + r
    ensures v % m == r
  {
    var d := v / m - k;
    assert m * d == r - v % m by {
      assert v == m * (v / m) + v % m;
      assert m * (v / m) - m * k == m * d;
    }
    MulOutOfRange(m, d);
  }

  lemma MulOutOfRange(m: nat, d: int)
    ensures d >= 1 ==> m * d >= m
    ensures d <= -1 ==> m * d <= -(m as int)
  {
  }

  lemma ModAdd(a: nat, b: nat, m: nat)
    requires m > 0
    ensures (a % m + b) % m == (a + b) % m
  {
    var v := a % m + b;
    assert a + b == m * (a / m) + v;
    assert v == m * (v / m) + v % m;
    assert m * (a / m) + m * (v / m) == m * (a / m + v / m);
    ModUnique(a + b, m, a / m + v / m, v % m);
  }

  /** Different numbers with one residue are at least the modulus apart. */
  lemma ModGap(a: nat, b: nat, m: nat)
    requires m > 0 && a < b && a % m == b % m
    ensures b - a >= m
  {
    assert a == m * (a / m) + a % m && b == m * (b / m) + b % m;
    assert m * (b / m) - m * (a / m) == m * (b / m - a / m);
    MulOutOfRange(m, b / m - a / m);
  }

  /** A little-endian `u16` field. */
  function Le16(v: u16): (s: bytes)
    ensures |s| == 2 && FromLe16(s) == v
  {
    [v % 256, v / 256]
  }

  function FromLe16(s: bytes): (v: u16)
    requires |s| == 2
  {
    (s[0] as int) + 256 * (s[1] as int)
  }

  /** Exclusive-or of the low `n` bits. */
  function XorBits(a: nat, b: nat, n: nat): (x: nat)
  {
    if n == 0 then 0 else (if a % 2 == b % 2 then 0 else 1) + 2 * XorBits(a / 2, b / 2, n - 1)
  }

  function Pow2(n: nat): (p: nat)
    ensures p > 0
  {
    if n == 0 then 1 else 2 * Pow2(n - 1)
  }

  lemma {:induction false} XorBitsBound(a: nat, b: nat, n: nat)
    ensures XorBits(a, b, n) < Pow2(n)
  {
    if n > 0 { XorBitsBound(a / 2, b / 2, n - 1); }
  }

  /** Exclusive-or by the same mask twice is the identity. */
  lemma {:induction false} XorBitsCancel(a: nat, b: nat, n: nat)
    requires a < Pow2(n)
    ensures XorBits(XorBits(a, b, n), b, n) == a
  {
    if n > 0 {
      XorBitsCancel(a / 2, b / 2, n - 1);
      var x := XorBits(a, b, n);
      assert x / 2 == XorBits(a / 2, b / 2, n - 1);
      assert XorBits(x, b, n) == (if x % 2 == b % 2 then 0 else 1) + 2 * (a / 2);
    }
  }

  /** Bit by bit: one where exactly one of the two has it. */
  lemma {:induction false} XorBitsAt(a: nat, b: nat, n: nat, i: nat)
    requires i < n
    ensures BitAt(XorBits(a, b, n), i) == (BitAt(a, i) != BitAt(b, i))
  {
    var x := XorBits(a, b, n);
    assert x / 2 == XorBits(a / 2, b / 2, n - 1);
    if i > 0 { XorBitsAt(a / 2, b / 2, n - 1, i - 1); }
  }

  predicate BitAt(v: nat, i: nat)
  {
    if i == 0 then v % 2 == 1 else BitAt(v / 2, i - 1)
  }

  lemma XorByteInRange(a: byte, b: byte)
    ensures XorBits(a, b, 8) < 256
  {
    XorBitsBound(a, b, 8);
    assert Pow2(8) == 256 by {
      assert Pow2(4) == 16;
    }
  }

  function XorByte(a: byte, b: byte): byte
  {
    XorByteInRange(a, b);
    XorBits(a, b, 8)
  }

  /** Bytewise exclusive-or over the shorter of the two strings. */
  function XorBytes(a: bytes, b: bytes): (x: bytes)
    ensures |x| == if |a| < |b| then |a| else |b|
  {
    if a == [] || b == [] then [] else [XorByte(a[0], b[0])] + XorBytes(a[1..], b[1..])
  }

  lemma {:induction false} XorBytesCancel(a: bytes, k: bytes)
    requires |a| <= |k|
    ensures XorBytes(XorBytes(a, k), k) == a
  {
    if a != [] {
      XorBytesCancel(a[1..], k[1..]);
      var x := XorBytes(a, k);
      assert x[1..] == XorBytes(a[1..], k[1..]);
      assert Pow2(8) == 256 by {
        assert Pow2(4) == 16;
      }
      XorBitsCancel(a[0], k[0], 8);
    }
  }

  /** The bytes of an ASCII literal. */
  function Ascii(s: string): (b: bytes)
    ensures |b| == |s|
  {
    seq(|s|, i requires 0 <= i < |s| => if s[i] as int < 256 then s[i] as int else 0)
  }

  /** `n` zero bytes. */
  function Zeros(n: nat): (z: bytes)
    ensures |z| == n && forall i :: 0 <= i < n ==> z[i] == 0
  {
    seq(n, _ => 0)
  }
}
