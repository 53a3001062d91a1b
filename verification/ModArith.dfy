/** Powers and congruences: the arithmetic behind the SRP premaster secret. */
module ModArith {

  function Pow(b: int, e: nat): int
  {
    if e == 0 then 1 else b * Pow(b, e - 1)
  }

  /** `modpow`: `b^e mod n`. */
  function ModPow(b: nat, e: nat, n: nat): (r: nat)
    requires n > 0
    ensures r < n
  {
    Pow(b, e) % n
  }

  predicate Cong(x: int, y: int, n: nat)
    requires n > 0
  {
    x % n == y % n
  }

  /** Congruent numbers differ by a multiple of the modulus, and conversely. */
  lemma CongOfMultiple(x: int, y: int, k: int, n: nat)
    requires n > 0 && x == y + k * n
    ensures Cong(x, y, n)
  {
    var d := x / n - (y / n + k);
    assert x == n * (x / n) + x % n && y == n * (y / n) + y % n;
    assert n * d == y % n - x % n by {
      assert n * d == n * (x / n) - n * (y / n) - n * k;
    }
    ZeroMultiple(n, d);
  }

  lemma ZeroMultiple(n: nat, d: int)
    ensures d >= 1 ==> n * d >= n
    ensures d <= -1 ==> n * d <= -(n as int)
  {
  }

  lemma CongQuotient(x: int, y: int, n: nat) returns (k: int)
    requires n > 0 && Cong(x, y, n)
    ensures x == y + k * n
  {
    k := x / n - y / n;
    assert x == n * (x / n) + x % n && y == n * (y / n) + y % n;
    assert k * n == n * (x / n) - n * (y / n);
  }

  lemma CongMod(x: int, n: nat)
    requires n > 0
    ensures Cong(x % n, x, n)
  {
    assert x == n * (x / n) + x % n;
    CongOfMultiple(x, x % n, x / n, n);
  }

  lemma CongMul(x: int, x': int, y: int, y': int, n: nat)
    requires n > 0 && Cong(x, x', n) && Cong(y, y', n)
    ensures Cong(x * y, x' * y', n)
  {
    var j := CongQuotient(x, x', n);
    var k := CongQuotient(y, y', n);
    assert x * y == x' * y' + (j * y + x' * k) * n by {
      assert x * y == x' * y + j * n * y;
      assert x' * y == x' * y' + x' * (k * n);
      assert (j * y + x' * k) * n == j * n * y + x' * (k * n);
    }
    CongOfMultiple(x * y, x' * y', j * y + x' * k, n);
  }

  lemma CongAdd(x: int, x': int, y: int, y': int, n: nat)
    requires n > 0 && Cong(x, x', n) && Cong(y, y', n)
    ensures Cong(x + y, x' + y', n)
  {
    var j := CongQuotient(x, x', n);
    var k := CongQuotient(y, y', n);
    assert (j + k) * n == j * n + k * n;
    CongOfMultiple(x + y, x' + y', j + k, n);
  }

  lemma {:induction false} CongPow(x: int, y: int, e: nat, n: nat)
    requires n > 0 && Cong(x, y, n)
    ensures Cong(Pow(x, e), Pow(y, e), n)
  {
    if e > 0 {
      CongPow(x, y, e - 1, n);
      CongMul(x, y, Pow(x, e - 1), Pow(y, e - 1), n);
    }
  }

  lemma {:induction false} PowAdd(b: int, d: nat, e: nat)
    ensures Pow(b, d + e) == Pow(b, d) * Pow(b, e)
  {
    if d > 0 {
      PowAdd(b, d - 1, e);
      assert d + e - 1 == (d - 1) + e;
      assert b * (Pow(b, d - 1) * Pow(b, e)) == (b * Pow(b, d - 1)) * Pow(b, e);
    }
  }

  lemma {:induction false} PowOfPow(b: int, d: nat, e: nat)
    ensures d * e >= 0
    ensures Pow(Pow(b, d), e) == Pow(b, d * e)
  {
    if e > 0 {
      PowOfPow(b, d, e - 1);
      assert d * e == d + d * (e - 1);
      PowAdd(b, d, d * (e - 1));
    }
  }
}
