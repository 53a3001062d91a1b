/**
 SRP-6a, client and server (`hap-crypto/src/srp.rs`), generic over the group and
 the hash. The integers are real: the two premaster secrets are proved equal.
 */
module Srp {
  import opened Bytes
  import opened ModArith

  type Hash = bytes -> bytes

  datatype Fault = BadParameters | ProofMismatch

  // ---- Big-endian integers ----

  function FromBe(s: bytes): nat
  {
    if s == [] then 0 else 256 * FromBe(s[..|s| - 1]) + s[|s| - 1]
  }

  /** The big-endian digits of `v`, none for zero. */
  function Digits(v: nat): (s: bytes)
  {
    if v == 0 then [] else Digits(v / 256) + [v % 256]
  }

  /** `to_bytes_be`: minimal, but zero is one zero byte. */
  function ToBe(v: nat): bytes
  {
    if v == 0 then [0] else Digits(v)
  }

  /** `PAD`: big-endian, left-padded with zeros to `width`. */
  function Pad(v: nat, width: nat): bytes
  {
    var raw := ToBe(v);
    if |raw| >= width then raw else Zeros(width - |raw|) + raw
  }

  lemma {:induction false} FromBeDigits(v: nat)
    ensures FromBe(Digits(v)) == v
  {
    if v > 0 {
      FromBeDigits(v / 256);
      assert Digits(v)[..|Digits(v)| - 1] == Digits(v / 256);
    }
  }

  lemma {:induction false} FromBeLeadingZeros(k: nat, s: bytes)
    ensures FromBe(Zeros(k) + s) == FromBe(s)
    decreases |s| + k
  {
    var z := Zeros(k) + s;
    if s != [] {
      assert z[..|z| - 1] == Zeros(k) + s[..|s| - 1];
      FromBeLeadingZeros(k, s[..|s| - 1]);
    } else if k > 0 {
      assert z == Zeros(k);
      assert z[..|z| - 1] == Zeros(k - 1) + [];
      FromBeLeadingZeros(k - 1, []);
    }
  }

  /** Reading a padded integer back gives the integer, at any width. */
  lemma PadRoundTrip(v: nat, width: nat)
    ensures FromBe(Pad(v, width)) == v
  {
    var raw := ToBe(v);
    if v > 0 {
      FromBeDigits(v);
    } else {
      assert raw[..0] == [];
    }
    if |raw| < width {
      FromBeLeadingZeros(width - |raw|, raw);
    }
  }

  lemma {:induction false} DigitsMonotone(v: nat, w: nat)
    requires v <= w
    ensures |Digits(v)| <= |Digits(w)|
  {
    if v > 0 { DigitsMonotone(v / 256, w / 256); }
  }

  // ---- The group ----

  /** `SrpGroup::new` rejects a zero modulus. */
  type Group = g: GroupRaw | g.n > 0 witness GroupRaw(1, 0)

  datatype GroupRaw = GroupRaw(n: nat, g: nat)

  /** `len(N)` in bytes. */
  function NLen(grp: Group): nat
  {
    |Digits(grp.n)|
  }

  function PadN(grp: Group, v: nat): bytes
  {
    Pad(v, NLen(grp))
  }

  /** Every residue pads to exactly `len(N)` bytes. */
  lemma PadWidth(grp: Group, v: nat)
    requires v < grp.n
    ensures |PadN(grp, v)| == NLen(grp)
  {
    DigitsMonotone(v, grp.n);
  }

  // ---- The value functions ----

  function ComputeK(h: Hash, grp: Group): nat
  {
    FromBe(h(ToBe(grp.n) + PadN(grp, grp.g)))
  }

  function ComputeX(h: Hash, salt: bytes, username: bytes, password: bytes): nat
  {
    FromBe(h(salt + h(username + [0x3A] + password)))
  }

  function ComputeV(grp: Group, x: nat): nat
  {
    ModPow(grp.g, x, grp.n)
  }

  function ComputeU(h: Hash, grp: Group, aPub: nat, bPub: nat): nat
  {
    FromBe(h(PadN(grp, aPub) + PadN(grp, bPub)))
  }

  function ComputeB(grp: Group, k: nat, v: nat, b: nat): nat
  {
    ((k * v) % grp.n + ModPow(grp.g, b, grp.n)) % grp.n
  }

  function ProofM1(h: Hash, grp: Group, username: bytes, salt: bytes, aPub: nat, bPub: nat, key: bytes): bytes
  {
    h(XorBytes(h(ToBe(grp.n)), h(ToBe(grp.g))) + h(username) + salt + PadN(grp, aPub) + PadN(grp, bPub) + key)
  }

  function ProofM2(h: Hash, grp: Group, aPub: nat, m1: bytes, key: bytes): bytes
  {
    h(PadN(grp, aPub) + m1 + key)
  }

  /** `(A * v^u)^b mod N`. */
  function ServerSecret(grp: Group, v: nat, u: nat, b: nat, aPub: nat): nat
  {
    ModPow((aPub * ModPow(v, u, grp.n)) % grp.n, b, grp.n)
  }

  /** `(B - k * g^x)^(a + u*x) mod N`, kept non-negative by adding `N` first. */
  function ClientSecret(grp: Group, k: nat, x: nat, u: nat, a: nat, bPub: nat): nat
  {
    var kgx := (k * ModPow(grp.g, x, grp.n)) % grp.n;
    ModPow((bPub + grp.n - kgx) % grp.n, a + u * x, grp.n)
  }

  // ---- Server ----

  datatype Server = Server(grp: Group, username: bytes, salt: bytes, v: nat, b: nat, bPub: nat)

  function NewServer(h: Hash, grp: Group, username: bytes, password: bytes, salt: bytes, b: nat): Server
  {
    var v := ComputeV(grp, ComputeX(h, salt, username, password));
    Server(grp, username, salt, v, b, ComputeB(grp, ComputeK(h, grp), v, b))
  }

  function ServerKey(h: Hash, s: Server, aPub: nat): Result<bytes, Fault>
  {
    var n := s.grp.n;
    if aPub % n == 0 then Err(BadParameters)
    else
      var u := ComputeU(h, s.grp, aPub, s.bPub);
      if u == 0 then Err(ProofMismatch)
      else
        Ok(h(PadN(s.grp, ServerSecret(s.grp, s.v, u, s.b, aPub))))
  }

  function ServerVerify(h: Hash, s: Server, aPub: nat, key: bytes, m1: bytes): Result<bytes, Fault>
  {
    if m1 != ProofM1(h, s.grp, s.username, s.salt, aPub, s.bPub, key) then Err(ProofMismatch)
    else Ok(ProofM2(h, s.grp, aPub, m1, key))
  }

  // ---- Client ----

  datatype Client = Client(grp: Group, username: bytes, a: nat, aPub: nat)

  function NewClient(grp: Group, username: bytes, a: nat): Result<Client, Fault>
  {
    var aPub := ModPow(grp.g, a, grp.n);
    if aPub % grp.n == 0 then Err(BadParameters) else Ok(Client(grp, username, a, aPub))
  }

  function Premaster(h: Hash, cl: Client, salt: bytes, password: bytes, bPub: nat): Result<nat, Fault>
  {
    var n := cl.grp.n;
    if bPub % n == 0 then Err(BadParameters)
    else
      var k := ComputeK(h, cl.grp);
      var x := ComputeX(h, salt, cl.username, password);
      var u := ComputeU(h, cl.grp, cl.aPub, bPub);
      if u == 0 then Err(ProofMismatch)
      else
        Ok(ClientSecret(cl.grp, k, x, u, cl.a, bPub))
  }

  function ClientKey(h: Hash, cl: Client, premaster: nat): bytes
  {
    h(PadN(cl.grp, premaster))
  }

  function ClientM1(h: Hash, cl: Client, salt: bytes, bPub: nat, key: bytes): bytes
  {
    ProofM1(h, cl.grp, cl.username, salt, cl.aPub, bPub, key)
  }

  predicate ClientAccepts(h: Hash, cl: Client, m1: bytes, key: bytes, received: bytes)
  {
    ProofM2(h, cl.grp, cl.aPub, m1, key) == received
  }

  // ---- Agreement ----

  /** Removing the blinding term from `B` leaves `g^b`. */
  lemma ClientBase(grp: Group, k: nat, v: nat, b: nat)
    ensures var n := grp.n;
            Cong((ComputeB(grp, k, v, b) + n - (k * v) % n) % n, Pow(grp.g, b), n)
  {
    var n := grp.n;
    var kv, gb := (k * v) % n, ModPow(grp.g, b, n);
    var bPub := ComputeB(grp, k, v, b);
    CongMod(kv + gb, n);
    CongMod(bPub + n - kv, n);
    var j := CongQuotient(bPub, kv + gb, n);
    assert bPub + n - kv == gb + (j + 1) * n by {
      assert (j + 1) * n == j * n + n;
    }
    CongOfMultiple(bPub + n - kv, gb, j + 1, n);
    CongMod(Pow(grp.g, b), n);
  }

  /** The client's secret is `g^(b(a+ux))`. */
  lemma ClientSecretPower(grp: Group, k: nat, x: nat, u: nat, a: nat, b: nat)
    ensures u * x >= 0 && b * (a + u * x) >= 0
    ensures Cong(ClientSecret(grp, k, x, u, a, ComputeB(grp, k, ComputeV(grp, x), b)), Pow(grp.g, b * (a + u * x)), grp.n)
  {
    var n := grp.n;
    var v := ComputeV(grp, x);
    var base := (ComputeB(grp, k, v, b) + n - (k * v) % n) % n;
    var e := a + u * x;
    ClientBase(grp, k, v, b);
    CongPow(base, Pow(grp.g, b), e, n);
    CongMod(Pow(base, e), n);
    PowOfPow(grp.g, b, e);
  }

  /** The server's secret is `g^((a+xu)b)`. */
  lemma ServerSecretPower(grp: Group, x: nat, u: nat, a: nat, b: nat)
    ensures x * u >= 0 && (a + x * u) * b >= 0
    ensures Cong(ServerSecret(grp, ComputeV(grp, x), u, b, ModPow(grp.g, a, grp.n)), Pow(grp.g, (a + x * u) * b), grp.n)
  {
    var n := grp.n;
    var g := grp.g;
    var v := ComputeV(grp, x);
    var aPub, vu := ModPow(g, a, n), ModPow(v, u, n);
    CongMod(Pow(g, a), n);
    CongMod(Pow(g, x), n);
    CongPow(v, Pow(g, x), u, n);
    CongMod(Pow(v, u), n);
    PowOfPow(g, x, u);
    CongMul(aPub, Pow(g, a), vu, Pow(g, x * u), n);
    PowAdd(g, a, x * u);
    CongMod(aPub * vu, n);
    CongPow((aPub * vu) % n, Pow(g, a + x * u), b, n);
    CongMod(Pow((aPub * vu) % n, b), n);
    PowOfPow(g, a + x * u, b);
  }

  /** Both ends compute the same premaster secret, whatever the group and the exponents. */
  lemma PremasterAgreement(grp: Group, k: nat, x: nat, u: nat, a: nat, b: nat)
    ensures ClientSecret(grp, k, x, u, a, ComputeB(grp, k, ComputeV(grp, x), b))
         == ServerSecret(grp, ComputeV(grp, x), u, b, ModPow(grp.g, a, grp.n))
  {
    ClientSecretPower(grp, k, x, u, a, b);
    ServerSecretPower(grp, x, u, a, b);
    assert u * x == x * u && b * (a + u * x) == (a + x * u) * b;
    SmallCong(ClientSecret(grp, k, x, u, a, ComputeB(grp, k, ComputeV(grp, x), b)),
              ServerSecret(grp, ComputeV(grp, x), u, b, ModPow(grp.g, a, grp.n)), grp.n);
  }

  lemma SmallCong(x: nat, y: nat, n: nat)
    requires x < n && y < n && Cong(x, y, n)
    ensures x == y
  {
  }

  /** The client and the server of one exchange over the same credentials. */
  ghost predicate Peers(h: Hash, cl: Client, sv: Server, username: bytes, password: bytes, salt: bytes, a: nat, b: nat)
  {
    NewClient(cl.grp, username, a) == Ok(cl) && NewServer(h, cl.grp, username, password, salt, b) == sv
  }

  lemma ClientOutcome(h: Hash, cl: Client, sv: Server, username: bytes, password: bytes, salt: bytes, a: nat, b: nat)
    requires Peers(h, cl, sv, username, password, salt, a, b)
    ensures var u := ComputeU(h, cl.grp, cl.aPub, sv.bPub);
            var secret := Premaster(h, cl, salt, password, sv.bPub);
            && (secret.Ok? <==> sv.bPub != 0 && u != 0)
            && (secret.Ok? ==> secret.value == ServerSecret(cl.grp, sv.v, u, b, cl.aPub))
  {
    var u := ComputeU(h, cl.grp, cl.aPub, sv.bPub);
    PremasterAgreement(cl.grp, ComputeK(h, cl.grp), ComputeX(h, salt, username, password), u, a, b);
    ResidueZero(sv.bPub, cl.grp.n);
  }

  lemma ResidueZero(r: nat, n: nat)
    requires r < n
    ensures r % n == r
  {
  }

  /**
   A whole exchange, with `A` and `B` sent as exactly `len(N)` bytes. The client aborts exactly when
   `B` is zero mod `N` or the scrambler is zero, the server exactly when the scrambler is
   zero; when the client does not abort, both hold the same key, the server accepts the
   client's proof and the client accepts the server's.
   */
  lemma Agreement(h: Hash, cl: Client, sv: Server, username: bytes, password: bytes, salt: bytes, a: nat, b: nat)
    requires Peers(h, cl, sv, username, password, salt, a, b)
    ensures var aWire, bWire := FromBe(PadN(cl.grp, cl.aPub)), FromBe(PadN(cl.grp, sv.bPub));
            var u := ComputeU(h, cl.grp, cl.aPub, sv.bPub);
            var secret := Premaster(h, cl, salt, password, bWire);
            var serverKey := ServerKey(h, sv, aWire);
            && aWire == cl.aPub && bWire == sv.bPub
            && |PadN(cl.grp, cl.aPub)| == NLen(cl.grp) && |PadN(cl.grp, sv.bPub)| == NLen(cl.grp)
            && (secret.Ok? <==> sv.bPub != 0 && u != 0)
            && (serverKey.Ok? <==> u != 0)
            && (secret.Ok? ==>
                  var key := ClientKey(h, cl, secret.value);
                  var m1 := ClientM1(h, cl, salt, bWire, key);
                  var m2 := ServerVerify(h, sv, aWire, key, m1);
                  serverKey == Ok(key) && m2.Ok? && ClientAccepts(h, cl, m1, key, m2.value))
  {
    PadRoundTrip(cl.aPub, NLen(cl.grp));
    PadRoundTrip(sv.bPub, NLen(cl.grp));
    PadWidth(cl.grp, cl.aPub);
    PadWidth(cl.grp, sv.bPub);
    ClientOutcome(h, cl, sv, username, password, salt, a, b);
  }

  // ---- Every value of an exchange, from the hash and the inputs alone ----

  /** Position by position: byte `i` of a padded number is its digit of that weight, most significant first. */
  lemma {:induction false} DigitsAt(v: nat, i: nat)
    requires i < |Digits(v)|
    ensures Digits(v)[i] == v / Pow256(|Digits(v)| - 1 - i) % 256
  {
    if i == |Digits(v)| - 1 {
      assert v / 1 == v;
    } else {
      DigitsAt(v / 256, i);
      DivTwice(v, 256, Pow256(|Digits(v)| - 2 - i));
    }
  }

  lemma DivTwice(v: nat, a: nat, b: nat)
    requires a > 0 && b > 0
    ensures a * b > 0 && v / a / b == v / (a * b)
  {
    var q, r := v / a / b, v / a % b;
    Regroup(a, b, q, r, v % a);
    assert v / a == b * q + r;
    DivUnique(v, a * b, q, a * r + v % a);
  }

  lemma Regroup(a: nat, b: nat, q: nat, r: nat, t: nat)
    requires r < b && t < a
    ensures a * (b * q + r) + t == (a * b) * q + (a * r + t)
    ensures a * b > 0 && a * r + t < a * b
  {
    assert a * (b * q + r) == a * (b * q) + a * r && a * (b * q) == (a * b) * q;
    assert a * b == a * r + a * (b - r);
    MulMonotone(a, 1, b - r);
  }

  lemma MulMonotone(a: nat, b: nat, c: nat)
    requires b <= c
    ensures a * b <= a * c
  {
  }

  lemma DivUnique(v: nat, m: nat, q: nat, r: nat)
    requires m > 0 && r < m && v == m * q + r
    ensures v / m == q
  {
    ModUnique(v, m, q, r);
    assert m * (v / m) == m * q;
    MulOutOfRange(m, v / m - q);
  }

  lemma {:induction false} DigitsBound(v: nat)
    ensures v < Pow256(|Digits(v)|)
  {
    if v > 0 { DigitsBound(v / 256); }
  }

  lemma {:induction false} Pow256Grows(m: nat, n: nat)
    requires m <= n
    ensures Pow256(m) <= Pow256(n)
  {
    if m < n { Pow256Grows(m, n - 1); }
  }

  /** `PAD` is big-endian: byte `i` is the digit of weight `256^(len - 1 - i)`. */
  lemma PadAt(v: nat, width: nat, i: nat)
    requires i < |Pad(v, width)|
    ensures Pad(v, width)[i] == v / Pow256(|Pad(v, width)| - 1 - i) % 256
  {
    var p, raw := Pad(v, width), ToBe(v);
    var z := |p| - |raw|;
    if v == 0 {
      DivSmall(v, Pow256(|p| - 1 - i));
    } else if i >= z {
      DigitsAt(v, i - z);
    } else {
      DigitsBound(v);
      Pow256Grows(|raw|, |p| - 1 - i);
      DivSmall(v, Pow256(|p| - 1 - i));
    }
  }

  lemma DivSmall(v: nat, m: nat)
    requires v < m
    ensures v / m == 0
  {
    DivUnique(v, m, 0, v);
  }

  /** What each name of an exchange stands for: `x`, `k`, `u`, `A`, `B`, the key and the two proofs. */
  datatype Values = Values(x: nat, k: nat, u: nat, aPub: nat, bPub: nat, key: bytes, m1: bytes, m2: bytes)

  /** The equations of SRP-6a, in hashes of the inputs and powers of the generator. */
  ghost predicate Equations(h: Hash, n: nat, g: nat, username: bytes, password: bytes, salt: bytes, a: nat, b: nat, w: Values)
    requires n > 0
  {
    var len := |Digits(n)|;
    && w.x == FromBe(h(salt + h(username + [0x3A] + password)))
    && w.k == FromBe(h(ToBe(n) + Pad(g, len)))
    && w.u == FromBe(h(Pad(w.aPub, len) + Pad(w.bPub, len)))
    && w.aPub == Pow(g, a) % n && w.bPub == (w.k * Pow(g, w.x) + Pow(g, b)) % n
    && w.u * w.x >= 0 && b * (a + w.u * w.x) >= 0
    && w.key == h(Pad(Pow(g, b * (a + w.u * w.x)) % n, len))
    && w.m1 == h(XorBytes(h(ToBe(n)), h(ToBe(g))) + h(username) + salt + Pad(w.aPub, len) + Pad(w.bPub, len) + w.key)
    && w.m2 == h(Pad(w.aPub, len) + w.m1 + w.key)
  }

  lemma BlindedPublic(grp: Group, k: nat, x: nat, b: nat)
    ensures ComputeB(grp, k, ComputeV(grp, x), b) == (k * Pow(grp.g, x) + Pow(grp.g, b)) % grp.n
  {
    var n, v, gb := grp.n, Pow(grp.g, x), Pow(grp.g, b);
    CongMod(v, n);
    CongMul(k, k, ComputeV(grp, x), v, n);
    CongMod(k * ComputeV(grp, x), n);
    CongMod(gb, n);
    CongAdd((k * ComputeV(grp, x)) % n, k * v, ModPow(grp.g, b, n), gb, n);
  }

  lemma ResidueOf(x: nat, y: int, n: nat)
    requires n > 0 && x < n && Cong(x, y, n)
    ensures x == y % n
  {
    ResidueZero(x, n);
  }

  /**
   Exactly what an exchange over one set of credentials computes, from the hash and the inputs alone: unless it
   aborts, both ends hold the key of `g^(b(a + ux))`, the client sends the proof over name, salt, public values and
   key, the server accepts that and answers with the proof over it, and the client accepts nothing else.
   */
  lemma ExchangeValues(h: Hash, cl: Client, sv: Server, username: bytes, password: bytes, salt: bytes, a: nat, b: nat)
    returns (w: Values)
    requires Peers(h, cl, sv, username, password, salt, a, b)
    ensures Equations(h, cl.grp.n, cl.grp.g, username, password, salt, a, b, w) && w.aPub == cl.aPub && w.bPub == sv.bPub
    ensures var secret := Premaster(h, cl, salt, password, w.bPub);
            && (secret.Ok? <==> w.bPub != 0 && w.u != 0)
            && (secret.Ok? ==> ClientKey(h, cl, secret.value) == w.key && ServerKey(h, sv, w.aPub) == Ok(w.key))
    ensures ClientM1(h, cl, salt, w.bPub, w.key) == w.m1
    ensures forall m1: bytes :: ServerVerify(h, sv, w.aPub, w.key, m1) == if m1 == w.m1 then Ok(w.m2) else Err(ProofMismatch)
    ensures forall m2: bytes :: ClientAccepts(h, cl, w.m1, w.key, m2) <==> m2 == w.m2
  {
    var grp := cl.grp;
    var x, k := ComputeX(h, salt, username, password), ComputeK(h, grp);
    var u := ComputeU(h, grp, cl.aPub, sv.bPub);
    ClientSecretPower(grp, k, x, u, a, b);
    var secret := ClientSecret(grp, k, x, u, a, sv.bPub);
    ResidueOf(secret, Pow(grp.g, b * (a + u * x)), grp.n);
    BlindedPublic(grp, k, x, b);
    var key := h(PadN(grp, secret));
    var m1 := ProofM1(h, grp, username, salt, cl.aPub, sv.bPub, key);
    w := Values(x, k, u, cl.aPub, sv.bPub, key, m1, ProofM2(h, grp, cl.aPub, m1, key));
    ClientOutcome(h, cl, sv, username, password, salt, a, b);
  }

  // ---- Different passwords ----

  /** The hash tells these two inputs apart. */
  predicate Apart(h: Hash, p: bytes, q: bytes)
  {
    p != q ==> h(p) != h(q)
  }

  lemma {:induction false} FromBeInjective(s: bytes, t: bytes)
    requires |s| == |t| && FromBe(s) == FromBe(t)
    ensures s == t
  {
    if s != [] {
      var n := |s| - 1;
      FromBeInjective(s[..n], t[..n]);
      assert s == s[..n] + [s[n]] && t == t[..n] + [t[n]];
    }
  }

  /** Different passwords give different `x`, unless the hash collides on the inputs at hand. */
  lemma PasswordsApart(h: Hash, salt: bytes, username: bytes, p: bytes, q: bytes)
    requires p != q
    requires Apart(h, username + [0x3A] + p, username + [0x3A] + q)
    requires var s, t := salt + h(username + [0x3A] + p), salt + h(username + [0x3A] + q);
             Apart(h, s, t) && |h(s)| == |h(t)|
    ensures ComputeX(h, salt, username, p) != ComputeX(h, salt, username, q)
  {
    var s, t := salt + h(username + [0x3A] + p), salt + h(username + [0x3A] + q);
    SuffixesDiffer(username + [0x3A], p, q);
    SuffixesDiffer(salt, h(username + [0x3A] + p), h(username + [0x3A] + q));
    if ComputeX(h, salt, username, p) == ComputeX(h, salt, username, q) { FromBeInjective(h(s), h(t)); }
  }

  lemma SuffixesDiffer(front: bytes, p: bytes, q: bytes)
    requires p != q
    ensures front + p != front + q
  {
    assert (front + p)[|front|..] == p && (front + q)[|front|..] == q;
  }

  lemma PadsDiffer(v: nat, w: nat, width: nat)
    requires v != w
    ensures Pad(v, width) != Pad(w, width)
  {
    PadRoundTrip(v, width);
    PadRoundTrip(w, width);
  }
}
