/** The key exchange of lua-crypt.c over the largest 64-bit prime: modular multiplication and
    exponentiation in wrapping 64-bit arithmetic, and the agreement of both sides. */
module DiffieHellman {
  import opened Common

  const P: nat := 0xffff_ffff_ffff_ffc5
  const TWO_64: nat := 0x1_0000_0000_0000_0000
  const G: nat := 5

  /** Arithmetic in `uint64_t`. */
  function Wrap(i: int): nat {
    i % TWO_64
  }

  //////////////////////////////////////////////////////////////////////////////
  // Multiplication
  //////////////////////////////////////////////////////////////////////////////

  lemma ModIs(x: int, k: int, m: nat)
    requires x == P * k + m && m < P
    ensures x % P == m
  {
  }

  lemma ModOf(x: int) returns (k: int)
    ensures x == P * k + x % P
  {
    k := x / P;
  }

  /** The product of the original factors, up to a multiple of `P`. */
  ghost predicate Reduces(m: int, a: int, b: int, k: int, product: int) {
    m + a * b + P * k == product
  }

  /** One step of the loop: a bit of `b` goes into `m`, `a` is doubled, each less a multiple of `P`. */
  lemma MulStep(m: int, a: int, b: nat, k: int, product: int, c: int, d: int)
    requires Reduces(m, a, b, k, product)
    ensures Reduces(m + a * (b % 2) - P * c, 2 * a - P * d, b / 2, k + c + d * (b / 2), product)
  {
    var h, l := b / 2, b % 2;
    assert a * b == a * (2 * h + l) == 2 * (a * h) + a * l;
    assert (2 * a - P * d) * h == 2 * (a * h) - P * (d * h);
  }

  /** The branches of the loop: at most one `P` comes off each value. */
  lemma MulBranches(m: int, a: int, b: nat, k: int, product: int, m': int, a': int) returns (k': int)
    requires Reduces(m, a, b, k, product)
    requires m' == (if b % 2 == 1 then m + a else m) || (b % 2 == 1 && m' == m + a - P)
    requires a' == 2 * a || a' == 2 * a - P
    ensures Reduces(m', a', b / 2, k', product)
  {
    hide Reduces;
    var c := if m' == (if b % 2 == 1 then m + a else m) then 0 else 1;
    var d := if a' == 2 * a then 0 else 1;
    MulStep(m, a, b, k, product, c, d);
    k' := k + c + d * (b / 2);
    assert a * (b % 2) == if b % 2 == 1 then a else 0;
  }

  /** `m + a` modulo `P`, without leaving 64 bits. */
  method AddModP(m: nat, a: nat) returns (r: nat)
    requires m < P && a <= P
    ensures r < P && (r == m + a || r == m + a - P)
  {
    var t := Wrap(P - a);
    if m >= t {
      r := Wrap(m - t);
    } else {
      r := Wrap(m + a);
    }
  }

  method DoubleModP(a: nat) returns (r: nat)
    requires a <= P
    ensures r <= P && (r == 2 * a || r == 2 * a - P)
  {
    if a >= Wrap(P - a) {
      r := Wrap(Wrap(a * 2) - P);
    } else {
      r := Wrap(a * 2);
    }
  }

  method MulModP(a0: nat, b0: nat) returns (m: nat)
    requires a0 <= P && b0 < TWO_64
    ensures m == a0 * b0 % P
  {
    hide Wrap;
    m := 0;
    var a: nat, b: nat := a0, b0;
    ghost var k, product := 0, a0 * b0;
    assert Reduces(0, a, b, 0, product);
    hide Reduces;
    while b != 0
      invariant a <= P && m < P && Reduces(m, a, b, k, product)
      decreases b
    {
      ghost var m1, a1 := m, a;
      if b % 2 == 1 {
        m := AddModP(m, a);
      }
      a := DoubleModP(a);
      k := MulBranches(m1, a1, b, k, product, m, a);
      b := b / 2;
    }
    MulDone(m, a, k, product);
  }

  lemma MulDone(m: nat, a: int, k: int, product: int)
    requires Reduces(m, a, 0, k, product) && m < P
    ensures m == product % P
  {
    ModIs(product, k, m);
  }

  //////////////////////////////////////////////////////////////////////////////
  // Powers
  //////////////////////////////////////////////////////////////////////////////

  function Pow(a: nat, n: nat): nat {
    if n == 0 then 1 else a * Pow(a, n - 1)
  }

  lemma {:induction false} PowAdd(a: nat, m: nat, n: nat)
    ensures Pow(a, m + n) == Pow(a, m) * Pow(a, n)
  {
    if m > 0 {
      PowAdd(a, m - 1, n);
      Associate(a, Pow(a, m - 1), Pow(a, n));
    }
  }

  lemma Associate(a: int, b: int, c: int)
    ensures a * (b * c) == a * b * c
  {
  }

  lemma {:induction false} PowMul(a: nat, m: nat, n: nat)
    ensures m * n >= 0 && Pow(Pow(a, m), n) == Pow(a, m * n)
  {
    if n > 0 {
      PowMul(a, m, n - 1);
      assert m * n == m + m * (n - 1);
      PowAdd(a, m, m * (n - 1));
    } else {
      assert m * n == 0;
    }
  }

  /** A factor can be reduced first. */
  lemma MulMod(x: nat, y: nat)
    ensures (x % P) * y % P == x * y % P
  {
    var k := ModOf(x);
    var j := ModOf((x % P) * y);
    var r := x % P;
    assert x * y == P * (k * y) + r * y by {
      assert x * y == (P * k + r) * y;
      assert (P * k) * y == P * (k * y);
    }
    ModIs(x * y, k * y + j, r * y % P);
  }

  lemma MulModBoth(x: nat, y: nat)
    ensures (x % P) * (y % P) % P == x * y % P
  {
    MulMod(x, y % P);
    assert x * (y % P) == (y % P) * x;
    MulMod(y, x);
    assert y * x == x * y;
  }

  lemma {:induction false} PowMod(a: nat, n: nat)
    ensures Pow(a % P, n) % P == Pow(a, n) % P
  {
    if n > 0 {
      PowMod(a, n - 1);
      MulModBoth(a, Pow(a % P, n - 1));
      MulModBoth(a, Pow(a, n - 1));
      MulMod(a, Pow(a % P, n - 1));
    }
  }

  /** `pow_mod_p`; it does not reduce its base, so base `P` with exponent 1 gives `P` itself. */
  method PowModP(a: nat, b: nat) returns (r: nat)
    requires a <= P && 1 <= b < TWO_64
    ensures r == if a == P && b == 1 then P else Pow(a, b) % P
    decreases b
  {
    hide Pow;
    if b == 1 {
      PowOne(a);
      return a;
    }
    var t := PowModP(a, b / 2);
    ghost var t0 := t;
    Squared(a, b / 2, t);
    t := MulModP(t, t);
    if b % 2 != 0 {
      OneMore(a, b, t);
      t := MulModP(t, a);
    }
    return t;
  }

  lemma PowOne(a: nat)
    ensures Pow(a, 1) == a && (a < P ==> a % P == a)
  {
    assert Pow(a, 0) == 1;
  }

  lemma Squared(a: nat, h: nat, t: nat)
    requires h >= 1 && t == if a == P && h == 1 then P else Pow(a, h) % P
    ensures t <= P && t * t % P == Pow(a, 2 * h) % P
  {
    PowAdd(a, h, h);
    PowOne(a);
    hide Pow;
    if a == P && h == 1 {
      assert t * t == Pow(a, h) * Pow(a, h);
    } else {
      MulModBoth(Pow(a, h), Pow(a, h));
    }
  }

  lemma OneMore(a: nat, b: nat, t: nat)
    requires b % 2 == 1 && t == Pow(a, 2 * (b / 2)) % P
    ensures t * a % P == Pow(a, b) % P
  {
    var n := 2 * (b / 2);
    assert b == n + 1 && Pow(a, n + 1) == a * Pow(a, n);
    hide Pow;
    MulMod(Pow(a, n), a);
    assert Pow(a, n) * a == a * Pow(a, n);
  }

  /** `powmodp`: right for every 64-bit base and exponent but base `P` with exponent 1. */
  method PowMod64(a: nat, b: nat) returns (r: nat)
    requires a < TWO_64 && 1 <= b < TWO_64
    ensures r == Pow(a, b) % P <==> !(a == P && b == 1)
    ensures r == PowerOf(a, b)
  {
    hide Pow;
    PowMod(a, b);
    BaseP();
    if a > P {
      r := PowModP(a % P, b);
    } else {
      r := PowModP(a, b);
    }
  }

  function PowerOf(a: nat, b: nat): nat {
    if a == P && b == 1 then P else Pow(a, b) % P
  }

  /** Base `P` with exponent 1 does fail. */
  lemma BaseP()
    ensures Pow(P, 1) % P == 0 && PowerOf(P, 1) != Pow(P, 1) % P
  {
    PowOne(P);
  }

  //////////////////////////////////////////////////////////////////////////////
  // The exchange
  //////////////////////////////////////////////////////////////////////////////

  const INVERSE_OF_5: nat := 7378697629483820623

  /** 5 is invertible modulo `P`, so multiplying by it does not give 0. */
  lemma Cancel5(x: nat)
    requires G * x % P == 0
    ensures x % P == 0
  {
    assert 5 * INVERSE_OF_5 == 2 * P + 1;
    var k := ModOf(5 * x);
    assert x == P * (INVERSE_OF_5 * k - 2 * x);
    ModIs(x, INVERSE_OF_5 * k - 2 * x, 0);
  }

  /** A public value is never 0. */
  lemma {:induction false} PublicNotZero(n: nat)
    ensures Pow(G, n) % P != 0
  {
    if n > 0 {
      PublicNotZero(n - 1);
      if G * Pow(G, n - 1) % P == 0 {
        Cancel5(Pow(G, n - 1));
      }
    }
  }

  /** What `ldhexchange` answers: the public value of a private key. */
  function Exchange(x: seq<Byte>): Option<seq<Byte>> {
    if |x| != 8 || FromLittleEndian(x) == 0 then None else Some(LittleEndian(Pow(G, FromLittleEndian(x)) % P, 8))
  }

  /** What `ldhsecret` answers. */
  function Secret(x: seq<Byte>, y: seq<Byte>): Option<seq<Byte>> {
    if |x| != 8 || |y| != 8 || FromLittleEndian(x) == 0 || FromLittleEndian(y) == 0 then None
    else Some(LittleEndian(PowerOf(FromLittleEndian(x), FromLittleEndian(y)), 8))
  }

  method DhExchange(x: seq<Byte>) returns (r: Option<seq<Byte>>)
    ensures r == Exchange(x)
  {
    hide Pow, LittleEndian, FromLittleEndian, Power256;
    if |x| != 8 {
      return None;
    }
    FromLittleEndianBound(x);
    Powers256();
    var x64 := FromLittleEndian(x);
    if x64 == 0 {
      return None;
    }
    var v := PowMod64(G, x64);
    return Some(LittleEndian(v, 8));
  }

  method DhSecret(x: seq<Byte>, y: seq<Byte>) returns (r: Option<seq<Byte>>)
    ensures r == Secret(x, y)
  {
    hide Pow, LittleEndian, FromLittleEndian, Power256, PowerOf;
    if |x| != 8 || |y| != 8 {
      return None;
    }
    FromLittleEndianBound(x);
    FromLittleEndianBound(y);
    Powers256();
    var xx, yy := FromLittleEndian(x), FromLittleEndian(y);
    if xx == 0 || yy == 0 {
      return None;
    }
    var v := PowMod64(xx, yy);
    return Some(LittleEndian(v, 8));
  }

  /** A public value read back. */
  lemma PublicValue(x: seq<Byte>)
    requires |x| == 8 && FromLittleEndian(x) != 0
    ensures Exchange(x).Some? && |Exchange(x).value| == 8
    ensures FromLittleEndian(Exchange(x).value) == Pow(G, FromLittleEndian(x)) % P != 0
  {
    var v := Pow(G, FromLittleEndian(x)) % P;
    hide Pow, LittleEndian, FromLittleEndian, Power256;
    PublicNotZero(FromLittleEndian(x));
    Powers256();
    LittleEndianInverse(v, 8);
  }

  lemma SecretValue(g: nat, a: nat, b: nat)
    requires b > 0
    ensures a * b >= 0 && PowerOf(Pow(g, a) % P, b) == Pow(g, a * b) % P
  {
    hide Pow;
    PowMod(Pow(g, a), b);
    PowMul(g, a, b);
  }

  /** Both sides derive the same secret, for every pair of private keys that are not 0. */
  lemma SameSecret(a: seq<Byte>, b: seq<Byte>)
    requires |a| == |b| == 8 && FromLittleEndian(a) != 0 && FromLittleEndian(b) != 0
    ensures Exchange(a).Some? && Exchange(b).Some?
    ensures Secret(Exchange(b).value, a) == Secret(Exchange(a).value, b)
    ensures Secret(Exchange(b).value, a) == Some(LittleEndian(Pow(G, FromLittleEndian(a) * FromLittleEndian(b)) % P, 8))
  {
    hide Pow, LittleEndian, FromLittleEndian, Power256;
    PublicValue(a);
    PublicValue(b);
    var m, n := FromLittleEndian(a), FromLittleEndian(b);
    SecretValue(G, m, n);
    SecretValue(G, n, m);
    assert m * n == n * m;
    hide PowerOf;
  }
}
