/** The digit loop of dtoa.c for a fixed number of significant digits, with its rounding:
    half to even, carries through runs of nines, and no trailing zeros. */
module DigitGeneration {
  import opened Common
  import opened Words
  import opened BigintArithmetic
  import opened Quotient
  import opened Powers

  function Pow10(n: nat): (p: nat)
    ensures p >= 1
  {
    if n == 0 then 1 else 10 * Pow10(n - 1)
  }

  predicate AllDigits(s: seq<char>) {
    forall i | 0 <= i < |s| :: '0' <= s[i] <= '9'
  }

  function DigitOf(c: char): nat
    requires '0' <= c <= '9'
  {
    (c - '0') as nat
  }

  /** The number a string of digits denotes. */
  function DigitsValue(s: seq<char>): nat
    requires AllDigits(s)
  {
    if s == [] then 0 else 10 * DigitsValue(s[..|s| - 1]) + DigitOf(s[|s| - 1])
  }

  /** `n` is `num / den` rounded to the nearest integer, ties to even. */
  predicate IsRounded(num: int, den: int, n: int) {
    var diff := 2 * (num - n * den);
    -den <= diff <= den && (diff == den || diff == -den ==> n % 2 == 0)
  }

  lemma DigitsAppend(s: seq<char>, c: char)
    requires AllDigits(s) && '0' <= c <= '9'
    ensures AllDigits(s + [c]) && DigitsValue(s + [c]) == 10 * DigitsValue(s) + DigitOf(c)
  {
    assert (s + [c])[..|s|] == s;
  }

  /** Trailing zeros scale, trailing nines are one less than a power of ten. */
  lemma {:induction false} DigitsTail(s: seq<char>, n: nat, c: char)
    requires n <= |s| && AllDigits(s) && (c == '0' || c == '9')
    requires forall i | n <= i < |s| :: s[i] == c
    ensures AllDigits(s[..n])
    ensures c == '0' ==> DigitsValue(s) == DigitsValue(s[..n]) * Pow10(|s| - n)
    ensures c == '9' ==> DigitsValue(s) + 1 == (DigitsValue(s[..n]) + 1) * Pow10(|s| - n)
  {
    if n == |s| {
      assert s[..n] == s;
    } else {
      var t := s[..|s| - 1];
      DigitsTail(t, n, c);
      assert t[..n] == s[..n];
      DigitsAppend(t, c);
      assert t + [c] == s && |s| - n == |t| - n + 1;
      hide DigitsValue, Pow10;
      Scale10(DigitsValue(s[..n]), |t| - n);
      Scale10(DigitsValue(s[..n]) + 1, |t| - n);
    }
  }

  lemma Scale10(a: int, m: nat)
    ensures a * Pow10(m + 1) == 10 * (a * Pow10(m))
  {
    var p := Pow10(m);
    assert a * (10 * p) == 10 * (a * p);
  }

  /** The last digit gives the parity. */
  lemma {:induction false} DigitsParity(s: seq<char>)
    requires s != [] && AllDigits(s)
    ensures DigitsValue(s) % 2 == DigitOf(s[|s| - 1]) % 2
  {
    var front := DigitsValue(s[..|s| - 1]);
    assert DigitsValue(s) == 2 * (5 * front) + DigitOf(s[|s| - 1]);
    hide DigitsValue;
    EvenPart(5 * front, DigitOf(s[|s| - 1]));
  }

  lemma EvenPart(a: nat, d: nat)
    ensures (2 * a + d) % 2 == d % 2
  {
  }

  //////////////////////////////////////////////////////////////////////////////
  // Rounding in the buffer
  //////////////////////////////////////////////////////////////////////////////

  /** What the digits and the exponent say: `n` in units of the last of `ilim` digits, with the
      exponent raised by one when all digits were nines. */
  predicate Denotes(digits: seq<char>, raised: bool, ilim: nat, n: nat) {
    && 1 <= |digits| <= ilim && AllDigits(digits)
    && digits[0] != '0' && digits[|digits| - 1] != '0'
    && (if raised then digits == ['1'] && n == Pow10(ilim)
        else DigitsValue(digits) * Pow10(ilim - |digits|) == n)
  }

  /** `roundoff`: adds one to the last digit. */
  method RoundOff(buf: array<char>, ilim: nat) returns (len: nat, raised: bool)
    requires 1 <= ilim <= buf.Length && AllDigits(buf[..ilim]) && buf[0] != '0'
    modifies buf
    ensures len <= buf.Length && Denotes(buf[..len], raised, ilim, DigitsValue(old(buf[..ilim])) + 1)
  {
    hide DigitsValue, Pow10, Denotes;
    ghost var s := buf[..ilim];
    var p := ilim - 1;
    while buf[p] == '9'
      invariant p < ilim && buf[..ilim] == s
      invariant forall i | p < i < ilim :: s[i] == '9'
      decreases p
    {
      if p == 0 {
        AllNines(s);
        buf[0] := '1';
        assert buf[..1] == ['1'];
        return 1, true;
      }
      p := p - 1;
    }
    buf[p] := buf[p] + 1 as char;
    RoundedUp(s, p, buf[..p + 1]);
    return p + 1, false;
  }

  lemma AllNines(s: seq<char>)
    requires s != [] && forall i | 0 <= i < |s| :: s[i] == '9'
    ensures AllDigits(s) && Denotes(['1'], true, |s|, DigitsValue(s) + 1)
  {
    DigitsTail(s, 0, '9');
    assert s[..0] == [];
  }

  lemma RoundedUp(s: seq<char>, p: nat, t: seq<char>)
    requires p < |s| && AllDigits(s) && s[0] != '0' && s[p] != '9' && forall i | p < i < |s| :: s[i] == '9'
    requires t == s[..p] + [s[p] + 1 as char]
    ensures Denotes(t, false, |s|, DigitsValue(s) + 1)
  {
    hide DigitsValue, Pow10;
    DigitsTail(s, p + 1, '9');
    var u := s[..p + 1];
    assert t[..p] == s[..p] == u[..p] && u[p] == s[p];
    Incremented(u, t);
    assert t[0] != '0';
  }

  lemma Incremented(s: seq<char>, t: seq<char>)
    requires |s| == |t| > 0 && AllDigits(s) && s[|s| - 1] != '9'
    requires t[..|s| - 1] == s[..|s| - 1] && t[|s| - 1] == s[|s| - 1] + 1 as char
    ensures AllDigits(t) && DigitsValue(t) == DigitsValue(s) + 1 && t[|t| - 1] != '0'
  {
    assert forall i | 0 <= i < |s| - 1 :: t[i] == t[..|s| - 1][i] == s[..|s| - 1][i] == s[i];
  }

  /** `trimzeros`: drops trailing zeros. */
  method TrimZeros(buf: array<char>, ilim: nat) returns (len: nat)
    requires 1 <= ilim <= buf.Length && AllDigits(buf[..ilim]) && buf[0] != '0'
    ensures len <= buf.Length && Denotes(buf[..len], false, ilim, DigitsValue(buf[..ilim]))
  {
    ghost var s := buf[..ilim];
    var p := ilim - 1;
    while buf[p] == '0'
      invariant p < ilim
      invariant forall i | p < i < ilim :: s[i] == '0'
      decreases p
    {
      p := p - 1;
    }
    len := p + 1;
    DigitsTail(s, len, '0');
    assert s[..len] == buf[..len];
  }

  //////////////////////////////////////////////////////////////////////////////
  // The digit loop
  //////////////////////////////////////////////////////////////////////////////

  /** `b->x[0] == 0 && b->wds <= 1` is the test for zero. */
  method IsZero(b: Bigint) returns (z: bool)
    requires b.Valid()
    ensures z <==> b.Value() == 0
  {
    z := b.x[0] == 0 && b.wds <= 1;
    if b.wds > 0 {
      TopOfValue(b.x[..b.wds]);
    }
  }

  /** After some digits: they are the integer part of the scaled quotient, `r` is what is left. */
  predicate Generated(v: nat, w: nat, digits: seq<char>, r: nat) {
    && digits != [] && AllDigits(digits) && digits[0] != '0'
    && v * Pow10(|digits| - 1) == DigitsValue(digits) * w + r && r < w
    && (r == 0 ==> digits[|digits| - 1] != '0')
  }

  lemma FirstDigit(v: nat, w: nat, q: nat, r: nat, c: char)
    requires w <= v && q < 10 && IsDivMod(v, w, q, r) && c == '0' + q as char
    ensures Generated(v, w, [c], r)
  {
    assert [c][..0] == [];
    assert q != 0;
    assert DigitsValue([c]) == q;
    assert Pow10(0) == 1;
  }

  lemma NextDigit(v: nat, w: nat, digits: seq<char>, r: nat, q: nat, r': nat, c: char)
    requires Generated(v, w, digits, r) && r > 0 && q < 10 && IsDivMod(10 * r, w, q, r') && c == '0' + q as char
    ensures Generated(v, w, digits + [c], r')
  {
    DigitsAppend(digits, c);
    hide DigitsValue;
    Scale10(v, |digits| - 1);
    assert 1 + (|digits| - 1) == |digits + [c]| - 1;
    DigitProducts(DigitsValue(digits), w, r, q, r');
  }

  lemma DigitProducts(d: nat, w: nat, r: nat, q: nat, r': nat)
    requires 10 * r == q * w + r'
    ensures 10 * (d * w + r) == (10 * d + q) * w + r'
  {
    assert (10 * d + q) * w == 10 * (d * w) + q * w;
  }

  /** An exact result needs no rounding, however many digits were asked for. */
  lemma ExactDenotes(v: nat, w: nat, digits: seq<char>, ilim: nat)
    requires Generated(v, w, digits, 0) && |digits| <= ilim
    ensures var n := DigitsValue(digits) * Pow10(ilim - |digits|);
      IsRounded(v * Pow10(ilim - 1), w, n) && Denotes(digits, false, ilim, n)
  {
    Pow10Add(|digits| - 1, ilim - |digits|);
    hide DigitsValue, Pow10;
    ExactProducts(v, Pow10(|digits| - 1), Pow10(ilim - |digits|), DigitsValue(digits), w, Pow10(ilim - 1));
  }

  lemma {:induction false} Pow10Add(m: nat, n: nat)
    ensures Pow10(m + n) == Pow10(m) * Pow10(n)
  {
    if m > 0 {
      Pow10Add(m - 1, n);
      assert 10 * (Pow10(m - 1) * Pow10(n)) == Pow10(m) * Pow10(n);
    }
  }

  lemma ExactProducts(v: nat, p: nat, q: nat, d: nat, w: nat, pq: nat)
    requires v * p == d * w && pq == p * q && w > 0
    ensures IsRounded(v * pq, w, d * q)
  {
    assert v * (p * q) == v * p * q;
    assert d * w * q == d * q * w;
  }

  /** The final comparison rounds half to even. */
  lemma FinalRounding(v: nat, w: nat, digits: seq<char>, r: nat, up: bool)
    requires Generated(v, w, digits, r)
    requires up <==> 2 * r > w || (2 * r == w && DigitOf(digits[|digits| - 1]) % 2 == 1)
    ensures IsRounded(v * Pow10(|digits| - 1), w, DigitsValue(digits) + if up then 1 else 0)
  {
    DigitsParity(digits);
    hide DigitsValue, Pow10, IsRounded, AllDigits;
    RoundingProducts(v * Pow10(|digits| - 1), w, DigitsValue(digits), r, up);
  }

  lemma RoundingProducts(num: nat, w: nat, d: nat, r: nat, up: bool)
    requires num == d * w + r && r < w
    requires up <==> 2 * r > w || (2 * r == w && d % 2 == 1)
    ensures IsRounded(num, w, d + if up then 1 else 0)
  {
    assert (d + 1) * w == d * w + w;
  }

  /** The loop: digits until the remainder is zero or `ilim` of them are there. */
  method GenerateDigits(b0: Bigint, S: Bigint, ilim: nat, buf: array<char>) returns (b: Bigint, i: nat)
    requires b0.Valid() && S.Valid() && b0 != S && b0.x != S.x && Normalised(S.x[..S.wds])
    requires S.Value() <= b0.Value() < 10 * S.Value() && 1 <= ilim <= buf.Length
    modifies b0, b0.x, buf
    ensures b.Valid() && b != S && b.x != S.x && (b == b0 || (fresh(b) && fresh(b.x)))
    ensures S.Valid() && S.Value() == old(S.Value()) && 1 <= i <= ilim
    ensures Generated(old(b0.Value()), S.Value(), buf[..i], b.Value())
    ensures b.Value() == 0 || i == ilim
  {
    hide Val, Normalised, Generated, IsQuotient;
    b := b0;
    ghost var v, w := b.Value(), S.Value();
    var q := Quorem(b, S);
    buf[0] := '0' + q as char;
    i := 1;
    FirstDigit(v, w, q, b.Value(), buf[0]);
    assert buf[..1] == [buf[0]];
    while true
      invariant b.Valid() && b != S && b.x != S.x && (b == b0 || (fresh(b) && fresh(b.x)))
      invariant S.Valid() && S.Value() == w && Normalised(S.x[..S.wds])
      invariant 1 <= i <= ilim && Generated(v, w, buf[..i], b.Value())
      decreases ilim - i
    {
      var z := IsZero(b);
      if z || i >= ilim {
        break;
      }
      b := OneMoreDigit(b, S, i, buf, v);
      i := i + 1;
    }
  }

  /** `b * 10 / S` is the next digit. */
  method OneMoreDigit(b0: Bigint, S: Bigint, i: nat, buf: array<char>, ghost v: nat) returns (b: Bigint)
    requires b0.Valid() && S.Valid() && b0 != S && b0.x != S.x && Normalised(S.x[..S.wds])
    requires 0 < i < buf.Length && b0.Value() > 0 && Generated(v, S.Value(), buf[..i], b0.Value())
    modifies b0, b0.x, buf
    ensures b.Valid() && b != S && b.x != S.x && (b == b0 || (fresh(b) && fresh(b.x)))
    ensures S.Valid() && S.Value() == old(S.Value()) && Normalised(S.x[..S.wds])
    ensures Generated(v, S.Value(), buf[..i + 1], b.Value())
  {
    assert b0.wds > 0 && b0.Value() < S.Value();
    hide Val, Normalised, Generated, IsQuotient;
    ghost var r, w, digits := b0.Value(), S.Value(), buf[..i];
    b := MultAdd(b0, 10, 0);
    assert S.Valid() && S.Value() == w && b.Value() == 10 * r;
    var q := Quorem(b, S);
    buf[i] := '0' + q as char;
    NextDigit(v, w, digits, r, q, b.Value(), buf[i]);
    assert buf[..i + 1] == digits + [buf[i]];
  }

  /** `b / S` in at most `ilim` significant digits, rounded half to even. */
  method ModeTwo(b0: Bigint, S: Bigint, ilim: nat, buf: array<char>, k: int)
    returns (len: nat, k': int, ghost n: nat)
    requires b0.Valid() && S.Valid() && b0 != S && b0.x != S.x && Normalised(S.x[..S.wds])
    requires S.Value() <= b0.Value() < 10 * S.Value() && 1 <= ilim <= buf.Length
    modifies b0, b0.x, buf
    ensures IsRounded(old(b0.Value()) * Pow10(ilim - 1), S.Value(), n)
    ensures len <= buf.Length && (k' == k || k' == k + 1) && Denotes(buf[..len], k' == k + 1, ilim, n)
  {
    hide Val, Normalised, Generated, Denotes, IsRounded;
    ghost var v := b0.Value();
    var b, i := GenerateDigits(b0, S, ilim, buf);
    k' := k;
    ghost var w, r, digits := S.Value(), b.Value(), buf[..i];
    GeneratedShape(v, w, digits, r);
    var z := IsZero(b);
    if z {
      n := DigitsValue(digits) * Pow10(ilim - i);
      ExactDenotes(v, w, digits, ilim);
      return i, k, n;
    }
    var up := RoundsUp(b, S, buf[ilim - 1]);
    FinalRounding(v, w, digits, r, up);
    if up {
      n := DigitsValue(digits) + 1;
      var raised;
      len, raised := RoundOff(buf, ilim);
      if raised {
        k' := k + 1;
      }
    } else {
      n := DigitsValue(digits);
      len := TrimZeros(buf, ilim);
    }
  }

  lemma GeneratedShape(v: nat, w: nat, digits: seq<char>, r: nat)
    requires Generated(v, w, digits, r)
    ensures digits != [] && AllDigits(digits) && digits[0] != '0'
  {
  }

  /** Doubles the remainder and compares it with the divisor; a tie goes by the last digit. */
  method RoundsUp(b: Bigint, S: Bigint, dig: char) returns (up: bool)
    requires b.Valid() && S.Valid() && b.Value() > 0 && '0' <= dig <= '9'
    ensures up <==> 2 * b.Value() > S.Value() || (2 * b.Value() == S.Value() && DigitOf(dig) % 2 == 1)
  {
    assert b.wds > 0 && Pow2(1) == 2;
    hide Val;
    var b2 := LShift(b, 1);
    var j := Cmp(b2.value, S);
    up := j.value > 0 || (j.value == 0 && dig as int % 2 == 1);
  }

  //////////////////////////////////////////////////////////////////////////////
  // From the binary fraction to the digits
  //////////////////////////////////////////////////////////////////////////////

  /** `v / w` is `num / den`, reduced by `c` and extended by `d`. */
  predicate SameRatio(v: nat, w: nat, num: nat, den: nat, c: nat, d: nat) {
    c > 0 && d > 0 && v * c == num * d && w * c == den * d
  }

  lemma ProductLess(a: nat, b: nat, c: nat)
    requires c > 0
    ensures a * c < b * c <==> a < b
  {
    SignedLess(b, a, c);
  }

  /** Bounds by a factor carry over between equal fractions. */
  lemma RatioBounds(v: nat, w: nat, num: nat, den: nat, c: nat, d: nat, m: nat, n: nat)
    requires SameRatio(v, w, num, den, c, d)
    ensures m * v < n * w <==> m * num < n * den
  {
    ProductLess(m * v, n * w, c);
    ProductLess(m * num, n * den, d);
    assert m * v * c == m * (v * c) && m * num * d == m * (num * d);
    assert n * w * c == n * (w * c) && n * den * d == n * (den * d);
  }

  lemma ScaleDiff(num: int, den: int, n: int, c: nat)
    ensures 2 * (num * c - n * (den * c)) == (2 * (num - n * den)) * c
  {
  }

  /** Rounding depends only on the fraction. */
  lemma RoundedScale(num: int, den: nat, n: int, c: nat)
    requires c > 0
    ensures IsRounded(num * c, den * c, n) <==> IsRounded(num, den, n)
  {
    var x := 2 * (num - n * den);
    ScaleDiff(num, den, n, c);
    SignedLess(x, den, c);
    SignedLess(-x, den, c);
  }

  lemma SignedLess(x: int, y: int, c: nat)
    requires c > 0
    ensures (x * c <= y * c <==> x <= y) && (x * c == y * c <==> x == y) && (-x) * c == -(x * c)
  {
    if x < y {
      StrictProduct(x, y, c);
    } else if x > y {
      StrictProduct(y, x, c);
    }
  }

  lemma StrictProduct(x: int, y: int, c: nat)
    requires x < y && c > 0
    ensures x * c < y * c
  {
    MulMonotone(1, y - x, c);
    assert (y - x) * c == y * c - x * c;
  }

  lemma RoundedRatio(v: nat, w: nat, num: nat, den: nat, c: nat, d: nat, p: nat, n: int)
    requires SameRatio(v, w, num, den, c, d) && IsRounded(v * p, w, n)
    ensures IsRounded(num * p, den, n)
  {
    hide IsRounded;
    RoundedScale(v * p, w, n, c);
    RoundedScale(num * p, den, n, d);
    assert v * p * c == (v * c) * p && num * p * d == (num * d) * p;
  }

  /** A shift that is left out when it is by nothing. */
  method Shifted(b: Bigint, n: nat) returns (r: Bigint)
    requires b.Valid() && b.Value() > 0
    ensures r.Valid() && r.Value() == b.Value() * Pow2(n) && r.wds > 0 && r.x[r.wds - 1] != 0
    ensures (r == b && n == 0) || (fresh(r) && fresh(r.x))
  {
    TopOfNumber(b);
    hide Val;
    r := b;
    if n > 0 {
      var shifted := LShift(b, n);
      r := shifted.value;
    }
  }

  /** The divisor shifted so that its top word has four leading zero bits. */
  method ShiftDivisor(S: Bigint, s2: nat) returns (S': Bigint, i: nat)
    requires S.Valid() && S.Value() > 0
    ensures S'.Valid() && S'.Value() == S.Value() * Pow2(s2 + i) && Normalised(S'.x[..S'.wds])
    ensures S' == S || (fresh(S') && fresh(S'.x))
  {
    hide Val, Normalised, Pow2;
    i := DShift(S, s2);
    S' := Shifted(S, s2 + i);
  }

  /** The common factor of two shifts comes off, and the divisor is brought to its place. */
  method ShiftBoth(b: Bigint, S: Bigint, b2: nat, s2: nat) returns (b': Bigint, S': Bigint, ghost c: nat, ghost d: nat)
    requires b.Valid() && S.Valid() && b.Value() > 0 && S.Value() > 0 && b != S && b.x != S.x
    ensures b'.Valid() && S'.Valid() && b' != S' && b'.x != S'.x && Normalised(S'.x[..S'.wds])
    ensures (b' == b || (fresh(b') && fresh(b'.x))) && (S' == S || (fresh(S') && fresh(S'.x)))
    ensures SameRatio(b'.Value(), S'.Value(), b.Value() * Pow2(b2), S.Value() * Pow2(s2), c, d)
  {
    hide Val, Normalised, Pow2, SameRatio;
    var common := if b2 < s2 then b2 else s2;
    var bShift, sShift := b2 - common, s2 - common;
    var i;
    S', i := ShiftDivisor(S, sShift);
    b' := Shifted(b, bShift + i);
    c, d := Pow2(common), Pow2(i);
    ShiftRatio(b.Value(), S.Value(), bShift, sShift, common, i);
  }

  lemma TopOfNumber(b: Bigint)
    requires b.Valid() && b.Value() > 0
    ensures b.wds > 0 && b.x[b.wds - 1] != 0
  {
    if b.wds > 0 {
      TopOfValue(b.x[..b.wds]);
    }
  }

  lemma ShiftRatio(v: nat, w: nat, m: nat, n: nat, common: nat, i: nat)
    ensures SameRatio(v * Pow2(m + i), w * Pow2(n + i), v * Pow2(m + common), w * Pow2(n + common),
                      Pow2(common), Pow2(i))
  {
    Pow2Add(m, i);
    Pow2Add(n, i);
    Pow2Add(m, common);
    Pow2Add(n, common);
    hide Pow2;
    Reorder(v, Pow2(m), Pow2(i), Pow2(common));
    Reorder(w, Pow2(n), Pow2(i), Pow2(common));
  }

  lemma Reorder(v: int, p: int, q: int, r: int)
    ensures v * (p * q) * r == v * (p * r) * q
  {
    assert (p * q) * r == (p * r) * q;
    assert v * (p * q) * r == v * ((p * q) * r);
    assert v * (p * r) * q == v * ((p * r) * q);
  }

  /** The numerator and the denominator with their powers of five. */
  method ScalePowers(b0: Bigint, b5: nat, s5: nat, cache: PowerCache) returns (b: Bigint, S: Bigint)
    requires b0.Valid() && cache.Valid() && cache.Apart(b0)
    modifies b0, b0.x, cache
    ensures b.Valid() && S.Valid() && b != S && b.x != S.x && fresh(S) && fresh(S.x)
    ensures b == b0 || (fresh(b) && fresh(b.x))
    ensures b.Value() == old(b0.Value()) * Pow5(b5) && S.Value() == Pow5(s5)
  {
    hide Val, IsPower, Pow5;
    PowerZero();
    b := b0;
    if b5 > 0 {
      b := Pow5Mult(b, b5, cache);
    }
    S := FromWord(1);
    if s5 > 0 {
      S := Pow5Mult(S, s5, cache);
    }
  }

  /** When the estimate of `k` was one too large, the numerator is below the denominator. */
  method FixEstimate(b0: Bigint, S: Bigint, k0: int, kCheck: bool) returns (b: Bigint, k: int)
    requires b0.Valid() && S.Valid() && b0 != S && b0.x != S.x && b0.Value() > 0 && S.Value() > 0
    requires b0.Value() < 10 * S.Value() && S.Value() <= (if kCheck then 10 * b0.Value() else b0.Value())
    modifies b0, b0.x
    ensures b.Valid() && b != S && b.x != S.x && (b == b0 || (fresh(b) && fresh(b.x)))
    ensures S.Valid() && S.Value() == old(S.Value()) && S.x[..S.wds] == old(S.x[..S.wds])
    ensures k == (if old(b0.Value()) < S.Value() then k0 - 1 else k0)
    ensures b.Value() == (if old(b0.Value()) < S.Value() then 10 * old(b0.Value()) else old(b0.Value()))
    ensures S.Value() <= b.Value() < 10 * S.Value()
  {
    TopOfNumber(b0);
    hide Val;
    b, k := b0, k0;
    if kCheck {
      var j := Cmp(b, S);
      if j.value < 0 {
        k := k - 1;
        b := MultAdd(b, 10, 0);
      }
    }
  }

  /** The fraction whose digits are made: ten times larger when the estimate of `k` was one too large. */
  function Numerator(num: nat, den: nat): nat {
    if num < den then 10 * num else num
  }

  /** `b0 * 5^b5 * 2^b2` over `5^s5 * 2^s2` in at most `ilim` significant digits, rounded half to
      even, with the decimal exponent that belongs to them. */
  method FixedDigits(b0: Bigint, b2: nat, b5: nat, s2: nat, s5: nat, k0: int, kCheck: bool, ilim: nat,
                     cache: PowerCache, buf: array<char>)
    returns (len: nat, k: int, ghost n: nat)
    requires b0.Valid() && b0.Value() > 0 && cache.Valid() && cache.Apart(b0) && 1 <= ilim <= buf.Length
    requires var num, den := b0.Value() * Pow5(b5) * Pow2(b2), Pow5(s5) * Pow2(s2);
      num < 10 * den && den <= if kCheck then 10 * num else num
    modifies b0, b0.x, cache, buf
    ensures var num, den := old(b0.Value()) * Pow5(b5) * Pow2(b2), Pow5(s5) * Pow2(s2);
      var first := if num < den then k0 - 1 else k0;
      && IsRounded(Numerator(num, den) * Pow10(ilim - 1), den, n)
      && len <= buf.Length && (k == first || k == first + 1) && Denotes(buf[..len], k == first + 1, ilim, n)
  {
    hide Val, Normalised, Denotes, IsRounded, Pow2, Pow5, Pow10, SameRatio;
    ghost var num, den := b0.Value() * Pow5(b5) * Pow2(b2), Pow5(s5) * Pow2(s2);
    var b, S := ScalePowers(b0, b5, s5, cache);
    ProductPositive(old(b0.Value()), Pow5(b5));
    ghost var c, d;
    b, S, c, d := ShiftBoth(b, S, b2, s2);
    ghost var v, w := b.Value(), S.Value();
    RatioBounds(v, w, num, den, c, d, 1, 10);
    RatioBounds(v, w, num, den, c, d, 10, 1);
    RatioBounds(v, w, num, den, c, d, 1, 1);
    assert w > 0 && v > 0 by {
      RatioPositive(v, w, num, den, c, d);
    }
    var k1;
    b, k1 := FixEstimate(b, S, k0, kCheck);
    ghost var v' := b.Value();
    len, k, n := ModeTwo(b, S, ilim, buf, k1);
    assert SameRatio(v', w, Numerator(num, den), den, c, d) by {
      LoweredRatio(v, w, num, den, c, d, v');
    }
    RoundedRatio(v', w, Numerator(num, den), den, c, d, Pow10(ilim - 1), n);
  }

  lemma ProductPositive(a: nat, b: nat)
    requires a > 0 && b > 0
    ensures a * b > 0
  {
  }

  lemma RatioPositive(v: nat, w: nat, num: nat, den: nat, c: nat, d: nat)
    requires SameRatio(v, w, num, den, c, d) && num < 10 * den && den <= 10 * num
    ensures v > 0 && w > 0
  {
    RatioBounds(v, w, num, den, c, d, 1, 10);
    assert num > 0;
    ProductPositive(num, d);
  }

  lemma LoweredRatio(v: nat, w: nat, num: nat, den: nat, c: nat, d: nat, v': nat)
    requires SameRatio(v, w, num, den, c, d) && v' == if v < w then 10 * v else v
    ensures SameRatio(v', w, Numerator(num, den), den, c, d)
  {
    RatioBounds(v, w, num, den, c, d, 1, 1);
    assert 10 * v * c == 10 * (v * c) && 10 * num * d == 10 * (num * d);
  }
}
