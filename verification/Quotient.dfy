/** One digit of a quotient: the normalising shift of the divisor and the division step of
    dtoa.c that estimates the digit from the top words. */
module Quotient {
  import opened Common
  import opened Words
  import opened BigintArithmetic

  //////////////////////////////////////////////////////////////////////////////
  // Normalising the divisor
  //////////////////////////////////////////////////////////////////////////////

  /** `hi0bits`: the number of leading zero bits of a word. */
  method Hi0Bits(w: Word) returns (k: nat)
    ensures w == 0 ==> k == 32
    ensures w != 0 ==> k < 32 && 0x8000_0000 <= w * Pow2(k) < B
  {
    SmallPowers();
    hide Pow2;
    var x := w;
    k := 0;
    if x < 0x1_0000 {
      Scale(w, k, x, 16);
      k := 16;
      x := x * 0x1_0000;
    }
    hide Scaled;
    if x < 0x100_0000 {
      Scale(w, k, x, 8);
      k := k + 8;
      x := x * 0x100;
    }
    if x < 0x1000_0000 {
      Scale(w, k, x, 4);
      k := k + 4;
      x := x * 0x10;
    }
    if x < 0x4000_0000 {
      Scale(w, k, x, 2);
      k := k + 2;
      x := x * 4;
    }
    if x < 0x8000_0000 {
      Scale(w, k, x, 1);
      Unscale(w, k, x);
      k := k + 1;
      if x < 0x4000_0000 {
        return 32;
      }
      x := x * 2;
    }
    Unscale(w, k, x);
  }

  predicate Scaled(w: nat, k: nat, x: nat) { x == w * Pow2(k) }

  lemma SmallPowers()
    ensures Pow2(0) == 1 && Pow2(1) == 2 && Pow2(2) == 4 && Pow2(4) == 0x10 && Pow2(8) == 0x100 && Pow2(16) == 0x1_0000
  {
    assert Pow2(8) == 0x100;
    Pow2Add(8, 8);
  }

  lemma Scale(w: nat, k: nat, x: nat, s: nat)
    requires Scaled(w, k, x)
    ensures Scaled(w, k + s, x * Pow2(s))
  {
    Pow2Add(k, s);
    hide Pow2;
    assert w * (Pow2(k) * Pow2(s)) == w * Pow2(k) * Pow2(s);
  }

  lemma Unscale(w: nat, k: nat, x: nat)
    requires Scaled(w, k, x)
    ensures w * Pow2(k) == x && (x == 0 <==> w == 0)
  {
    if w > 0 {
      MulMonotone(1, w, Pow2(k));
    }
  }

  /** The top word has exactly four leading zero bits. */
  predicate Normalised(t: seq<Word>) {
    t != [] && 0x800_0000 <= t[|t| - 1] < 0x1000_0000
  }

  lemma {:induction false} PowBAdd(m: nat, n: nat)
    ensures PowB(m + n) == PowB(m) * PowB(n)
  {
    if m > 0 {
      PowBAdd(m - 1, n);
      assert B * (PowB(m - 1) * PowB(n)) == PowB(m) * PowB(n);
    }
  }

  lemma CancelLess(a: int, b: int, r: nat)
    requires a * r < b * r
    ensures a < b
  {
    assert a >= b ==> (a - b) * r >= 0;
  }

  /** A number lies between the multiples of its top position that its top word names. */
  lemma TopBracket(s: seq<Word>)
    requires s != []
    ensures s[|s| - 1] * PowB(|s| - 1) <= Val(s) < (s[|s| - 1] + 1) * PowB(|s| - 1)
  {
    hide Val, PowB;
    ValLast(s);
    ValBound(s[..|s| - 1]);
    assert (s[|s| - 1] + 1) * PowB(|s| - 1) == PowB(|s| - 1) * s[|s| - 1] + PowB(|s| - 1);
  }

  /** A value between 2^27 and 2^28 units of a position has its top word there. */
  lemma TopInRange(t: seq<Word>, m: nat)
    requires t != [] && t[|t| - 1] != 0
    requires 0x800_0000 * PowB(m) <= Val(t) < 0x1000_0000 * PowB(m)
    ensures |t| == m + 1 && Normalised(t)
  {
    hide Val;
    TopBracket(t);
    ValTop(t);
    ValBound(t);
    if |t| <= m {
      PowBMonotone(|t|, m);
    } else if |t| > m + 1 {
      PowBMonotone(m + 1, |t| - 1);
    } else {
      hide PowB;
      CancelLess(t[m], 0x1000_0000, PowB(m));
      CancelLess(0x800_0000, t[m] + 1, PowB(m));
    }
  }

  /** Shifting by the leading zeros brings a number to the top of its words. */
  lemma LeadingShift(s: seq<Word>, h: nat)
    requires s != [] && h < 32 && 0x8000_0000 <= s[|s| - 1] * Pow2(h) < B
    ensures 0x8000_0000 * PowB(|s| - 1) <= Val(s) * Pow2(h) < B * PowB(|s| - 1)
  {
    hide Val, PowB, Pow2;
    var top, p, q := s[|s| - 1], PowB(|s| - 1), Pow2(h);
    TopBracket(s);
    TopRoom(top, h);
    LeadingProducts(Val(s), top, p, q);
  }

  lemma TopRoom(top: nat, h: nat)
    requires h < 32 && top * Pow2(h) < B
    ensures (top + 1) * Pow2(h) <= B
  {
    Pow2Add(32 - h, h);
    Pow2Word();
    hide Pow2;
    CancelLess(top, Pow2(32 - h), Pow2(h));
    MulMonotone(top + 1, Pow2(32 - h), Pow2(h));
  }

  lemma LeadingProducts(v: nat, top: nat, p: nat, q: nat)
    requires top * p <= v < (top + 1) * p && 0x8000_0000 <= top * q && (top + 1) * q <= B && q > 0
    ensures 0x8000_0000 * p <= v * q < B * p
  {
    MulMonotone(top * p, v, q);
    assert top * p * q == top * q * p;
    MulMonotone(0x8000_0000, top * q, p);
    assert (top + 1) * p * q == (top + 1) * q * p;
    MulMonotone((top + 1) * q, B, p);
    MulMonotone(v + 1, (top + 1) * p, q);
    assert (v + 1) * q == v * q + q;
  }

  /** A shift that agrees modulo 32 with the leading zeros less four normalises the number. */
  lemma ShiftNormalises(s: seq<Word>, h: nat, sh: nat, j: nat, t: seq<Word>)
    requires s != [] && h < 32 && 0x8000_0000 <= s[|s| - 1] * Pow2(h) < B
    requires sh + 4 == h + 32 * j && t != [] && t[|t| - 1] != 0 && Val(t) == Val(s) * Pow2(sh)
    ensures Normalised(t)
  {
    hide Val, PowB, Pow2;
    LeadingShift(s, h);
    ShiftExponents(h, sh, j);
    PowBAdd(|s| - 1, j);
    NormaliseProducts(Val(s), Pow2(sh), Pow2(h), PowB(j), PowB(|s| - 1));
    TopInRange(t, |s| - 1 + j);
  }

  lemma ShiftExponents(h: nat, sh: nat, j: nat)
    requires sh + 4 == h + 32 * j
    ensures Pow2(sh) * 16 == Pow2(h) * PowB(j)
  {
    assert Pow2(4) == 16;
    hide PowB, Pow2;
    Pow2Add(sh, 4);
    Pow2Add(h, 32 * j);
    Pow2Words(j);
  }

  lemma NormaliseProducts(v: nat, p: nat, q: nat, r: nat, u: nat)
    requires p * 16 == q * r && 0x8000_0000 * u <= v * q < B * u && r > 0
    ensures 0x800_0000 * (u * r) <= v * p < 0x1000_0000 * (u * r)
  {
    assert v * p * 16 == v * (p * 16) == v * (q * r) == v * q * r;
    MulMonotone(0x8000_0000 * u, v * q, r);
    MulMonotone(v * q + 1, B * u, r);
    assert 0x8000_0000 * u * r == 0x8000_0000 * (u * r) && B * u * r == B * (u * r);
    assert (v * q + 1) * r == v * q * r + r;
  }

  /** `dshift`: how many bits to add to a shift of `p2` bits so that the shifted number ends up
      with exactly four leading zero bits. */
  method DShift(b: Bigint, p2: nat) returns (rv: nat)
    requires b.Valid() && b.Value() > 0
    ensures rv < 32
    ensures forall t: seq<Word> | t != [] && t[|t| - 1] != 0 && Val(t) == b.Value() * Pow2(p2 + rv) :: Normalised(t)
  {
    ghost var s := b.x[..b.wds];
    assert b.wds > 0;
    TopOfValue(s);
    hide Val, Pow2, PowB;
    var k := Hi0Bits(b.x[b.wds - 1]);
    var v := k as int - 4;
    if p2 > 0 {
      v := v - p2;
    }
    rv := v % 32;
    ghost var j := (p2 + rv + 4 - k) / 32;
    assert p2 + rv + 4 == k + 32 * j && j >= 0;
    forall t: seq<Word> | t != [] && t[|t| - 1] != 0 && Val(t) == b.Value() * Pow2(p2 + rv)
      ensures Normalised(t)
    {
      ShiftNormalises(s, k, p2 + rv, j, t);
    }
  }

  //////////////////////////////////////////////////////////////////////////////
  // One step of the division
  //////////////////////////////////////////////////////////////////////////////

  /** The one-word estimate of a digit. */
  function TopDigit(bt: nat, st: nat): nat { bt / (st + 1) }

  /** The estimate from the top words is the quotient or one less. */
  lemma Estimate(b: seq<Word>, s: seq<Word>)
    requires |b| == |s| && Normalised(s) && Val(b) < 10 * Val(s)
    ensures var q := TopDigit(b[|b| - 1], s[|s| - 1]);
      q * Val(s) <= Val(b) < q * Val(s) + 2 * Val(s) && q < 10
  {
    hide Val, PowB, TopDigit;
    TopBracket(b);
    TopBracket(s);
    EstimateProducts(Val(b), Val(s), b[|b| - 1], s[|s| - 1], PowB(|s| - 1));
  }

  lemma EstimateProducts(v: nat, w: nat, bt: nat, st: nat, p: nat)
    requires p > 0 && bt * p <= v < (bt + 1) * p && st * p <= w < (st + 1) * p
    requires v < 10 * w && st >= 0x800_0000
    ensures var q := TopDigit(bt, st); q * w <= v < q * w + 2 * w && q < 10
  {
    var q := TopDigit(bt, st);
    DivBounds(bt, st + 1, q);
    hide TopDigit;
    EstimateLow(v, w, bt, st, p, q);
    CancelLess(q, 10, w);
    EstimateHigh(v, w, bt, st, p, q);
  }

  lemma EstimateLow(v: nat, w: nat, bt: nat, st: nat, p: nat, q: nat)
    requires bt * p <= v && w < (st + 1) * p && q * (st + 1) <= bt
    ensures q * w <= v
  {
    MulMonotone(w, (st + 1) * p, q);
    assert q * ((st + 1) * p) == q * (st + 1) * p;
    MulMonotone(q * (st + 1), bt, p);
  }

  lemma EstimateHigh(v: nat, w: nat, bt: nat, st: nat, p: nat, q: nat)
    requires p > 0 && v < (bt + 1) * p && st * p <= w && bt <= q * (st + 1) + st && q + 1 <= st
    ensures v < q * w + 2 * w
  {
    assert q * (st + 1) == q * st + q && (q + 2) * st == q * st + 2 * st;
    MulMonotone(bt + 1, (q + 2) * st, p);
    assert (q + 2) * st * p == (q + 2) * (st * p);
    MulMonotone(st * p, w, q + 2);
    assert (q + 2) * w == q * w + 2 * w;
  }

  lemma DivBounds(a: nat, d: nat, q: nat)
    requires d > 0 && q == a / d
    ensures q * d <= a <= q * d + d - 1
  {
    assert a == d * (a / d) + a % d;
  }

  /** A number below ten times a normalised divisor needs no more words than the divisor. */
  lemma QuotientFits(b: seq<Word>, s: seq<Word>)
    requires Normalised(s) && Val(b) < 10 * Val(s) && (|b| > 1 ==> b[|b| - 1] != 0)
    ensures |b| <= |s|
  {
    hide Val;
    TopBracket(s);
    if |b| > |s| {
      ValTop(b);
      PowBMonotone(|s|, |b| - 1);
      MulMonotone(s[|s| - 1] + 1, 0x1000_0000, PowB(|s| - 1));
    }
  }

  lemma SubMulPeel(b: seq<Word>, s: seq<Word>, i: nat, q: Word, carry: Word, borrow: nat, r: seq<Word>)
    requires |s| == |b| == |r| && i < |s| && borrow <= 1
    requires SubMul(b[i..], s[i..], q, carry, borrow).words == r[i..]
    ensures 0 <= (s[i] * q + carry) / B < B
    ensures var ys := s[i] * q + carry; var y := Diff64(b[i], ys % B, borrow);
      r[i] == y % B && SubMul(b[i + 1..], s[i + 1..], q, ys / B, y / B % 2).words == r[i + 1..]
  {
    MulBound(s[i], q);
    assert s[i..][0] == s[i] && s[i..][1..] == s[i + 1..];
    assert b[i..][0] == b[i] && b[i..][1..] == b[i + 1..];
    assert r[i..][0] == r[i] && r[i..][1..] == r[i + 1..];
    var ys := s[i] * q + carry;
    var y := Diff64(b[i], ys % B, borrow);
    var rest := SubMul(b[i + 1..], s[i + 1..], q, ys / B, y / B % 2).words;
    assert ([y % B] + rest)[1..] == rest;
  }

  /** Subtracts `q` times the first `n` words of `sx` from those of `bx`, in place. */
  method SubMulWords(bx: array<Word>, sx: array<Word>, n: nat, q: Word)
    requires bx != sx && n <= bx.Length && n <= sx.Length
    modifies bx
    ensures bx[..n] == SubMul(old(bx[..n]), sx[..n], q, 0, 0).words
  {
    hide SubMul, Diff64;
    ghost var b, s := bx[..n], sx[..n];
    ghost var r := SubMul(b, s, q, 0, 0).words;
    var borrow: nat, carry: Word := 0, 0;
    var i := 0;
    assert s[0..] == s && b[0..] == b && r[0..] == r;
    while i < n
      invariant i <= n && borrow <= 1
      invariant forall j | 0 <= j < i :: bx[j] == r[j]
      invariant forall j | i <= j < n :: bx[j] == b[j]
      invariant SubMul(b[i..], s[i..], q, carry, borrow).words == r[i..]
    {
      SubMulPeel(b, s, i, q, carry, borrow, r);
      MulBound(sx[i], q);
      var ys := sx[i] * q + carry;
      carry := ys / B;
      var y := Diff64(bx[i], ys % B, borrow);
      borrow := y / B % 2;
      bx[i] := y % B;
      i := i + 1;
    }
    assert bx[..n] == r;
  }

  /** After a subtraction: if the word at `n` has become zero, as many words as are needed
      remain in use; with a single word, none. */
  method Shorten(b: Bigint, n: nat) returns (n': nat)
    requires b.maxwds == b.x.Length == Pow2(b.k) && b.wds == n + 1 <= b.maxwds
    modifies b
    ensures b.Valid() && b.Value() == Val(old(b.x[..b.wds])) && b.wds <= old(b.wds)
    ensures b.wds == old(b.wds) ==> n' == n
  {
    n' := n;
    ghost var s := b.x[..n + 1];
    if b.x[n] == 0 {
      var bxe := n - 1;
      while bxe > 0 && b.x[bxe] == 0
        invariant bxe == n' - 1 && n' <= n
        invariant forall i | n' <= i <= n :: b.x[i] == 0
        decreases bxe
      {
        n' := n' - 1;
        bxe := bxe - 1;
      }
      ValTrim(s, n');
      assert s[..n'] == b.x[..n'];
      b.wds := n';
    }
  }

  /** Subtracts `q * S` from a number of as many words that is not smaller. */
  method SubtractMultiple(b: Bigint, S: Bigint, n: nat, q: Word) returns (n': nat)
    requires b.Valid() && S.Valid() && b != S && b.x != S.x && b.wds == S.wds == n + 1
    requires q * S.Value() <= b.Value()
    modifies b, b.x
    ensures b.Valid() && b.Value() == old(b.Value()) - q * S.Value()
    ensures b.wds <= n + 1 && (b.wds == n + 1 ==> n' == n)
  {
    hide Val, SubMul;
    SubMulExact(b.x[..n + 1], S.x[..n + 1], q);
    SubMulWords(b.x, S.x, n + 1, q);
    n' := Shorten(b, n);
  }

  /** `q` and `r` are the quotient and the remainder of `v` by `w`. */
  predicate IsDivMod(v: nat, w: nat, q: nat, r: nat) {
    v == q * w + r && r < w
  }

  /** The same in terms of division. */
  predicate IsQuotient(v: nat, w: nat, q: nat, r: nat) {
    w > 0 && q == v / w && r == v % w
  }

  lemma DivModFrom(v: nat, w: nat, q: nat, r: nat)
    requires IsDivMod(v, w, q, r)
    ensures IsQuotient(v, w, q, r)
  {
    var d := v / w - q;
    assert v == w * (v / w) + v % w;
    assert w * (v / w) == w * q + w * d;
    assert d >= 1 ==> w * d >= w;
    assert d <= -1 ==> w * d + w <= 0;
  }

  lemma DivisorPositive(s: seq<Word>)
    requires Normalised(s)
    ensures Val(s) > 0
  {
    ValTop(s);
  }

  /** `quorem`: the digit `b / S`, leaving `b % S` in `b`. */
  method Quorem(b: Bigint, S: Bigint) returns (q: nat)
    requires b.Valid() && S.Valid() && b != S && b.x != S.x
    requires Normalised(S.x[..S.wds]) && b.Value() < 10 * S.Value()
    modifies b, b.x
    ensures b.Valid() && IsDivMod(old(b.Value()), S.Value(), q, b.Value())
    ensures q < 10 && IsQuotient(old(b.Value()), S.Value(), q, b.Value())
  {
    hide Val, IsQuotient;
    ghost var v, w := b.Value(), S.Value();
    var n := S.wds;
    QuotientFits(b.x[..b.wds], S.x[..n]);
    DivisorPositive(S.x[..n]);
    if b.wds < n {
      LongerIsLarger(S.x[..n], b.x[..b.wds]);
      DivModFrom(v, w, 0, v);
      return 0;
    }
    hide Normalised;
    n := n - 1;
    q := TopQuotient(b, S, n);
    if q != 0 {
      n := SubtractMultiple(b, S, n, q);
    }
    q := LastSubtraction(b, S, n, q);
    QuotientBelowTen(v, w, q, b.Value());
    DivModFrom(v, w, q, b.Value());
  }

  /** The estimate of a digit from the top words of two numbers of the same length. */
  method TopQuotient(b: Bigint, S: Bigint, n: nat) returns (q: nat)
    requires b.Valid() && S.Valid() && b.wds == S.wds == n + 1
    requires Normalised(S.x[..S.wds]) && b.Value() < 10 * S.Value()
    ensures q < 10 && q * S.Value() <= b.Value() < q * S.Value() + 2 * S.Value()
  {
    hide Val, TopDigit;
    q := TopDigit(b.x[n], S.x[n]);
    Estimate(b.x[..n + 1], S.x[..n + 1]);
  }

  lemma QuotientBelowTen(v: nat, w: nat, q: nat, r: nat)
    requires IsDivMod(v, w, q, r) && v < 10 * w
    ensures q < 10
  {
    CancelLess(q, 10, w);
  }

  /** Corrects an estimate that was one too small. */
  method LastSubtraction(b: Bigint, S: Bigint, n: nat, q: nat) returns (q': nat)
    requires b.Valid() && S.Valid() && b != S && b.x != S.x && S.Value() > 0
    requires 0 < S.wds && b.wds <= S.wds && (b.wds == S.wds ==> n == S.wds - 1)
    requires b.Value() < 2 * S.Value()
    modifies b, b.x
    ensures b.Valid() && IsDivMod(q * S.Value() + old(b.Value()), S.Value(), q', b.Value())
  {
    assert b.wds == 0 ==> b.Value() == 0;
    hide Val;
    q' := q;
    if b.wds < S.wds {
      LongerIsLarger(S.x[..S.wds], b.x[..b.wds]);
    }
    var c := Cmp(b, S);
    if c.value >= 0 {
      q' := q' + 1;
      assert q' * S.Value() == q * S.Value() + S.Value();
      var _ := SubtractMultiple(b, S, n, 1);
    }
  }
}
