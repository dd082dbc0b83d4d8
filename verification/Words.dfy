/** Little-endian numbers in base 2^32: their values and the carry chains of dtoa.c. */
module Words {

  const B: nat := 0x1_0000_0000

  type Word = w: nat | w < B

  /** The number that a sequence of words denotes, least significant word first. */
  function Val(s: seq<Word>): nat {
    if s == [] then 0 else s[0] + B * Val(s[1..])
  }

  function PowB(n: nat): (p: nat)
    ensures p >= 1
  {
    if n == 0 then 1 else B * PowB(n - 1)
  }

  //////////////////////////////////////////////////////////////////////////////
  // Products of unknowns
  //////////////////////////////////////////////////////////////////////////////

  lemma MulDistrib(a: int, b: int, c: int)
    ensures a * (b + c) == a * b + a * c
  {
  }

  /** `a * (w + B * v)` for the first word and the rest of a number. */
  lemma MulWords(a: int, w: int, v: int)
    ensures a * (w + B * v) == a * w + B * (a * v)
  {
    MulDistrib(a, w, B * v);
    assert a * (B * v) == B * (a * v);
  }

  lemma MulMonotone(a: nat, b: nat, c: nat)
    requires a <= b
    ensures a * c <= b * c && c * a <= c * b
  {
  }

  lemma MulBound(a: Word, m: Word)
    ensures 0 <= a * m <= (B - 1) * (B - 1)
  {
    MulMonotone(a, B - 1, m);
    MulMonotone(m, B - 1, B - 1);
  }

  //////////////////////////////////////////////////////////////////////////////
  // Values
  //////////////////////////////////////////////////////////////////////////////

  lemma {:induction false} ValBound(s: seq<Word>)
    ensures Val(s) < PowB(|s|)
  {
    if s != [] {
      ValBound(s[1..]);
    }
  }

  lemma {:induction false} ValAppend(s: seq<Word>, t: seq<Word>)
    ensures Val(s + t) == Val(s) + PowB(|s|) * Val(t)
  {
    if s == [] {
      assert s + t == t;
    } else {
      assert (s + t)[1..] == s[1..] + t;
      ValAppend(s[1..], t);
      assert B * (PowB(|s| - 1) * Val(t)) == PowB(|s|) * Val(t);
    }
  }

  lemma {:induction false} ValZeros(s: seq<Word>)
    requires forall i | 0 <= i < |s| :: s[i] == 0
    ensures Val(s) == 0
  {
    if s != [] {
      ValZeros(s[1..]);
    }
  }

  /** Leading zero words do not count. */
  lemma ValTrim(s: seq<Word>, n: nat)
    requires n <= |s| && forall i | n <= i < |s| :: s[i] == 0
    ensures Val(s) == Val(s[..n])
  {
    ValAppend(s[..n], s[n..]);
    ValZeros(s[n..]);
    assert s == s[..n] + s[n..];
  }

  lemma ValLast(s: seq<Word>)
    requires s != []
    ensures Val(s) == Val(s[..|s| - 1]) + PowB(|s| - 1) * s[|s| - 1]
  {
    var n := |s| - 1;
    assert s == s[..n] + [s[n]];
    ValAppend(s[..n], [s[n]]);
    assert Val([s[n]]) == s[n] by { assert [s[n]][1..] == []; }
  }

  /** A number with a nonzero top word is at least as large as that position. */
  lemma ValTop(s: seq<Word>)
    requires s != [] && s[|s| - 1] != 0
    ensures Val(s) >= PowB(|s| - 1)
  {
    ValLast(s);
    MulMonotone(1, s[|s| - 1], PowB(|s| - 1));
  }

  lemma {:induction false} PowBMonotone(m: nat, n: nat)
    requires m <= n
    ensures PowB(m) <= PowB(n)
  {
    if m < n {
      PowBMonotone(m, n - 1);
    }
  }

  /** Of two numbers of equal length, the larger word at the topmost difference decides. */
  lemma ValCompare(s: seq<Word>, t: seq<Word>, n: nat)
    requires n < |s| == |t| && s[n] < t[n] && s[n + 1..] == t[n + 1..]
    ensures Val(s) < Val(t)
  {
    ComparePrefix(s[..n + 1], t[..n + 1]);
    assert s == s[..n + 1] + s[n + 1..] && t == t[..n + 1] + t[n + 1..];
    ValAppend(s[..n + 1], s[n + 1..]);
    ValAppend(t[..n + 1], t[n + 1..]);
  }

  lemma ComparePrefix(s: seq<Word>, t: seq<Word>)
    requires |s| == |t| > 0 && s[|s| - 1] < t[|s| - 1]
    ensures Val(s) < Val(t)
  {
    hide *;
    var n := |s| - 1;
    ValLast(s);
    ValLast(t);
    ValBound(s[..n]);
    TopDecides(PowB(n), Val(s[..n]), Val(t[..n]), s[n], t[n]);
  }

  lemma TopDecides(p: nat, low: nat, low': nat, top: nat, top': nat)
    requires low < p && top < top'
    ensures low + p * top < low' + p * top'
  {
    MulMonotone(top + 1, top', p);
    MulDistrib(p, top, 1);
  }

  //////////////////////////////////////////////////////////////////////////////
  // Multiplication by one word
  //////////////////////////////////////////////////////////////////////////////

  /** The words of `s * m + carry`, with the last carry as top word. */
  function MulAdd(s: seq<Word>, m: Word, carry: Word): (r: seq<Word>)
    ensures |r| == |s| + 1
  {
    if s == [] then [carry]
    else
      var y := s[0] * m + carry;
      MulBound(s[0], m);
      [y % B] + MulAdd(s[1..], m, y / B)
  }

  lemma {:induction false} MulAddValue(s: seq<Word>, m: Word, carry: Word)
    ensures Val(MulAdd(s, m, carry)) == Val(s) * m + carry
  {
    if s == [] {
      assert [carry][1..] == [];
    } else {
      MulBound(s[0], m);
      var y := s[0] * m + carry;
      var rest := MulAdd(s[1..], m, y / B);
      assert MulAdd(s, m, carry) == [y % B] + rest;
      ValCons(y % B, rest);
      ValCons(s[0], s[1..]);
      assert s == [s[0]] + s[1..];
      MulAddValue(s[1..], m, y / B);
      hide Val, MulAdd;
      AddMulStep(s[0], 0, carry, 0, Val(s[1..]), m);
    }
  }

  /** The words of `c + s * m + carry`, with the last carry as top word. */
  function AddMul(c: seq<Word>, s: seq<Word>, m: Word, carry: Word): (r: seq<Word>)
    requires |c| == |s|
    ensures |r| == |s| + 1
  {
    if s == [] then [carry]
    else
      MulBound(s[0], m);
      var z := s[0] * m + c[0] + carry;
      [z % B] + AddMul(c[1..], s[1..], m, z / B)
  }

  lemma {:induction false} AddMulValue(c: seq<Word>, s: seq<Word>, m: Word, carry: Word)
    requires |c| == |s|
    ensures Val(AddMul(c, s, m, carry)) == Val(c) + Val(s) * m + carry
  {
    if s == [] {
      assert [carry][1..] == [];
    } else {
      MulBound(s[0], m);
      var z := s[0] * m + c[0] + carry;
      var rest := AddMul(c[1..], s[1..], m, z / B);
      assert AddMul(c, s, m, carry) == [z % B] + rest;
      ValCons(z % B, rest);
      ValCons(s[0], s[1..]);
      ValCons(c[0], c[1..]);
      assert s == [s[0]] + s[1..] && c == [c[0]] + c[1..];
      AddMulValue(c[1..], s[1..], m, z / B);
      hide Val, AddMul;
      AddMulStep(s[0], c[0], carry, Val(c[1..]), Val(s[1..]), m);
    }
  }

  lemma ValCons(w: Word, s: seq<Word>)
    ensures Val([w] + s) == w + B * Val(s)
  {
    assert ([w] + s)[1..] == s;
  }

  lemma AddMulStep(w: int, c: int, carry: int, vc: int, vs: int, m: int)
    ensures var z := w * m + c + carry;
      z % B + B * (vc + vs * m + z / B) == (c + B * vc) + (w + B * vs) * m + carry
  {
    MulWords(m, w, vs);
  }

  //////////////////////////////////////////////////////////////////////////////
  // Subtraction of a multiple
  //////////////////////////////////////////////////////////////////////////////

  const W64: nat := 0x1_0000_0000_0000_0000

  /** One step of a borrow chain in 64-bit arithmetic: `w - d - borrow`. */
  function Diff64(w: Word, d: Word, borrow: nat): (y: nat)
    requires borrow <= 1
    ensures y < W64
    ensures y / B % 2 <= 1 && y % B == w - d - borrow + B * (y / B % 2)
  {
    (w - d - borrow) % W64
  }

  datatype Chain = Chain(words: seq<Word>, out: nat)

  /** The words of `b - q * s - carry - borrow` and what is still missing beyond them. */
  function SubMul(b: seq<Word>, s: seq<Word>, q: Word, carry: Word, borrow: nat): (r: Chain)
    requires |b| == |s| && borrow <= 1
    ensures |r.words| == |b|
  {
    if s == [] then Chain([], carry + borrow)
    else
      MulBound(s[0], q);
      var ys := s[0] * q + carry;
      var y := Diff64(b[0], ys % B, borrow);
      var rest := SubMul(b[1..], s[1..], q, ys / B, y / B % 2);
      Chain([y % B] + rest.words, rest.out)
  }

  lemma {:induction false} SubMulValue(b: seq<Word>, s: seq<Word>, q: Word, carry: Word, borrow: nat)
    requires |b| == |s| && borrow <= 1
    ensures var r := SubMul(b, s, q, carry, borrow);
      Val(r.words) == Val(b) - q * Val(s) - carry - borrow + r.out * PowB(|b|)
  {
    if s != [] {
      MulBound(s[0], q);
      var ys := s[0] * q + carry;
      var y := Diff64(b[0], ys % B, borrow);
      var rest := SubMul(b[1..], s[1..], q, ys / B, y / B % 2);
      ValCons(y % B, rest.words);
      ValCons(s[0], s[1..]);
      ValCons(b[0], b[1..]);
      assert s == [s[0]] + s[1..] && b == [b[0]] + b[1..];
      assert SubMul(b, s, q, carry, borrow) == Chain([y % B] + rest.words, rest.out);
      SubMulValue(b[1..], s[1..], q, ys / B, y / B % 2);
      assert PowB(|b|) == B * PowB(|b| - 1);
      hide Val, SubMul, PowB, Diff64;
      SubMulStep(b[0], s[0], carry, borrow, y / B % 2, Val(b[1..]), Val(s[1..]), q, rest.out, PowB(|b| - 1));
    }
  }

  lemma SubMulStep(w: int, d: int, carry: int, borrow: int, borrow': int, vb: int, vs: int, q: int, out: int, p: int)
    ensures var ys := d * q + carry;
      (w - ys % B - borrow + B * borrow') + B * (vb - q * vs - ys / B - borrow' + out * p)
      == (w + B * vb) - q * (d + B * vs) - carry - borrow + out * (B * p)
  {
    MulWords(q, d, vs);
    assert out * (B * p) == B * (out * p);
  }

  /** When the multiple is not larger, nothing is missing and the words are the difference. */
  lemma SubMulExact(b: seq<Word>, s: seq<Word>, q: Word)
    requires |b| == |s| && q * Val(s) <= Val(b)
    ensures SubMul(b, s, q, 0, 0).out == 0
    ensures Val(SubMul(b, s, q, 0, 0).words) == Val(b) - q * Val(s)
  {
    var r := SubMul(b, s, q, 0, 0);
    SubMulValue(b, s, q, 0, 0);
    ValBound(r.words);
    if r.out > 0 {
      MulMonotone(1, r.out, PowB(|b|));
    }
  }
}
