/** The multi-precision integers of dtoa.c, in the configuration with 32-bit words and
    64-bit intermediate results. */
module BigintArithmetic {
  import opened Common
  import opened Words

  class Bigint {
    const k: nat
    const maxwds: nat
    const x: array<Word>
    var sign: nat
    var wds: nat

    /** The capacity is a power of two and the top word in use is not zero; a number of one
        word may be zero, and a zero remainder may have no word in use at all. */
    ghost predicate Valid()
      reads this, x
    {
      && maxwds == x.Length == Pow2(k)
      && wds <= maxwds
      && (wds == 0 ==> x[0] == 0)
      && (wds > 1 ==> x[wds - 1] != 0)
    }

    ghost function Value(): nat
      requires Valid()
      reads this, x
    {
      Val(x[..wds])
    }

    /** `Balloc`: room for 2^k words of any content, none of them in use. */
    constructor (k: nat)
      ensures this.k == k && maxwds == x.Length == Pow2(k) && wds == 0 && sign == 0 && fresh(x)
    {
      this.k := k;
      maxwds := Pow2(k);
      x := new Word[Pow2(k)];
      sign := 0;
      wds := 0;
    }
  }

  lemma ValSingle(s: seq<Word>)
    requires |s| == 1
    ensures Val(s) == s[0]
  {
    assert s[1..] == [];
  }

  /** `i2b`: a number of one word. */
  method FromWord(i: Word) returns (b: Bigint)
    ensures b.Valid() && b.Value() == i && b.wds == 1 && b.k == 1 && fresh(b) && fresh(b.x)
  {
    b := new Bigint(1);
    b.x[0] := i;
    b.wds := 1;
    ValSingle(b.x[..1]);
  }

  //////////////////////////////////////////////////////////////////////////////
  // multadd
  //////////////////////////////////////////////////////////////////////////////

  /** Word `i` of a product and the carry into the next word. */
  lemma MulAddPeel(s: seq<Word>, i: nat, m: Word, carry: Word, r: seq<Word>)
    requires i < |s| && |r| == |s| + 1 && MulAdd(s[i..], m, carry) == r[i..]
    ensures var y := s[i] * m + carry;
      0 <= y / B < B && r[i] == y % B && MulAdd(s[i + 1..], m, y / B) == r[i + 1..]
  {
    MulBound(s[i], m);
    assert s[i..][0] == s[i] && s[i..][1..] == s[i + 1..];
    assert r[i..][0] == r[i] && r[i..][1..] == r[i + 1..];
    var y := s[i] * m + carry;
    assert ([y % B] + MulAdd(s[i + 1..], m, y / B))[1..] == MulAdd(s[i + 1..], m, y / B);
  }

  lemma MulAddEnd(s: seq<Word>, m: Word, carry: Word, r: seq<Word>)
    requires |r| == |s| + 1 && MulAdd(s[|s|..], m, carry) == r[|s|..]
    ensures r[|s|] == carry
  {
    assert MulAdd(s[|s|..], m, carry) == [carry];
    assert r[|s|..][0] == r[|s|];
  }

  /** Multiplies the first `n` words of `x` by `m` and adds `a`, leaving the last carry. */
  method MulAddWords(x: array<Word>, n: nat, m: Word, a: Word) returns (carry: Word)
    requires 0 < n <= x.Length
    modifies x
    ensures x[..n] + [carry] == MulAdd(old(x[..n]), m, a)
  {
    hide MulAdd;
    carry := a;
    var i := 0;
    ghost var s := x[..n];
    ghost var r := MulAdd(s, m, a);
    assert s[0..] == s && r[0..] == r;
    while i < n
      invariant i <= n
      invariant forall j | 0 <= j < i :: x[j] == r[j]
      invariant forall j | i <= j < n :: x[j] == s[j]
      invariant MulAdd(s[i..], m, carry) == r[i..]
    {
      MulAddPeel(s, i, m, carry, r);
      var y := x[i] * m + carry;
      carry := y / B;
      x[i] := y % B;
      i := i + 1;
    }
    MulAddEnd(s, m, carry, r);
    assert x[..n] + [carry] == r;
  }

  /** A carry chain keeps the top word nonzero. */
  lemma {:induction false} MulAddTop(s: seq<Word>, m: Word, a: Word)
    requires s != [] && s[|s| - 1] != 0 && m != 0
    ensures MulAdd(s, m, a)[|s|] != 0 || MulAdd(s, m, a)[|s| - 1] != 0
  {
    MulBound(s[0], m);
    var y := s[0] * m + a;
    if |s| == 1 {
      MulMonotone(1, s[0], m);
      assert s[1..] == [];
      assert y == B * (y / B) + y % B;
    } else {
      MulAddTop(s[1..], m, y / B);
    }
  }

  /** Multiplying by zero leaves only the addend, in the lowest word. */
  lemma {:induction false} MulAddZero(s: seq<Word>, a: Word)
    requires s != []
    ensures MulAdd(s, 0, a)[|s|] == 0 && (|s| > 1 ==> MulAdd(s, 0, a)[|s| - 1] == 0)
  {
    var y := s[0] * 0 + a;
    assert y % B == a && y / B == 0;
    if |s| == 1 {
      assert s[1..] == [];
    } else {
      MulAddZero(s[1..], 0);
      if |s| == 2 {
        assert s[1..][1..] == [];
        assert MulAdd(s[1..], 0, 0)[0] == 0;
      }
    }
  }

  /** `Bcopy` into a number with room for twice as many words. */
  method Grown(b: Bigint) returns (r: Bigint)
    requires b.maxwds == b.x.Length == Pow2(b.k) && b.wds <= b.maxwds
    ensures fresh(r) && fresh(r.x) && r.maxwds == r.x.Length == Pow2(r.k) == 2 * b.maxwds
    ensures r.wds == b.wds && r.sign == b.sign && r.x[..r.wds] == b.x[..b.wds]
  {
    r := new Bigint(b.k + 1);
    for i := 0 to b.wds
      invariant r.x[..i] == b.x[..i]
      modifies r.x
    {
      r.x[i] := b.x[i];
    }
    r.sign, r.wds := b.sign, b.wds;
  }

  /** `multadd`: `b * m + a`, in place unless the carry needs a larger number. The one value
      that comes out wrong is of a number without any word in use to which something is added. */
  method MultAdd(b: Bigint, m: Word, a: Word) returns (r: Bigint)
    requires b.Valid()
    modifies b, b.x
    ensures r == b || (fresh(r) && fresh(r.x))
    ensures r.wds <= r.x.Length && r.wds >= old(b.wds)
    ensures Val(r.x[..r.wds]) == old(b.Value()) * m + a <==> old(b.wds) > 0 || a == 0
    ensures old(b.wds) > 0 || a == 0 ==> (r.Valid() <==> m != 0 || old(b.wds) <= 1)
    ensures old(b.wds) == 0 && a == 0 ==> r.wds == 0
  {
    var wds := b.wds;
    ghost var s := b.x[..wds];
    // the loop body runs at least once
    var n := if wds == 0 then 1 else wds;
    ghost var t := b.x[..n];
    var carry := MulAddWords(b.x, n, m, a);
    MulAddValue(t, m, a);
    r := b;
    if wds == 0 {
      assert t == [0];
      assert MulAdd(t[1..], m, a) == [a];
      assert MulAdd(t, m, a) == [a, 0];
      return;
    }
    MulAddShape(t, m, a, b.x[..n], carry);
    if carry != 0 {
      if wds >= b.maxwds {
        r := Grown(b);
      }
      r.x[wds] := carry;
      r.wds := wds + 1;
      assert r.x[..wds + 1] == b.x[..wds] + [carry];
    }
  }

  lemma MulAddShape(s: seq<Word>, m: Word, a: Word, low: seq<Word>, carry: Word)
    requires s != [] && low + [carry] == MulAdd(s, m, a) && |low| == |s|
    ensures Val(low + [carry]) == Val(s) * m + a
    ensures carry == 0 ==> Val(low) == Val(s) * m + a
    ensures carry == 0 && s[|s| - 1] != 0 && m != 0 ==> low[|s| - 1] != 0
    ensures m == 0 ==> carry == 0 && (|s| > 1 ==> low[|s| - 1] == 0)
  {
    MulAddValue(s, m, a);
    ValTrim(low + [carry], |low| + if carry == 0 then 0 else 1);
    assert (low + [carry])[..|low|] == low;
    if m == 0 {
      MulAddZero(s, a);
      assert (low + [carry])[|s|] == carry && (low + [carry])[|s| - 1] == low[|s| - 1];
    } else if s[|s| - 1] != 0 {
      MulAddTop(s, m, a);
      assert (low + [carry])[|s|] == carry && (low + [carry])[|s| - 1] == low[|s| - 1];
    }
  }

  //////////////////////////////////////////////////////////////////////////////
  // mult
  //////////////////////////////////////////////////////////////////////////////

  lemma AddMulPeel(c: seq<Word>, s: seq<Word>, i: nat, m: Word, carry: Word, r: seq<Word>)
    requires i < |s| == |c| && |r| == |s| + 1 && AddMul(c[i..], s[i..], m, carry) == r[i..]
    ensures var z := s[i] * m + c[i] + carry;
      0 <= z / B < B && r[i] == z % B && AddMul(c[i + 1..], s[i + 1..], m, z / B) == r[i + 1..]
  {
    MulBound(s[i], m);
    assert s[i..][0] == s[i] && s[i..][1..] == s[i + 1..];
    assert c[i..][0] == c[i] && c[i..][1..] == c[i + 1..];
    assert r[i..][0] == r[i] && r[i..][1..] == r[i + 1..];
    var z := s[i] * m + c[i] + carry;
    assert ([z % B] + AddMul(c[i + 1..], s[i + 1..], m, z / B))[1..] == AddMul(c[i + 1..], s[i + 1..], m, z / B);
  }

  lemma AddMulEnd(c: seq<Word>, s: seq<Word>, m: Word, carry: Word, r: seq<Word>)
    requires |c| == |s| && |r| == |s| + 1 && AddMul(c[|s|..], s[|s|..], m, carry) == r[|s|..]
    ensures r[|s|] == carry
  {
    assert AddMul(c[|s|..], s[|s|..], m, carry) == [carry];
    assert r[|s|..][0] == r[|s|];
  }

  /** Adds `y` times the first `n` words of `xa` to the words of `c` from `j` on. */
  method AddMulWords(xa: array<Word>, n: nat, y: Word, c: array<Word>, j: nat)
    requires xa != c && 0 < n <= xa.Length && j + n < c.Length
    modifies c
    ensures c[j..j + n + 1] == AddMul(old(c[j..j + n]), xa[..n], y, 0)
    ensures c[..j] == old(c[..j]) && c[j + n + 1..] == old(c[j + n + 1..])
  {
    hide AddMul;
    ghost var s, t := xa[..n], c[j..j + n];
    ghost var r := AddMul(t, s, y, 0);
    assert s[0..] == s && t[0..] == t && r[0..] == r;
    var carry: Word := 0;
    var i := 0;
    while i < n
      invariant i <= n
      invariant c[j + n + 1..] == old(c[j + n + 1..]) && c[..j] == old(c[..j])
      invariant forall k | 0 <= k < i :: c[j + k] == r[k]
      invariant forall k | i <= k < n :: c[j + k] == t[k]
      invariant AddMul(t[i..], s[i..], y, carry) == r[i..]
    {
      AddMulPeel(t, s, i, y, carry, r);
      assert c[j + i] == t[i];
      var z := xa[i] * y + c[j + i] + carry;
      carry := z / B;
      c[j + i] := z % B;
      i := i + 1;
    }
    AddMulEnd(t, s, y, carry, r);
    c[j + n] := carry;
    assert c[j..j + n + 1] == r;
  }

  /** One row of the schoolbook product. */
  lemma RowValue(low: seq<Word>, mid: seq<Word>, s: seq<Word>, y: Word)
    requires |mid| == |s|
    ensures Val(low + AddMul(mid, s, y, 0)) == Val(low + mid) + PowB(|low|) * y * Val(s)
  {
    hide *;
    ValAppend(low, AddMul(mid, s, y, 0));
    ValAppend(low, mid);
    AddMulValue(mid, s, y, 0);
    RowDistrib(PowB(|low|), Val(mid), Val(s), y, Val(AddMul(mid, s, y, 0)));
  }

  lemma RowDistrib(p: nat, v: nat, w: nat, y: nat, sum: nat)
    requires sum == v + w * y
    ensures p * sum == p * v + p * y * w
  {
    MulDistrib(p, v, w * y);
    assert p * (w * y) == p * y * w;
  }

  lemma ProductRow(v: nat, w: nat, p: nat, y: nat, sum: nat)
    requires sum == w + p * y
    ensures v * sum == v * w + p * y * v
  {
    MulDistrib(v, w, p * y);
    assert v * (p * y) == p * y * v;
  }

  /** Adds the row of word `j` of the second factor, if it is not zero. */
  method MultRow(xa: array<Word>, wa: nat, y: Word, c: array<Word>, j: nat)
    requires xa != c && 0 < wa <= xa.Length && wa + j < c.Length && c[wa + j] == 0
    modifies c
    ensures Val(c[..wa + j + 1]) == Val(old(c[..wa + j])) + PowB(j) * y * Val(xa[..wa])
    ensures forall i | wa + j < i < c.Length :: c[i] == old(c[i])
  {
    hide Val, PowB, AddMul;
    ghost var low, mid := c[..j], c[j..j + wa];
    ghost var above := c[wa + j + 1..];
    assert c[..wa + j] == low + mid;
    if y != 0 {
      AddMulWords(xa, wa, y, c, j);
      assert forall i | wa + j < i < c.Length :: c[i] == c[wa + j + 1..][i - (wa + j + 1)] == above[i - (wa + j + 1)];
      assert c[..wa + j + 1] == low + AddMul(mid, xa[..wa], y, 0);
      RowValue(low, mid, xa[..wa], y);
    } else {
      ValTrim(c[..wa + j + 1], wa + j);
      assert c[..wa + j + 1][..wa + j] == c[..wa + j];
    }
  }

  method ZeroWords(x: array<Word>, n: nat)
    requires n <= x.Length
    modifies x
    ensures forall i | 0 <= i < n :: x[i] == 0
    ensures x[n..] == old(x[n..])
  {
    for i := 0 to n
      invariant forall j | 0 <= j < i :: x[j] == 0
      invariant x[n..] == old(x[n..])
    {
      x[i] := 0;
    }
  }

  method MultRows(a: Bigint, b: Bigint, c: array<Word>)
    requires a.Valid() && b.Valid() && b.wds <= a.wds
    requires c != a.x && c != b.x && a.wds + b.wds <= c.Length
    requires forall i | 0 <= i < a.wds + b.wds :: c[i] == 0
    modifies c
    ensures Val(c[..a.wds + b.wds]) == a.Value() * b.Value()
  {
    var wa, wb := a.wds, b.wds;
    ghost var s, t := a.x[..wa], b.x[..wb];
    ValZeros(c[..wa]);
    assert t[..0] == [] && Val(t[..0]) == 0;
    hide Val, PowB;
    var j := 0;
    while j < wb
      invariant j <= wb
      invariant Val(c[..wa + j]) == Val(s) * Val(t[..j])
      invariant forall i | wa + j <= i < wa + wb :: c[i] == 0
    {
      var y := b.x[j];
      assert t[..j + 1][..j] == t[..j] && t[..j + 1][j] == y;
      ValLast(t[..j + 1]);
      ProductRow(Val(s), Val(t[..j]), PowB(j), y, Val(t[..j + 1]));
      MultRow(a.x, wa, y, c, j);
      j := j + 1;
    }
    assert t[..wb] == t;
  }

  /** `mult`: the product, with the top word nonzero. Of two numbers without a word in use it is
      one without a word in use, whose first word is whatever the memory held. */
  method Mult(a: Bigint, b: Bigint) returns (c: Bigint)
    requires a.Valid() && b.Valid()
    ensures fresh(c) && fresh(c.x) && c.wds <= c.x.Length && c.x.Length > 0
    ensures Val(c.x[..c.wds]) == a.Value() * b.Value()
    ensures c.Valid() <==> a.wds > 0 || b.wds > 0 || c.x[0] == 0
    ensures c.wds > 0 ==> c.x[c.wds - 1] != 0
    ensures var l := if a.wds < b.wds then b else a; c.k == if a.wds + b.wds > l.maxwds then l.k + 1 else l.k
  {
    if a.wds < b.wds {
      c := MultOrdered(b, a);
    } else {
      c := MultOrdered(a, b);
    }
  }

  method MultOrdered(a: Bigint, b: Bigint) returns (c: Bigint)
    requires a.Valid() && b.Valid() && b.wds <= a.wds
    ensures fresh(c) && fresh(c.x) && c.wds <= c.x.Length && c.x.Length > 0
    ensures Val(c.x[..c.wds]) == a.Value() * b.Value()
    ensures c.Valid() <==> a.wds > 0 || c.x[0] == 0
    ensures c.wds > 0 ==> c.x[c.wds - 1] != 0
    ensures c.k == if a.wds + b.wds > a.maxwds then a.k + 1 else a.k
  {
    hide Val;
    var k, wc := a.k, a.wds + b.wds;
    if wc > a.maxwds {
      k := k + 1;
    }
    c := new Bigint(k);
    ZeroWords(c.x, wc);
    MultRows(a, b, c.x);
    wc := Trim(c.x, wc);
    c.wds := wc;
  }

  /** Drops leading zero words. */
  method Trim(x: array<Word>, n: nat) returns (wc: nat)
    requires n <= x.Length
    ensures wc <= n && Val(x[..wc]) == Val(x[..n])
    ensures wc > 0 ==> x[wc - 1] != 0
    ensures forall i | wc <= i < n :: x[i] == 0
  {
    wc := n;
    while wc > 0 && x[wc - 1] == 0
      invariant wc <= n
      invariant forall i | wc <= i < n :: x[i] == 0
    {
      wc := wc - 1;
    }
    ValTrim(x[..n], wc);
    assert x[..n][..wc] == x[..wc];
  }

  //////////////////////////////////////////////////////////////////////////////
  // cmp
  //////////////////////////////////////////////////////////////////////////////

  predicate SameOrder(r: int, a: int, b: int) {
    (r < 0 <==> a < b) && (r == 0 <==> a == b) && (r > 0 <==> a > b)
  }

  /** A number with more words is larger, unless its only word is zero. */
  lemma LongerIsLarger(a: seq<Word>, b: seq<Word>)
    requires |a| > |b| && (|a| == 1 || a[|a| - 1] != 0)
    ensures Val(a) > Val(b) || (|a| == 1 && a[0] == 0 && Val(a) == Val(b) == 0)
  {
    if |a| == 1 {
      ValSingle(a);
    } else {
      ValTop(a);
      ValBound(b);
      PowBMonotone(|b|, |a| - 1);
    }
  }

  /** `cmp` decides the order of the values; the one exception is zero written with one word
      against zero with no word in use. For two numbers without a word in use it reads before the
      first word, which is `None` here. */
  method Cmp(a: Bigint, b: Bigint) returns (r: Option<int>)
    requires a.Valid() && b.Valid()
    ensures r.None? <==> a.wds == 0 && b.wds == 0
    ensures r.Some? ==>
      (SameOrder(r.value, a.Value(), b.Value()) <==> !(a.wds + b.wds == 1 && a.Value() == b.Value()))
    ensures a.wds != b.wds ==> r == Some(a.wds - b.wds)
  {
    ghost var s, t := a.x[..a.wds], b.x[..b.wds];
    var i := a.wds - b.wds;
    if i != 0 {
      r := Some(i);
      if i > 0 {
        LongerIsLarger(s, t);
      } else {
        LongerIsLarger(t, s);
      }
      return;
    }
    var j := b.wds;
    while true
      invariant 0 <= j <= b.wds && (j == 0 ==> b.wds == 0)
      invariant s[j..] == t[j..]
      decreases j
    {
      if j == 0 {
        return None;
      }
      j := j - 1;
      assert s[j] == a.x[j] && t[j] == b.x[j];
      if a.x[j] != b.x[j] {
        if s[j] < t[j] {
          ValCompare(s, t, j);
        } else {
          ValCompare(t, s, j);
        }
        return Some(if a.x[j] < b.x[j] then -1 else 1);
      }
      assert s[j..] == [s[j]] + s[j + 1..] && t[j..] == [t[j]] + t[j + 1..];
      if j <= 0 {
        break;
      }
    }
    assert s[0..] == s && t[0..] == t;
    return Some(0);
  }

  //////////////////////////////////////////////////////////////////////////////
  // diff
  //////////////////////////////////////////////////////////////////////////////

  ghost function Padded(s: seq<Word>, n: nat): (r: seq<Word>)
    requires |s| <= n
    ensures |r| == n && r[..|s|] == s && forall i | |s| <= i < n :: r[i] == 0
  {
    s + seq(n - |s|, _ => 0)
  }

  /** Word `i` of a difference and the borrow into the next word. */
  lemma SubPeel(s: seq<Word>, t: seq<Word>, i: nat, borrow: nat, r: seq<Word>)
    requires |s| == |t| == |r| && i < |s| && borrow <= 1
    requires SubMul(s[i..], t[i..], 1, 0, borrow).words == r[i..]
    ensures var y := Diff64(s[i], t[i], borrow);
      r[i] == y % B && SubMul(s[i + 1..], t[i + 1..], 1, 0, y / B % 2).words == r[i + 1..]
  {
    assert s[i..][0] == s[i] && s[i..][1..] == s[i + 1..];
    assert t[i..][0] == t[i] && t[i..][1..] == t[i + 1..];
    assert r[i..][0] == r[i] && r[i..][1..] == r[i + 1..];
    var y := Diff64(s[i], t[i], borrow);
    assert ([y % B] + SubMul(s[i + 1..], t[i + 1..], 1, 0, y / B % 2).words)[1..] == SubMul(s[i + 1..], t[i + 1..], 1, 0, y / B % 2).words;
  }

  /** Subtracts the number in `xb` from that in `xa`, which is not shorter. */
  method SubWords(xa: array<Word>, wa: nat, xb: array<Word>, wb: nat, xc: array<Word>)
    requires 0 < wb <= wa <= xa.Length && wb <= xb.Length && wa <= xc.Length && xc != xa && xc != xb
    modifies xc
    ensures xc[..wa] == SubMul(xa[..wa], Padded(xb[..wb], wa), 1, 0, 0).words
  {
    hide SubMul, Diff64, Padded;
    ghost var s, t := xa[..wa], Padded(xb[..wb], wa);
    ghost var r := SubMul(s, t, 1, 0, 0).words;
    var borrow: nat := 0;
    var i := 0;
    assert s[0..] == s && t[0..] == t && r[0..] == r;
    while i < wb
      invariant i <= wb && borrow <= 1
      invariant forall j | 0 <= j < i :: xc[j] == r[j]
      invariant SubMul(s[i..], t[i..], 1, 0, borrow).words == r[i..]
    {
      assert t[i] == t[..wb][i] == xb[i];
      SubPeel(s, t, i, borrow, r);
      var y := Diff64(xa[i], xb[i], borrow);
      borrow := y / B % 2;
      xc[i] := y % B;
      i := i + 1;
    }
    while i < wa
      invariant wb <= i <= wa && borrow <= 1
      invariant forall j | 0 <= j < i :: xc[j] == r[j]
      invariant SubMul(s[i..], t[i..], 1, 0, borrow).words == r[i..]
    {
      SubPeel(s, t, i, borrow, r);
      var y := Diff64(xa[i], 0, borrow);
      borrow := y / B % 2;
      xc[i] := y % B;
      i := i + 1;
    }
    assert xc[..wa] == r;
  }

  /** `diff`: the absolute difference, with the sign of `a0 - b0`. `None` is a read before the first
      word, by `cmp` or by the loop that drops leading zero words, which has no bound of its own. */
  method Diff(a0: Bigint, b0: Bigint) returns (r: Option<Bigint>)
    requires a0.Valid() && b0.Valid()
    ensures r.None? <==> a0.wds + b0.wds == 0 || (a0.wds + b0.wds == 1 && a0.Value() == b0.Value())
    ensures r.Some? ==>
      && fresh(r.value) && fresh(r.value.x) && r.value.Valid() && r.value.wds > 0
      && r.value.sign == (if a0.Value() < b0.Value() then 1 else 0)
      && r.value.Value() == if a0.Value() < b0.Value() then b0.Value() - a0.Value() else a0.Value() - b0.Value()
  {
    hide Val;
    var a, b := a0, b0;
    var order := Cmp(a, b);
    if order.None? {
      return None;
    }
    var i := order.value;
    if i == 0 {
      var zero := ZeroNumber();
      return Some(zero);
    }
    if i < 0 {
      a, b, i := b, a, 1;
    } else {
      i := 0;
    }
    NotLonger(b.x[..b.wds], a.x[..a.wds]);
    var c, wa := Subtract(a, b, i);
    if wa == 0 {
      return None;
    }
    TopPositive(c.x[..wa]);
    return Some(c);
  }

  method ZeroNumber() returns (c: Bigint)
    ensures fresh(c) && fresh(c.x) && c.Valid() && c.wds == 1 && c.sign == 0 && c.Value() == 0
  {
    c := new Bigint(0);
    c.wds := 1;
    c.x[0] := 0;
    ValSingle(c.x[..1]);
  }

  lemma TopPositive(s: seq<Word>)
    requires s != [] && s[|s| - 1] != 0
    ensures Val(s) > 0
  {
    ValTop(s);
  }

  /** The difference of two numbers in order, with leading zero words dropped. */
  method Subtract(a: Bigint, b: Bigint, sign: nat) returns (c: Bigint, wa: nat)
    requires a.Valid() && b.Valid() && 0 < a.wds && b.wds <= a.wds && b.Value() <= a.Value()
    ensures fresh(c) && fresh(c.x) && c.Valid() && c.sign == sign && c.wds == wa && (wa > 0 ==> c.x[wa - 1] != 0)
    ensures c.Value() == a.Value() - b.Value() && (wa == 0 ==> c.Value() == 0)
  {
    hide SubMul, Padded;
    c := new Bigint(a.k);
    c.sign := sign;
    // the loop body runs at least once
    var wb := if b.wds == 0 then 1 else b.wds;
    assert Val(b.x[..wb]) == b.Value() by {
      if b.wds == 0 {
        ValSingle(b.x[..1]);
      }
    }
    SubWords(a.x, a.wds, b.x, wb, c.x);
    DiffValue(a.x[..a.wds], b.x[..wb]);
    wa := Trim(c.x, a.wds);
    c.wds := wa;
  }

  lemma NotLonger(s: seq<Word>, t: seq<Word>)
    requires (|s| == 1 || s == [] || s[|s| - 1] != 0) && (Val(s) < Val(t) || (Val(s) == Val(t) && |s| < |t|))
    ensures |s| <= |t| && t != []
  {
    if |s| > |t| {
      LongerIsLarger(s, t);
    }
  }

  lemma DiffValue(s: seq<Word>, t: seq<Word>)
    requires |t| <= |s| && Val(t) <= Val(s)
    ensures Val(SubMul(s, Padded(t, |s|), 1, 0, 0).words) == Val(s) - Val(t)
  {
    ValTrim(Padded(t, |s|), |t|);
    SubMulExact(s, Padded(t, |s|), 1);
  }

  //////////////////////////////////////////////////////////////////////////////
  // lshift
  //////////////////////////////////////////////////////////////////////////////

  lemma {:induction false} Pow2Add(m: nat, n: nat)
    ensures Pow2(m + n) == Pow2(m) * Pow2(n)
  {
    if m > 0 {
      Pow2Add(m - 1, n);
      assert Pow2(m - 1 + n) * 2 == Pow2(m) * Pow2(n);
    }
  }

  lemma Pow2Word()
    ensures Pow2(32) == B
  {
    assert Pow2(8) == 0x100;
    Pow2Add(8, 8);
    Pow2Add(16, 16);
  }

  lemma {:induction false} Pow2Words(n: nat)
    ensures Pow2(32 * n) == PowB(n)
  {
    if n > 0 {
      Pow2Words(n - 1);
      Pow2Add(32, 32 * (n - 1));
      Pow2Word();
    }
  }

  /** Shifting a word left by `sh` bits and filling in `z` is a multiplication step. */
  lemma ShiftStep(x: nat, p: nat, q: nat, z: nat)
    requires p > 0 && q > 0 && p * q == B && x < B && z < p
    ensures x * p % B + z == (x * p + z) % B && x / q == (x * p + z) / B
    ensures x / q < p
  {
    var h, r := x / q, x % q;
    assert x == h * q + r && r < q by { assert x == q * (x / q) + x % q; }
    ShiftParts(x, h, r, p, q, z);
    DivModUnique(x * p, h, r * p);
    DivModUnique(x * p + z, h, r * p + z);
  }

  lemma ShiftParts(x: nat, h: nat, r: nat, p: nat, q: nat, z: nat)
    requires p * q == B && x < B && z < p && x == h * q + r && r < q
    ensures x * p == h * B + r * p && r * p + z < B && h < p
  {
    assert (h * q + r) * p == h * (p * q) + r * p;
    MulMonotone(r + 1, q, p);
    assert (r + 1) * p == r * p + p;
    assert h >= p ==> h * q >= p * q by { if h >= p { MulMonotone(p, h, q); } }
  }

  lemma DivModUnique(a: nat, h: nat, r: nat)
    requires a == h * B + r && r < B
    ensures a / B == h && a % B == r
  {
  }

  /** Writes the first `n` words of `x`, shifted left by 1 to 31 bits, from `at` on. */
  method ShiftWords(x: array<Word>, n: nat, sh: nat, x1: array<Word>, at: nat)
    requires 0 < n <= x.Length && at + n < x1.Length && x != x1 && 0 < sh < 32
    modifies x1
    ensures Pow2(sh) < B && x1[at..at + n + 1] == MulAdd(x[..n], Pow2(sh), 0)
    ensures x1[..at] == old(x1[..at])
  {
    hide MulAdd, Pow2;
    Pow2Add(sh, 32 - sh);
    Pow2Word();
    var p, q := Pow2(sh), Pow2(32 - sh);
    ShiftFactor(sh);
    ghost var s := x[..n];
    ghost var r := MulAdd(s, p, 0);
    assert s[0..] == s && r[0..] == r;
    var z: Word := 0;
    var i := 0;
    while i < n
      invariant i <= n && z < p
      invariant x1[..at] == old(x1[..at])
      invariant forall j | 0 <= j < i :: x1[at + j] == r[j]
      invariant MulAdd(s[i..], p, z) == r[i..]
    {
      ShiftStep(x[i], p, q, z);
      MulAddPeel(s, i, p, z, r);
      x1[at + i] := x[i] * p % B + z;
      z := x[i] / q;
      i := i + 1;
    }
    MulAddEnd(s, p, z, r);
    x1[at + n] := z;
    assert x1[at..at + n + 1] == r;
  }

  lemma ShiftFactor(sh: nat)
    requires 0 < sh < 32
    ensures Pow2(sh) < B
  {
    Pow2Add(sh, 32 - sh);
    Pow2Word();
    MulMonotone(2, Pow2(32 - sh), Pow2(sh));
  }

  /** Writes `n` zero words and then the number `s`, shifted left by `sh` bits. */
  method ShiftInto(x: array<Word>, wds: nat, n: nat, sh: nat, x1: array<Word>) returns (n1: nat)
    requires 0 < wds <= x.Length && x != x1 && n + wds + (if sh == 0 then 0 else 1) <= x1.Length && sh < 32
    modifies x1
    ensures (n1 == n + wds || n1 == n + wds + 1) && n1 <= x1.Length
    ensures Val(x1[..n1]) == PowB(n) * (Val(x[..wds]) * Pow2(sh))
    ensures x[wds - 1] != 0 ==> x1[n1 - 1] != 0
    ensures n1 == n + wds + 1 ==> x1[n1 - 1] != 0
    ensures forall j | 0 <= j < n :: x1[j] == 0
  {
    hide Val, PowB;
    ghost var s := x[..wds];
    ZeroWords(x1, n);
    n1 := n + wds;
    if sh != 0 {
      ghost var zeros := x1[..n];
      ShiftWords(x, wds, sh, x1, n);
      if x1[n + wds] != 0 {
        n1 := n1 + 1;
      }
      ghost var shifted := x1[n..n + wds + 1];
      ShiftedValue(s, sh, n, zeros, shifted, n1);
      assert x1[..n + wds + 1] == zeros + shifted;
      assert (zeros + shifted)[..n1] == x1[..n1] && (zeros + shifted)[n1 - 1] == x1[n1 - 1];
    } else {
      for j := 0 to wds
        invariant x1[n..n + j] == s[..j] && forall j | 0 <= j < n :: x1[j] == 0
      {
        x1[n + j] := x[j];
      }
      CopiedValue(s, n, x1[..n]);
      assert x1[..n + wds] == x1[..n] + s;
      assert Pow2(0) == 1;
    }
  }

  /** The capacity that doubling `m` reaches for `n1` words. */
  function Capacity(m: nat, n1: nat): (c: nat)
    requires m > 0
    ensures c >= m && c >= n1
    decreases n1 - m
  {
    if n1 <= m then m else Capacity(2 * m, n1)
  }

  /** `lshift`: `b * 2^k` in a new number. `None` is a write past the end, which happens exactly when
      a number without a word in use is shifted by part of a word into a number without room to
      spare. */
  method LShift(b: Bigint, k: nat) returns (r: Option<Bigint>)
    requires b.Valid()
    ensures r.None? <==> b.wds == 0 && k % 32 != 0 && Capacity(b.maxwds, k / 32 + 1) == k / 32 + 1
    ensures r.Some? ==>
      && fresh(r.value) && fresh(r.value.x) && b.wds <= r.value.wds <= r.value.x.Length
      && Val(r.value.x[..r.value.wds]) == b.Value() * Pow2(k)
      && (r.value.Valid() <==> b.Value() > 0 || k < 32 || (b.wds == 0 && k < 64))
      && (b.Value() > 0 ==> r.value.wds > 0 && r.value.x[r.value.wds - 1] != 0)
  {
    hide Val, Capacity;
    var n, sh := k / 32, k % 32;
    var k1, n1 := b.k, n + b.wds + 1;
    var i := b.maxwds;
    while n1 > i
      invariant i == Pow2(k1) && Capacity(i, n1) == Capacity(b.maxwds, n1)
      decreases n1 - i
    {
      CapacityStep(i, n1);
      i := i * 2;
      k1 := k1 + 1;
    }
    CapacityStep(i, n1);
    var b1 := new Bigint(k1);
    if b.wds == 0 {
      if sh != 0 && n + 1 >= b1.maxwds {
        return None;
      }
      ShiftNothing(b, n, sh, b1);
    } else {
      ShiftWhole(b, n, sh, b1);
    }
    ShiftAmount(b.Value(), n, sh, k);
    return Some(b1);
  }

  lemma CapacityStep(i: nat, n1: nat)
    requires i > 0
    ensures Capacity(i, n1) == if n1 > i then Capacity(2 * i, n1) else i
  {
  }

  /** A number with words in use, shifted into one with room for the last carry. */
  method ShiftWhole(b: Bigint, n: nat, sh: nat, r: Bigint)
    requires b.Valid() && b.wds > 0 && sh < 32 && n + b.wds + 1 <= r.maxwds == r.x.Length == Pow2(r.k) && r.x != b.x && r != b
    modifies r, r.x
    ensures b.wds <= r.wds <= r.x.Length && Val(r.x[..r.wds]) == PowB(n) * (b.Value() * Pow2(sh))
    ensures r.Valid() <==> b.Value() > 0 || n == 0
    ensures b.Value() > 0 ==> r.wds > 0 && r.x[r.wds - 1] != 0
  {
    hide Val, PowB;
    TopOfValue(b.x[..b.wds]);
    var n1 := ShiftInto(b.x, b.wds, n, sh, r.x);
    r.wds := n1;
    if b.Value() == 0 {
      assert PowB(n) * (b.Value() * Pow2(sh)) == 0;
      ZeroTop(r.x[..r.wds]);
      assert r.x[..r.wds][r.wds - 1] == 0;
    }
  }

  /** A number without words in use: the first word is copied all the same, but not counted. */
  method ShiftNothing(b: Bigint, n: nat, sh: nat, r: Bigint)
    requires b.Valid() && b.wds == 0 && sh < 32 && r.maxwds == r.x.Length == Pow2(r.k) && r.x != b.x && r != b
    requires n + 1 + (if sh == 0 then 0 else 1) <= r.x.Length
    modifies r, r.x
    ensures r.wds == n && Val(r.x[..n]) == PowB(n) * (b.Value() * Pow2(sh)) == 0
    ensures r.Valid() <==> n <= 1
  {
    ValSingle(b.x[..1]);
    assert b.Value() == 0 && Val(b.x[..1]) == 0;
    hide Val, PowB;
    var n1 := ShiftInto(b.x, 1, n, sh, r.x);
    r.wds := n;
    assert PowB(n) * (0 * Pow2(sh)) == 0;
    ValZeros(r.x[..n]);
    ZeroTop(r.x[..n1]);
    assert r.x[..n1][n1 - 1] == 0;
  }

  lemma ZeroTop(s: seq<Word>)
    requires s != [] && Val(s) == 0
    ensures s[|s| - 1] == 0
  {
    if s[|s| - 1] != 0 {
      ValTop(s);
    }
  }

  /** A normalised number is zero exactly when its top word is. */
  lemma TopOfValue(s: seq<Word>)
    requires s != [] && (|s| > 1 ==> s[|s| - 1] != 0)
    ensures Val(s) > 0 <==> s[|s| - 1] != 0
  {
    if |s| == 1 {
      ValSingle(s);
    } else {
      ValTop(s);
    }
  }

  lemma ShiftAmount(v: nat, n: nat, sh: nat, k: nat)
    requires k == 32 * n + sh
    ensures v * Pow2(k) == PowB(n) * (v * Pow2(sh))
  {
    hide *;
    Pow2Add(32 * n, sh);
    Pow2Words(n);
    Rearrange(v, PowB(n), Pow2(sh));
  }

  lemma Rearrange(v: nat, p: nat, q: nat)
    ensures v * (p * q) == p * (v * q)
  {
  }

  lemma CopiedValue(s: seq<Word>, n: nat, zeros: seq<Word>)
    requires |zeros| == n && forall i | 0 <= i < n :: zeros[i] == 0
    ensures Val(zeros + s) == PowB(n) * Val(s)
  {
    ValAppend(zeros, s);
    ValZeros(zeros);
  }

  /** The value of a shifted number, with or without the last carry, and its top word. */
  lemma ShiftedValue(s: seq<Word>, sh: nat, n: nat, zeros: seq<Word>, shifted: seq<Word>, wds: nat)
    requires s != [] && 0 < sh < 32 && |zeros| == n && forall i | 0 <= i < n :: zeros[i] == 0
    requires Pow2(sh) < B && shifted == MulAdd(s, Pow2(sh), 0)
    requires wds == n + |s| + if shifted[|s|] != 0 then 1 else 0
    ensures Val((zeros + shifted)[..wds]) == PowB(n) * (Val(s) * Pow2(sh))
    ensures s[|s| - 1] != 0 ==> (zeros + shifted)[wds - 1] != 0
  {
    hide Val, MulAdd, PowB, Pow2;
    MulAddValue(s, Pow2(sh), 0);
    CopiedValue(shifted, n, zeros);
    ValTrim(zeros + shifted, wds);
    if s[|s| - 1] != 0 {
      MulAddTop(s, Pow2(sh), 0);
    }
  }
}
