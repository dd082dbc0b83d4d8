/** Powers of five with their cache, and the conversion of decimal digits, in dtoa.c. */
module Powers {
  import opened Common
  import opened Words
  import opened BigintArithmetic

  function Pow5(n: nat): (p: nat)
    ensures p >= 1
  {
    if n == 0 then 1 else 5 * Pow5(n - 1)
  }

  lemma {:induction false} Pow5Add(m: nat, n: nat)
    ensures Pow5(m + n) == Pow5(m) * Pow5(n)
  {
    if m > 0 {
      Pow5Add(m - 1, n);
      assert 5 * (Pow5(m - 1) * Pow5(n)) == Pow5(m) * Pow5(n);
    }
  }

  /** `n` holds 5^(4 * 2^i). */
  ghost predicate IsPower(n: Bigint, i: nat)
    reads n, n.x
  {
    n.Valid() && n.wds > 0 && n.Value() == Pow5(4 * Pow2(i))
  }

  method FirstNode() returns (p5: Bigint)
    ensures IsPower(p5, 0) && fresh(p5) && fresh(p5.x)
  {
    hide Val;
    p5 := FromWord(625);
    assert Pow5(3) == 125;
  }

  lemma ValuePositive(s: seq<Word>)
    ensures Val(s) > 0 ==> s != []
  {
  }

  method SquareNode(n: Bigint, i: nat) returns (p5: Bigint)
    requires IsPower(n, i)
    ensures IsPower(p5, i + 1) && fresh(p5) && fresh(p5.x)
  {
    Pow5Add(4 * Pow2(i), 4 * Pow2(i));
    hide Pow5;
    p5 := Mult(n, n);
    ValuePositive(p5.x[..p5.wds]);
  }

  /** The list of cached powers: node `i` holds 5^(4 * 2^i). */
  class PowerCache {
    var nodes: seq<Bigint>

    ghost predicate Valid()
      reads this, nodes, set n | n in nodes :: n.x
    {
      forall i | 0 <= i < |nodes| :: IsPower(nodes[i], i)
    }

    /** `b` shares nothing with the cache. */
    ghost predicate Apart(b: Bigint)
      reads this
    {
      forall i | 0 <= i < |nodes| :: nodes[i] != b && nodes[i].x != b.x
    }

    constructor ()
      ensures Valid() && nodes == []
    {
      nodes := [];
    }

    /** Node `i`, computed from the node before it when it is not there yet. */
    method Node(i: nat) returns (p5: Bigint)
      requires Valid() && i <= |nodes|
      modifies this
      ensures Valid() && i < |nodes| && p5 == nodes[i]
      ensures nodes == old(nodes) || (nodes == old(nodes) + [p5] && fresh(p5) && fresh(p5.x))
    {
      hide IsPower;
      if i == |nodes| {
        if i == 0 {
          p5 := FirstNode();
        } else {
          p5 := SquareNode(nodes[i - 1], i - 1);
        }
        nodes := nodes + [p5];
      }
      p5 := nodes[i];
    }
  }

  /** The factor that bit `i` and the bits above it contribute when they read `k`. */
  function Remaining(k: nat, i: nat): nat { Pow5(4 * Pow2(i) * k) }

  lemma RemainingEnds(k: nat, i: nat)
    ensures Remaining(k, 0) == Pow5(4 * k) && Remaining(0, i) == 1
  {
    assert Pow2(0) == 1;
  }

  /** Halving the exponent while the base is squared. */
  lemma ExponentStep(k: nat, i: nat)
    ensures Remaining(k, i) == (if k % 2 == 1 then Pow5(4 * Pow2(i)) else 1) * Remaining(k / 2, i + 1)
  {
    var e := 4 * Pow2(i);
    assert 4 * Pow2(i + 1) == 2 * e;
    hide Pow2;
    HalveExponent(e, k);
    if k % 2 == 1 {
      Pow5Add(e, 2 * e * (k / 2));
    }
  }

  lemma HalveExponent(e: nat, k: nat)
    ensures e * k == (if k % 2 == 1 then e else 0) + 2 * e * (k / 2)
  {
    var h, r := k / 2, k % 2;
    assert e * (2 * h + r) == 2 * e * h + e * r;
  }

  /** The factor for the low two bits of the exponent. */
  method SmallPower(b: Bigint, i: nat) returns (r: Bigint)
    requires b.Valid() && i < 4
    modifies b, b.x
    ensures r.Valid() && r.Value() == old(b.Value()) * Pow5(i)
    ensures r == b || (fresh(r) && fresh(r.x))
  {
    assert Pow5(1) == 5 && Pow5(2) == 25 && Pow5(3) == 125;
    hide Val, Pow5;
    r := b;
    if i != 0 {
      r := MultAdd(b, if i == 1 then 5 else if i == 2 then 25 else 125, 0);
    } else {
      assert Pow5(0) == 1 by { PowerZero(); }
    }
  }

  lemma PowerZero()
    ensures Pow5(0) == 1
  {
  }

  /** One bit of the exponent: multiplies by the cached power if the bit is set. */
  method BitPower(r: Bigint, p5: Bigint, k: nat, ghost i: nat) returns (r': Bigint)
    requires r.Valid() && IsPower(p5, i)
    ensures r'.Valid() && (r' == r || (fresh(r') && fresh(r'.x)))
    ensures r.Value() * Remaining(k, i) == r'.Value() * Remaining(k / 2, i + 1)
  {
    hide Val, Pow5, Pow2, Remaining;
    ExponentStep(k, i);
    r' := r;
    if k % 2 == 1 {
      r' := Mult(r, p5);
      Reassociate(r.Value(), Pow5(4 * Pow2(i)), Remaining(k / 2, i + 1), Remaining(k, i));
    }
  }

  lemma Reassociate(v: nat, p: nat, q: nat, pq: nat)
    requires pq == p * q
    ensures v * pq == v * p * q
  {
  }

  /** Multiplies by 5^(4 * k), bit by bit of `k`, along the cached powers. */
  method LargePower(b: Bigint, k0: nat, cache: PowerCache) returns (r: Bigint)
    requires b.Valid() && k0 > 0 && cache.Valid() && cache.Apart(b)
    modifies cache
    ensures r.Valid() && r.Value() == b.Value() * Pow5(4 * k0)
    ensures cache.Valid() && old(cache.nodes) <= cache.nodes
    ensures r == b || (fresh(r) && fresh(r.x))
    ensures cache.Apart(r)
  {
    hide Val, IsPower, Pow5, Remaining;
    r := b;
    var k: nat, i: nat := k0, 0;
    var p5 := cache.Node(0);
    RemainingEnds(k0, 0);
    while true
      invariant r.Valid() && (r == b || (fresh(r) && fresh(r.x)))
      invariant cache.Valid() && cache.Apart(r) && old(cache.nodes) <= cache.nodes
      invariant i < |cache.nodes| && p5 == cache.nodes[i]
      invariant r.Value() * Remaining(k, i) == b.Value() * Remaining(k0, 0)
      decreases k
    {
      r := BitPower(r, p5, k, i);
      k := k / 2;
      if k == 0 {
        RemainingEnds(k, i + 1);
        break;
      }
      i := i + 1;
      p5 := cache.Node(i);
    }
  }

  /** `pow5mult`: `b * 5^k`; the cache keeps every power that was needed. */
  method Pow5Mult(b: Bigint, k: nat, cache: PowerCache) returns (r: Bigint)
    requires b.Valid() && cache.Valid() && cache.Apart(b)
    modifies b, b.x, cache
    ensures r.Valid() && r.Value() == old(b.Value()) * Pow5(k)
    ensures cache.Valid() && old(cache.nodes) <= cache.nodes
    ensures r == b || (fresh(r) && fresh(r.x))
    ensures cache.Apart(r)
  {
    SplitExponent(k);
    hide Val, IsPower, Pow5;
    r := SmallPower(b, k % 4);
    Reassociate(old(b.Value()), Pow5(k % 4), Pow5(4 * (k / 4)), Pow5(k));
    if k / 4 == 0 {
      PowerZero();
    } else {
      r := LargePower(r, k / 4, cache);
    }
  }

  lemma SplitExponent(k: nat)
    ensures Pow5(k) == Pow5(k % 4) * Pow5(4 * (k / 4))
  {
    Pow5Add(k % 4, 4 * (k / 4));
  }

  //////////////////////////////////////////////////////////////////////////////
  // Decimal digits
  //////////////////////////////////////////////////////////////////////////////

  /** A decimal text: `nd0` digits, then a point of `dplen` characters, then the other digits. */
  predicate IsDecimal(text: seq<char>, nd0: nat, nd: nat, dplen: nat) {
    && nd0 <= nd && |text| >= nd + dplen
    && (forall i | 0 <= i < nd :: '0' <= text[Position(i, nd0, dplen)] <= '9')
  }

  /** Where digit `i` is in the text. */
  function Position(i: nat, nd0: nat, dplen: nat): nat {
    if i < nd0 then i else i + dplen
  }

  /** The number that the first `n` digits denote. */
  function Decimal(text: seq<char>, nd0: nat, nd: nat, dplen: nat, n: nat): nat
    requires IsDecimal(text, nd0, nd, dplen) && n <= nd
  {
    if n == 0 then 0
    else 10 * Decimal(text, nd0, nd, dplen, n - 1) + (text[Position(n - 1, nd0, dplen)] - '0') as nat
  }

  /** Appends digit `i`, which is at position `at` of the text. */
  method AppendDigit(b: Bigint, text: seq<char>, nd0: nat, nd: nat, dplen: nat, ghost i: nat, at: nat) returns (r: Bigint)
    requires IsDecimal(text, nd0, nd, dplen) && i < nd && at == Position(i, nd0, dplen)
    requires b.Valid() && b.wds > 0 && b.Value() == Decimal(text, nd0, nd, dplen, i)
    modifies b, b.x
    ensures r.Valid() && r.wds > 0 && (r == b || (fresh(r) && fresh(r.x)))
    ensures r.Value() == Decimal(text, nd0, nd, dplen, i + 1)
  {
    hide Val;
    r := MultAdd(b, 10, (text[at] - '0') as nat);
  }

  /** Room for `nd` digits, holding the number of the first nine. */
  method FirstNine(nd: nat, y9: Word) returns (b: Bigint)
    ensures b.Valid() && b.wds > 0 && b.Value() == y9 && fresh(b) && fresh(b.x)
    // the least capacity with a word for every nine digits
    ensures nd <= 9 * b.maxwds && (b.k > 0 ==> 9 * Pow2(b.k - 1) < nd)
  {
    hide Val;
    var x, k, y := (nd + 8) / 9, 0, 1;
    while x > y
      invariant y == Pow2(k) && (k > 0 ==> Pow2(k - 1) < x)
      decreases x - y
    {
      y := y * 2;
      k := k + 1;
    }
    b := new Bigint(k);
    b.x[0] := y9;
    b.wds := 1;
    ValSingle(b.x[..1]);
  }

  /** `s2b`: the number that `nd` decimal digits denote, given that of the first nine or, of a
      shorter text, of all. */
  method S2b(text: seq<char>, nd0: nat, nd: nat, y9: Word, dplen: nat) returns (b: Bigint)
    requires IsDecimal(text, nd0, nd, dplen) && y9 == Decimal(text, nd0, nd, dplen, if nd < 9 then nd else 9)
    ensures b.Valid() && b.Value() == Decimal(text, nd0, nd, dplen, nd) && fresh(b) && fresh(b.x)
  {
    assert nd0 <= nd;
    hide Val, Decimal, IsDecimal;
    b := FirstNine(nd, y9);
    var i, s := 9, 0;
    if 9 < nd0 {
      s := 9;
      while i < nd0
        invariant 9 <= i <= nd0 && s == i
        invariant b.Valid() && b.wds > 0 && fresh(b) && fresh(b.x)
        invariant b.Value() == Decimal(text, nd0, nd, dplen, i)
      {
        b := AppendDigit(b, text, nd0, nd, dplen, i, s);
        s := s + 1;
        i := i + 1;
      }
      s := s + dplen;
    } else {
      s := dplen + 9;
    }
    while i < nd
      invariant nd0 <= i && 9 <= i && (i <= nd || i == 9) && s == i + dplen
      invariant b.Valid() && b.wds > 0 && fresh(b) && fresh(b.x)
      invariant b.Value() == Decimal(text, nd0, nd, dplen, if i < nd then i else nd)
    {
      b := AppendDigit(b, text, nd0, nd, dplen, i, s);
      s := s + 1;
      i := i + 1;
    }
  }
}
