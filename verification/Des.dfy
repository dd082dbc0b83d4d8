/** The DES text codec of lua-crypt.c (Enciphering and Deciphering of FIPS 46-3) for any contents of
    the S-boxes and any key schedule: deciphering undoes enciphering and the padding comes off. */
module Des {
  type Octet = b: bv32 | b <= 0xFF

  /** The two halves of a block. */
  datatype Halves = Halves(x: bv32, y: bv32)

  //////////////////////////////////////////////////////////////////////////////
  // Permutations
  //////////////////////////////////////////////////////////////////////////////

  // The exchanges both permutation macros are made of.

  function Exchange4(p: Halves): Halves {
    var t := ((p.x >> 4) ^ p.y) & 0x0F0F0F0F;
    Halves(p.x ^ (t << 4), p.y ^ t)
  }

  function Exchange16(p: Halves): Halves {
    var t := ((p.x >> 16) ^ p.y) & 0x0000FFFF;
    Halves(p.x ^ (t << 16), p.y ^ t)
  }

  function Exchange2(p: Halves): Halves {
    var t := ((p.y >> 2) ^ p.x) & 0x33333333;
    Halves(p.x ^ t, p.y ^ (t << 2))
  }

  function Exchange8(p: Halves): Halves {
    var t := ((p.y >> 8) ^ p.x) & 0x00FF00FF;
    Halves(p.x ^ t, p.y ^ (t << 8))
  }

  function Exchange1(p: Halves): Halves {
    var t := (p.x ^ p.y) & 0xAAAAAAAA;
    Halves(p.x ^ t, p.y ^ t)
  }

  function RotateLeft(w: bv32): bv32 {
    (w << 1) | (w >> 31)
  }

  function RotateRight(w: bv32): bv32 {
    (w << 31) | (w >> 1)
  }

  /** `DES_IP`. */
  function InitialPermutation(p: Halves): Halves {
    var q := Exchange8(Exchange2(Exchange16(Exchange4(p))));
    var r := Exchange1(Halves(q.x, RotateLeft(q.y)));
    Halves(RotateLeft(r.x), r.y)
  }

  /** `DES_FP`. */
  function FinalPermutation(p: Halves): Halves {
    var q := Exchange1(Halves(RotateRight(p.x), p.y));
    var r := Halves(q.x, RotateRight(q.y));
    Exchange4(Exchange16(Exchange2(Exchange8(r))))
  }

  lemma Involution4(p: Halves)
    ensures Exchange4(Exchange4(p)) == p
  {
  }

  lemma Involution16(p: Halves)
    ensures Exchange16(Exchange16(p)) == p
  {
  }

  lemma Involution2(p: Halves)
    ensures Exchange2(Exchange2(p)) == p
  {
  }

  lemma Involution8(p: Halves)
    ensures Exchange8(Exchange8(p)) == p
  {
  }

  lemma Involution1(p: Halves)
    ensures Exchange1(Exchange1(p)) == p
  {
  }

  lemma Rotations(w: bv32)
    ensures RotateRight(RotateLeft(w)) == w && RotateLeft(RotateRight(w)) == w
  {
  }

  lemma FinalUndoesInitial(p: Halves)
    ensures FinalPermutation(InitialPermutation(p)) == p
  {
    hide Exchange1, Exchange2, Exchange4, Exchange8, Exchange16, RotateLeft, RotateRight;
    var a := Exchange4(p);
    var b := Exchange16(a);
    var c := Exchange2(b);
    var d := Exchange8(c);
    var e := Halves(d.x, RotateLeft(d.y));
    var f := Exchange1(e);
    Rotations(f.x);
    Involution1(e);
    Rotations(d.y);
    Involution8(c);
    Involution2(b);
    Involution16(a);
    Involution4(p);
  }

  lemma InitialUndoesFinal(p: Halves)
    ensures InitialPermutation(FinalPermutation(p)) == p
  {
    hide Exchange1, Exchange2, Exchange4, Exchange8, Exchange16, RotateLeft, RotateRight;
    var a := Halves(RotateRight(p.x), p.y);
    var b := Exchange1(a);
    var c := Halves(b.x, RotateRight(b.y));
    var d := Exchange8(c);
    var e := Exchange2(d);
    var f := Exchange16(e);
    Involution4(f);
    Involution16(e);
    Involution2(d);
    Involution8(c);
    Rotations(b.y);
    Involution1(a);
    Rotations(p.x);
  }

  //////////////////////////////////////////////////////////////////////////////
  // Bits, numbered as in FIPS 46-3: from 1 at the most significant end
  //////////////////////////////////////////////////////////////////////////////

  function Bit(w: bv32, n: bv32): bool {
    (w >> ((32 - n) & 31)) & 1 == 1
  }

  /** The word with only bit `n` has that bit and no other; addition goes bit by bit. So the bits of a
      word are its binary digits. */
  lemma BitOfOne(n: bv32, m: bv32)
    requires 1 <= n <= 32 && 1 <= m <= 32
    ensures Bit(0x8000_0000 >> ((n - 1) & 31), m) <==> m == n
  {
  }

  lemma BitOfSum(v: bv32, w: bv32, n: bv32)
    ensures Bit(v ^ w, n) <==> Bit(v, n) != Bit(w, n)
  {
  }

  /** Bit `n` of a block of 64. */
  function BlockBit(p: Halves, n: bv32): bool {
    if n <= 32 then Bit(p.x, n) else Bit(p.y, n - 32)
  }

  /** Bit `n` of a half between the permutations, where halves are kept rotated left by one. */
  function HalfBit(x: bv32, n: bv32): bool {
    Bit(x, if n == 1 then 32 else n - 1)
  }

  function InnerBit(p: Halves, n: bv32): bool {
    if n <= 32 then HalfBit(p.x, n) else HalfBit(p.y, n - 32)
  }

  /** The tables IP and IP^-1 of FIPS 46-3. */
  const INITIAL: seq<seq<bv32>> := [
    [58, 50, 42, 34, 26, 18, 10, 2],
    [60, 52, 44, 36, 28, 20, 12, 4],
    [62, 54, 46, 38, 30, 22, 14, 6],
    [64, 56, 48, 40, 32, 24, 16, 8],
    [57, 49, 41, 33, 25, 17, 9, 1],
    [59, 51, 43, 35, 27, 19, 11, 3],
    [61, 53, 45, 37, 29, 21, 13, 5],
    [63, 55, 47, 39, 31, 23, 15, 7]]

  const FINAL: seq<seq<bv32>> := [
    [40, 8, 48, 16, 56, 24, 64, 32],
    [39, 7, 47, 15, 55, 23, 63, 31],
    [38, 6, 46, 14, 54, 22, 62, 30],
    [37, 5, 45, 13, 53, 21, 61, 29],
    [36, 4, 44, 12, 52, 20, 60, 28],
    [35, 3, 43, 11, 51, 19, 59, 27],
    [34, 2, 42, 10, 50, 18, 58, 26],
    [33, 1, 41, 9, 49, 17, 57, 25]]

  function InitialSource(n: bv32): bv32 {
    (if n <= 32 then 58 + 2 * ((n - 1) >> 3) else 49 + 2 * ((n - 1) >> 3)) - 8 * ((n - 1) & 7)
  }

  function FinalSource(n: bv32): bv32 {
    (if n & 1 == 1 then 40 else 8) + 8 * (((n - 1) >> 1) & 3) - ((n - 1) >> 3)
  }

  /** The position of row `r` and column `c` in a table of eight columns. */
  function Position(r: nat, c: nat): bv32
    requires r < 8 && c < 8
  {
    8 * (r as bv32) + (c as bv32) + 1
  }

  lemma InitialTable(r: nat, c: nat)
    requires r < 8 && c < 8
    ensures 1 <= Position(r, c) <= 64 && INITIAL[r][c] == InitialSource(Position(r, c))
  {
    match r { case 0 => case 1 => case 2 => case 3 => case 4 => case 5 => case 6 => case 7 => }
    match c { case 0 => case 1 => case 2 => case 3 => case 4 => case 5 => case 6 => case 7 => }
  }

  lemma FinalTable(r: nat, c: nat)
    requires r < 8 && c < 8
    ensures 1 <= Position(r, c) <= 64 && FINAL[r][c] == FinalSource(Position(r, c))
  {
    match r { case 0 => case 1 => case 2 => case 3 => case 4 => case 5 => case 6 => case 7 => }
    match c { case 0 => case 1 => case 2 => case 3 => case 4 => case 5 => case 6 => case 7 => }
  }

  lemma InitialMoves(p: Halves, n: bv32)
    requires 1 <= n <= 64
    ensures InnerBit(InitialPermutation(p), n) == BlockBit(p, InitialSource(n))
  {
  }

  lemma FinalMoves(p: Halves, n: bv32)
    requires 1 <= n <= 64
    ensures BlockBit(FinalPermutation(p), n) == InnerBit(p, FinalSource(n))
  {
  }

  /** `DES_IP` puts every bit where table IP says. */
  lemma InitialBits(p: Halves, r: nat, c: nat)
    requires r < 8 && c < 8
    ensures InnerBit(InitialPermutation(p), Position(r, c)) == BlockBit(p, INITIAL[r][c])
  {
    hide InitialPermutation, InnerBit, BlockBit, InitialSource, Position, INITIAL;
    InitialTable(r, c);
    InitialMoves(p, Position(r, c));
  }

  /** `DES_FP` puts every bit where table IP^-1 says. */
  lemma FinalBits(p: Halves, r: nat, c: nat)
    requires r < 8 && c < 8
    ensures BlockBit(FinalPermutation(p), Position(r, c)) == InnerBit(p, FINAL[r][c])
  {
    hide FinalPermutation, InnerBit, BlockBit, FinalSource, Position, FINAL;
    FinalTable(r, c);
    FinalMoves(p, Position(r, c));
  }


  //////////////////////////////////////////////////////////////////////////////
  // Rounds
  //////////////////////////////////////////////////////////////////////////////

  /** Eight tables of 64 words, `SB1` to `SB8`. */
  type Boxes = b: seq<seq<bv32>> | |b| == 8 && forall i | 0 <= i < 8 :: |b[i]| == 64
    witness seq(8, _ => seq(64, _ => 0))

  function SixBits(t: bv32): (i: nat)
    ensures i < 64
  {
    (t & 0x3F) as nat
  }

  /** What `DES_ROUND` adds to the other half. */
  function RoundValue(sb: Boxes, k1: bv32, k2: bv32, x: bv32): bv32 {
    FourBoxes(sb, 7, k1 ^ x) ^ FourBoxes(sb, 6, k2 ^ ((x << 28) | (x >> 4)))
  }

  function Sum(a: bv32, b: bv32, c: bv32, d: bv32): bv32 {
    a ^ b ^ c ^ d
  }

  /** Every other box from `b` down, looked up by the bytes of `t` from the last one up. */
  function FourBoxes(sb: Boxes, b: nat, t: bv32): bv32
    requires 6 <= b < 8
  {
    Sum(sb[b][SixBits(t)], sb[b - 2][SixBits(t >> 8)], sb[b - 4][SixBits(t >> 16)], sb[b - 6][SixBits(t >> 24)])
  }

  /** The E bit-selection table of FIPS 46-3: the bits of a half that go to each box. */
  const EXPANSION: seq<seq<bv32>> := [
    [32, 1, 2, 3, 4, 5],
    [4, 5, 6, 7, 8, 9],
    [8, 9, 10, 11, 12, 13],
    [12, 13, 14, 15, 16, 17],
    [16, 17, 18, 19, 20, 21],
    [20, 21, 22, 23, 24, 25],
    [24, 25, 26, 27, 28, 29],
    [28, 29, 30, 31, 32, 1]]

  /** Bit `m` of the subkey for box `b`, both from 0: the second word serves boxes 1, 3, 5 and 7, the
      first one the others, six bits in each byte. */
  function SubkeyBit(b: bv32, m: bv32, k1: bv32, k2: bv32): bool {
    Bit(if b & 1 == 0 then k2 else k1, 8 * (b >> 1) + 3 + m)
  }

  /** Index `i` for box `b` is what table E selects from half `x`, added to the subkey. */
  ghost predicate IndexRight(i: bv32, b: nat, k1: bv32, k2: bv32, x: bv32)
    requires b < 8
  {
    i < 64 && forall m: nat | m < 6 :: IndexBitRight(i, b, m, k1, k2, x)
  }

  predicate IndexBitRight(i: bv32, b: nat, m: nat, k1: bv32, k2: bv32, x: bv32)
    requires b < 8 && m < 6
  {
    Bit(i, 27 + m as bv32) == (HalfBit(x, EXPANSION[b][m]) != SubkeyBit(b as bv32, m as bv32, k1, k2))
  }

  function ExpansionSource(b: bv32, m: bv32): bv32 {
    ((4 * b + m + 31) & 31) + 1
  }

  lemma ExpansionTable(b: nat, m: nat)
    requires b < 8 && m < 6
    ensures b as bv32 < 8 && m as bv32 < 6 && EXPANSION[b][m] == ExpansionSource(b as bv32, m as bv32)
  {
    match b { case 0 => case 1 => case 2 => case 3 => case 4 => case 5 => case 6 => case 7 => }
    match m { case 0 => case 1 => case 2 => case 3 => case 4 => case 5 => }
  }

  /** The six bits that `DES_ROUND` uses for box `b`. */
  function Index(b: bv32, k1: bv32, k2: bv32, x: bv32): bv32 {
    ((if b & 1 == 0 then k2 ^ ((x << 28) | (x >> 4)) else k1 ^ x) >> ((24 - 8 * (b >> 1)) & 31)) & 0x3F
  }

  lemma IndexMoves(b: bv32, m: bv32, k1: bv32, k2: bv32, x: bv32)
    requires b < 8 && m < 6
    ensures Bit(Index(b, k1, k2, x), 27 + m) == (HalfBit(x, ExpansionSource(b, m)) != SubkeyBit(b, m, k1, k2))
  {
    if b & 1 == 0 {
      IndexOfFirst(b >> 1, m, k1, k2, x);
    } else {
      IndexOfSecond(b >> 1, m, k1, k2, x);
    }
  }

  lemma IndexOfFirst(j: bv32, m: bv32, k1: bv32, k2: bv32, x: bv32)
    requires j < 4 && m < 6
    ensures Bit(Index(2 * j, k1, k2, x), 27 + m) == (HalfBit(x, ExpansionSource(2 * j, m)) != SubkeyBit(2 * j, m, k1, k2))
  {
  }

  lemma IndexOfSecond(j: bv32, m: bv32, k1: bv32, k2: bv32, x: bv32)
    requires j < 4 && m < 6
    ensures Bit(Index(2 * j + 1, k1, k2, x), 27 + m) ==
      (HalfBit(x, ExpansionSource(2 * j + 1, m)) != SubkeyBit(2 * j + 1, m, k1, k2))
  {
  }

  lemma IndexBits(b: nat, k1: bv32, k2: bv32, x: bv32)
    requires b < 8
    ensures Index(b as bv32, k1, k2, x) < 64 && IndexRight(Index(b as bv32, k1, k2, x), b, k1, k2, x)
  {
    var i := Index(b as bv32, k1, k2, x);
    assert i < 64;
    hide Index, Bit, HalfBit, ExpansionSource, SubkeyBit, EXPANSION;
    forall m: nat | m < 6
      ensures IndexBitRight(i, b, m, k1, k2, x)
    {
      ExpansionTable(b, m);
      IndexMoves(b as bv32, m as bv32, k1, k2, x);
    }
  }

  /** The indices of the eight boxes in a round. */
  ghost predicate IndicesRight(i: seq<bv32>, k1: bv32, k2: bv32, x: bv32) {
    |i| == 8 && forall b | 0 <= b < 8 :: i[b] < 64 && IndexRight(i[b], b, k1, k2, x)
  }

  function Looked(sb: Boxes, b: nat, i: bv32): bv32
    requires b < 8 && i < 64
  {
    sb[b][SixBits(i)]
  }

  lemma LookedAt(sb: Boxes, b: nat, i: bv32)
    requires b < 8 && i < 64
    ensures i as nat < 64 && Looked(sb, b, i) == sb[b][i as nat]
  {
    assert i & 0x3F == i;
  }

  lemma FirstIndices(k1: bv32, k2: bv32, x: bv32)
    ensures var t := k1 ^ x;
      && t & 0x3F == Index(7, k1, k2, x) && (t >> 8) & 0x3F == Index(5, k1, k2, x)
      && (t >> 16) & 0x3F == Index(3, k1, k2, x) && (t >> 24) & 0x3F == Index(1, k1, k2, x)
  {
  }

  lemma SecondIndices(k1: bv32, k2: bv32, x: bv32)
    ensures var u := k2 ^ ((x << 28) | (x >> 4));
      && u & 0x3F == Index(6, k1, k2, x) && (u >> 8) & 0x3F == Index(4, k1, k2, x)
      && (u >> 16) & 0x3F == Index(2, k1, k2, x) && (u >> 24) & 0x3F == Index(0, k1, k2, x)
  {
  }

  lemma LookedUp(sb: Boxes, b: nat, t: bv32, i: bv32)
    requires b < 8 && t & 0x3F == i
    ensures i < 64 && sb[b][SixBits(t)] == Looked(sb, b, i)
  {
    assert i & 0x3F == i;
  }

  lemma FourLooked(sb: Boxes, b: nat, t: bv32, i: bv32, j: bv32, k: bv32, l: bv32)
    requires 6 <= b < 8 && t & 0x3F == i && (t >> 8) & 0x3F == j && (t >> 16) & 0x3F == k && (t >> 24) & 0x3F == l
    ensures i < 64 && j < 64 && k < 64 && l < 64
    ensures FourBoxes(sb, b, t) == Sum(Looked(sb, b, i), Looked(sb, b - 2, j), Looked(sb, b - 4, k), Looked(sb, b - 6, l))
  {
    hide SixBits, Looked, Sum;
    LookedUp(sb, b, t, i);
    LookedUp(sb, b - 2, t >> 8, j);
    LookedUp(sb, b - 4, t >> 16, k);
    LookedUp(sb, b - 6, t >> 24, l);
  }

  lemma FirstFour(sb: Boxes, k1: bv32, k2: bv32, x: bv32, i: bv32, j: bv32, k: bv32, l: bv32)
    requires i == Index(7, k1, k2, x) && j == Index(5, k1, k2, x) && k == Index(3, k1, k2, x) && l == Index(1, k1, k2, x)
    ensures i < 64 && j < 64 && k < 64 && l < 64
    ensures FourBoxes(sb, 7, k1 ^ x) == Sum(Looked(sb, 7, i), Looked(sb, 5, j), Looked(sb, 3, k), Looked(sb, 1, l))
  {
    hide Index, FourBoxes, Looked, Sum;
    FirstIndices(k1, k2, x);
    FourLooked(sb, 7, k1 ^ x, i, j, k, l);
  }

  lemma SecondFour(sb: Boxes, k1: bv32, k2: bv32, x: bv32, i: bv32, j: bv32, k: bv32, l: bv32)
    requires i == Index(6, k1, k2, x) && j == Index(4, k1, k2, x) && k == Index(2, k1, k2, x) && l == Index(0, k1, k2, x)
    ensures i < 64 && j < 64 && k < 64 && l < 64
    ensures FourBoxes(sb, 6, k2 ^ ((x << 28) | (x >> 4))) ==
      Sum(Looked(sb, 6, i), Looked(sb, 4, j), Looked(sb, 2, k), Looked(sb, 0, l))
  {
    hide Index, FourBoxes, Looked, Sum;
    SecondIndices(k1, k2, x);
    FourLooked(sb, 6, k2 ^ ((x << 28) | (x >> 4)), i, j, k, l);
  }

  lemma IndicesOf(k1: bv32, k2: bv32, x: bv32) returns (i: seq<bv32>)
    ensures IndicesRight(i, k1, k2, x)
    ensures i == [Index(0, k1, k2, x), Index(1, k1, k2, x), Index(2, k1, k2, x), Index(3, k1, k2, x),
                  Index(4, k1, k2, x), Index(5, k1, k2, x), Index(6, k1, k2, x), Index(7, k1, k2, x)]
  {
    hide Index, IndexRight;
    i := [Index(0, k1, k2, x), Index(1, k1, k2, x), Index(2, k1, k2, x), Index(3, k1, k2, x),
          Index(4, k1, k2, x), Index(5, k1, k2, x), Index(6, k1, k2, x), Index(7, k1, k2, x)];
    IndexBits(0, k1, k2, x);
    IndexBits(1, k1, k2, x);
    IndexBits(2, k1, k2, x);
    IndexBits(3, k1, k2, x);
    IndexBits(4, k1, k2, x);
    IndexBits(5, k1, k2, x);
    IndexBits(6, k1, k2, x);
    IndexBits(7, k1, k2, x);
  }

  /** `DES_ROUND` gives each of the eight boxes the bits that table E names, added to its subkey bits. */
  lemma RoundBoxes(sb: Boxes, k1: bv32, k2: bv32, x: bv32) returns (i: seq<bv32>)
    ensures IndicesRight(i, k1, k2, x)
    ensures RoundValue(sb, k1, k2, x) ==
      Sum(Looked(sb, 7, i[7]), Looked(sb, 5, i[5]), Looked(sb, 3, i[3]), Looked(sb, 1, i[1]))
      ^ Sum(Looked(sb, 6, i[6]), Looked(sb, 4, i[4]), Looked(sb, 2, i[2]), Looked(sb, 0, i[0]))
  {
    hide Index, Looked, FourBoxes, IndexRight, Sum;
    i := IndicesOf(k1, k2, x);
    FirstFour(sb, k1, k2, x, i[7], i[5], i[3], i[1]);
    SecondFour(sb, k1, k2, x, i[6], i[4], i[2], i[0]);
  }

  /** A round changes the first half by the second; the next round has the halves the other way. */
  function Round(sb: Boxes, p: Halves, k1: bv32, k2: bv32): Halves {
    Halves(p.y, p.x ^ RoundValue(sb, k1, k2, p.y))
  }

  function Rounds(sb: Boxes, p: Halves, sk: seq<bv32>): Halves
    requires |sk| % 2 == 0
    decreases |sk|
  {
    if sk == [] then p else Rounds(sb, Round(sb, p, sk[0], sk[1]), sk[2..])
  }

  /** The subkey pairs in reverse order. */
  function Reversed(sk: seq<bv32>): (r: seq<bv32>)
    requires |sk| % 2 == 0
    ensures |r| == |sk|
    decreases |sk|
  {
    if sk == [] then [] else Reversed(sk[2..]) + [sk[0], sk[1]]
  }

  function Swap(p: Halves): Halves {
    Halves(p.y, p.x)
  }

  lemma {:induction false} RoundsLast(sb: Boxes, p: Halves, sk: seq<bv32>, k1: bv32, k2: bv32)
    requires |sk| % 2 == 0
    ensures Rounds(sb, p, sk + [k1, k2]) == Round(sb, Rounds(sb, p, sk), k1, k2)
    decreases |sk|
  {
    hide Round;
    var all := sk + [k1, k2];
    if sk == [] {
      assert all[2..] == [];
    } else {
      assert all[2..] == sk[2..] + [k1, k2];
      RoundsLast(sb, Round(sb, p, sk[0], sk[1]), sk[2..], k1, k2);
    }
  }

  lemma RoundUndone(sb: Boxes, p: Halves, k1: bv32, k2: bv32)
    ensures Round(sb, Swap(Round(sb, p, k1, k2)), k1, k2) == Swap(p)
  {
    hide RoundValue;
    XorTwice(p.x, RoundValue(sb, k1, k2, p.y));
  }

  lemma XorTwice(a: bv32, b: bv32)
    ensures (a ^ b) ^ b == a
  {
  }

  /** Running the rounds with reversed subkeys on swapped halves goes back. */
  lemma {:induction false} RoundsUndone(sb: Boxes, p: Halves, sk: seq<bv32>)
    requires |sk| % 2 == 0
    ensures Rounds(sb, Swap(Rounds(sb, p, sk)), Reversed(sk)) == Swap(p)
    decreases |sk|
  {
    hide Round, Swap;
    if sk != [] {
      var q := Round(sb, p, sk[0], sk[1]);
      RoundsUndone(sb, q, sk[2..]);
      RoundsLast(sb, Swap(Rounds(sb, p, sk)), Reversed(sk[2..]), sk[0], sk[1]);
      RoundUndone(sb, p, sk[0], sk[1]);
    }
  }

  //////////////////////////////////////////////////////////////////////////////
  // Blocks
  //////////////////////////////////////////////////////////////////////////////

  function GetWord(a: Octet, b: Octet, c: Octet, d: Octet): bv32 {
    (a << 24) | (b << 16) | (c << 8) | d
  }

  function PutWord(w: bv32): (s: seq<Octet>)
    ensures |s| == 4
  {
    [w >> 24, (w >> 16) & 0xFF, (w >> 8) & 0xFF, w & 0xFF]
  }

  lemma GetPut(w: bv32)
    ensures var s := PutWord(w); GetWord(s[0], s[1], s[2], s[3]) == w
  {
  }

  lemma PutGet(a: Octet, b: Octet, c: Octet, d: Octet)
    ensures PutWord(GetWord(a, b, c, d)) == [a, b, c, d]
  {
  }

  function GetBlock(s: seq<Octet>): Halves
    requires |s| == 8
  {
    Halves(GetWord(s[0], s[1], s[2], s[3]), GetWord(s[4], s[5], s[6], s[7]))
  }

  function PutBlock(p: Halves): (s: seq<Octet>)
    ensures |s| == 8
  {
    PutWord(p.x) + PutWord(p.y)
  }

  /** Byte `j` of a block, from 0, holds its bits 8j + 1 to 8j + 8. */
  lemma ByteBits(block: seq<Octet>, j: nat, m: bv32)
    requires |block| == 8 && j < 8 && 1 <= m <= 8
    ensures BlockBit(GetBlock(block), 8 * (j as bv32) + m) == Bit(block[j], 24 + m)
  {
    match j { case 0 => case 1 => case 2 => case 3 => case 4 => case 5 => case 6 => case 7 => }
  }

  /** `des_crypt`. */
  function Crypt(sb: Boxes, sk: seq<bv32>, block: seq<Octet>): (r: seq<Octet>)
    requires |sk| == 32 && |block| == 8
    ensures |r| == 8
  {
    PutBlock(FinalPermutation(Swap(Rounds(sb, InitialPermutation(GetBlock(block)), sk))))
  }

  /** Deciphering a block undoes enciphering it. */
  lemma CryptUndone(sb: Boxes, sk: seq<bv32>, block: seq<Octet>)
    requires |sk| == 32 && |block| == 8
    ensures Crypt(sb, Reversed(sk), Crypt(sb, sk, block)) == block
  {
    hide Rounds, InitialPermutation, FinalPermutation, PutWord, GetWord, Reversed;
    var p := GetBlock(block);
    var q := InitialPermutation(p);
    var r := Swap(Rounds(sb, q, sk));
    BlockRoundTrip(FinalPermutation(r));
    InitialUndoesFinal(r);
    RoundsUndone(sb, q, sk);
    FinalUndoesInitial(p);
    BlockBytes(block);
  }

  lemma BlockRoundTrip(p: Halves)
    ensures GetBlock(PutBlock(p)) == p
  {
    hide PutWord, GetWord;
    GetPut(p.x);
    GetPut(p.y);
  }

  lemma BlockBytes(block: seq<Octet>)
    requires |block| == 8
    ensures PutBlock(GetBlock(block)) == block
  {
    hide PutWord, GetWord;
    PutGet(block[0], block[1], block[2], block[3]);
    PutGet(block[4], block[5], block[6], block[7]);
    assert block == block[..4] + block[4..];
  }

  //////////////////////////////////////////////////////////////////////////////
  // Texts
  //////////////////////////////////////////////////////////////////////////////

  function CryptAll(sb: Boxes, sk: seq<bv32>, s: seq<Octet>): (r: seq<Octet>)
    requires |sk| == 32 && |s| % 8 == 0
    ensures |r| == |s|
  {
    if s == [] then [] else Crypt(sb, sk, s[..8]) + CryptAll(sb, sk, s[8..])
  }

  lemma {:induction false} CryptAllUndone(sb: Boxes, sk: seq<bv32>, s: seq<Octet>)
    requires |sk| == 32 && |s| % 8 == 0
    ensures CryptAll(sb, Reversed(sk), CryptAll(sb, sk, s)) == s
  {
    hide Crypt, Reversed;
    if s != [] {
      var head, rest := Crypt(sb, sk, s[..8]), CryptAll(sb, sk, s[8..]);
      CryptUndone(sb, sk, s[..8]);
      CryptAllUndone(sb, sk, s[8..]);
      assert (head + rest)[..8] == head && (head + rest)[8..] == rest;
      assert s == s[..8] + s[8..];
    }
  }

  lemma {:induction false} CryptAllConcat(sb: Boxes, sk: seq<bv32>, s: seq<Octet>, t: seq<Octet>)
    requires |sk| == 32 && |s| % 8 == 0 && |t| % 8 == 0
    ensures CryptAll(sb, sk, s + t) == CryptAll(sb, sk, s) + CryptAll(sb, sk, t)
  {
    hide Crypt;
    if s == [] {
      assert s + t == t;
    } else {
      assert (s + t)[..8] == s[..8] && (s + t)[8..] == s[8..] + t;
      CryptAllConcat(sb, sk, s[8..], t);
    }
  }

  function Zeros(n: nat): (s: seq<Octet>)
    ensures |s| == n
  {
    if n == 0 then [] else Zeros(n - 1) + [0]
  }

  /** The text, a byte 0x80 and zeros up to a whole number of blocks. */
  function Pad(text: seq<Octet>): (s: seq<Octet>)
    ensures |s| % 8 == 0 && |s| > |text|
  {
    text + [0x80] + Zeros(7 - |text| % 8)
  }

  /** The bytes behind `text` are its padding. */
  predicate PaddingOf(s: seq<Octet>, text: seq<Octet>) {
    && |text| < |s| <= |text| + 8 && s[..|text|] == text && s[|text|] == 0x80
    && forall j | |text| < j < |s| :: s[j] == 0
  }

  lemma PadIsPadding(s: seq<Octet>, text: seq<Octet>)
    requires |s| % 8 == 0
    ensures s == Pad(text) <==> PaddingOf(s, text)
  {
    var n := 7 - |text| % 8;
    ZerosAt(n);
    if PaddingOf(s, text) {
      assert |s| == |text| + 1 + n;
      assert s == s[..|text|] + [s[|text|]] + s[|text| + 1..];
      assert s[|text| + 1..] == Zeros(n);
    }
  }

  lemma {:induction false} ZerosAt(n: nat)
    ensures forall j | 0 <= j < n :: Zeros(n)[j] == 0
  {
    if n > 0 {
      ZerosAt(n - 1);
    }
  }

  /** What decoding leads to; `OutOfBuffer` is a scan that goes on before the first byte. */
  datatype Outcome = Text(text: seq<Octet>) | Refused | OutOfBuffer

  /** An `int` compared with a `size_t`. */
  function AsSize(i: int): int {
    if i < 0 then i + 0x1_0000_0000_0000_0000 else i
  }

  /** The scan for the padding, from byte `i` down; its bound is an unsigned comparison. */
  function Scan(s: seq<Octet>, i: int): Outcome
    requires |s| >= 8 && -1 <= i < |s|
    decreases i + 1
  {
    if AsSize(i) < |s| - 8 then Stop(s, i)
    else if i < 0 then OutOfBuffer
    else if s[i] == 0 then Scan(s, i - 1)
    else if s[i] == 0x80 then Stop(s, i)
    else Refused
  }

  /** The end of the scan at byte `i`: the padding is what lies from there on. */
  function Stop(s: seq<Octet>, i: int): Outcome
    requires |s| >= 8 && -1 <= i < |s|
  {
    if |s| - i > 8 then Refused else Text(s[..i])
  }

  /** The scan accepts exactly padded texts, and leaves the buffer exactly for a block of zeros. */
  lemma {:induction false} ScanResult(s: seq<Octet>, i: int, text: seq<Octet>)
    requires |s| >= 8 && -1 <= i < |s| && |s| - 9 <= i && forall j | i < j < |s| :: s[j] == 0
    ensures Scan(s, i) == Text(text) <==> |text| <= i && PaddingOf(s, text)
    ensures Scan(s, i) == OutOfBuffer <==> |s| == 8 && forall j | 0 <= j < 8 :: s[j] == 0
    decreases i + 1
  {
    if i >= 0 && i >= |s| - 8 && s[i] == 0 {
      ScanResult(s, i - 1, text);
    }
  }

  /** `ldesencode` and `ldesdecode` as functions of the text. */
  function Encode(sb: Boxes, sk: seq<bv32>, text: seq<Octet>): seq<Octet>
    requires |sk| == 32
  {
    CryptAll(sb, sk, Pad(text))
  }

  function Decode(sb: Boxes, sk: seq<bv32>, s: seq<Octet>): Outcome
    requires |sk| == 32
  {
    if |s| % 8 != 0 || |s| == 0 then Refused
    else
      var plain := CryptAll(sb, Reversed(sk), s);
      Scan(plain, |plain| - 1)
  }

  lemma {:induction false} ReversedAppend(sk: seq<bv32>, k1: bv32, k2: bv32)
    requires |sk| % 2 == 0
    ensures Reversed(sk + [k1, k2]) == [k1, k2] + Reversed(sk)
    decreases |sk|
  {
    var all := sk + [k1, k2];
    if sk == [] {
      assert all[2..] == [];
    } else {
      assert all[2..] == sk[2..] + [k1, k2];
      ReversedAppend(sk[2..], k1, k2);
    }
  }

  lemma {:induction false} ReversedTwice(sk: seq<bv32>)
    requires |sk| % 2 == 0
    ensures Reversed(Reversed(sk)) == sk
    decreases |sk|
  {
    if sk != [] {
      ReversedAppend(Reversed(sk[2..]), sk[0], sk[1]);
      ReversedTwice(sk[2..]);
      assert sk == [sk[0], sk[1]] + sk[2..];
    }
  }

  /** For every text, every schedule and every S-box: what decodes to a text is its encoding. */
  lemma DecodeExact(sb: Boxes, sk: seq<bv32>, s: seq<Octet>, text: seq<Octet>)
    requires |sk| == 32
    ensures Decode(sb, sk, s) == Text(text) <==> s == Encode(sb, sk, text)
  {
    hide Reversed, CryptAll, Scan, PaddingOf, Zeros;
    CryptAllUndone(sb, sk, Pad(text));
    if |s| % 8 == 0 && |s| > 0 {
      var plain := CryptAll(sb, Reversed(sk), s);
      ReversedTwice(sk);
      CryptAllUndone(sb, Reversed(sk), s);
      ScanResult(plain, |plain| - 1, text);
      PadIsPadding(plain, text);
      assert PaddingOf(plain, text) ==> |text| < |plain|;
    }
  }

  lemma DecodeEncode(sb: Boxes, sk: seq<bv32>, text: seq<Octet>)
    requires |sk| == 32
    ensures Decode(sb, sk, Encode(sb, sk, text)) == Text(text)
  {
    DecodeExact(sb, sk, Encode(sb, sk, text), text);
  }

  /** The scan stays inside the buffer exactly when there is more than one block or the block has a
      byte that is not zero. */
  lemma DecodeStays(sb: Boxes, sk: seq<bv32>, s: seq<Octet>)
    requires |sk| == 32
    ensures Decode(sb, sk, s) == OutOfBuffer <==> |s| == 8 && CryptAll(sb, Reversed(sk), s) == Zeros(8)
  {
    hide Reversed, CryptAll, Scan;
    ZerosAt(8);
    if |s| % 8 == 0 && |s| > 0 {
      var plain := CryptAll(sb, Reversed(sk), s);
      ScanResult(plain, |plain| - 1, []);
      hide Zeros;
      if |plain| == 8 && forall j | 0 <= j < 8 :: plain[j] == 0 {
        assert plain == Zeros(8);
      }
    }
  }

  /** The one block that makes it leave. */
  lemma ZeroBlockLeaves(sb: Boxes, sk: seq<bv32>)
    requires |sk| == 32
    ensures Decode(sb, sk, CryptAll(sb, sk, Zeros(8))) == OutOfBuffer
  {
    hide Reversed, CryptAll, Scan, Zeros;
    CryptAllUndone(sb, sk, Zeros(8));
    DecodeStays(sb, sk, CryptAll(sb, sk, Zeros(8)));
  }

  //////////////////////////////////////////////////////////////////////////////
  // The loops
  //////////////////////////////////////////////////////////////////////////////

  method WriteBlock(buffer: array<Octet>, i: nat, block: seq<Octet>)
    requires |block| == 8 && i + 8 <= buffer.Length
    modifies buffer
    ensures buffer[..i] == old(buffer[..i]) && buffer[i..i + 8] == block
  {
    forall j | 0 <= j < 8 {
      buffer[i + j] := block[j];
    }
  }

  /** The whole blocks of a text, one after the other. */
  method CryptBlocks(sb: Boxes, sk: seq<bv32>, text: seq<Octet>, buffer: array<Octet>) returns (i: nat)
    requires |sk| == 32 && |text| <= buffer.Length
    modifies buffer
    ensures i % 8 == 0 && i <= |text| < i + 8 && buffer[..i] == CryptAll(sb, sk, text[..i])
  {
    hide Crypt, CryptAll;
    i := 0;
    EmptyCrypt(sb, sk);
    while i < |text| - 7
      invariant i % 8 == 0 && i <= |text|
      invariant buffer[..i] == CryptAll(sb, sk, text[..i])
    {
      var block := text[i..i + 8];
      WriteBlock(buffer, i, Crypt(sb, sk, block));
      NextBlock(sb, sk, text[..i], block);
      assert text[..i] + block == text[..i + 8];
      assert buffer[..i + 8] == buffer[..i] + buffer[i..i + 8];
      i := i + 8;
    }
  }

  /** `ldesencode`: whole blocks first, then the padded tail. */
  method DesEncode(sb: Boxes, sk: seq<bv32>, text: seq<Octet>) returns (buffer: array<Octet>)
    requires |sk| == 32
    ensures fresh(buffer) && buffer[..] == Encode(sb, sk, text)
  {
    hide Crypt, CryptAll, Zeros;
    var size := (|text| + 8) / 8 * 8;
    buffer := new Octet[size](_ => 0);
    var i := CryptBlocks(sb, sk, text, buffer);
    var tail := Tail(text[i..]);
    Padded(text, i, tail);
    ghost var front := buffer[..i];
    WriteBlock(buffer, i, Crypt(sb, sk, tail));
    NextBlock(sb, sk, text[..i], tail);
    assert buffer[..] == front + buffer[i..i + 8];
  }

  lemma Padded(text: seq<Octet>, i: nat, tail: seq<Octet>)
    requires i % 8 == 0 && i <= |text| < i + 8 && tail == text[i..] + [0x80] + Zeros(7 - |text[i..]|)
    ensures text[..i] + tail == Pad(text)
  {
    hide Zeros;
    assert |text[i..]| == |text| % 8;
    assert text == text[..i] + text[i..];
  }

  lemma EmptyCrypt(sb: Boxes, sk: seq<bv32>)
    requires |sk| == 32
    ensures CryptAll(sb, sk, []) == []
  {
  }

  lemma NextBlock(sb: Boxes, sk: seq<bv32>, s: seq<Octet>, block: seq<Octet>)
    requires |sk| == 32 && |s| % 8 == 0 && |block| == 8
    ensures CryptAll(sb, sk, s + block) == CryptAll(sb, sk, s) + Crypt(sb, sk, block)
  {
    hide Crypt;
    CryptAllConcat(sb, sk, s, block);
    assert block[..8] == block && block[8..] == [];
    assert CryptAll(sb, sk, block) == Crypt(sb, sk, block) + CryptAll(sb, sk, []);
  }

  /** The last block: what is left of the text, 0x80 and zeros. */
  method Tail(rest: seq<Octet>) returns (tail: seq<Octet>)
    requires |rest| < 8
    ensures |tail| == 8 && tail == rest + [0x80] + Zeros(7 - |rest|)
  {
    tail := [];
    var bytes := |rest|;
    for j := 0 to 8
      invariant |tail| == j
      invariant tail == if j <= bytes then rest[..j] else rest + [0x80] + Zeros(j - bytes - 1)
    {
      if j < bytes {
        tail := tail + [rest[j]];
      } else if j == bytes {
        assert rest[..j] == rest;
        tail := tail + [0x80];
      } else {
        tail := tail + [0];
      }
    }
  }

  /** `ldesdecode`. */
  method DesDecode(sb: Boxes, esk: seq<bv32>, text: seq<Octet>) returns (r: Outcome)
    requires |esk| == 32
    ensures r == Decode(sb, esk, text)
  {
    hide Crypt, CryptAll;
    var sk := ReverseKeys(esk);
    if |text| % 8 != 0 || |text| == 0 {
      return Refused;
    }
    var buffer := new Octet[|text|](_ => 0);
    var i := CryptBlocks(sb, sk, text, buffer);
    assert text[..i] == text && buffer[..] == buffer[..i];
    r := Strip(buffer);
  }

  /** The loop that counts the padding. */
  method Strip(buffer: array<Octet>) returns (r: Outcome)
    requires buffer.Length >= 8
    ensures r == Scan(buffer[..], buffer.Length - 1)
    ensures r == OutOfBuffer <==> buffer.Length == 8 && forall j | 0 <= j < 8 :: buffer[j] == 0
  {
    ghost var s := buffer[..];
    var size := buffer.Length;
    var padding, i := 1, size - 1;
    ScanResult(s, size - 1, []);
    while AsSize(i) >= size - 8
      invariant -1 <= i < size && size - 9 <= i && padding == size - i
      invariant Scan(s, size - 1) == Scan(s, i)
      decreases i + 1
    {
      if i < 0 {
        return OutOfBuffer;
      }
      if buffer[i] == 0 {
        padding := padding + 1;
      } else if buffer[i] == 0x80 {
        break;
      } else {
        return Refused;
      }
      i := i - 1;
    }
    if padding > 8 {
      return Refused;
    }
    return Text(buffer[..size - padding]);
  }

  /** The reversed schedule, pair by pair. */
  method ReverseKeys(esk: seq<bv32>) returns (sk: seq<bv32>)
    requires |esk| == 32
    ensures sk == Reversed(esk)
  {
    sk := [];
    var i := 0;
    assert esk[32..] == [];
    while i < 32
      invariant i % 2 == 0 && i <= 32 && sk == Reversed(esk[32 - i..])
    {
      ghost var rest := esk[30 - i..];
      assert rest[2..] == esk[32 - i..] && rest[0] == esk[30 - i] && rest[1] == esk[31 - i];
      sk := sk + [esk[30 - i], esk[31 - i]];
      i := i + 2;
    }
    assert esk[0..] == esk;
  }
}
