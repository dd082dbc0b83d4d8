/** The exact-size chained hash of lua-sharedata.c: as many nodes as keys, filled in two passes over
    the source table. Values are opaque; keys are 32-bit integers and strings. */
module Sharedata {
  import opened Common

  /** `BadKey` is any key the conversion refuses. */
  datatype Key = IntKey(i: int) | StrKey(s: seq<Byte>) | BadKey

  datatype Entry = Entry(key: Key, val: int)

  /** `val` is `None` for `VALUETYPE_NIL`; `key` is the integer or the index of the string. */
  datatype Node = Node(val: Option<int>, isString: bool, key: int, next: int, keyhash: nat, nocolliding: bool)

  const TWO_32: nat := 0x1_0000_0000

  //////////////////////////////////////////////////////////////////////////////
  // Keys and hashes
  //////////////////////////////////////////////////////////////////////////////

  function HashStep(h: bv32, b: Byte): bv32 {
    h ^ ((h << 5) + (h >> 2) + b as bv32)
  }

  function HashFrom(str: seq<Byte>, h: bv32, l1: nat, step: nat): bv32
    requires l1 <= |str| && step > 0
    decreases l1
  {
    if l1 < step then h else HashFrom(str, HashStep(h, str[l1 - 1]), l1 - step, step)
  }

  /** `calchash`. */
  function CalcHash(str: seq<Byte>): nat {
    HashFrom(str, (|str| % TWO_32) as bv32, |str|, |str| / 32 + 1) as nat
  }

  /** Every `step`-th byte of the first `l1`, from the last one down. */
  function Every(str: seq<Byte>, l1: nat, step: nat): seq<Byte>
    requires l1 <= |str| && step > 0
    decreases l1
  {
    if l1 < step then [] else [str[l1 - 1]] + Every(str, l1 - step, step)
  }

  function Mixed(h: bv32, bytes: seq<Byte>): bv32
    decreases |bytes|
  {
    if bytes == [] then h else Mixed(HashStep(h, bytes[0]), bytes[1..])
  }

  lemma {:induction false} HashFromEvery(str: seq<Byte>, h: bv32, l1: nat, step: nat)
    requires l1 <= |str| && step > 0
    ensures HashFrom(str, h, l1, step) == Mixed(h, Every(str, l1, step))
    decreases l1
  {
    hide HashStep;
    if l1 >= step {
      HashFromEvery(str, HashStep(h, str[l1 - 1]), l1 - step, step);
      assert Every(str, l1, step)[1..] == Every(str, l1 - step, step);
    }
  }

  lemma OneMore(n: nat, step: nat)
    ensures (n + 1) * step == n * step + step
  {
  }

  lemma {:induction false} EveryLength(str: seq<Byte>, l1: nat, step: nat)
    requires l1 <= |str| && step > 0
    ensures |Every(str, l1, step)| * step <= l1 < |Every(str, l1, step)| * step + step
    decreases l1
  {
    if l1 >= step {
      EveryLength(str, l1 - step, step);
      OneMore(|Every(str, l1 - step, step)|, step);
    }
  }

  lemma {:induction false} EveryAt(str: seq<Byte>, l1: nat, step: nat, j: nat)
    requires l1 <= |str| && step > 0 && j < |Every(str, l1, step)|
    ensures j * step < l1 && Every(str, l1, step)[j] == str[l1 - 1 - j * step]
    decreases l1
  {
    if j > 0 {
      EveryAt(str, l1 - step, step, j - 1);
      OneMore(j - 1, step);
    }
  }

  /** Byte `j` of `e` is the one `j` steps before the last of `str`. */
  predicate StepsBack(e: seq<Byte>, str: seq<Byte>, step: nat, j: nat)
    requires j < |e|
  {
    j * step < |str| && e[j] == str[|str| - 1 - j * step]
  }

  /** At most 31 bytes of a string are hashed, spread evenly from its end; the length comes first. */
  lemma HashedBytes(str: seq<Byte>, step: nat) returns (e: seq<Byte>)
    requires |str| < TWO_32 && step == |str| / 32 + 1
    ensures |e| < 32 && |e| * step <= |str| < |e| * step + step
    ensures forall j: nat | j < |e| :: StepsBack(e, str, step, j)
    ensures CalcHash(str) == Mixed(|str| as bv32, e) as nat
  {
    hide HashStep, Every, Mixed, StepsBack;
    e := Every(str, |str|, step);
    HashFromEvery(str, |str| as bv32, |str|, step);
    EveryLength(str, |str|, step);
    Spread(|e|, step, |str|);
    forall j: nat | j < |e|
      ensures StepsBack(e, str, step, j)
    {
      OneBack(str, step, j);
    }
  }

  lemma OneBack(str: seq<Byte>, step: nat, j: nat)
    requires step > 0 && j < |Every(str, |str|, step)|
    ensures StepsBack(Every(str, |str|, step), str, step, j)
  {
    EveryAt(str, |str|, step, j);
  }

  lemma Spread(n: nat, step: nat, length: nat)
    requires n * step <= length && length < 32 * step
    ensures n < 32
  {
  }

  /** Hashing "ab" by hand: 2, then 160, then 5161. */
  lemma HashExample()
    ensures Mixed(2, [98, 97]) == 5161
  {
    assert HashStep(2, 98) == 160 && HashStep(160, 97) == 5161;
    hide HashStep;
    assert [98, 97][1..] == [97] && [97][1..] == [];
    assert Mixed(160, [97]) == 5161;
  }

  function KeyHash(k: Key): nat {
    match k
    case IntKey(i) => i % TWO_32
    case StrKey(s) => CalcHash(s)
    case BadKey => 0
  }

  predicate IsInt32(i: int) {
    -0x8000_0000 <= i < 0x8000_0000
  }

  /** The key as the C code sees it: an integer is converted to a 32-bit `int` first. */
  function Truncated(k: Key): (t: Key)
    ensures k.IntKey? ==> t.IntKey? && IsInt32(t.i) && (t == k <==> IsInt32(k.i))
  {
    if k.IntKey? then IntKey((k.i + 0x8000_0000) % TWO_32 - 0x8000_0000) else k
  }

  predicate InArray(k: Key, n: nat) {
    k.IntKey? && 0 < k.i <= n
  }

  /** The main position of a key. */
  function Home(k: Key, size: nat): (h: nat)
    requires size > 0
    ensures h < size
  {
    KeyHash(k) % size
  }

  /** What the traversal of a source table lists: each key once, no nil value. */
  predicate SourceTable(es: seq<Entry>) {
    && (forall i | 0 <= i < |es| :: es[i].key.IntKey? ==> IsInt32(es[i].key.i))
    && (forall i, j | 0 <= i < j < |es| :: es[i].key != es[j].key)
  }

  predicate HashEntry(es: seq<Entry>, n: nat, e: int) {
    0 <= e < |es| && !InArray(es[e].key, n)
  }

  /** Distinct strings have distinct indices. */
  predicate Injective(names: map<seq<Byte>, int>) {
    forall s, t | s in names && t in names && names[s] == names[t] :: s == t
  }

  /** The node's key is `k`. */
  predicate KeyIs(n: Node, k: Key, names: map<seq<Byte>, int>) {
    match k
    case IntKey(i) => !n.isString && n.key == i
    case StrKey(s) => n.isString && s in names && n.key == names[s]
    case BadKey => false
  }

  predicate NodeRight(n: Node, e: Entry, names: map<seq<Byte>, int>) {
    n.val == Some(e.val) && KeyIs(n, e.key, names) && n.keyhash == KeyHash(e.key)
  }

  lemma SameKey(n: Node, k: Key, l: Key, names: map<seq<Byte>, int>)
    requires Injective(names) && KeyIs(n, k, names) && KeyIs(n, l, names)
    ensures k == l
  {
  }

  //////////////////////////////////////////////////////////////////////////////
  // Counting
  //////////////////////////////////////////////////////////////////////////////

  function CountHash(es: seq<Entry>, n: nat): nat {
    if es == [] then 0 else CountHash(es[..|es| - 1], n) + if InArray(es[|es| - 1].key, n) then 0 else 1
  }

  ghost function HashSet(es: seq<Entry>, n: nat): set<int> {
    set e | 0 <= e < |es| && HashEntry(es, n, e)
  }

  lemma {:induction false} CountIsCard(es: seq<Entry>, n: nat)
    ensures |HashSet(es, n)| == CountHash(es, n)
  {
    if es == [] {
      assert HashSet(es, n) == {};
    } else {
      var front, last := es[..|es| - 1], |es| - 1;
      CountIsCard(front, n);
      assert forall e | 0 <= e < last :: front[e] == es[e];
      var s := HashSet(front, n);
      assert last !in s;
      assert HashSet(es, n) == if InArray(es[last].key, n) then s else s + {last};
    }
  }

  ghost function Below(n: nat): (s: set<int>)
    ensures |s| == n && forall i :: i in s <==> 0 <= i < n
  {
    if n == 0 then {} else Below(n - 1) + {n - 1}
  }

  lemma NonEmpty(a: set<int>)
    requires |a| != 0
    ensures exists x: int :: x in a
  {
    assert (forall x: int :: x !in a) ==> a == {};
  }

  /** An injective image is as large as the set. */
  lemma {:induction false} ImageCard(f: set<int>, owner: seq<int>)
    requires forall s | s in f :: 0 <= s < |owner|
    requires forall s, t | s in f && t in f && owner[s] == owner[t] :: s == t
    ensures |set s | s in f :: owner[s]| == |f|
  {
    var whole := set s | s in f :: owner[s];
    if |f| == 0 {
      assert whole == {};
    } else {
      NonEmpty(f);
      var x :| x in f;
      var rest := f - {x};
      ImageCard(rest, owner);
      var image := set s | s in rest :: owner[s];
      assert owner[x] !in image;
      assert whole == image + {owner[x]};
    }
  }

  lemma {:induction false} SubsetCard(a: set<int>, b: set<int>)
    requires a <= b
    ensures |a| <= |b| && (|a| == |b| ==> a == b)
  {
    if |a| != 0 {
      NonEmpty(a);
      var x :| x in a;
      SubsetCard(a - {x}, b - {x});
      if |a| == |b| {
        assert a == (a - {x}) + {x} && b == (b - {x}) + {x};
      }
    }
  }

  //////////////////////////////////////////////////////////////////////////////
  // The node array
  //////////////////////////////////////////////////////////////////////////////

  /** The nodes, and what explains them: `owner[s]` is the entry in slot `s` (-1: none), `rank[s]`
      the number of nodes after it in its chain, and `trail[m]` the chain of main position `m` from
      its end to its head. */
  datatype Hash = Hash(nodes: seq<Node>, owner: seq<int>, rank: seq<nat>, trail: seq<seq<int>>) {
    predicate Sized() {
      |nodes| == |owner| == |rank| == |trail|
    }
  }

  /** The source: its entries, the size of the array part and the string indices. */
  datatype Source = Source(es: seq<Entry>, n: nat, names: map<seq<Byte>, int>)

  ghost predicate SlotRight(h: Hash, src: Source, s: int)
    requires h.Sized() && 0 <= s < |h.nodes|
  {
    var node, e, size := h.nodes[s], h.owner[s], |h.nodes|;
    if node.val.None? then e == -1
    else
      && HashEntry(src.es, src.n, e) && NodeRight(node, src.es[e], src.names)
      && var m := Home(src.es[e].key, size);
        && h.rank[s] < |h.trail[m]| && h.trail[m][h.rank[s]] == s
        && node.next == (if h.rank[s] == 0 then -1 else h.trail[m][h.rank[s] - 1])
        && (node.nocolliding ==> s == m && h.rank[s] == 0)
  }

  /** A member of a chain: a slot whose entry has this main position. */
  ghost predicate Member(h: Hash, src: Source, m: int, r: nat)
    requires h.Sized() && 0 <= m < |h.nodes| && r < |h.trail[m]|
  {
    var s := h.trail[m][r];
    && 0 <= s < |h.nodes| && h.nodes[s].val.Some? && h.rank[s] == r
    && HashEntry(src.es, src.n, h.owner[s]) && Home(src.es[h.owner[s]].key, |h.nodes|) == m
  }

  ghost predicate TrailRight(h: Hash, src: Source, m: int)
    requires h.Sized() && 0 <= m < |h.nodes|
  {
    && (forall r: nat | r < |h.trail[m]| :: Member(h, src, m, r))
    && (h.trail[m] != [] ==> h.trail[m][|h.trail[m]| - 1] == m)
  }

  ghost predicate OwnersDiffer(h: Hash)
    requires h.Sized()
  {
    forall s, t | 0 <= s < t < |h.owner| && h.owner[s] >= 0 :: h.owner[s] != h.owner[t]
  }

  ghost predicate HashRight(h: Hash, src: Source) {
    && h.Sized() && OwnersDiffer(h)
    && (forall s | 0 <= s < |h.nodes| :: SlotRight(h, src, s))
    && (forall m | 0 <= m < |h.nodes| :: TrailRight(h, src, m))
  }

  /** Entry `e` is in its main position, or some entry with the same one is. */
  ghost predicate HomeTaken(h: Hash, src: Source, e: int)
    requires h.Sized()
  {
    HashEntry(src.es, src.n, e) && |h.nodes| > 0 ==> h.trail[Home(src.es[e].key, |h.nodes|)] != []
  }

  ghost predicate Placed(h: Hash, e: int) {
    exists s | 0 <= s < |h.owner| :: h.owner[s] == e
  }

  /** First pass: an entry whose main position is free. */
  ghost function Settle(h: Hash, s: nat, e: int, node: Node): Hash
    requires h.Sized() && s < |h.nodes|
  {
    h.(nodes := h.nodes[s := node], owner := h.owner[s := e], rank := h.rank[s := 0], trail := h.trail[s := [s]])
  }

  lemma SettleKeeps(h: Hash, src: Source, s: nat, e: int, node: Node)
    requires HashRight(h, src) && HashEntry(src.es, src.n, e) && s < |h.nodes| && s == Home(src.es[e].key, |h.nodes|)
    requires h.nodes[s].val.None? && node.val.Some? && NodeRight(node, src.es[e], src.names) && node.next == -1
    requires h.trail[s] == [] && !Placed(h, e)
    ensures HashRight(Settle(h, s, e, node), src)
  {
    hide NodeRight, Home;
    var h' := Settle(h, s, e, node);
    forall t | 0 <= t < |h'.nodes| ensures SlotRight(h', src, t) {
      assert SlotRight(h, src, t);
    }
    forall m | 0 <= m < |h'.nodes| ensures TrailRight(h', src, m) {
      assert TrailRight(h, src, m) && SlotRight(h, src, s);
      forall r: nat | r < |h'.trail[m]| ensures Member(h', src, m, r) {
        assert m != s ==> Member(h, src, m, r);
      }
    }
    forall t, u | 0 <= t < u < |h'.owner| && h'.owner[t] >= 0 ensures h'.owner[t] != h'.owner[u] {
      assert h.owner[t] != e && h.owner[u] != e;
    }
  }

  /** Second pass: an entry whose main position `m` is taken goes to the empty slot `s`, which is
      linked in behind the head of the chain. */
  ghost function Insert(h: Hash, m: nat, s: nat, e: int, node: Node, head: Node): Hash
    requires h.Sized() && m < |h.nodes| && s < |h.nodes| && h.trail[m] != []
  {
    var k := |h.trail[m]| - 1;
    Hash(h.nodes[s := node][m := head], h.owner[s := e], h.rank[s := k][m := k + 1],
         h.trail[m := h.trail[m][..k] + [s, m]])
  }

  ghost predicate Inserting(h: Hash, src: Source, m: nat, s: nat, e: int, node: Node, head: Node) {
    && HashRight(h, src) && m < |h.nodes| && s < |h.nodes|
    && HashEntry(src.es, src.n, e) && m == Home(src.es[e].key, |h.nodes|) && h.trail[m] != [] && !Placed(h, e)
    && h.nodes[s].val.None? && node.val.Some? && NodeRight(node, src.es[e], src.names)
    && node.next == h.nodes[m].next && !node.nocolliding
    && head == h.nodes[m].(next := s, nocolliding := false)
  }

  lemma HeadFacts(h: Hash, src: Source, m: nat)
    requires HashRight(h, src) && m < |h.nodes| && h.trail[m] != []
    ensures h.nodes[m].val.Some? && h.rank[m] == |h.trail[m]| - 1 && HashEntry(src.es, src.n, h.owner[m])
    ensures Home(src.es[h.owner[m]].key, |h.nodes|) == m
  {
    hide NodeRight, Home;
    assert TrailRight(h, src, m);
    assert Member(h, src, m, |h.trail[m]| - 1);
  }

  lemma InsertSlot(h: Hash, src: Source, m: nat, s: nat, e: int, node: Node, head: Node, t: int)
    requires Inserting(h, src, m, s, e, node, head) && 0 <= t < |h.nodes|
    ensures SlotRight(Insert(h, m, s, e, node, head), src, t)
  {
    HeadFacts(h, src, m);
    hide NodeRight, Home, TrailRight;
    var h', k := Insert(h, m, s, e, node, head), |h.trail[m]| - 1;
    assert SlotRight(h, src, t) && SlotRight(h, src, m) && SlotRight(h, src, s);
    assert h'.trail[m][k] == s && h'.trail[m][k + 1] == m;
    assert forall r | 0 <= r < k :: h'.trail[m][r] == h.trail[m][r];
    assert t == m ==> NodeRight(head, src.es[h.owner[m]], src.names) by {
      SameEntry(h.nodes[m], head, src.es[h.owner[m]], src.names);
    }
    if t != m && t != s && h.nodes[t].val.Some? && Home(src.es[h.owner[t]].key, |h.nodes|) == m {
      assert h.rank[t] != k;
    }
  }

  lemma SameEntry(a: Node, b: Node, e: Entry, names: map<seq<Byte>, int>)
    requires NodeRight(a, e, names) && b == a.(next := b.next, nocolliding := b.nocolliding)
    ensures NodeRight(b, e, names)
  {
  }

  lemma InsertTrail(h: Hash, src: Source, m: nat, s: nat, e: int, node: Node, head: Node, q: int)
    requires Inserting(h, src, m, s, e, node, head) && 0 <= q < |h.nodes|
    ensures TrailRight(Insert(h, m, s, e, node, head), src, q)
  {
    HeadFacts(h, src, m);
    hide NodeRight, Home;
    var h', k := Insert(h, m, s, e, node, head), |h.trail[m]| - 1;
    assert TrailRight(h, src, q);
    forall r: nat | r < |h'.trail[q]| ensures Member(h', src, q, r) {
      if q != m || r < k {
        assert Member(h, src, q, r) && h'.trail[q][r] == h.trail[q][r];
        assert h.trail[q][r] != s && h.trail[q][r] != m;
      }
    }
  }

  lemma InsertKeeps(h: Hash, src: Source, m: nat, s: nat, e: int, node: Node, head: Node)
    requires Inserting(h, src, m, s, e, node, head)
    ensures HashRight(Insert(h, m, s, e, node, head), src)
  {
    var h' := Insert(h, m, s, e, node, head);
    assert forall t | 0 <= t < |h.owner| :: h.owner[t] != e;
    assert h.owner[s] == -1 by {
      assert SlotRight(h, src, s);
    }
    hide SlotRight, TrailRight, Inserting;
    forall t | 0 <= t < |h'.nodes| ensures SlotRight(h', src, t) {
      InsertSlot(h, src, m, s, e, node, head, t);
    }
    forall q | 0 <= q < |h'.nodes| ensures TrailRight(h', src, q) {
      InsertTrail(h, src, m, s, e, node, head, q);
    }
  }

  /** More string indices change nothing for the nodes there are. */
  lemma NamesGrow(h: Hash, src: Source, names: map<seq<Byte>, int>)
    requires HashRight(h, src) && forall x | x in src.names :: x in names && names[x] == src.names[x]
    ensures HashRight(h, src.(names := names))
  {
    hide Home;
    var src' := src.(names := names);
    forall s | 0 <= s < |h.nodes| ensures SlotRight(h, src', s) {
      assert SlotRight(h, src, s);
    }
    forall m | 0 <= m < |h.nodes| ensures TrailRight(h, src', m) {
      assert TrailRight(h, src, m);
      forall r: nat | r < |h.trail[m]| ensures Member(h, src', m, r) {
        assert Member(h, src, m, r);
      }
    }
  }

  ghost function Filled(h: Hash): set<int>
    requires h.Sized()
  {
    set s | 0 <= s < |h.owner| && h.owner[s] >= 0
  }

  ghost function Owners(h: Hash): set<int>
    requires h.Sized()
  {
    set s | s in Filled(h) :: h.owner[s]
  }

  lemma OwnersCount(h: Hash, src: Source)
    requires HashRight(h, src)
    ensures |Owners(h)| == |Filled(h)| && Owners(h) <= HashSet(src.es, src.n)
  {
    hide Home, NodeRight;
    ImageCard(Filled(h), h.owner);
    forall e | e in Owners(h) ensures e in HashSet(src.es, src.n) {
      var s :| s in Filled(h) && h.owner[s] == e;
      assert SlotRight(h, src, s);
    }
  }

  /** While an entry is still to be placed, a slot is still empty. */
  lemma EmptySlot(h: Hash, src: Source, e: int)
    requires HashRight(h, src) && |h.nodes| == CountHash(src.es, src.n)
    requires HashEntry(src.es, src.n, e) && !Placed(h, e)
    ensures exists s | 0 <= s < |h.nodes| :: h.nodes[s].val.None?
  {
    OwnersCount(h, src);
    CountIsCard(src.es, src.n);
    var all, owners := HashSet(src.es, src.n), Owners(h);
    assert e in all && e !in owners;
    SubsetCard(owners, all);
    assert Filled(h) != Below(|h.nodes|);
    assert Filled(h) <= Below(|h.nodes|);
    hide HashRight;
    var s := MissingSlot(Filled(h), |h.nodes|);
    assert h.owner[s] < 0;
    EmptyByOwner(h, src, s);
  }

  lemma MissingSlot(f: set<int>, n: nat) returns (s: int)
    requires f <= Below(n) && |f| < n
    ensures 0 <= s < n && s !in f
  {
    assert (forall x | 0 <= x < n :: x in f) ==> f == Below(n);
    s :| 0 <= s < n && s !in f;
  }

  lemma EmptyByOwner(h: Hash, src: Source, s: int)
    requires HashRight(h, src) && 0 <= s < |h.nodes|
    ensures h.nodes[s].val.None? <==> h.owner[s] < 0
  {
    hide Home, NodeRight;
    assert SlotRight(h, src, s);
  }

  /** Once every entry is placed, every slot is filled. */
  lemma AllFilled(h: Hash, src: Source, s: int)
    requires HashRight(h, src) && |h.nodes| == CountHash(src.es, src.n) && 0 <= s < |h.nodes|
    requires forall e | HashEntry(src.es, src.n, e) :: Placed(h, e)
    ensures h.nodes[s].val.Some?
  {
    OwnersCount(h, src);
    CountIsCard(src.es, src.n);
    EmptyByOwner(h, src, s);
    var all, owners := HashSet(src.es, src.n), Owners(h);
    forall e | e in all ensures e in owners {
      assert Placed(h, e);
      var t :| 0 <= t < |h.owner| && h.owner[t] == e;
      assert t in Filled(h);
    }
    assert owners == all;
    SubsetCard(Filled(h), Below(|h.nodes|));
    assert s in Filled(h);
  }

  //////////////////////////////////////////////////////////////////////////////
  // The two passes
  //////////////////////////////////////////////////////////////////////////////

  ghost predicate AtHome(h: Hash, src: Source, s: int)
    requires h.Sized() && 0 <= s < |h.nodes|
  {
    HashEntry(src.es, src.n, h.owner[s]) ==> s == Home(src.es[h.owner[s]].key, |h.nodes|)
  }

  /** After the first `t` entries of the first pass. */
  ghost predicate FirstPass(h: Hash, src: Source, t: int) {
    && HashRight(h, src)
    && (forall e | 0 <= e < t :: HomeTaken(h, src, e))
    && (forall s | 0 <= s < |h.nodes| :: h.owner[s] < t && AtHome(h, src, s))
  }

  /** After the first `t` entries of the second pass. */
  ghost predicate SecondPass(h: Hash, src: Source, t: int) {
    && HashRight(h, src)
    && (forall e | 0 <= e < |src.es| :: HomeTaken(h, src, e))
    && (forall e | HashEntry(src.es, src.n, e) && e < t :: Placed(h, e))
    && (forall s | 0 <= s < |h.nodes| :: h.owner[s] < t || AtHome(h, src, s))
  }

  lemma FirstSkip(h: Hash, src: Source, t: int)
    requires FirstPass(h, src, t) && 0 <= t < |src.es|
    requires HashEntry(src.es, src.n, t) && |h.nodes| > 0 ==> h.nodes[Home(src.es[t].key, |h.nodes|)].val.Some?
    ensures FirstPass(h, src, t + 1)
  {
    hide NodeRight;
    if HashEntry(src.es, src.n, t) && |h.nodes| > 0 {
      var m := Home(src.es[t].key, |h.nodes|);
      hide Home;
      assert SlotRight(h, src, m) && AtHome(h, src, m);
    }
  }

  lemma FirstSettle(h: Hash, src: Source, t: int, node: Node)
    requires FirstPass(h, src, t) && HashEntry(src.es, src.n, t) && |h.nodes| > 0
    requires var m := Home(src.es[t].key, |h.nodes|);
      && h.nodes[m].val.None? && node.val.Some? && NodeRight(node, src.es[t], src.names) && node.next == -1
    ensures FirstPass(Settle(h, Home(src.es[t].key, |h.nodes|), t, node), src, t + 1)
  {
    var m := Home(src.es[t].key, |h.nodes|);
    if h.trail[m] != [] {
      HeadFacts(h, src, m);
    }
    SettleKeeps(h, src, m, t, node);
    hide NodeRight, Home, HashRight;
    var h' := Settle(h, m, t, node);
    forall e | 0 <= e < t + 1 ensures HomeTaken(h', src, e) {
      assert e < t ==> HomeTaken(h, src, e);
    }
    forall s | 0 <= s < |h'.nodes| ensures h'.owner[s] < t + 1 && AtHome(h', src, s) {
      assert AtHome(h, src, s);
    }
  }

  lemma FirstToSecond(h: Hash, src: Source)
    requires FirstPass(h, src, |src.es|)
    ensures SecondPass(h, src, 0)
  {
  }

  /** Whether the entry sits in its main position decides whether it has been placed. */
  lemma HomeDecides(h: Hash, src: Source, t: int)
    requires SecondPass(h, src, t) && HashEntry(src.es, src.n, t) && |h.nodes| > 0
    ensures h.owner[Home(src.es[t].key, |h.nodes|)] != t ==> !Placed(h, t)
  {
    assert h.Sized();
    hide Home, HashRight;
    if Placed(h, t) {
      var s :| 0 <= s < |h.owner| && h.owner[s] == t;
      assert AtHome(h, src, s);
    }
  }

  lemma SecondSkip(h: Hash, src: Source, t: int)
    requires SecondPass(h, src, t) && 0 <= t < |src.es|
    requires HashEntry(src.es, src.n, t) ==> |h.nodes| > 0 && h.owner[Home(src.es[t].key, |h.nodes|)] == t
    ensures SecondPass(h, src, t + 1)
  {
  }

  lemma SecondInsert(h: Hash, src: Source, m: nat, s: nat, t: int, node: Node, head: Node)
    requires SecondPass(h, src, t) && Inserting(h, src, m, s, t, node, head)
    ensures SecondPass(Insert(h, m, s, t, node, head), src, t + 1)
  {
    InsertKeeps(h, src, m, s, t, node, head);
    EmptyByOwner(h, src, s);
    hide NodeRight, Home, HashRight;
    var h' := Insert(h, m, s, t, node, head);
    forall e | 0 <= e < |src.es| ensures HomeTaken(h', src, e) {
      assert HomeTaken(h, src, e);
    }
    forall e | HashEntry(src.es, src.n, e) && e < t + 1 ensures Placed(h', e) {
      if e == t {
        assert h'.owner[s] == t;
      } else {
        assert Placed(h, e);
        var q :| 0 <= q < |h.owner| && h.owner[q] == e;
        assert h'.owner[q] == e;
      }
    }
    forall q | 0 <= q < |h'.nodes| ensures h'.owner[q] < t + 1 || AtHome(h', src, q) {
      assert h.owner[q] < t || AtHome(h, src, q);
    }
  }

  /** The source table as a map. */
  function Get(es: seq<Entry>, k: Key): Option<int> {
    if es == [] then None
    else if es[|es| - 1].key == k then Some(es[|es| - 1].val)
    else Get(es[..|es| - 1], k)
  }

  lemma {:induction false} GetPresent(es: seq<Entry>, e: int)
    requires SourceTable(es) && 0 <= e < |es|
    ensures Get(es, es[e].key) == Some(es[e].val)
  {
    if e < |es| - 1 {
      GetPresent(es[..|es| - 1], e);
    }
  }

  lemma {:induction false} GetAbsent(es: seq<Entry>, k: Key)
    requires forall e | 0 <= e < |es| :: es[e].key != k
    ensures Get(es, k) == None
  {
    if es != [] {
      GetAbsent(es[..|es| - 1], k);
    }
  }

  /** A lookup of the truncated key is a lookup of the key exactly when truncation does not meet
      another key of the source. */
  lemma TruncatedLookup(es: seq<Entry>, k: Key)
    requires SourceTable(es)
    ensures Get(es, Truncated(k)) == Get(es, k) <==> Truncated(k) == k || Get(es, Truncated(k)) == None
  {
    if Truncated(k) != k {
      GetAbsent(es, k);
    }
  }

  /** It does for 2^32 + 1 in a table with the one key 1. */
  lemma WideKeyFails(x: int)
    ensures var es, k := [Entry(IntKey(1), x)], IntKey(TWO_32 + 1);
      SourceTable(es) && Get(es, k) == None && Get(es, Truncated(k)) == Some(x)
  {
    var es := [Entry(IntKey(1), x)];
    assert Truncated(IntKey(TWO_32 + 1)) == IntKey(1);
    assert es[..0] == [];
  }

  predicate NoBadKey(es: seq<Entry>) {
    forall i | 0 <= i < |es| :: es[i].key != BadKey
  }

  /** `countsize`: the number of keys outside the array part. */
  method CountSize(es: seq<Entry>, n: nat) returns (r: Option<nat>)
    ensures r.Some? <==> NoBadKey(es)
    ensures r.Some? ==> r.value == CountHash(es, n)
  {
    var count := 0;
    for i := 0 to |es|
      invariant NoBadKey(es[..i]) && count == CountHash(es[..i], n)
    {
      var k := es[i].key;
      assert es[..i + 1][..i] == es[..i];
      if k.BadKey? {
        return None;
      }
      if !InArray(k, n) {
        count := count + 1;
      }
    }
    assert es[..|es|] == es;
    return Some(count);
  }

  class SharedTable {
    var items: array<Option<int>>
    var hash: array<Node>
    var stringMap: map<seq<Byte>, int>
    var stringIndex: int
    /** The string of each index. */
    var strings: map<int, seq<Byte>>
    ghost var shape: Hash

    ghost function From(es: seq<Entry>): Source
      reads this
    {
      Source(es, items.Length, stringMap)
    }

    ghost predicate StringsRight()
      reads this
    {
      Injective(stringMap) && forall s | s in stringMap :: stringMap[s] <= stringIndex
    }

    ghost predicate ItemsRight(es: seq<Entry>)
      reads this, items
    {
      forall i | 0 <= i < items.Length :: items[i] == Get(es, IntKey(i + 1))
    }

    /** The built table agrees with its source. */
    ghost predicate Built(es: seq<Entry>)
      reads this, items, hash
    {
      && SourceTable(es) && NoBadKey(es) && StringsRight() && ItemsRight(es)
      && (forall s | s in stringMap :: stringMap[s] in strings && strings[stringMap[s]] == s)
      && shape.nodes == hash[..] && hash.Length == CountHash(es, items.Length)
      && SecondPass(shape, From(es), |es|)
    }

    /** `stringindex`: equal strings get equal indices, different ones different. */
    method StringIndex(str: seq<Byte>) returns (index: int)
      requires StringsRight()
      modifies `stringMap, `stringIndex
      ensures StringsRight() && str in stringMap && index == stringMap[str]
      ensures forall x | x in old(stringMap) :: x in stringMap && stringMap[x] == old(stringMap)[x]
    {
      if str !in stringMap {
        stringIndex := stringIndex + 1;
        index := stringIndex;
        stringMap := stringMap[str := index];
      } else {
        index := stringMap[str];
      }
    }

    /** `ishashkey` for a key outside the array part. */
    method HashKey(k: Key) returns (isString: bool, key: int, keyhash: nat)
      requires StringsRight() && k != BadKey
      modifies `stringMap, `stringIndex
      ensures StringsRight() && keyhash == KeyHash(k)
      ensures forall node: Node | node.isString == isString && node.key == key :: KeyIs(node, k, stringMap)
      ensures forall x | x in old(stringMap) :: x in stringMap && stringMap[x] == old(stringMap)[x]
    {
      keyhash := KeyHash(k);
      if k.IntKey? {
        return false, k.i, keyhash;
      }
      key := StringIndex(k.s);
      return true, key, keyhash;
    }

    /** One entry of the first pass. */
    method SettleEntry(es: seq<Entry>, t: nat)
      requires t < |es| && NoBadKey(es) && StringsRight() && HashEntry(es, items.Length, t)
      requires hash.Length > 0 && shape.nodes == hash[..] && FirstPass(shape, From(es), t)
      modifies `stringMap, `stringIndex, `shape, hash
      ensures StringsRight() && shape.nodes == hash[..] && FirstPass(shape, From(es), t + 1)
    {
      hide KeyHash, KeyIs, FirstPass;
      var isString, key, keyhash := HashKey(es[t].key);
      FirstNames(shape, old(From(es)), stringMap, t);
      var pos := keyhash % hash.Length;
      assert pos == Home(es[t].key, hash.Length);
      if hash[pos].val.None? {
        var node := Node(Some(es[t].val), isString, key, -1, keyhash, true);
        FirstSettle(shape, From(es), t, node);
        ghost var before := hash[..];
        hash[pos] := node;
        assert hash[..] == before[pos := node];
        shape := Settle(shape, pos, t, node);
      } else {
        FirstSkip(shape, From(es), t);
      }
    }

    /** One entry of the second pass; the search for an empty slot always succeeds. */
    method InsertEntry(es: seq<Entry>, t: nat)
      requires t < |es| && SourceTable(es) && NoBadKey(es) && StringsRight() && HashEntry(es, items.Length, t)
      requires hash.Length == CountHash(es, items.Length) > 0
      requires shape.nodes == hash[..] && SecondPass(shape, From(es), t)
      modifies `stringMap, `stringIndex, `shape, hash
      ensures StringsRight() && shape.nodes == hash[..] && SecondPass(shape, From(es), t + 1)
    {
      hide KeyHash, KeyIs, SecondPass, HashRight;
      var isString, key, keyhash := HashKey(es[t].key);
      SecondNames(shape, old(From(es)), stringMap, t);
      ghost var src := From(es);
      var pos := keyhash % hash.Length;
      assert pos == Home(es[t].key, hash.Length);
      OwnerByKey(shape, src, t, isString, key);
      if hash[pos].isString == isString && hash[pos].key == key {
        SecondSkip(shape, src, t);
      } else {
        HomeDecides(shape, src, t);
        SecondParts(shape, src, t);
        EmptySlot(shape, src, t);
        var i := 0;
        while hash[i].val.Some?
          invariant i < hash.Length && forall j | 0 <= j < i :: hash[j].val.Some?
          decreases hash.Length - i
        {
          i := i + 1;
        }
        var node := Node(Some(es[t].val), isString, key, hash[pos].next, keyhash, false);
        var head := hash[pos].(next := i, nocolliding := false);
        SecondInsert(shape, src, pos, i, t, node, head);
        ghost var before := hash[..];
        hash[i] := node;
        hash[pos] := head;
        assert hash[..] == before[i := node][pos := head];
        shape := Insert(shape, pos, i, t, node, head);
      }
    }

    /** `fillnocolliding`: the array part, and every main position that some key has. */
    method FillNoColliding(es: seq<Entry>)
      requires SourceTable(es) && NoBadKey(es) && StringsRight() && hash.Length > 0
      requires shape.nodes == hash[..] && FirstPass(shape, From(es), 0) && ItemsRight([])
      modifies `stringMap, `stringIndex, `shape, hash, items
      ensures StringsRight() && shape.nodes == hash[..] && FirstPass(shape, From(es), |es|) && ItemsRight(es)
    {
      hide FirstPass, HashRight, SourceTable, Injective;
      for t := 0 to |es|
        invariant StringsRight() && shape.nodes == hash[..] && FirstPass(shape, From(es), t) && ItemsRight(es[..t])
      {
        assert es[..t + 1][..t] == es[..t] && es[..t + 1][t] == es[t];
        if InArray(es[t].key, items.Length) {
          FirstSkip(shape, From(es), t);
          items[es[t].key.i - 1] := Some(es[t].val);
        } else {
          SettleEntry(es, t);
        }
      }
      assert es[..|es|] == es;
    }

    /** `fillcolliding`: the keys that found their main position taken. */
    method FillColliding(es: seq<Entry>)
      requires SourceTable(es) && NoBadKey(es) && StringsRight() && hash.Length == CountHash(es, items.Length) > 0
      requires shape.nodes == hash[..] && SecondPass(shape, From(es), 0)
      modifies `stringMap, `stringIndex, `shape, hash
      ensures StringsRight() && shape.nodes == hash[..] && SecondPass(shape, From(es), |es|)
    {
      hide SecondPass, HashRight, SourceTable, Injective, CountHash;
      for t := 0 to |es|
        invariant StringsRight() && shape.nodes == hash[..] && SecondPass(shape, From(es), t)
      {
        if !InArray(es[t].key, items.Length) {
          InsertEntry(es, t);
        } else {
          SecondSkip(shape, From(es), t);
        }
      }
    }

    /** An empty table with room for `sizeArray` items and `sizeHash` nodes. */
    constructor Empty(sizeArray: nat, sizeHash: nat, ghost es: seq<Entry>)
      ensures fresh(items) && fresh(hash) && items.Length == sizeArray && hash.Length == sizeHash
      ensures stringMap == map[] && stringIndex == 1 && StringsRight() && ItemsRight([])
      ensures shape.nodes == hash[..] && FirstPass(shape, From(es), 0)
    {
      var nil := Node(None, false, 0, -1, 0, false);
      items := new Option<int>[sizeArray](_ => None);
      hash := new Node[sizeHash](_ => nil);
      stringMap, stringIndex, strings := map[], 1, map[];
      new;
      shape := Hash(hash[..], seq(sizeHash, _ => -1), seq(sizeHash, _ => 0), seq(sizeHash, _ => []));
    }

    /** A table without other keys: its items one by one. */
    method FillArray(es: seq<Entry>)
      modifies items
      ensures ItemsRight(es)
    {
      for i := 0 to items.Length
        invariant forall j | 0 <= j < i :: items[j] == Get(es, IntKey(j + 1))
      {
        items[i] := Get(es, IntKey(i + 1));
      }
    }

    /** `convert_stringmap`: the inverse of the string map. */
    method ConvertStrings()
      requires StringsRight()
      modifies `strings
      ensures forall s | s in stringMap :: stringMap[s] in strings && strings[stringMap[s]] == s
    {
      strings := map s | s in stringMap :: stringMap[s] := s;
    }

    /** The comparison of `lookup_key`, which looks at the hash first and at strings by content. */
    method Matches(ghost e: Entry, node: Node, k: Key) returns (same: bool)
      requires NodeRight(node, e, stringMap) && e.key != BadKey && k != BadKey
      requires forall s | s in stringMap :: stringMap[s] in strings && strings[stringMap[s]] == s
      ensures same <==> e.key == k
    {
      hide KeyHash;
      if node.keyhash != KeyHash(k) {
        return false;
      }
      if node.isString {
        return k.StrKey? && strings[node.key] == k.s;
      }
      return k.IntKey? && node.key == k.i;
    }

    /** `lookup_key`: the slot of a key outside the array part, or -1. */
    method LookupKey(ghost es: seq<Entry>, k: Key) returns (slot: int)
      requires Built(es) && k != BadKey && !InArray(k, items.Length)
      ensures slot == -1 || (slot < hash.Length && SlotOf(shape, From(es), k, slot))
      ensures slot == -1 ==> forall e | 0 <= e < |es| :: es[e].key != k
    {
      hide KeyHash, NodeRight, SecondPass, HashRight, SourceTable, Injective, CountHash;
      ghost var src := From(es);
      BuiltParts(shape, src);
      ghost var p := FindSlot(shape, src, k);
      if hash.Length == 0 {
        return -1;
      }
      var n := KeyHash(k) % hash.Length;
      if p >= 0 {
        OnChain(shape, src, p);
      }
      if KeyHash(k) != hash[n].keyhash && hash[n].nocolliding {
        KeyHashOf(shape, src, n);
        return -1;
      }
      while true
        invariant 0 <= n < hash.Length && (p >= 0 ==> Ahead(shape, src, n, p))
        decreases shape.rank[n]
      {
        ChainStep(shape, src, n);
        var same := Matches(es[shape.owner[n]], hash[n], k);
        if same {
          return n;
        }
        if p >= 0 {
          StillAhead(shape, src, n, p);
        }
        if hash[n].next < 0 {
          return -1;
        }
        n := hash[n].next;
      }
    }

    /** `lindexconf`: the shared table answers like its source for the truncated key, and so for the
        key itself unless truncation makes it another key of the source. */
    method Index(ghost es: seq<Entry>, key: Key) returns (r: Option<int>)
      requires Built(es) && key != BadKey
      ensures r == Get(es, Truncated(key))
      ensures r == Get(es, key) <==> Truncated(key) == key || Get(es, Truncated(key)) == None
    {
      hide SecondPass, HashRight, Injective, CountHash, KeyHash;
      TruncatedLookup(es, key);
      var k := Truncated(key);
      hide Truncated;
      if InArray(k, items.Length) {
        assert k == IntKey((k.i - 1) + 1);
        return items[k.i - 1];
      }
      var slot := LookupKey(es, k);
      if slot < 0 {
        GetAbsent(es, k);
        return None;
      }
      SlotEntry(shape, From(es), slot);
      GetPresent(es, shape.owner[slot]);
      return hash[slot].val;
    }

    method PushKey(ghost es: seq<Entry>, slot: nat) returns (k: Key)
      requires Built(es) && slot < hash.Length
      ensures shape.Sized() && k == HashKeys(shape, es)[slot]
    {
      hide SecondPass, HashRight, Injective, CountHash, KeyHash;
      SlotEntry(shape, From(es), slot);
      var node := hash[slot];
      return if node.isString then StrKey(strings[node.key]) else IntKey(node.key);
    }

    /** Every key: the items that are not nil, then the nodes. */
    ghost function Order(es: seq<Entry>): seq<Key>
      requires shape.Sized()
      reads this, items
    {
      ArrayKeys(items[..], 0) + HashKeys(shape, es)
    }

    method NextItem(ghost es: seq<Entry>, i: nat) returns (r: Option<Key>)
      requires Built(es) && i <= items.Length
      ensures shape.Sized() && r == First(ArrayKeys(items[..], i) + HashKeys(shape, es))
    {
      hide HashRight, Injective, CountHash, KeyHash, SourceTable;
      BuiltParts(shape, From(es));
      ghost var keys := HashKeys(shape, es);
      var j := i;
      while j < items.Length
        invariant i <= j <= items.Length && ArrayKeys(items[..], i) == ArrayKeys(items[..], j)
      {
        if items[j].Some? {
          return Some(IntKey(j + 1));
        }
        j := j + 1;
      }
      assert [] + keys == keys;
      if hash.Length > 0 {
        var k := PushKey(es, 0);
        return Some(k);
      }
      return None;
    }

    /** `lnextkey`, which truncates the key in the same way. */
    method NextKey(ghost es: seq<Entry>, key: Option<Key>) returns (r: Option<Key>)
      requires Built(es) && key != Some(BadKey)
      ensures shape.Sized()
      ensures key.None? ==> r == First(Order(es))
      ensures key.Some? ==> forall i | 0 <= i < |Order(es)| && Truncated(key.value) == Order(es)[i] ::
        r == First(Order(es)[i + 1..])
      ensures key.Some? && !InArray(Truncated(key.value), items.Length) && Truncated(key.value) !in Order(es) ==> r == None
    {
      hide HashRight, Injective, CountHash, KeyHash, SourceTable, SecondPass;
      BuiltParts(shape, From(es));
      if key.None? {
        r := NextItem(es, 0);
        return;
      }
      var k := Truncated(key.value);
      hide Truncated;
      if InArray(k, items.Length) {
        r := NextItem(es, k.i);
        forall i | 0 <= i < |Order(es)| && k == Order(es)[i] ensures r == First(Order(es)[i + 1..]) {
          AfterItem(items[..], shape, From(es), i, k.i);
        }
        return;
      }
      var slot := LookupKey(es, k);
      if slot < 0 {
        forall i | 0 <= i < |Order(es)| ensures k != Order(es)[i] {
          OrderKeys(items[..], shape, From(es), i);
        }
        return None;
      }
      forall i | 0 <= i < |Order(es)| && k == Order(es)[i]
        ensures i == |ArrayKeys(items[..], 0)| + slot
      {
        AfterNode(items[..], shape, From(es), i, slot);
      }
      assert Order(es)[|ArrayKeys(items[..], 0)| + slot] == k;
      slot := slot + 1;
      if slot == hash.Length {
        return None;
      }
      var next := PushKey(es, slot);
      return Some(next);
    }

    lemma OrderSound(es: seq<Entry>, i: nat)
      requires Built(es) && shape.Sized() && i < |Order(es)|
      ensures Get(es, Order(es)[i]).Some?
    {
      hide HashRight, Injective, KeyHash, CountHash, ArrayKeys, Get;
      var keys, k := ArrayKeys(items[..], 0), Order(es)[i];
      OrderPlace(items[..], shape, From(es), i);
      if i < |keys| {
        assert k == IntKey((k.i - 1) + 1) && items[k.i - 1] == Get(es, k);
      } else {
        GetPresent(es, shape.owner[i - |keys|]);
      }
    }

    lemma OrderFull(es: seq<Entry>, k: Key)
      requires Built(es) && shape.Sized() && Get(es, k).Some?
      ensures k in Order(es)
    {
      hide HashRight, Injective, KeyHash, CountHash, ArrayKeys, Get;
      var src, keys, nodes := From(es), ArrayKeys(items[..], 0), HashKeys(shape, es);
      if InArray(k, src.n) {
        assert items[k.i - 1] == Get(es, IntKey((k.i - 1) + 1));
        ArrayHas(items[..], 0, k.i);
      } else {
        var p := FindSlot(shape, src, k);
        if p == -1 {
          GetAbsent(es, k);
        }
        assert Order(es)[|keys| + p] == nodes[p] == k;
      }
    }

    /** The order lists exactly the keys of the source. */
    lemma OrderComplete(es: seq<Entry>, k: Key)
      requires Built(es) && shape.Sized()
      ensures k in Order(es) <==> Get(es, k).Some?
    {
      hide *;
      if k in Order(es) {
        var i :| 0 <= i < |Order(es)| && Order(es)[i] == k;
        OrderSound(es, i);
      }
      if Get(es, k).Some? {
        OrderFull(es, k);
      }
    }

    /** It lists each of them once. */
    lemma OrderDistinct(es: seq<Entry>, i: nat, j: nat)
      requires Built(es) && shape.Sized() && i < j < |Order(es)|
      ensures Order(es)[i] != Order(es)[j]
    {
      hide Injective, KeyHash;
      var src, keys := From(es), ArrayKeys(items[..], 0);
      OrderPlace(items[..], shape, src, i);
      OrderPlace(items[..], shape, src, j);
      if j < |keys| {
        ArraySuffix(items[..], 0, i);
        var rest := keys[i + 1..];
        assert rest[j - i - 1] == keys[j];
        ArraySuffix(items[..], keys[i].i, j - i - 1);
      } else if i >= |keys| {
        BuiltParts(shape, src);
        assert shape.owner[i - |keys|] != shape.owner[j - |keys|];
      }
    }

    /** Asking for the next key until there is none visits every key of the source exactly once. */
    method Traverse(ghost es: seq<Entry>) returns (ks: seq<Key>)
      requires Built(es)
      ensures shape.Sized() && ks == Order(es)
      ensures forall k: Key :: k in ks <==> Get(es, k).Some?
      ensures forall i, j | 0 <= i < j < |ks| :: ks[i] != ks[j]
    {
      hide HashRight, Injective, KeyHash, CountHash, SourceTable;
      BuiltParts(shape, From(es));
      ks := [];
      var next := NextKey(es, None);
      assert Order(es)[0..] == Order(es);
      while next.Some?
        invariant |ks| <= |Order(es)| && ks == Order(es)[..|ks|] && next == First(Order(es)[|ks|..])
        decreases |Order(es)| - |ks|
      {
        NotBad(es, |ks|);
        NotWide(es, |ks|);
        assert Order(es)[|ks|..][0] == Order(es)[|ks|];
        ghost var i := |ks|;
        ks := ks + [next.value];
        next := NextKey(es, next);
        assert next == First(Order(es)[i + 1..]);
      }
      assert Order(es)[|ks|..] == [];
      assert ks == Order(es);
      forall k: Key ensures k in ks <==> Get(es, k).Some? {
        OrderComplete(es, k);
      }
      forall i, j | 0 <= i < j < |ks| ensures ks[i] != ks[j] {
        OrderDistinct(es, i, j);
      }
    }

    lemma NotWide(es: seq<Entry>, i: nat)
      requires Built(es) && shape.Sized() && i < |Order(es)|
      ensures Truncated(Order(es)[i]) == Order(es)[i]
    {
      hide SecondPass, HashRight, Injective, KeyHash, CountHash;
      var k := Order(es)[i];
      OrderSound(es, i);
      if Truncated(k) != k {
        GetAbsent(es, k);
      }
    }

    lemma NotBad(es: seq<Entry>, i: nat)
      requires Built(es) && shape.Sized() && i < |Order(es)|
      ensures Order(es)[i] != BadKey
    {
      hide HashRight, Injective, KeyHash, CountHash;
      OrderPlace(items[..], shape, From(es), i);
    }

    /** `convtable` for a source table whose length operator answers `sizeArray`. */
    static method Convert(es: seq<Entry>, sizeArray: nat) returns (r: Option<SharedTable>)
      requires SourceTable(es)
      ensures r.Some? <==> NoBadKey(es)
      ensures r.Some? ==> fresh(r.value) && r.value.Built(es) && r.value.items.Length == sizeArray
    {
      hide FirstPass, SecondPass, HashRight, SourceTable, Injective;
      var size := CountSize(es, sizeArray);
      if size.None? {
        return None;
      }
      var t := new SharedTable.Empty(sizeArray, size.value, es);
      if size.value > 0 {
        t.FillNoColliding(es);
        FirstToSecond(t.shape, t.From(es));
        t.FillColliding(es);
      } else {
        t.FillArray(es);
        NoHash(t.shape, t.From(es));
      }
      t.ConvertStrings();
      return Some(t);
    }
  }

  ghost function HashKeys(h: Hash, es: seq<Entry>): (ks: seq<Key>)
    requires h.Sized()
    ensures |ks| == |h.owner|
    ensures forall s | 0 <= s < |ks| && 0 <= h.owner[s] < |es| :: ks[s] == es[h.owner[s]].key
  {
    seq(|h.owner|, s requires 0 <= s < |h.owner| => if 0 <= h.owner[s] < |es| then es[h.owner[s]].key else BadKey)
  }

  /** The keys of the items that are not nil, from index `i` on. */
  function ArrayKeys(items: seq<Option<int>>, i: nat): seq<Key>
    requires i <= |items|
    decreases |items| - i
  {
    if i == |items| then []
    else (if items[i].Some? then [IntKey(i + 1)] else []) + ArrayKeys(items, i + 1)
  }

  function First(ks: seq<Key>): Option<Key> {
    if ks == [] then None else Some(ks[0])
  }

  lemma SlotEntry(h: Hash, src: Source, s: int)
    requires SecondPass(h, src, |src.es|) && |h.nodes| == CountHash(src.es, src.n) && 0 <= s < |h.nodes|
    ensures h.Sized() && HashEntry(src.es, src.n, h.owner[s]) && NodeRight(h.nodes[s], src.es[h.owner[s]], src.names)
  {
    BuiltParts(h, src);
    hide NodeRight, Home;
    assert SlotRight(h, src, s);
  }

  /** The items' keys ascend, so what follows one of them is the keys from there on. */
  lemma {:induction false} ArraySuffix(items: seq<Option<int>>, i: nat, q: nat)
    requires i <= |items| && q < |ArrayKeys(items, i)|
    ensures var k := ArrayKeys(items, i)[q];
      && k.IntKey? && i < k.i <= |items| && items[k.i - 1].Some?
      && ArrayKeys(items, i)[q + 1..] == ArrayKeys(items, k.i)
    decreases |items| - i
  {
    if items[i].None? {
      assert ArrayKeys(items, i) == ArrayKeys(items, i + 1);
      ArraySuffix(items, i + 1, q);
    } else if q == 0 {
      assert ArrayKeys(items, i)[1..] == ArrayKeys(items, i + 1);
    } else {
      ArraySuffix(items, i + 1, q - 1);
      assert ArrayKeys(items, i)[q + 1..] == ArrayKeys(items, i + 1)[q..];
    }
  }

  lemma {:induction false} ArrayHas(items: seq<Option<int>>, i: nat, v: nat)
    requires i < v <= |items| && items[v - 1].Some?
    ensures IntKey(v) in ArrayKeys(items, i)
    decreases |items| - i
  {
    if i + 1 < v {
      ArrayHas(items, i + 1, v);
    }
  }

  /** A place in the order is an item's or a node's. */
  lemma OrderPlace(items: seq<Option<int>>, h: Hash, src: Source, i: nat)
    requires SecondPass(h, src, |src.es|) && |h.nodes| == CountHash(src.es, src.n) && |items| == src.n && h.Sized()
    requires i < |ArrayKeys(items, 0)| + |h.owner|
    ensures var keys, first := ArrayKeys(items, 0), |ArrayKeys(items, 0)|; var k := (keys + HashKeys(h, src.es))[i];
      && (i < first ==> InArray(k, src.n) && items[k.i - 1].Some?)
      && (i >= first ==> HashEntry(src.es, src.n, h.owner[i - first]) && k == src.es[h.owner[i - first]].key)
  {
    var keys := ArrayKeys(items, 0);
    hide SecondPass, NodeRight;
    if i < |keys| {
      ArraySuffix(items, 0, i);
    } else {
      SlotEntry(h, src, i - |keys|);
    }
  }

  lemma AfterItem(items: seq<Option<int>>, h: Hash, src: Source, i: nat, v: nat)
    requires SecondPass(h, src, |src.es|) && |h.nodes| == CountHash(src.es, src.n) && |items| == src.n && h.Sized()
    requires 0 < v <= src.n && i < |ArrayKeys(items, 0)| + |h.owner|
    requires (ArrayKeys(items, 0) + HashKeys(h, src.es))[i] == IntKey(v)
    ensures (ArrayKeys(items, 0) + HashKeys(h, src.es))[i + 1..] == ArrayKeys(items, v) + HashKeys(h, src.es)
  {
    hide SecondPass;
    OrderPlace(items, h, src, i);
    ArraySuffix(items, 0, i);
    var keys, nodes := ArrayKeys(items, 0), HashKeys(h, src.es);
    assert (keys + nodes)[i + 1..] == keys[i + 1..] + nodes;
  }

  lemma AfterNode(items: seq<Option<int>>, h: Hash, src: Source, i: nat, slot: nat)
    requires SecondPass(h, src, |src.es|) && |h.nodes| == CountHash(src.es, src.n) && |items| == src.n && h.Sized()
    requires SourceTable(src.es) && i < |ArrayKeys(items, 0)| + |h.owner|
    requires SlotOf(h, src, (ArrayKeys(items, 0) + HashKeys(h, src.es))[i], slot)
    ensures i == |ArrayKeys(items, 0)| + slot
  {
    OrderPlace(items, h, src, i);
    BuiltParts(h, src);
    var t := i - |ArrayKeys(items, 0)|;
    if t >= 0 {
      SlotEntry(h, src, t);
      assert h.owner[t] == h.owner[slot];
    }
  }

  lemma OrderKeys(items: seq<Option<int>>, h: Hash, src: Source, i: nat)
    requires SecondPass(h, src, |src.es|) && |h.nodes| == CountHash(src.es, src.n) && |items| == src.n && h.Sized()
    requires i < |ArrayKeys(items, 0)| + |h.owner|
    ensures var k := (ArrayKeys(items, 0) + HashKeys(h, src.es))[i];
      InArray(k, src.n) || exists e :: 0 <= e < |src.es| && src.es[e].key == k
  {
    OrderPlace(items, h, src, i);
  }

  /** The slot that holds a key's entry. */
  ghost predicate SlotOf(h: Hash, src: Source, k: Key, p: int) {
    0 <= p < |h.owner| && HashEntry(src.es, src.n, h.owner[p]) && src.es[h.owner[p]].key == k
  }

  lemma FindSlot(h: Hash, src: Source, k: Key) returns (p: int)
    requires SecondPass(h, src, |src.es|) && !InArray(k, src.n)
    ensures p == -1 || SlotOf(h, src, k, p)
    ensures p == -1 ==> forall e | 0 <= e < |src.es| :: src.es[e].key != k
  {
    if e :| 0 <= e < |src.es| && src.es[e].key == k {
      assert HashEntry(src.es, src.n, e);
      assert Placed(h, e);
      p :| 0 <= p < |h.owner| && h.owner[p] == e;
    } else {
      p := -1;
    }
  }

  /** What a filled slot says about the next step of its chain. */
  lemma ChainStep(h: Hash, src: Source, s: int)
    requires HashRight(h, src) && 0 <= s < |h.nodes| && h.nodes[s].val.Some?
    ensures HashEntry(src.es, src.n, h.owner[s]) && NodeRight(h.nodes[s], src.es[h.owner[s]], src.names)
    ensures h.nodes[s].next < 0 <==> h.rank[s] == 0
    ensures h.nodes[s].next >= 0 ==>
      var t := h.nodes[s].next;
      && t < |h.nodes| && h.nodes[t].val.Some? && h.rank[t] == h.rank[s] - 1 && HashEntry(src.es, src.n, h.owner[t])
      && Home(src.es[h.owner[t]].key, |h.nodes|) == Home(src.es[h.owner[s]].key, |h.nodes|)
  {
    hide Home, NodeRight;
    assert SlotRight(h, src, s);
    var m := Home(src.es[h.owner[s]].key, |h.nodes|);
    assert TrailRight(h, src, m);
    if h.rank[s] > 0 {
      assert Member(h, src, m, h.rank[s] - 1);
    }
  }

  /** A key's slot lies on the chain of its main position, at or behind its head. */
  lemma OnChain(h: Hash, src: Source, p: int)
    requires HashRight(h, src) && 0 <= p < |h.nodes| && h.nodes[p].val.Some?
    ensures HashEntry(src.es, src.n, h.owner[p])
    ensures var m := Home(src.es[h.owner[p]].key, |h.nodes|);
      && HashEntry(src.es, src.n, h.owner[m]) && Home(src.es[h.owner[m]].key, |h.nodes|) == m && h.rank[p] <= h.rank[m]
      && (h.rank[p] == h.rank[m] ==> p == m) && (h.nodes[m].nocolliding ==> p == m)
  {
    assert SlotRight(h, src, p);
    var m := Home(src.es[h.owner[p]].key, |h.nodes|);
    hide Home, NodeRight;
    HeadFacts(h, src, m);
    assert SlotRight(h, src, m);
  }

  /** Following the chain from `n` still leads to `p`. */
  ghost predicate Ahead(h: Hash, src: Source, n: int, p: int) {
    && h.Sized() && 0 <= n < |h.nodes| && 0 <= p < |h.nodes| && h.nodes[n].val.Some? && h.nodes[p].val.Some?
    && HashEntry(src.es, src.n, h.owner[n]) && HashEntry(src.es, src.n, h.owner[p]) && h.rank[p] <= h.rank[n]
    && Home(src.es[h.owner[n]].key, |h.nodes|) == Home(src.es[h.owner[p]].key, |h.nodes|)
  }

  lemma StillAhead(h: Hash, src: Source, n: int, p: int)
    requires HashRight(h, src) && Ahead(h, src, n, p) && n != p
    ensures h.nodes[n].next >= 0 && Ahead(h, src, h.nodes[n].next, p)
  {
    hide NodeRight;
    ChainStep(h, src, n);
    if h.rank[n] == h.rank[p] {
      SameRank(h, src, n, p);
    }
  }

  lemma BuiltParts(h: Hash, src: Source)
    requires SecondPass(h, src, |src.es|) && |h.nodes| == CountHash(src.es, src.n)
    ensures HashRight(h, src) && h.Sized() && forall s | 0 <= s < |h.nodes| :: h.nodes[s].val.Some?
    ensures |h.nodes| == 0 ==> forall e | 0 <= e < |src.es| :: InArray(src.es[e].key, src.n)
  {
    forall s | 0 <= s < |h.nodes| ensures h.nodes[s].val.Some? {
      AllFilled(h, src, s);
    }
    if |h.nodes| == 0 {
      CountIsCard(src.es, src.n);
      assert forall e | 0 <= e < |src.es| && !InArray(src.es[e].key, src.n) :: e in HashSet(src.es, src.n);
    }
  }

  lemma KeyHashOf(h: Hash, src: Source, s: int)
    requires HashRight(h, src) && 0 <= s < |h.nodes| && h.nodes[s].val.Some?
    ensures HashEntry(src.es, src.n, h.owner[s]) && h.nodes[s].keyhash == KeyHash(src.es[h.owner[s]].key)
  {
    hide KeyHash;
    assert SlotRight(h, src, s);
  }

  /** Two slots of one chain with the same rank are one slot. */
  lemma SameRank(h: Hash, src: Source, s: int, t: int)
    requires HashRight(h, src) && 0 <= s < |h.nodes| && 0 <= t < |h.nodes|
    requires h.nodes[s].val.Some? && h.nodes[t].val.Some? && h.rank[s] == h.rank[t]
    requires HashEntry(src.es, src.n, h.owner[s]) && HashEntry(src.es, src.n, h.owner[t])
    requires Home(src.es[h.owner[s]].key, |h.nodes|) == Home(src.es[h.owner[t]].key, |h.nodes|)
    ensures s == t
  {
    hide Home, NodeRight;
    assert SlotRight(h, src, s) && SlotRight(h, src, t);
  }

  /** With no key outside the array part there is nothing to place. */
  lemma NoHash(h: Hash, src: Source)
    requires FirstPass(h, src, 0) && |h.nodes| == 0 == CountHash(src.es, src.n)
    ensures SecondPass(h, src, |src.es|)
  {
    CountIsCard(src.es, src.n);
    assert HashSet(src.es, src.n) == {};
    assert forall e | HashEntry(src.es, src.n, e) :: e in HashSet(src.es, src.n);
  }

  lemma FirstNames(h: Hash, src: Source, names: map<seq<Byte>, int>, t: int)
    requires FirstPass(h, src, t) && forall x | x in src.names :: x in names && names[x] == src.names[x]
    ensures FirstPass(h, src.(names := names), t) && h.Sized()
  {
    NamesGrow(h, src, names);
    hide HashRight, Home;
    var src' := src.(names := names);
    forall e | 0 <= e < t ensures HomeTaken(h, src', e) {
      assert HomeTaken(h, src, e);
    }
    forall s | 0 <= s < |h.nodes| ensures h.owner[s] < t && AtHome(h, src', s) {
      assert AtHome(h, src, s);
    }
  }

  lemma SecondNames(h: Hash, src: Source, names: map<seq<Byte>, int>, t: int)
    requires SecondPass(h, src, t) && forall x | x in src.names :: x in names && names[x] == src.names[x]
    ensures SecondPass(h, src.(names := names), t)
  {
    NamesGrow(h, src, names);
    hide HashRight, Home;
    var src' := src.(names := names);
    forall e | 0 <= e < |src.es| ensures HomeTaken(h, src', e) {
      assert HomeTaken(h, src, e);
    }
    forall s | 0 <= s < |h.nodes| ensures h.owner[s] < t || AtHome(h, src', s) {
      assert h.owner[s] < t || AtHome(h, src, s);
    }
  }

  lemma SecondParts(h: Hash, src: Source, t: int)
    requires SecondPass(h, src, t) && HashEntry(src.es, src.n, t) && |h.nodes| > 0
    ensures HashRight(h, src) && h.Sized() && h.trail[Home(src.es[t].key, |h.nodes|)] != []
  {
    assert HomeTaken(h, src, t);
  }

  /** The test on the main position asks whether the entry is there. */
  lemma OwnerByKey(h: Hash, src: Source, t: int, isString: bool, key: int)
    requires SecondPass(h, src, t) && HashEntry(src.es, src.n, t) && |h.nodes| > 0
    requires SourceTable(src.es) && Injective(src.names)
    requires forall node: Node | node.isString == isString && node.key == key :: KeyIs(node, src.es[t].key, src.names)
    ensures h.Sized()
    ensures var m := Home(src.es[t].key, |h.nodes|);
      h.nodes[m].isString == isString && h.nodes[m].key == key <==> h.owner[m] == t
  {
    SecondParts(h, src, t);
    var m := Home(src.es[t].key, |h.nodes|);
    hide Home, KeyHash;
    HeadFacts(h, src, m);
    assert SlotRight(h, src, m);
    var node := h.nodes[m];
    if node.isString == isString && node.key == key {
      SameKey(node, src.es[t].key, src.es[h.owner[m]].key, src.names);
    }
    if h.owner[m] == t {
      var probe := Node(None, isString, key, 0, 0, false);
      assert KeyIs(probe, src.es[t].key, src.names) && KeyIs(node, src.es[t].key, src.names);
    }
  }
}
