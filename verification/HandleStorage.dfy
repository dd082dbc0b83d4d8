/** The service registry of skynet_handle.c: a slot table addressed by the low bits of the handle
    and doubled when full, and a sorted array of names. Bit masks of a power of two are written as
    remainders. */
module HandleStorage {
  import opened Common

  datatype Slot = Empty | Live(ctx: nat, handle: nat)

  datatype Name = Name(name: string, handle: nat)

  datatype Naming = Inserted | Exists | Full

  const HANDLE_SPACE: nat := 0x1000000
  const DEFAULT_SLOT_SIZE: nat := 4
  const MAX_SLOT_SIZE: nat := 0x40000000

  //////////////////////////////////////////////////////////////////////////////
  // Sizes and hashes
  //////////////////////////////////////////////////////////////////////////////

  lemma {:induction false} Pow2Grows(j: nat, k: nat)
    requires j < k
    ensures 2 * Pow2(j) <= Pow2(k)
  {
    if j + 1 < k {
      Pow2Grows(j, k - 1);
    }
  }

  lemma Pow2Values()
    ensures Pow2(2) == DEFAULT_SLOT_SIZE && Pow2(24) == HANDLE_SPACE && Pow2(30) == MAX_SLOT_SIZE
  {
    assert Pow2(6) == 64 && Pow2(12) == 4096;
    assert Pow2(18) == 0x40000;
    assert Pow2(24) == 0x1000000;
  }

  /** The slot of a handle: its low bits. */
  function Hash(h: nat, size: nat): (r: nat)
    requires size > 0
    ensures r < size
  {
    h % size
  }

  lemma {:induction false} HashTower(h: nat, size: nat, k: nat)
    requires size > 0 && k > 0
    ensures size * k > 0 && Hash(Hash(h, size * k), size) == Hash(h, size)
  {
    var m := size * k;
    assert m > 0 by {
      Positive(size, k);
    }
    var q, r := h / m, h % m;
    assert h == (k * q) * size + r by {
      assert h == m * q + r;
      assert m * q == (k * q) * size;
    }
    ModShift(r, k * q, size);
  }

  lemma Positive(a: nat, b: nat)
    requires a > 0 && b > 0
    ensures a * b > 0
  {
  }

  lemma {:induction false} ModShift(r: nat, q: nat, size: nat)
    requires size > 0
    ensures q * size + r >= 0 && (q * size + r) % size == r % size
  {
    if q > 0 {
      ModShift(r, q - 1, size);
      assert q * size + r == ((q - 1) * size + r) + size;
      ModStep((q - 1) * size + r, size);
    }
  }

  lemma ModStep(x: nat, size: nat)
    requires size > 0
    ensures (x + size) % size == x % size
  {
    var q, r := x / size, x % size;
    assert x + size == (q + 1) * size + r;
    DivModUnique(x + size, size, q + 1, r);
  }

  lemma DivModUnique(x: nat, size: nat, q: nat, r: nat)
    requires size > 0 && x == q * size + r && r < size
    ensures x % size == r
  {
    SplitUnique(size, q, r, x / size, x % size);
  }

  lemma SplitUnique(size: nat, q: int, r: nat, q': int, r': nat)
    requires q * size + r == q' * size + r' && r < size && r' < size
    ensures r == r'
  {
    if q > q' {
      MulMonotone(q' + 1, q, size);
    } else if q < q' {
      MulMonotone(q + 1, q', size);
    }
  }

  lemma MulMonotone(a: int, b: int, c: nat)
    requires a <= b
    ensures a * c <= b * c && a * c == (a - 1) * c + c
  {
  }

  /** Every size in use divides the handle space. */
  lemma {:induction false} SizeDivides(k: nat, n: nat) returns (m: nat)
    requires k <= n
    ensures m > 0 && Pow2(n) == Pow2(k) * m
  {
    if k == n {
      m := 1;
    } else {
      var m' := SizeDivides(k, n - 1);
      m := 2 * m';
      assert 2 * (Pow2(k) * m') == Pow2(k) * (2 * m');
    }
  }

  /** The slot probed at step `j`. */
  function Probe(index: nat, j: nat, size: nat): (r: nat)
    requires size > 0
    ensures r < size
  {
    Hash(index + j, size)
  }

  /** The probe order visits every slot: slot `r` is probed at some step below `size`. */
  lemma ProbeReaches(index: nat, size: nat, r: nat) returns (i: nat)
    requires r < size
    ensures i < size && Probe(index, i, size) == r
  {
    var a := index % size;
    i := if a <= r then r - a else r + size - a;
    var q := index / size;
    if a <= r {
      DivModUnique(index + i, size, q, r);
    } else {
      assert (q + 1) * size == q * size + size;
      DivModUnique(index + i, size, q + 1, r);
    }
  }

  /** Masking to the handle space and adding the harbor bits do not move a slot. */
  lemma ProbeSlot(harbor: nat, x: nat, k: nat)
    requires k <= 24 && harbor % HANDLE_SPACE == 0
    ensures Hash(harbor + x % HANDLE_SPACE, Pow2(k)) == Hash(x, Pow2(k)) == Hash(x % HANDLE_SPACE, Pow2(k))
  {
    hide Pow2, Hash;
    Pow2Values();
    var m := SizeDivides(k, 24);
    HarborMask(harbor, x);
    HashTower(x, Pow2(k), m);
    HashTower(harbor + x % HANDLE_SPACE, Pow2(k), m);
  }

  lemma HarborMask(harbor: nat, x: nat)
    requires harbor % HANDLE_SPACE == 0
    ensures Hash(harbor + x % HANDLE_SPACE, HANDLE_SPACE) == Hash(x, HANDLE_SPACE) == x % HANDLE_SPACE
  {
  }

  //////////////////////////////////////////////////////////////////////////////
  // The slot table and the map it stands for
  //////////////////////////////////////////////////////////////////////////////

  predicate InSpace(h: nat, harbor: nat) {
    harbor <= h < harbor + HANDLE_SPACE
  }

  /** Every occupied slot holds a live handle, in the slot its low bits name. */
  predicate SlotRight(s: seq<Slot>, live: map<nat, nat>, i: nat)
    requires i < |s|
  {
    s[i].Live? ==> s[i].handle in live && live[s[i].handle] == s[i].ctx && Hash(s[i].handle, |s|) == i
  }

  predicate HandleRight(s: seq<Slot>, live: map<nat, nat>, h: nat)
    requires |s| > 0 && h in live
  {
    s[Hash(h, |s|)] == Live(live[h], h)
  }

  predicate Agrees(s: seq<Slot>, live: map<nat, nat>) {
    && |s| > 0
    && (forall i: nat | i < |s| :: SlotRight(s, live, i))
    && (forall h | h in live :: HandleRight(s, live, h))
  }

  /** Live handles are distinct modulo the table size. */
  lemma DistinctSlots(s: seq<Slot>, live: map<nat, nat>, g: nat, h: nat)
    requires Agrees(s, live) && g in live && h in live && Hash(g, |s|) == Hash(h, |s|)
    ensures g == h
  {
    assert HandleRight(s, live, g) && HandleRight(s, live, h);
  }

  lemma AgreesPut(s: seq<Slot>, live: map<nat, nat>, h: nat, ctx: nat)
    requires Agrees(s, live) && s[Hash(h, |s|)].Empty?
    ensures h !in live && Agrees(s[Hash(h, |s|) := Live(ctx, h)], live[h := ctx])
  {
    hide Hash;
    assert h in live ==> HandleRight(s, live, h);
    var s', live' := s[Hash(h, |s|) := Live(ctx, h)], live[h := ctx];
    forall i: nat | i < |s'| ensures SlotRight(s', live', i) {
      assert SlotRight(s, live, i);
    }
    forall g | g in live' ensures HandleRight(s', live', g) {
      assert g in live ==> HandleRight(s, live, g);
    }
  }

  lemma AgreesRemove(s: seq<Slot>, live: map<nat, nat>, h: nat)
    requires Agrees(s, live) && h in live
    ensures Agrees(s[Hash(h, |s|) := Empty], live - {h})
  {
    hide Hash;
    assert HandleRight(s, live, h);
    var s', live' := s[Hash(h, |s|) := Empty], live - {h};
    forall i: nat | i < |s'| ensures SlotRight(s', live', i) {
      assert SlotRight(s, live, i);
    }
    forall g | g in live' ensures HandleRight(s', live', g) {
      assert HandleRight(s, live, g);
    }
  }

  /** The first `n` slots of a full table, moved to a table of twice the size. */
  predicate Moved(s: seq<Slot>, t: seq<Slot>, n: nat) {
    && |t| == 2 * |s| > 0 && n <= |s|
    && (forall i: nat | i < n :: s[i].Live? && t[Hash(s[i].handle, |t|)] == s[i])
    && (forall j: nat | j < |t| && t[j].Live? :: Hash(j, |s|) < n && t[j] == s[Hash(j, |s|)] && Hash(t[j].handle, |t|) == j)
  }

  /** The slot a moved entry goes to is empty, and moving it keeps the picture. */
  lemma MoveOne(s: seq<Slot>, live: map<nat, nat>, t: seq<Slot>, n: nat)
    requires Agrees(s, live) && Moved(s, t, n) && n < |s| && s[n].Live?
    ensures t[Hash(s[n].handle, |t|)].Empty?
    ensures Moved(s, t[Hash(s[n].handle, |t|) := s[n]], n + 1)
  {
    hide Hash;
    var h := s[n].handle;
    assert SlotRight(s, live, n);
    HashTower(h, |s|, 2);
    assert |s| * 2 == |t|;
    var t' := t[Hash(h, |t|) := s[n]];
    forall i: nat | i < n + 1 ensures s[i].Live? && t'[Hash(s[i].handle, |t'|)] == s[i] {
      assert SlotRight(s, live, i);
      HashTower(s[i].handle, |s|, 2);
    }
  }

  lemma MovedAgrees(s: seq<Slot>, live: map<nat, nat>, t: seq<Slot>)
    requires Agrees(s, live) && Moved(s, t, |s|)
    ensures Agrees(t, live)
  {
    hide Hash;
    forall j: nat | j < |t| ensures SlotRight(t, live, j) {
      if t[j].Live? {
        var i := Hash(j, |s|);
        assert SlotRight(s, live, i) && t[j] == s[i] && t[Hash(s[i].handle, |t|)] == s[i];
      }
    }
    forall h | h in live ensures HandleRight(t, live, h) {
      assert HandleRight(s, live, h);
      assert t[Hash(s[Hash(h, |s|)].handle, |t|)] == s[Hash(h, |s|)];
    }
  }

  //////////////////////////////////////////////////////////////////////////////
  // Names
  //////////////////////////////////////////////////////////////////////////////

  /** The sign of `strcmp`. */
  function StrCmp(a: string, b: string): int {
    if a == [] then (if b == [] then 0 else -1)
    else if b == [] then 1
    else if a[0] < b[0] then -1
    else if a[0] > b[0] then 1
    else StrCmp(a[1..], b[1..])
  }

  predicate Before(a: string, b: string) {
    StrCmp(a, b) < 0
  }

  lemma {:induction false} StrCmpOrder(a: string, b: string)
    ensures StrCmp(a, b) == 0 <==> a == b
    ensures StrCmp(a, b) == -StrCmp(b, a)
  {
    if a != [] && b != [] {
      StrCmpOrder(a[1..], b[1..]);
      assert a == [a[0]] + a[1..] && b == [b[0]] + b[1..];
    }
  }

  lemma {:induction false} BeforeTransitive(a: string, b: string, c: string)
    requires Before(a, b) && Before(b, c)
    ensures Before(a, c)
  {
    if a != [] && b != [] && c != [] && a[0] == b[0] == c[0] {
      BeforeTransitive(a[1..], b[1..], c[1..]);
    }
  }

  predicate Sorted(s: seq<Name>) {
    forall i, j | 0 <= i < j < |s| :: Before(s[i].name, s[j].name)
  }

  predicate HasName(s: seq<Name>, n: string) {
    exists i | 0 <= i < |s| :: s[i].name == n
  }

  predicate NamesAgree(s: seq<Name>, names: map<string, nat>) {
    && Sorted(s)
    && (forall i | 0 <= i < |s| :: s[i].name in names && names[s[i].name] == s[i].handle)
    && (forall n | n in names :: HasName(s, n))
  }

  /** Where a name is or belongs. */
  predicate Position(s: seq<Name>, n: string, at: int) {
    && 0 <= at <= |s|
    && (forall i | 0 <= i < at :: Before(s[i].name, n))
    && (forall i | at <= i < |s| :: Before(n, s[i].name))
  }

  /** One probe of the binary search. */
  lemma ProbeBelow(s: seq<Name>, n: string, mid: nat)
    requires Sorted(s) && mid < |s| && Before(s[mid].name, n)
    ensures forall i | 0 <= i <= mid :: Before(s[i].name, n)
  {
    hide Before;
    forall i | 0 <= i < mid ensures Before(s[i].name, n) {
      BeforeTransitive(s[i].name, s[mid].name, n);
    }
  }

  lemma ProbeAbove(s: seq<Name>, n: string, mid: nat)
    requires Sorted(s) && mid < |s| && Before(n, s[mid].name)
    ensures forall i | mid <= i < |s| :: Before(n, s[i].name)
  {
    hide Before;
    forall i | mid < i < |s| ensures Before(n, s[i].name) {
      BeforeTransitive(n, s[mid].name, s[i].name);
    }
  }

  lemma Compared(a: string, b: string)
    ensures StrCmp(a, b) == 0 ==> a == b
    ensures StrCmp(a, b) < 0 ==> Before(a, b)
    ensures StrCmp(a, b) > 0 ==> Before(b, a)
  {
    StrCmpOrder(a, b);
  }

  lemma Absent(s: seq<Name>, names: map<string, nat>, n: string, at: nat)
    requires NamesAgree(s, names) && Position(s, n, at)
    ensures n !in names
  {
    StrCmpOrder(n, n);
    hide StrCmp;
    assert n in names ==> HasName(s, n);
  }

  lemma InsertSorted(s: seq<Name>, n: string, h: nat, at: nat)
    requires Sorted(s) && Position(s, n, at)
    ensures Sorted(s[..at] + [Name(n, h)] + s[at..])
  {
    hide Before;
    var t := s[..at] + [Name(n, h)] + s[at..];
    assert forall i | 0 <= i < at :: t[i] == s[i];
    assert forall i | at < i < |t| :: t[i] == s[i - 1];
  }

  lemma AgreesInsert(s: seq<Name>, names: map<string, nat>, n: string, h: nat, at: nat)
    requires NamesAgree(s, names) && Position(s, n, at)
    ensures NamesAgree(s[..at] + [Name(n, h)] + s[at..], names[n := h])
  {
    Absent(s, names, n, at);
    InsertSorted(s, n, h, at);
    hide Before, StrCmp, Sorted, Position;
    var t, names' := s[..at] + [Name(n, h)] + s[at..], names[n := h];
    forall i | 0 <= i < |t| ensures t[i].name in names' && names'[t[i].name] == t[i].handle {
      assert t[i] == if i < at then s[i] else if i == at then Name(n, h) else s[i - 1];
      assert n !in names;
    }
    forall m | m in names' ensures HasName(t, m) {
      assert m != n ==> HasName(s, m);
      InsertHas(s, n, h, at, m);
    }
  }

  lemma InsertHas(s: seq<Name>, n: string, h: nat, at: nat, m: string)
    requires at <= |s| && (m == n || HasName(s, m))
    ensures HasName(s[..at] + [Name(n, h)] + s[at..], m)
  {
    var t := s[..at] + [Name(n, h)] + s[at..];
    if m == n {
      assert t[at].name == n;
    } else {
      var i :| 0 <= i < |s| && s[i].name == m;
      if i < at {
        assert t[i] == s[i];
      } else {
        assert t[i + 1] == s[i];
      }
    }
  }

  /** The names left when the names of `h` go. */
  function Without(s: seq<Name>, h: nat): (r: seq<Name>)
    ensures |r| <= |s|
  {
    if s == [] then []
    else
      var rest := Without(s[..|s| - 1], h);
      if s[|s| - 1].handle == h then rest else rest + [s[|s| - 1]]
  }

  function NamesWithout(names: map<string, nat>, h: nat): map<string, nat> {
    map n | n in names && names[n] != h :: names[n]
  }

  /** `Without` keeps exactly the other handles' names, in order. */
  lemma {:induction false} WithoutContents(s: seq<Name>, h: nat)
    requires Sorted(s)
    ensures Sorted(Without(s, h))
    ensures forall i | 0 <= i < |Without(s, h)| :: Without(s, h)[i].handle != h && HasEntry(s, Without(s, h)[i])
    ensures forall i | 0 <= i < |s| && s[i].handle != h :: HasEntry(Without(s, h), s[i])
  {
    hide Before;
    if s != [] {
      var t, e := s[..|s| - 1], s[|s| - 1];
      WithoutContents(t, h);
      var w, r := Without(t, h), Without(s, h);
      forall i | 0 <= i < |r| ensures r[i].handle != h && HasEntry(s, r[i]) {
        if i < |w| {
          assert HasEntry(t, w[i]);
          EntryPrefix(t, e, w[i]);
        } else {
          assert s[|s| - 1] == e;
        }
      }
      forall i | 0 <= i < |s| && s[i].handle != h ensures HasEntry(r, s[i]) {
        if i < |t| {
          assert t[i] == s[i] && HasEntry(w, t[i]);
          EntryPrefix(w, e, t[i]);
        } else {
          assert r[|r| - 1] == e;
        }
      }
      forall i, j | 0 <= i < j < |r| ensures Before(r[i].name, r[j].name) {
        if j == |w| {
          assert HasEntry(t, w[i]);
          var m :| 0 <= m < |t| && t[m] == w[i];
          assert s[m] == w[i];
        }
      }
    }
  }

  predicate HasEntry(s: seq<Name>, e: Name) {
    exists i | 0 <= i < |s| :: s[i] == e
  }

  lemma EntryPrefix(s: seq<Name>, last: Name, e: Name)
    requires HasEntry(s, e)
    ensures HasEntry(s + [last], e)
  {
    var i :| 0 <= i < |s| && s[i] == e;
    assert (s + [last])[i] == e;
  }

  lemma AgreesWithout(s: seq<Name>, names: map<string, nat>, h: nat)
    requires NamesAgree(s, names)
    ensures NamesAgree(Without(s, h), NamesWithout(names, h))
  {
    WithoutContents(s, h);
    hide Before, Without;
    var r, names' := Without(s, h), NamesWithout(names, h);
    forall i | 0 <= i < |r| ensures r[i].name in names' && names'[r[i].name] == r[i].handle {
      assert HasEntry(s, r[i]);
    }
    forall n | n in names' ensures HasName(r, n) {
      assert HasName(s, n);
      var i :| 0 <= i < |s| && s[i].name == n;
      assert HasEntry(r, s[i]);
    }
  }

  //////////////////////////////////////////////////////////////////////////////
  // The registry
  //////////////////////////////////////////////////////////////////////////////

  class Storage {
    const harbor: nat
    var handleIndex: nat
    var slot: array<Slot>
    var name: array<Name>
    var nameCount: nat

    ghost var slotBits: nat
    ghost var nameBits: nat
    ghost var live: map<nat, nat>
    ghost var names: map<string, nat>

    ghost predicate ValidSlots()
      reads this, slot
    {
      && harbor % HANDLE_SPACE == 0 && handleIndex <= HANDLE_SPACE
      && 2 <= slotBits <= 24 && slot.Length == Pow2(slotBits)
      && Agrees(slot[..], live)
      && forall h | h in live :: InSpace(h, harbor)
    }

    ghost predicate ValidNames()
      reads this, name
    {
      && 1 <= nameBits <= 30 && name.Length == Pow2(nameBits) && nameCount <= name.Length
      && NamesAgree(name[..nameCount], names)
    }

    ghost predicate Valid()
      reads this, slot, name
    {
      ValidSlots() && ValidNames()
    }

    constructor (h: nat)
      ensures Valid() && fresh(slot) && fresh(name) && live == map[] && names == map[]
      ensures harbor == (h % 256) * HANDLE_SPACE && handleIndex == 1
    {
      slot := new Slot[DEFAULT_SLOT_SIZE](_ => Empty);
      harbor := (h % 256) * HANDLE_SPACE;
      handleIndex := 1;
      name := new Name[2](_ => Name("", 0));
      nameCount := 0;
      slotBits, nameBits, live, names := 2, 1, map[], map[];
      new;
      assert Pow2(1) == 2;
    }

    /** One pass over the slots from `handleIndex`. */
    method Scan() returns (r: Option<nat>, ghost k: nat)
      requires ValidSlots()
      ensures r.Some? ==>
        && r.value < HANDLE_SPACE && slot[Hash(r.value, slot.Length)].Empty?
        && FirstFree(slot[..], handleIndex, k, r.value)
      ensures r.None? ==> forall i | 0 <= i < slot.Length :: slot[i].Live?
    {
      hide Pow2, Hash;
      var i := 0;
      while i < slot.Length
        invariant i <= slot.Length
        invariant forall j: nat | j < i :: slot[Probe(handleIndex, j, slot.Length)].Live?
      {
        var handle := (i + handleIndex) % HANDLE_SPACE;
        var hash := Hash(handle, slot.Length);
        ProbeSlot(0, handleIndex + i, slotBits);
        if slot[hash].Empty? {
          assert FirstFree(slot[..], handleIndex, i, handle);
          return Some(handle), i;
        }
        i := i + 1;
      }
      forall k: nat | k < slot.Length ensures slot[k].Live? {
        var j := ProbeReaches(handleIndex, slot.Length, k);
      }
      return None, 0;
    }

    /** Rehashes a full table into one of twice the size. */
    method Double()
      requires ValidSlots() && slotBits < 24 && forall i | 0 <= i < slot.Length :: slot[i].Live?
      modifies `slot, `slotBits
      ensures ValidSlots() && fresh(slot) && slotBits == old(slotBits) + 1
      ensures slot.Length == 2 * old(slot.Length)
      ensures forall i | 0 <= i < old(slot.Length) :: slot[i].Empty? || slot[i + old(slot.Length)].Empty?
    {
      hide Hash, Agrees;
      var size := slot.Length;
      var t := new Slot[2 * size](_ => Empty);
      ghost var s := slot[..];
      var i := 0;
      while i < size
        invariant i <= size && fresh(t) && slot[..] == s && slot == old(slot) && t.Length == 2 * size
        invariant slotBits == old(slotBits) && Moved(s, t[..], i)
      {
        var hash := Hash(slot[i].handle, 2 * size);
        MoveOne(s, live, t[..], i);
        assert t[hash].Empty?;
        ghost var before := t[..];
        t[hash] := slot[i];
        assert t[..] == before[hash := s[i]];
        i := i + 1;
      }
      MovedAgrees(s, live, t[..]);
      HalfEmpty(s, t[..]);
      slot := t;
      assert Pow2(slotBits + 1) == 2 * Pow2(slotBits);
      slotBits := slotBits + 1;
    }

    method Register(ctx: nat) returns (r: Option<nat>)
      requires Valid()
      modifies this`slot, this`slotBits, this`handleIndex, this`live, slot
      ensures Valid() && (slot == old(slot) || fresh(slot)) && slot.Length <= 2 * old(slot.Length)
      ensures r.None? <==> forall h: nat | InSpace(h, harbor) :: h in old(live)
      ensures r.None? ==> live == old(live) && handleIndex == old(handleIndex)
      ensures r.Some? ==>
        && InSpace(r.value, harbor) && r.value !in old(live) && live == old(live)[r.value := ctx]
        && handleIndex == r.value - harbor + 1
        && exists k: nat :: NextFree(old(live), harbor, old(handleIndex), slot.Length, k, r.value)
    {
      hide Pow2, Hash, Agrees, NamesAgree;
      while true
        invariant ValidSlots() && live == old(live) && handleIndex == old(handleIndex)
        invariant
          || (slot == old(slot) && slot[..] == old(slot[..]))
          || (fresh(slot) && slot.Length == 2 * old(slot.Length) && (slot[0].Empty? || slot[old(slot.Length)].Empty?))
        decreases 24 - slotBits
      {
        var found, k := Scan();
        if found.Some? {
          var handle := found.value;
          var hash := Hash(handle, slot.Length);
          r := Some(handle + harbor);
          ProbeSlot(harbor, handle, slotBits);
          assert NextFree(live, harbor, handleIndex, slot.Length, k, r.value) by {
            TakenSlots(slot[..], live, harbor, handleIndex, k, handle);
          }
          AgreesPut(slot[..], live, handle + harbor, ctx);
          ghost var before := slot[..];
          slot[hash] := Live(ctx, handle + harbor);
          assert slot[..] == before[hash := Live(ctx, handle + harbor)];
          live := live[handle + harbor := ctx];
          handleIndex := handle + 1;
          return;
        }
        if slot.Length * 2 - 1 > HANDLE_SPACE - 1 {
          FullSpace(slot[..], live, harbor, slotBits);
          return None;
        }
        Pow2Values();
        Double();
      }
    }

    method Grab(h: nat) returns (r: Option<nat>)
      requires Valid()
      ensures r == if h in live then Some(live[h]) else None
    {
      hide Pow2, Hash;
      var hash := Hash(h, slot.Length);
      ghost var s := slot[..];
      assert SlotRight(s, live, hash) && (h in live ==> HandleRight(s, live, h));
      if slot[hash].Live? && slot[hash].handle == h {
        return Some(slot[hash].ctx);
      }
      return None;
    }

    /** Removes the context, which the caller releases, and all its names. */
    method Retire(h: nat) returns (r: Option<nat>)
      requires Valid()
      modifies this`live, this`names, this`nameCount, slot, name
      ensures Valid()
      ensures r == if h in old(live) then Some(old(live)[h]) else None
      ensures live == old(live) - {h}
      ensures names == if h in old(live) then NamesWithout(old(names), h) else old(names)
    {
      hide Pow2, Hash, Agrees, NamesAgree;
      r := Grab(h);
      if r.None? {
        assert live == live - {h};
        return;
      }
      var hash := Hash(h, slot.Length);
      ghost var s := slot[..];
      AgreesRemove(s, live, h);
      slot[hash] := Empty;
      assert slot[..] == s[hash := Empty];
      live := live - {h};
      DropNames(h);
    }

    method DropNames(h: nat)
      requires ValidNames()
      modifies this`names, this`nameCount, name
      ensures ValidNames() && names == NamesWithout(old(names), h)
    {
      hide Pow2, NamesAgree;
      ghost var s := name[..nameCount];
      AgreesWithout(s, names, h);
      var i, j, n := 0, 0, nameCount;
      while i < n
        invariant j <= i <= n == nameCount == |s| <= name.Length
        invariant names == old(names) && j == |Without(s[..i], h)|
        invariant name[..j] == Without(s[..i], h) && name[i..n] == s[i..]
      {
        assert s[..i + 1][..i] == s[..i] && name[i] == name[i..n][0] == s[i];
        assert s[i..][1..] == s[i + 1..];
        if name[i].handle == h {
        } else {
          if i != j {
            name[j] := name[i];
          }
          j := j + 1;
        }
        i := i + 1;
      }
      assert s[..n] == s;
      nameCount := j;
      names := NamesWithout(names, h);
    }

    method FindName(n: string) returns (h: nat)
      requires Valid()
      ensures h == if n in names then names[n] else 0
    {
      var found, at := Search(n);
      return if found then name[at].handle else 0;
    }

    /** The binary search both name operations use. */
    method Search(n: string) returns (found: bool, at: nat)
      requires ValidNames()
      ensures found <==> n in names
      ensures found ==> at < nameCount && name[at] == Name(n, names[n])
      ensures !found ==> Position(name[..nameCount], n, at)
    {
      hide Pow2, Before, StrCmp;
      ghost var s := name[..nameCount];
      var begin, end := 0, nameCount - 1;
      while begin <= end
        invariant 0 <= begin <= end + 1 <= nameCount
        invariant forall i | 0 <= i < begin :: Before(s[i].name, n)
        invariant forall i | end < i < |s| :: Before(n, s[i].name)
      {
        var mid := (begin + end) / 2;
        var c := StrCmp(name[mid].name, n);
        assert name[mid] == s[mid];
        Compared(s[mid].name, n);
        if c == 0 {
          return true, mid;
        }
        if c < 0 {
          ProbeBelow(s, n, mid);
          begin := mid + 1;
        } else {
          ProbeAbove(s, n, mid);
          end := mid - 1;
        }
      }
      Absent(s, names, n, begin);
      return false, begin;
    }

    method NameHandle(h: nat, n: string) returns (r: Naming)
      requires Valid()
      modifies this`names, this`nameCount, this`name, this`nameBits, name
      ensures Valid() && (name == old(name) || fresh(name))
      ensures r == Exists <==> n in old(names)
      ensures r == Full <==> n !in old(names) && old(nameCount) == MAX_SLOT_SIZE
      ensures names == if r == Inserted then old(names)[n := h] else old(names)
      ensures nameCount == old(nameCount) + if r == Inserted then 1 else 0
    {
      hide Pow2, NamesAgree, Agrees, Position;
      var found, at := Search(n);
      if found {
        return Exists;
      }
      Pow2Values();
      if nameBits < 30 {
        Pow2Grows(nameBits, 30);
      }
      if nameCount >= name.Length && name.Length * 2 > MAX_SLOT_SIZE {
        return Full;
      }
      InsertNameBefore(n, h, at);
      return Inserted;
    }

    method InsertNameBefore(n: string, h: nat, before: nat)
      requires ValidNames() && Position(name[..nameCount], n, before)
      requires nameCount < name.Length || nameBits < 30
      modifies this`names, this`nameCount, this`name, this`nameBits, name
      ensures ValidNames() && (name == old(name) || fresh(name))
      ensures names == old(names)[n := h] && nameCount == old(nameCount) + 1
    {
      ghost var s := name[..nameCount];
      assert before <= nameCount;
      hide NamesAgree, Position, Pow2, Gapped;
      AgreesInsert(s, names, n, h, before);
      if nameCount >= name.Length {
        GrowAround(before);
      } else {
        ShiftUp(before);
      }
      ghost var t := name[..];
      GapFilled(t, old(name[..]), nameCount, before, Name(n, h));
      name[before] := Name(n, h);
      assert name[..] == t[before := Name(n, h)];
      nameCount := nameCount + 1;
      names := names[n := h];
    }

    /** A larger array with a gap at `before`. */
    method GrowAround(before: nat)
      requires before <= nameCount == name.Length == Pow2(nameBits)
      modifies `name, `nameBits
      ensures fresh(name) && nameBits == old(nameBits) + 1 && name.Length == Pow2(nameBits) > nameCount
      ensures Gapped(name[..], old(name[..]), nameCount, before)
    {
      assert Pow2(nameBits + 1) == 2 * Pow2(nameBits);
      hide Pow2;
      var t := new Name[name.Length * 2](_ => Name("", 0));
      var i := 0;
      while i < before
        invariant i <= before && fresh(t) && name == old(name) && name[..] == old(name[..]) && nameBits == old(nameBits)
        invariant forall j | 0 <= j < i :: t[j] == name[j]
      {
        t[i] := name[i];
        i := i + 1;
      }
      while i < nameCount
        invariant before <= i <= nameCount && fresh(t) && name == old(name) && name[..] == old(name[..])
        invariant nameBits == old(nameBits) && forall j | 0 <= j < before :: t[j] == name[j]
        invariant forall j | before <= j < i :: t[j + 1] == name[j]
      {
        t[i + 1] := name[i];
        i := i + 1;
      }
      name := t;
      nameBits := nameBits + 1;
    }

    /** Moves the entries from `before` on one place up. */
    method ShiftUp(before: nat)
      requires before <= nameCount < name.Length
      modifies name
      ensures Gapped(name[..], old(name[..]), nameCount, before)
    {
      var i := nameCount;
      while i > before
        invariant before <= i <= nameCount
        invariant forall j | 0 <= j < i :: name[j] == old(name[j])
        invariant forall j | i <= j < nameCount :: name[j + 1] == old(name[j])
      {
        name[i] := name[i - 1];
        i := i - 1;
      }
    }
  }

  /** The first `n` entries of `s`, with a gap at `before`. */
  predicate Gapped(t: seq<Name>, s: seq<Name>, n: nat, before: nat) {
    && before <= n <= |s| && n < |t|
    && (forall j | 0 <= j < before :: t[j] == s[j])
    && (forall j | before <= j < n :: t[j + 1] == s[j])
  }

  lemma GapFilled(t: seq<Name>, s: seq<Name>, n: nat, before: nat, e: Name)
    requires Gapped(t, s, n, before)
    ensures t[before := e][..n + 1] == s[..n][..before] + [e] + s[..n][before..]
  {
    var l, r := t[before := e][..n + 1], s[..n][..before] + [e] + s[..n][before..];
    forall i | 0 <= i < n + 1 ensures l[i] == r[i] {
      assert i > before ==> t[(i - 1) + 1] == s[i - 1];
    }
  }

  /** `handle` is the first free one from `index` on, `k` steps away. */
  predicate FirstFree(s: seq<Slot>, index: nat, k: nat, handle: nat) {
    && k < |s| && handle == (index + k) % HANDLE_SPACE && s[Hash(handle, |s|)].Empty?
    && forall j: nat | j < k :: s[Probe(index, j, |s|)].Live?
  }

  /** Some live handle belongs in slot `i`. */
  predicate Taken(live: map<nat, nat>, i: nat, size: nat)
    requires size > 0
  {
    exists g | g in live :: Hash(g, size) == i
  }

  /** `h` is the first handle at or after `index`, going round the handle space, whose slot in a
      table of the given size is free. */
  predicate NextFree(live: map<nat, nat>, harbor: nat, index: nat, size: nat, k: nat, h: nat) {
    && k < size && h == harbor + (index + k) % HANDLE_SPACE
    && !Taken(live, Hash(h, size), size)
    && forall j: nat | j < k :: Taken(live, Probe(index, j, size), size)
  }

  lemma TakenSlots(s: seq<Slot>, live: map<nat, nat>, harbor: nat, index: nat, k: nat, handle: nat)
    requires Agrees(s, live) && FirstFree(s, index, k, handle) && Hash(harbor + handle, |s|) == Hash(handle, |s|)
    ensures NextFree(live, harbor, index, |s|, k, harbor + handle)
  {
    hide Hash;
    forall j: nat | j < k ensures Taken(live, Probe(index, j, |s|), |s|) {
      assert SlotRight(s, live, Probe(index, j, |s|));
    }
  }

  /** A full table that cannot double holds every handle there is. */
  lemma FullSpace(s: seq<Slot>, live: map<nat, nat>, harbor: nat, bits: nat)
    requires Agrees(s, live) && bits <= 24 && |s| == Pow2(bits) && 2 * |s| - 1 > HANDLE_SPACE - 1
    requires harbor % HANDLE_SPACE == 0 && forall h | h in live :: InSpace(h, harbor)
    requires forall i | 0 <= i < |s| :: s[i].Live?
    ensures forall h: nat | InSpace(h, harbor) :: h in live
  {
    Pow2Values();
    hide Pow2, Hash;
    if bits < 24 {
      Pow2Grows(bits, 24);
    }
    forall h: nat | InSpace(h, harbor) ensures h in live {
      var i := Hash(h, |s|);
      assert SlotRight(s, live, i);
      SameHash(harbor, h, s[i].handle);
    }
  }

  lemma SameHash(harbor: nat, g: nat, h: nat)
    requires harbor % HANDLE_SPACE == 0 && InSpace(g, harbor) && InSpace(h, harbor)
    requires Hash(g, HANDLE_SPACE) == Hash(h, HANDLE_SPACE)
    ensures g == h
  {
  }

  lemma HashSecond(i: nat, size: nat)
    requires i < size
    ensures Hash(i, size) == i == Hash(i + size, size)
  {
    ModStep(i, size);
  }

  /** Of the two slots an old slot can move to, one stays empty. */
  lemma HalfEmpty(s: seq<Slot>, t: seq<Slot>)
    requires Moved(s, t, |s|)
    ensures forall i | 0 <= i < |s| :: t[i].Empty? || t[i + |s|].Empty?
  {
    hide Hash;
    forall i | 0 <= i < |s| ensures t[i].Empty? || t[i + |s|].Empty? {
      HashSecond(i, |s|);
    }
  }
}
