/** The hierarchical timing wheel: 256 near slots, four levels of 64 slots and a
    32-bit clock that wraps to zero. It is proved to behave like an unbounded clock
    with a plain list of timeouts in the order in which they were set. */
module TimerWheel {

  const TIME_NEAR := 256
  const TIME_LEVEL := 64
  const WORD := 0x1_0000_0000
  const MAX_DELAY := 0x8000_0000

  /** A 32-bit clock value. */
  type Stamp = x: nat | x < WORD

  datatype TimerEvent = TimerEvent(handle: nat, session: int)
  datatype TimerNode = TimerNode(expire: Stamp, event: TimerEvent)

  /** A list head of the wheel. */
  datatype Slot = Near(index: nat) | Level(level: nat, index: nat)

  //////////////////////////////////////////////////////////////////////////////
  // Where a node belongs
  //////////////////////////////////////////////////////////////////////////////

  /** `x >> (8 + 6 * i)`. Two stamps agree once their low `8 + 6 * i` bits are set
      exactly when their `Above` values agree. */
  function Above(x: Stamp, i: nat): nat {
    if i == 0 then x / TIME_NEAR else Above(x, i - 1) / TIME_LEVEL
  }

  function LevelOf(expire: Stamp, time: Stamp): nat {
    if Above(expire, 1) == Above(time, 1) then 0
    else if Above(expire, 2) == Above(time, 2) then 1
    else if Above(expire, 3) == Above(time, 3) then 2
    else 3
  }

  /** The list that holds a node with the given expire stamp while the clock shows `time`. */
  function SlotOf(expire: Stamp, time: Stamp): Slot {
    if Above(expire, 0) == Above(time, 0) then Near(expire % TIME_NEAR)
    else var i := LevelOf(expire, time); Level(i, Above(expire, i) % TIME_LEVEL)
  }

  /** The list that has to be redistributed when the clock arrives at `time`, if any. */
  function CascadeSlot(time: Stamp): Slot {
    if time % TIME_NEAR != 0 then Near(TIME_NEAR)
    else if time == 0 then Level(3, 0)
    else if Above(time, 0) % TIME_LEVEL != 0 then Level(0, Above(time, 0) % TIME_LEVEL)
    else if Above(time, 1) % TIME_LEVEL != 0 then Level(1, Above(time, 1) % TIME_LEVEL)
    else if Above(time, 2) % TIME_LEVEL != 0 then Level(2, Above(time, 2) % TIME_LEVEL)
    else Level(3, Above(time, 3) % TIME_LEVEL)
  }

  predicate ValidSlot(slot: Slot) {
    match slot
    case Near(i) => i < TIME_NEAR
    case Level(l, i) => l < 4 && i < TIME_LEVEL
  }

  /** `expire` lies 1 to 2^31 ticks after `time` on the wrapping clock. */
  predicate Ahead(expire: Stamp, time: Stamp) {
    var d := expire - time;
    if d > 0 then d <= MAX_DELAY else d + WORD <= MAX_DELAY
  }

  function Next(time: Stamp): Stamp {
    if time + 1 == WORD then 0 else time + 1
  }

  /** One digit of the clock: the digits above it change only on a carry. */
  lemma CarryIntoDigit(time: Stamp, i: nat)
    requires time + 1 < WORD
    ensures time + 1 == Next(time)
    ensures i == 0 ==> Above(Next(time), 0) == Above(time, 0) + if Next(time) % TIME_NEAR == 0 then 1 else 0
    ensures i > 0 && Above(Next(time), i - 1) == Above(time, i - 1) ==> Above(Next(time), i) == Above(time, i)
    ensures i > 0 && Above(Next(time), i - 1) == Above(time, i - 1) + 1 ==>
      Above(Next(time), i) == Above(time, i) + if Above(Next(time), i - 1) % TIME_LEVEL == 0 then 1 else 0
  {
  }

  lemma AboveMonotonic(x: Stamp, y: Stamp, i: nat)
    requires x <= y
    ensures Above(x, i) <= Above(y, i)
  {
  }

  /** Whatever lies beyond a carry differs from the old clock at that digit. */
  lemma {:induction false} AheadOfCarry(expire: Stamp, time: Stamp, i: nat)
    requires i < 4 && Ahead(expire, time) && time + 1 < WORD
    requires Above(Next(time), i) == Above(time, i) + 1
    ensures Above(expire, i) != Above(time, i)
  {
    if expire > time {
      AboveMonotonic(Next(time), expire, i);
    } else {
      WrappedIsFar(expire, time, i);
    }
  }

  lemma {:induction false} WrappedIsFar(expire: Stamp, time: Stamp, i: nat)
    requires i < 4 && expire + MAX_DELAY <= time
    ensures Above(expire, i) < Above(time, i)
  {
    assert Above(expire, 0) + 0x80_0000 <= Above(time, 0);
    assert Above(expire, 1) + 0x2_0000 <= Above(time, 1);
    assert Above(expire, 2) + 0x800 <= Above(time, 2);
    assert Above(expire, 3) + 0x20 <= Above(time, 3);
  }

  /** How far the carry of a tick reaches: up to and including the level that is
      redistributed, and not beyond. */
  lemma {:induction false} CarryReach(time: Stamp, i: nat)
    requires time + 1 < WORD && i < 4
    ensures CascadeSlot(Next(time)).Near? ==> Above(Next(time), i) == Above(time, i)
    ensures CascadeSlot(Next(time)).Level? ==> CascadeSlot(Next(time)).level < 4
    ensures CascadeSlot(Next(time)).Level? ==>
      Above(Next(time), i) == Above(time, i) + if i <= CascadeSlot(Next(time)).level then 1 else 0
    ensures CascadeSlot(Next(time)).Level? ==>
      CascadeSlot(Next(time)).index == Above(Next(time), CascadeSlot(Next(time)).level) % TIME_LEVEL
    decreases i
  {
    CarryIntoDigit(time, i);
    if i > 0 {
      CarryReach(time, i - 1);
    }
  }

  lemma AgreeUpward(x: Stamp, y: Stamp, i: nat, j: nat)
    requires i <= j && Above(x, i) == Above(y, i)
    ensures Above(x, j) == Above(y, j)
  {
  }

  /** A slot depends on the clock only through the digits that agree with it. */
  lemma SlotByAgreement(expire: Stamp, time: Stamp, time': Stamp)
    requires forall i: nat | i < 4 :: Above(expire, i) == Above(time, i) <==> Above(expire, i) == Above(time', i)
    ensures SlotOf(expire, time) == SlotOf(expire, time')
  {
  }

  /** What the carry makes agree with the clock was in the redistributed list. */
  lemma {:induction false} AgreesAfterCarry(expire: Stamp, time: Stamp, i: nat)
    requires Ahead(expire, time) && time + 1 < WORD && CascadeSlot(Next(time)).Level?
    requires i <= CascadeSlot(Next(time)).level && Above(expire, i) == Above(Next(time), i)
    ensures SlotOf(expire, time) == CascadeSlot(Next(time))
  {
    var t := Next(time);
    CarryReach(time, 0);
    var l := CascadeSlot(t).level;
    AgreeUpward(expire, t, i, l);
    forall j: nat | j <= l
      ensures Above(expire, j) != Above(time, j)
    {
      CarryReach(time, j);
      AheadOfCarry(expire, time, j);
    }
    if l < 3 {
      CarryReach(time, l + 1);
    }
    OutermostDifference(expire, time, l);
  }

  lemma {:induction false} OutermostDifference(expire: Stamp, time: Stamp, l: nat)
    requires l < 4 && forall j: nat | j <= l :: Above(expire, j) != Above(time, j)
    requires l < 3 ==> Above(expire, l + 1) == Above(time, l + 1)
    ensures SlotOf(expire, time) == Level(l, Above(expire, l) % TIME_LEVEL)
  {
  }

  /** A tick moves a pending node only out of the list that is redistributed. */
  lemma {:induction false} TickKeepsSlot(expire: Stamp, time: Stamp)
    requires Ahead(expire, time)
    requires SlotOf(expire, time) != CascadeSlot(Next(time))
    ensures SlotOf(expire, Next(time)) == SlotOf(expire, time)
  {
    var t := Next(time);
    if t == 0 {
      WrapKeepsSlot(expire);
    } else {
      forall i: nat | i < 4
        ensures Above(expire, i) == Above(time, i) <==> Above(expire, i) == Above(t, i)
      {
        CarryReach(time, i);
        if CascadeSlot(t).Level? && i <= CascadeSlot(t).level {
          AheadOfCarry(expire, time, i);
          if Above(expire, i) == Above(t, i) {
            AgreesAfterCarry(expire, time, i);
          }
        }
      }
      SlotByAgreement(expire, time, t);
    }
  }

  lemma {:induction false} WrapKeepsSlot(expire: Stamp)
    requires 0 <= expire < MAX_DELAY
    requires SlotOf(expire, WORD - 1) != Level(3, 0)
    ensures SlotOf(expire, 0) == SlotOf(expire, WORD - 1)
  {
    TopDigit(expire);
    WrappedIsFar(expire, WORD - 1, 0);
    WrappedIsFar(expire, WORD - 1, 1);
    WrappedIsFar(expire, WORD - 1, 2);
    WrappedIsFar(expire, WORD - 1, 3);
  }

  /** A redistributed node always leaves its list for a finer one. */
  lemma {:induction false} CascadeDescends(expire: Stamp, time: Stamp)
    requires Ahead(expire, time)
    requires SlotOf(expire, time) == CascadeSlot(Next(time))
    ensures SlotOf(expire, Next(time)) != CascadeSlot(Next(time))
  {
    var i := SlotOf(expire, time).level;
    CascadedAgrees(expire, time, i);
    AgreeingIsFiner(expire, Next(time), i);
  }

  lemma {:induction false} CascadedAgrees(expire: Stamp, time: Stamp, i: nat)
    requires Ahead(expire, time)
    requires SlotOf(expire, time) == CascadeSlot(Next(time)) == Level(i, Above(expire, i) % TIME_LEVEL)
    ensures i < 4 && Above(expire, i) == Above(Next(time), i)
  {
    var t := Next(time);
    if i == 3 {
      TopDigit(expire);
      TopDigit(t);
    } else {
      CarryReach(time, i + 1);
      SameDigits(expire, t, i);
    }
  }

  lemma SameDigits(x: Stamp, y: Stamp, i: nat)
    requires Above(x, i + 1) == Above(y, i + 1) && Above(x, i) % TIME_LEVEL == Above(y, i) % TIME_LEVEL
    ensures Above(x, i) == Above(y, i)
  {
  }

  lemma AgreeingIsFiner(expire: Stamp, time: Stamp, i: nat)
    requires i < 4 && Above(expire, i) == Above(time, i)
    ensures SlotOf(expire, time).Level? ==> SlotOf(expire, time).level < i
  {
  }

  lemma TopDigit(x: Stamp)
    ensures Above(x, 3) < TIME_LEVEL
  {
    assert Above(x, 0) < 0x100_0000;
    assert Above(x, 1) < 0x4_0000;
    assert Above(x, 2) < 0x1000;
  }

  //////////////////////////////////////////////////////////////////////////////
  // The reference: an unbounded clock and a plain list
  //////////////////////////////////////////////////////////////////////////////

  /** A timeout of the reference: `due` is counted on a clock that never wraps. */
  datatype Timeout = Timeout(due: nat, event: TimerEvent)

  function Stamped(due: nat): Stamp { due % WORD }

  /** The events of `s` that fall due at tick `due`, in list order. */
  function DueAt(s: seq<Timeout>, due: nat): (r: seq<TimerEvent>) {
    if s == [] then []
    else DueAt(s[..|s| - 1], due) + if s[|s| - 1].due == due then [s[|s| - 1].event] else []
  }

  /** The timeouts of `s` that fall due after tick `now`, in list order. */
  function DueAfter(s: seq<Timeout>, now: nat): (r: seq<Timeout>) {
    if s == [] then []
    else DueAfter(s[..|s| - 1], now) + if s[|s| - 1].due > now then [s[|s| - 1]] else []
  }

  /** The events of `s` whose timeout carries the given 32-bit stamp, in list order. */
  function Carrying(s: seq<Timeout>, stamp: Stamp): seq<TimerEvent> {
    if s == [] then []
    else Carrying(s[..|s| - 1], stamp) + if Stamped(s[|s| - 1].due) == stamp then [s[|s| - 1].event] else []
  }

  /** The events of the nodes in a wheel list that carry the given stamp, in list order. */
  function Expiring(s: seq<TimerNode>, stamp: Stamp): seq<TimerEvent> {
    if s == [] then []
    else Expiring(s[..|s| - 1], stamp) + if s[|s| - 1].expire == stamp then [s[|s| - 1].event] else []
  }

  lemma {:induction false} ExpiringFirst(s: seq<TimerNode>, stamp: Stamp)
    requires s != []
    ensures Expiring(s, stamp) == (if s[0].expire == stamp then [s[0].event] else []) + Expiring(s[1..], stamp)
  {
    var n := |s| - 1;
    if n > 0 {
      ExpiringFirst(s[..n], stamp);
      assert s[..n][1..] == s[1..][..n - 1];
    }
  }

  lemma {:induction false} ExpiringNone(s: seq<TimerNode>, stamp: Stamp)
    requires forall n | n in s :: n.expire != stamp
    ensures Expiring(s, stamp) == []
  {
    if s != [] {
      ExpiringNone(s[..|s| - 1], stamp);
    }
  }

  /** Every timeout of `s` is due 1 to 2^31 ticks after `now`. */
  ghost predicate WithinReach(s: seq<Timeout>, now: nat) {
    forall i | 0 <= i < |s| :: now < s[i].due <= now + MAX_DELAY
  }

  /** Every timeout of `s` is due 1 to 2^31 - 1 ticks after `now`. */
  ghost predicate Later(s: seq<Timeout>, now: nat) {
    forall i | 0 <= i < |s| :: now < s[i].due < now + MAX_DELAY
  }

  lemma {:induction false} LaterAfterTick(s: seq<Timeout>, now: nat)
    requires WithinReach(s, now)
    ensures Later(DueAfter(s, now + 1), now + 1)
  {
    if s != [] {
      LaterAfterTick(s[..|s| - 1], now);
    }
  }

  lemma StampAhead(due: nat, now: nat)
    requires now < due <= now + MAX_DELAY
    ensures Ahead(Stamped(due), Stamped(now))
    ensures Next(Stamped(now)) == Stamped(now + 1)
  {
    var d := due - now;
    assert Stamped(due) == Stamped(now) + d || Stamped(due) == Stamped(now) + d - WORD;
  }

  lemma StampPlus(now: nat, delay: nat)
    ensures (delay + Stamped(now)) % WORD == Stamped(now + delay)
  {
  }

  lemma NextStamp(now: nat)
    ensures (Stamped(now) + 1) % WORD == Next(Stamped(now)) == Stamped(now + 1)
  {
  }

  /** Within reach, a stamp identifies a due time. */
  lemma StampIdentifies(due: nat, now: nat)
    requires now < due <= now + MAX_DELAY
    ensures Stamped(due) == Stamped(now + 1) <==> due == now + 1
  {
    var d := due - (now + 1);
    assert 0 <= d < WORD;
  }

  lemma {:induction false} CarryingIsDue(s: seq<Timeout>, now: nat)
    requires WithinReach(s, now)
    ensures Carrying(s, Stamped(now + 1)) == DueAt(s, now + 1)
  {
    if s != [] {
      CarryingIsDue(s[..|s| - 1], now);
      var due := s[|s| - 1].due;
      StampIdentifies(due, now);
    }
  }

  //////////////////////////////////////////////////////////////////////////////
  // The contents of the wheel
  //////////////////////////////////////////////////////////////////////////////

  /** The lists of the wheel; list `index` of level `l` is `t[l * 64 + index]`. */
  datatype Lists = Lists(near: seq<seq<TimerNode>>, t: seq<seq<TimerNode>>) {
    predicate Shape() {
      |near| == TIME_NEAR && |t| == 4 * TIME_LEVEL
    }

    function At(slot: Slot): seq<TimerNode>
      requires Shape() && ValidSlot(slot)
    {
      match slot
      case Near(i) => near[i]
      case Level(l, i) => t[l * TIME_LEVEL + i]
    }

    function With(slot: Slot, list: seq<TimerNode>): (r: Lists)
      requires Shape() && ValidSlot(slot)
      ensures r.Shape()
      ensures forall s | ValidSlot(s) :: r.At(s) == if s == slot then list else At(s)
    {
      match slot
      case Near(i) => Lists(near[i := list], t)
      case Level(l, i) => Lists(near, t[l * TIME_LEVEL + i := list])
    }

    /** Every node sits where it belongs for `clock` and was ahead of `since`. */
    ghost predicate Placed(clock: Stamp, since: Stamp)
      requires Shape()
    {
      forall slot, n | ValidSlot(slot) && n in At(slot) :: SlotOf(n.expire, clock) == slot && Ahead(n.expire, since)
    }

    /** For every stamp, its list followed by `rest` holds the pending events in the order set. */
    ghost predicate Holds(clock: Stamp, rest: seq<TimerNode>, pending: seq<Timeout>)
      requires Shape()
    {
      forall e: Stamp :: Expiring(At(SlotOf(e, clock)), e) + Expiring(rest, e) == Carrying(pending, e)
    }
  }

  /** The wheel after a node was linked to the list it belongs to. */
  function Linked(w: Lists, node: TimerNode, clock: Stamp): Lists
    requires w.Shape()
  {
    w.With(SlotOf(node.expire, clock), w.At(SlotOf(node.expire, clock)) + [node])
  }

  lemma {:induction false} LinkKeepsPlaced(w: Lists, node: TimerNode, clock: Stamp, since: Stamp)
    requires w.Shape() && w.Placed(clock, since) && Ahead(node.expire, since)
    ensures Linked(w, node, clock).Placed(clock, since)
  {
  }

  lemma {:induction false} LinkExpiring(w: Lists, node: TimerNode, clock: Stamp, e: Stamp)
    requires w.Shape()
    ensures Expiring(Linked(w, node, clock).At(SlotOf(e, clock)), e) ==
            Expiring(w.At(SlotOf(e, clock)), e) + if node.expire == e then [node.event] else []
  {
    if SlotOf(e, clock) == SlotOf(node.expire, clock) {
      assert (w.At(SlotOf(e, clock)) + [node])[..|w.At(SlotOf(e, clock))|] == w.At(SlotOf(e, clock));
    }
  }

  /** Linking a new timer extends the pending list at its end. */
  lemma {:induction false} LinkHolds(w: Lists, node: TimerNode, clock: Stamp, pending: seq<Timeout>, due: nat)
    requires w.Shape() && w.Holds(clock, [], pending) && node.expire == Stamped(due)
    ensures Linked(w, node, clock).Holds(clock, [], pending + [Timeout(due, node.event)])
  {
    var p := pending + [Timeout(due, node.event)];
    assert p[..|p| - 1] == pending;
    forall e: Stamp
      ensures Expiring(Linked(w, node, clock).At(SlotOf(e, clock)), e) + Expiring([], e) == Carrying(p, e)
    {
      LinkExpiring(w, node, clock, e);
      assert Expiring(w.At(SlotOf(e, clock)), e) + Expiring([], e) == Carrying(pending, e);
    }
  }

  /** Relinking the first node of a detached list. */
  lemma {:induction false} RelinkHolds(w: Lists, rest: seq<TimerNode>, clock: Stamp, pending: seq<Timeout>)
    requires rest != [] && w.Shape() && w.Holds(clock, rest, pending)
    ensures Linked(w, rest[0], clock).Holds(clock, rest[1..], pending)
  {
    forall e: Stamp
      ensures Expiring(Linked(w, rest[0], clock).At(SlotOf(e, clock)), e) + Expiring(rest[1..], e) == Carrying(pending, e)
    {
      RelinkExpiring(w, rest, clock, e);
    }
  }

  lemma {:induction false} RelinkExpiring(w: Lists, rest: seq<TimerNode>, clock: Stamp, e: Stamp)
    requires rest != [] && w.Shape()
    ensures Expiring(Linked(w, rest[0], clock).At(SlotOf(e, clock)), e) + Expiring(rest[1..], e)
         == Expiring(w.At(SlotOf(e, clock)), e) + Expiring(rest, e)
  {
    LinkExpiring(w, rest[0], clock, e);
    ExpiringFirst(rest, e);
  }

  /** Once the cascading list is detached, all other nodes are where the new clock wants them. */
  lemma {:induction false} DetachKeepsPlaced(w: Lists, clock: Stamp)
    requires w.Shape() && w.Placed(clock, clock) && ValidSlot(CascadeSlot(Next(clock)))
    ensures w.With(CascadeSlot(Next(clock)), []).Placed(Next(clock), clock)
  {
    var w' := w.With(CascadeSlot(Next(clock)), []);
    forall slot, n | ValidSlot(slot) && n in w'.At(slot)
      ensures SlotOf(n.expire, Next(clock)) == slot && Ahead(n.expire, clock)
    {
      assert n in w.At(slot);
      TickKeepsSlot(n.expire, clock);
    }
  }

  lemma {:induction false} DetachHolds(w: Lists, clock: Stamp, pending: seq<Timeout>)
    requires w.Shape() && w.Placed(clock, clock) && w.Holds(clock, [], pending)
    requires ValidSlot(CascadeSlot(Next(clock)))
    ensures w.With(CascadeSlot(Next(clock)), []).Holds(Next(clock), w.At(CascadeSlot(Next(clock))), pending)
  {
    var moved := CascadeSlot(Next(clock));
    DetachKeepsPlaced(w, clock);
    forall e: Stamp
      ensures Expiring(w.With(moved, []).At(SlotOf(e, Next(clock))), e) + Expiring(w.At(moved), e) == Carrying(pending, e)
    {
      assert Expiring(w.At(SlotOf(e, clock)), e) + Expiring([], e) == Carrying(pending, e);
      DetachStamp(w, clock, e);
    }
  }

  lemma {:induction false} DetachStamp(w: Lists, clock: Stamp, e: Stamp)
    requires w.Shape() && w.Placed(clock, clock)
    requires ValidSlot(CascadeSlot(Next(clock)))
    requires w.With(CascadeSlot(Next(clock)), []).Placed(Next(clock), clock)
    ensures Expiring(w.With(CascadeSlot(Next(clock)), []).At(SlotOf(e, Next(clock))), e)
              + Expiring(w.At(CascadeSlot(Next(clock))), e)
         == Expiring(w.At(SlotOf(e, clock)), e)
  {
    var moved := CascadeSlot(Next(clock));
    var w' := w.With(moved, []);
    if !Ahead(e, clock) {
      ExpiringNone(w.At(SlotOf(e, clock)), e);
      ExpiringNone(w.At(moved), e);
      ExpiringNone(w'.At(SlotOf(e, Next(clock))), e);
    } else if SlotOf(e, clock) == moved {
      CascadeDescends(e, clock);
      ExpiringNone(w'.At(SlotOf(e, Next(clock))), e);
    } else {
      TickKeepsSlot(e, clock);
      ExpiringNone(w.At(moved), e);
    }
  }

  /** A tick without carry leaves every list as it is. */
  lemma {:induction false} TickWithoutCarry(w: Lists, clock: Stamp, pending: seq<Timeout>)
    requires w.Shape() && w.Placed(clock, clock) && w.Holds(clock, [], pending)
    requires Next(clock) % TIME_NEAR != 0
    ensures w.Placed(Next(clock), clock) && w.Holds(Next(clock), [], pending)
  {
    forall slot, n | ValidSlot(slot) && n in w.At(slot)
      ensures SlotOf(n.expire, Next(clock)) == slot && Ahead(n.expire, clock)
    {
      TickKeepsSlot(n.expire, clock);
    }
    forall e: Stamp
      ensures Expiring(w.At(SlotOf(e, Next(clock))), e) + Expiring([], e) == Carrying(pending, e)
    {
      assert Expiring(w.At(SlotOf(e, clock)), e) + Expiring([], e) == Carrying(pending, e);
      if Ahead(e, clock) {
        TickKeepsSlot(e, clock);
      } else {
        ExpiringNone(w.At(SlotOf(e, clock)), e);
        ExpiringNone(w.At(SlotOf(e, Next(clock))), e);
      }
    }
  }

  function Events(s: seq<TimerNode>): seq<TimerEvent> {
    seq(|s|, i requires 0 <= i < |s| => s[i].event)
  }

  lemma {:induction false} ExpiringAll(s: seq<TimerNode>, stamp: Stamp)
    requires forall n | n in s :: n.expire == stamp
    ensures Expiring(s, stamp) == Events(s)
  {
    if s != [] {
      ExpiringAll(s[..|s| - 1], stamp);
      assert Events(s) == Events(s[..|s| - 1]) + [s[|s| - 1].event];
    }
  }

  /** The near list under the clock hand holds only nodes that expire right now. */
  lemma NearIsDue(w: Lists, clock: Stamp, since: Stamp, n: TimerNode)
    requires w.Shape() && w.Placed(clock, since) && n in w.near[clock % TIME_NEAR]
    ensures n.expire == clock
  {
    assert n in w.At(Near(clock % TIME_NEAR));
    assert SlotOf(n.expire, clock) == Near(clock % TIME_NEAR);
    assert Above(n.expire, 0) == Above(clock, 0);
  }

  /** Taking the near list fires exactly the timeouts due now, in the order they were set. */
  lemma {:induction false} FireFires(w: Lists, now: nat, pending: seq<Timeout>)
    requires w.Shape() && w.Placed(Stamped(now + 1), Stamped(now)) && w.Holds(Stamped(now + 1), [], pending)
    requires WithinReach(pending, now)
    ensures Events(w.near[Stamped(now + 1) % TIME_NEAR]) == DueAt(pending, now + 1)
  {
    var clock := Stamped(now + 1);
    var list := w.near[clock % TIME_NEAR];
    forall n | n in list
      ensures n.expire == clock
    {
      NearIsDue(w, clock, Stamped(now), n);
    }
    ExpiringAll(list, clock);
    CarryingIsDue(pending, now);
    assert Expiring(w.At(SlotOf(clock, clock)), clock) + Expiring([], clock) == Carrying(pending, clock);
  }

  lemma {:induction false} FirePlaced(w: Lists, clock: Stamp)
    requires w.Shape() && w.Placed(Next(clock), clock)
    ensures w.With(Near(Next(clock) % TIME_NEAR), []).Placed(Next(clock), Next(clock))
  {
    var t := Next(clock);
    var w' := w.With(Near(t % TIME_NEAR), []);
    forall slot, n | ValidSlot(slot) && n in w'.At(slot)
      ensures SlotOf(n.expire, t) == slot && Ahead(n.expire, t)
    {
      assert n in w.At(slot);
      assert n.expire != t;
    }
  }

  lemma {:induction false} FireHolds(w: Lists, now: nat, pending: seq<Timeout>)
    requires w.Shape() && w.Placed(Stamped(now + 1), Stamped(now)) && w.Holds(Stamped(now + 1), [], pending)
    requires WithinReach(pending, now)
    ensures w.With(Near(Stamped(now + 1) % TIME_NEAR), []).Holds(Stamped(now + 1), [], DueAfter(pending, now + 1))
  {
    var clock := Stamped(now + 1);
    var w' := w.With(Near(clock % TIME_NEAR), []);
    forall e: Stamp
      ensures Expiring(w'.At(SlotOf(e, clock)), e) + Expiring([], e) == Carrying(DueAfter(pending, now + 1), e)
    {
      assert Expiring(w.At(SlotOf(e, clock)), e) + Expiring([], e) == Carrying(pending, e);
      CarryingAfter(pending, now, e);
      if SlotOf(e, clock) == Near(clock % TIME_NEAR) {
        assert e == clock by { assert Above(e, 0) == Above(clock, 0); }
      }
    }
  }

  /** Dropping what is due now drops exactly one stamp. */
  lemma {:induction false} CarryingAfter(s: seq<Timeout>, now: nat, e: Stamp)
    requires WithinReach(s, now)
    ensures Carrying(DueAfter(s, now + 1), e) == if e == Stamped(now + 1) then [] else Carrying(s, e)
  {
    if s != [] {
      var last := s[|s| - 1];
      StampIdentifies(last.due, now);
      CarryingAfter(s[..|s| - 1], now, e);
      var kept := DueAfter(s[..|s| - 1], now + 1);
      if last.due > now + 1 {
        assert DueAfter(s, now + 1) == kept + [last];
        assert (kept + [last])[..|kept|] == kept;
      } else {
        assert DueAfter(s, now + 1) == kept;
        assert e != Stamped(now + 1) ==> Carrying(s, e) == Carrying(s[..|s| - 1], e);
      }
    }
  }

  /** Taking the near list out under the clock hand leaves exactly the later timeouts. */
  lemma {:induction false} FireAll(w: Lists, now: nat, pending: seq<Timeout>)
    requires w.Shape() && w.Placed(Stamped(now + 1), Stamped(now)) && w.Holds(Stamped(now + 1), [], pending)
    requires WithinReach(pending, now)
    ensures Events(w.near[Stamped(now + 1) % TIME_NEAR]) == DueAt(pending, now + 1)
    ensures w.With(Near(Stamped(now + 1) % TIME_NEAR), []).Placed(Stamped(now + 1), Stamped(now + 1))
    ensures w.With(Near(Stamped(now + 1) % TIME_NEAR), []).Holds(Stamped(now + 1), [], DueAfter(pending, now + 1))
    ensures Later(DueAfter(pending, now + 1), now + 1)
  {
    NextStamp(now);
    FireFires(w, now, pending);
    FirePlaced(w, Stamped(now));
    FireHolds(w, now, pending);
    LaterAfterTick(pending, now);
  }

  lemma {:induction false} NothingDue(s: seq<Timeout>, now: nat)
    requires forall i | 0 <= i < |s| :: s[i].due > now
    ensures DueAt(s, now) == []
  {
    if s != [] {
      NothingDue(s[..|s| - 1], now);
    }
  }

  lemma {:induction false} AllDueAfter(s: seq<Timeout>, now: nat)
    requires forall i | 0 <= i < |s| :: s[i].due > now
    ensures DueAfter(s, now) == s
  {
    if s != [] {
      AllDueAfter(s[..|s| - 1], now);
    }
  }

  //////////////////////////////////////////////////////////////////////////////
  // The wheel
  //////////////////////////////////////////////////////////////////////////////

  /** A request to set a timer. */
  datatype Request = Request(event: TimerEvent, delay: nat)

  predicate Settable(rs: seq<Request>) {
    forall i | 0 <= i < |rs| :: 1 <= rs[i].delay < MAX_DELAY
  }

  /** What requests made at tick `now` add to the pending list. */
  function TimeoutsOf(rs: seq<Request>, now: nat): (r: seq<Timeout>)
    ensures Settable(rs) ==> Later(r, now)
  {
    if rs == [] then []
    else TimeoutsOf(rs[..|rs| - 1], now) + [Timeout(now + rs[|rs| - 1].delay, rs[|rs| - 1].event)]
  }

  /** The low `8 + 6 * i` bits of `x` are zero. */
  predicate LowBitsZero(x: Stamp, i: nat) {
    if i == 0 then x % TIME_NEAR == 0 else LowBitsZero(x, i - 1) && Above(x, i - 1) % TIME_LEVEL == 0
  }

  lemma {:induction false} LowBitsCascade(x: Stamp, i: nat)
    requires i < 4 && x != 0 && LowBitsZero(x, i)
    ensures Above(x, i) % TIME_LEVEL != 0 ==> CascadeSlot(x) == Level(i, Above(x, i) % TIME_LEVEL)
    ensures i == 3 ==> Above(x, i) % TIME_LEVEL != 0
  {
    TopDigit(x);
    assert i >= 1 ==> LowBitsZero(x, i - 1);
    assert i >= 2 ==> LowBitsZero(x, i - 2);
    assert i >= 3 ==> LowBitsZero(x, i - 3);
  }

  class Timer {
    const near: array<seq<TimerNode>>
    const t: array<seq<TimerNode>>
    var time: Stamp
    /** The reference state: the unbounded clock and the timeouts still to fire. */
    ghost var now: nat
    ghost var pending: seq<Timeout>

    ghost function Contents(): Lists
      reads near, t
    {
      Lists(near[..], t[..])
    }

    /** The state between ticks. */
    ghost predicate Valid()
      reads this, near, t
    {
      && near != t
      && Contents().Shape()
      && time == Stamped(now)
      && Later(pending, now)
      && Contents().Placed(time, time)
      && Contents().Holds(time, [], pending)
    }

    /** The state after the clock has moved and before the due timers are taken out. */
    ghost predicate Ticked()
      reads this, near, t
    {
      && near != t
      && Contents().Shape()
      && now > 0 && time == Stamped(now)
      && WithinReach(pending, now - 1)
      && Contents().Placed(time, Stamped(now - 1))
      && Contents().Holds(time, [], pending)
    }

    constructor ()
      ensures Valid() && fresh(near) && fresh(t)
      ensures now == 0 && pending == []
    {
      near := new seq<TimerNode>[TIME_NEAR](_ => []);
      t := new seq<TimerNode>[4 * TIME_LEVEL](_ => []);
      time := 0;
      now := 0;
      pending := [];
    }

    /** Links a node at the end of the list it belongs to. */
    method AddNode(node: TimerNode)
      requires near != t && Contents().Shape()
      modifies near, t
      ensures Contents() == Linked(old(Contents()), node, time)
    {
      var expire := node.expire;
      if Above(expire, 0) == Above(time, 0) {
        near[expire % TIME_NEAR] := near[expire % TIME_NEAR] + [node];
      } else {
        var i := 0;
        while i < 3
          invariant i <= 3 && i <= LevelOf(expire, time)
        {
          if Above(expire, i + 1) == Above(time, i + 1) {
            break;
          }
          i := i + 1;
        }
        assert i == LevelOf(expire, time);
        var idx := i * TIME_LEVEL + Above(expire, i) % TIME_LEVEL;
        t[idx] := t[idx] + [node];
      }
    }

    /** Sets a timer `delay` ticks ahead. */
    method TimerAdd(event: TimerEvent, delay: nat)
      requires Valid() && 1 <= delay < MAX_DELAY
      modifies this`pending, near, t
      ensures Valid()
      ensures pending == old(pending) + [Timeout(now + delay, event)]
    {
      hide Lists.Placed, Lists.Holds, Linked, Stamped, Ahead;
      StampPlus(now, delay);
      var node := TimerNode((delay + time) % WORD, event);
      StampAhead(now + delay, now);
      ghost var w := Contents();
      LinkKeepsPlaced(w, node, time, time);
      LinkHolds(w, node, time, pending, now + delay);
      pending := pending + [Timeout(now + delay, event)];
      AddNode(node);
      assert Contents() == Linked(w, node, time);
    }

    /** Redistributes one list of the wheel for the current clock. */
    method MoveList(level: nat, idx: nat, ghost before: Stamp)
      requires near != t && Contents().Shape() && level < 4 && idx < TIME_LEVEL
      requires time == Next(before) && Level(level, idx) == CascadeSlot(time)
      requires Contents().Placed(before, before) && Contents().Holds(before, [], pending)
      modifies near, t
      ensures Contents().Shape()
      ensures Contents().Placed(time, before) && Contents().Holds(time, [], pending)
    {
      ghost var w := Contents();
      DetachKeepsPlaced(w, before);
      DetachHolds(w, before, pending);
      var current := t[level * TIME_LEVEL + idx];
      t[level * TIME_LEVEL + idx] := [];
      assert Contents() == w.With(Level(level, idx), []);
      assert forall n | n in current :: n in w.At(Level(level, idx));
      while current != []
        invariant Contents().Shape()
        invariant forall n | n in current :: Ahead(n.expire, before)
        invariant Contents().Placed(time, before) && Contents().Holds(time, current, pending)
      {
        LinkKeepsPlaced(Contents(), current[0], time, before);
        RelinkHolds(Contents(), current, time, pending);
        AddNode(current[0]);
        current := current[1..];
      }
    }

    /** Redistributes the list that the carry into the current clock reaches, if any. */
    method Cascade(ghost before: Stamp)
      requires near != t && Contents().Shape()
      requires time == Next(before)
      requires Contents().Placed(before, before) && Contents().Holds(before, [], pending)
      modifies near, t
      ensures Contents().Shape()
      ensures Contents().Placed(time, before) && Contents().Holds(time, [], pending)
    {
      var ct := time;
      if ct == 0 {
        MoveList(3, 0, before);
        return;
      }
      if !LowBitsZero(ct, 0) {
        TickWithoutCarry(Contents(), before, pending);
      }
      var rest := ct / TIME_NEAR;
      var i := 0;
      while LowBitsZero(ct, i)
        invariant i < 4 && rest == Above(ct, i)
        invariant LowBitsZero(ct, 0) ==> LowBitsZero(ct, i)
        invariant unchanged(near) && unchanged(t)
        decreases 4 - i
      {
        var idx := rest % TIME_LEVEL;
        LowBitsCascade(ct, i);
        if idx != 0 {
          MoveList(i, idx, before);
          return;
        }
        rest := rest / TIME_LEVEL;
        i := i + 1;
      }
    }

    /** Advances the clock by one tick. */
    method TimerShift()
      requires Valid()
      modifies this`time, this`now, near, t
      ensures Ticked() && now == old(now) + 1
    {
      ghost var before := time;
      NextStamp(now);
      time := (time + 1) % WORD;
      now := now + 1;
      Cascade(before);
    }

    /** Sets the timers of requests that other threads make while the lock is free. */
    method AddAll(window: seq<Request>)
      requires Valid() && Settable(window)
      modifies this`pending, near, t
      ensures Valid()
      ensures pending == old(pending) + TimeoutsOf(window, now)
    {
      for i := 0 to |window|
        invariant Valid()
        invariant pending == old(pending) + TimeoutsOf(window[..i], now)
      {
        assert window[..i + 1][..i] == window[..i];
        TimerAdd(window[i].event, window[i].delay);
      }
      assert window[..|window|] == window;
    }

    /** With the near list under the clock hand taken out, exactly `later` is pending. */
    ghost predicate LeavesPending(later: seq<Timeout>)
      reads this, near, t
    {
      && near != t
      && Contents().Shape()
      && time == Stamped(now)
      && Later(later, now)
      && Contents().With(Near(time % TIME_NEAR), []).Placed(time, time)
      && Contents().With(Near(time % TIME_NEAR), []).Holds(time, [], later)
    }

    lemma HandAfterTick()
      requires Ticked()
      ensures LeavesPending(DueAfter(pending, now))
      ensures Events(near[time % TIME_NEAR]) == DueAt(pending, now)
    {
      FireAll(Contents(), now - 1, pending);
    }

    lemma HandBetweenTicks()
      requires Valid()
      ensures LeavesPending(DueAfter(pending, now))
      ensures Events(near[time % TIME_NEAR]) == DueAt(pending, now)
    {
      NothingDue(pending, now);
      AllDueAfter(pending, now);
      HandIsClear(Contents(), time);
      assert Contents().With(Near(time % TIME_NEAR), []) == Contents();
    }

    /** Takes out the near list under the clock hand and dispatches it. The lock is free
        during the dispatch, which lets other threads set the timers of `window`. */
    method DispatchList(window: seq<Request>) returns (fired: seq<TimerEvent>)
      requires LeavesPending(pending) && Settable(window)
      modifies this`pending, near, t
      ensures Valid() && near[time % TIME_NEAR] == []
      ensures fired == Events(old(near[time % TIME_NEAR]))
      ensures pending == old(pending) + TimeoutsOf(window, now)
    {
      ghost var w := Contents();
      var current := near[time % TIME_NEAR];
      near[time % TIME_NEAR] := [];
      assert Contents() == w.With(Near(time % TIME_NEAR), []);
      fired := Events(current);
      AddAll(window);
      HandIsClear(Contents(), time);
    }

    /** Dispatches everything that is due. What other threads could not set yet, because the
        lock was never free, is left in `rest`. */
    method TimerExecute(window: seq<Request>) returns (fired: seq<TimerEvent>, rest: seq<Request>)
      requires (Valid() || Ticked()) && Settable(window)
      modifies this`pending, near, t
      ensures Valid()
      ensures fired == DueAt(old(pending), now)
      ensures rest == if fired == [] then window else []
      ensures pending == DueAfter(old(pending), now) + if fired == [] then [] else TimeoutsOf(window, now)
    {
      hide Lists.Placed, Lists.Holds;
      var idx := time % TIME_NEAR;
      fired, rest := [], window;
      if Ticked() {
        HandAfterTick();
      } else {
        HandBetweenTicks();
      }
      pending := DueAfter(pending, now);
      ghost var due, later, taken := Events(near[idx]), pending, false;
      while near[idx] != []
        invariant !taken ==> LeavesPending(pending) && Events(near[idx]) == due
        invariant !taken ==> fired == [] && rest == window && pending == later
        invariant taken ==> Valid() && near[idx] == [] && due != []
        invariant taken ==> fired == due && rest == [] && pending == later + TimeoutsOf(window, now)
        decreases !taken
      {
        fired := DispatchList(rest);
        rest, taken := [], true;
      }
      assert Contents().With(Near(idx), []) == Contents();
    }

    /** One tick: moves the clock and dispatches what has become due. */
    method TimerUpdate(window: seq<Request>) returns (fired: seq<TimerEvent>, rest: seq<Request>)
      requires Valid() && Settable(window)
      modifies this, near, t
      ensures Valid() && now == old(now) + 1
      ensures fired == DueAt(old(pending), now)
      ensures rest == if fired == [] then window else []
      ensures pending == DueAfter(old(pending), now) + if fired == [] then [] else TimeoutsOf(window, now)
    {
      NothingDue(pending, now);
      AllDueAfter(pending, now);
      fired, rest := TimerExecute(window);
      assert pending == old(pending) && rest == window;
      TimerShift();
      fired, rest := TimerExecute(rest);
    }

    /** One tick, after which the requests that had to wait for the lock are served too. */
    method Tick(window: seq<Request>) returns (fired: seq<TimerEvent>)
      requires Valid() && Settable(window)
      modifies this, near, t
      ensures Valid() && now == old(now) + 1
      ensures fired == DueAt(old(pending), now)
      ensures pending == DueAfter(old(pending), now) + TimeoutsOf(window, now)
    {
      var rest;
      fired, rest := TimerUpdate(window);
      AddAll(rest);
    }

    /** Asks for `event` after `delay` ticks; a delay of zero or less is answered at once, which can
        fail: `found` says whether the handle has a context. */
    method SkynetTimeout(event: TimerEvent, delay: int, found: bool) returns (direct: bool, session: int)
      requires Valid() && delay < MAX_DELAY
      modifies this`pending, near, t
      ensures Valid()
      ensures direct <==> delay <= 0
      ensures session == if delay <= 0 && !found then -1 else event.session
      ensures pending == old(pending) + if direct then [] else [Timeout(now + delay, event)]
    {
      session := event.session;
      if delay <= 0 {
        direct := true;
        if !found {
          session := -1;
        }
      } else {
        TimerAdd(event, delay);
        direct := false;
      }
    }
  }

  lemma HandIsClear(w: Lists, clock: Stamp)
    requires w.Shape() && w.Placed(clock, clock)
    ensures w.near[clock % TIME_NEAR] == []
  {
    if w.near[clock % TIME_NEAR] != [] {
      var n := w.near[clock % TIME_NEAR][0];
      assert n in w.At(Near(clock % TIME_NEAR));
      NearIsDue(w, clock, clock, n);
    }
  }

  //////////////////////////////////////////////////////////////////////////////
  // Whole runs
  //////////////////////////////////////////////////////////////////////////////

  /** A step of a run: a timer is set, or the clock ticks while other threads set timers. */
  datatype Op = Set(request: Request) | Tick(window: seq<Request>)

  ghost predicate SettableOp(op: Op) {
    match op
    case Set(r) => 1 <= r.delay < MAX_DELAY
    case Tick(window) => Settable(window)
  }

  function Ticks(ops: seq<Op>): nat {
    if ops == [] then 0 else Ticks(ops[..|ops| - 1]) + if ops[|ops| - 1].Tick? then 1 else 0
  }

  /** All timeouts ever set in a run, with the tick at which each is due, in the order set. */
  function Schedule(ops: seq<Op>): seq<Timeout> {
    if ops == [] then []
    else
      var before := Schedule(ops[..|ops| - 1]);
      match ops[|ops| - 1]
      case Set(r) => before + [Timeout(Ticks(ops) + r.delay, r.event)]
      case Tick(window) => before + TimeoutsOf(window, Ticks(ops))
  }

  /** Later additions do not change what was due before. */
  lemma {:induction false} DueAtAppend(s: seq<Timeout>, more: seq<Timeout>, due: nat)
    requires forall i | 0 <= i < |more| :: more[i].due > due
    ensures DueAt(s + more, due) == DueAt(s, due)
  {
    if more == [] {
      assert s + more == s;
    } else {
      assert (s + more)[..|s + more| - 1] == s + more[..|more| - 1];
      DueAtAppend(s, more[..|more| - 1], due);
    }
  }

  lemma {:induction false} DueAfterAppend(s: seq<Timeout>, more: seq<Timeout>, now: nat)
    requires forall i | 0 <= i < |more| :: more[i].due > now
    ensures DueAfter(s + more, now) == DueAfter(s, now) + more
  {
    if more == [] {
      assert s + more == s;
    } else {
      assert (s + more)[..|s + more| - 1] == s + more[..|more| - 1];
      DueAfterAppend(s, more[..|more| - 1], now);
      assert more == more[..|more| - 1] + [more[|more| - 1]];
    }
  }

  /** What is due next among the remaining timeouts is what is due next at all. */
  lemma {:induction false} DueOfRemaining(s: seq<Timeout>, now: nat)
    ensures DueAt(DueAfter(s, now), now + 1) == DueAt(s, now + 1)
    ensures DueAfter(DueAfter(s, now), now + 1) == DueAfter(s, now + 1)
  {
    if s != [] {
      var kept, last := DueAfter(s[..|s| - 1], now), s[|s| - 1];
      DueOfRemaining(s[..|s| - 1], now);
      if last.due > now {
        assert DueAfter(s, now) == kept + [last];
        assert (kept + [last])[..|kept|] == kept;
      } else {
        assert DueAfter(s, now) == kept;
      }
    }
  }

  /** The state and the output of a run are those of the reference schedule. */
  ghost predicate Agrees(done: seq<Op>, now: nat, pending: seq<Timeout>, fired: seq<seq<TimerEvent>>) {
    && now == Ticks(done) == |fired|
    && pending == DueAfter(Schedule(done), now)
    && forall j | 1 <= j <= now :: fired[j - 1] == DueAt(Schedule(done), j)
  }

  lemma {:induction false} AgreesAfterSet(done: seq<Op>, r: Request, now: nat, pending: seq<Timeout>, fired: seq<seq<TimerEvent>>)
    requires Agrees(done, now, pending, fired) && r.delay >= 1
    ensures Agrees(done + [Set(r)], now, pending + [Timeout(now + r.delay, r.event)], fired)
  {
    var ops := done + [Set(r)];
    assert ops[..|ops| - 1] == done;
    ScheduleGrows(Schedule(done), [Timeout(now + r.delay, r.event)], now);
  }

  lemma {:induction false} AgreesAfterTick(done: seq<Op>, window: seq<Request>, now: nat, pending: seq<Timeout>, fired: seq<seq<TimerEvent>>)
    requires Agrees(done, now, pending, fired) && Settable(window)
    ensures Agrees(done + [Tick(window)], now + 1,
                   DueAfter(pending, now + 1) + TimeoutsOf(window, now + 1), fired + [DueAt(pending, now + 1)])
  {
    var ops := done + [Tick(window)];
    assert ops[..|ops| - 1] == done;
    DueOfRemaining(Schedule(done), now);
    ScheduleGrows(Schedule(done), TimeoutsOf(window, now + 1), now + 1);
  }

  lemma {:induction false} ScheduleGrows(s: seq<Timeout>, more: seq<Timeout>, now: nat)
    requires forall i | 0 <= i < |more| :: more[i].due > now
    ensures forall j | 1 <= j <= now :: DueAt(s + more, j) == DueAt(s, j)
    ensures DueAfter(s + more, now) == DueAfter(s, now) + more
  {
    DueAfterAppend(s, more, now);
    forall j | 1 <= j <= now
      ensures DueAt(s + more, j) == DueAt(s, j)
    {
      DueAtAppend(s, more, j);
    }
  }

  /** Performs one step of a run. */
  method Perform(timer: Timer, op: Op, fired: seq<seq<TimerEvent>>, ghost done: seq<Op>)
    returns (fired': seq<seq<TimerEvent>>)
    requires timer.Valid() && SettableOp(op)
    requires Agrees(done, timer.now, timer.pending, fired)
    modifies timer, timer.near, timer.t
    ensures timer.Valid()
    ensures Agrees(done + [op], timer.now, timer.pending, fired')
  {
    match op {
      case Set(r) =>
        AgreesAfterSet(done, r, timer.now, timer.pending, fired);
        timer.TimerAdd(r.event, r.delay);
        fired' := fired;
      case Tick(window) =>
        AgreesAfterTick(done, window, timer.now, timer.pending, fired);
        var out := timer.Tick(window);
        fired' := fired + [out];
    }
  }

  /** Runs a fresh wheel. Tick `j` of any run dispatches exactly the events whose delay
      ends at tick `j`, each once, and in the order in which they were set. */
  method Run(ops: seq<Op>) returns (fired: seq<seq<TimerEvent>>)
    requires forall i | 0 <= i < |ops| :: SettableOp(ops[i])
    ensures |fired| == Ticks(ops)
    ensures forall j | 1 <= j <= Ticks(ops) :: fired[j - 1] == DueAt(Schedule(ops), j)
  {
    var timer := new Timer();
    fired := [];
    for i := 0 to |ops|
      invariant timer.Valid() && fresh(timer) && fresh(timer.near) && fresh(timer.t)
      invariant Agrees(ops[..i], timer.now, timer.pending, fired)
    {
      fired := Perform(timer, ops[i], fired, ops[..i]);
      assert ops[..i + 1] == ops[..i] + [ops[i]];
    }
    assert ops[..|ops|] == ops;
  }
}
