/** The TCP write path of one socket of socket_server.c: two priority lists, partial writes, half
    close and write interest. What the operating system answers is nondeterministic. */
module SocketWrite {
  datatype Kind = Invalid | Reserve | PListen | Listen | Connecting | Connected | HalfClose | PAccept

  /** One package handed to the socket, with the priority it was sent at. */
  datatype Package = Package(data: seq<bv8>, low: bool)

  /** A `write_buffer`: the first `off` bytes are on the wire already. */
  datatype Buffer = Buffer(pkg: Package, off: nat)

  datatype Result = Nothing | Opened | Closed | Error | Data

  /** What the poll loop can be asked to do; in an `OpEvent` the numbers are what `read` and
      `getsockopt` answer. */
  datatype Op =
    | OpReserve(newId: nat)
    | OpOpen(k: Kind, added: bool)
    | OpSend(to: nat, p: Package)
    | OpClose(to: nat, shutdown: bool)
    | OpStart(to: nat, added: bool)
    | OpEvent(read: bool, got: int, again: bool, ok: bool)

  datatype Outcome = Wrote(n: nat) | Again | Failed

  /** What `write` may answer for `sz` bytes. */
  method OsWrite(sz: nat) returns (o: Outcome)
    ensures o.Wrote? ==> o.n <= sz
  {
    if * {
      return Again;
    } else if * {
      return Failed;
    }
    var n :| 0 <= n <= sz;
    return Wrote(n);
  }

  //////////////////////////////////////////////////////////////////////////////
  // Lists of buffers and the wire
  //////////////////////////////////////////////////////////////////////////////

  ghost function Concat(ps: seq<Package>): seq<bv8> {
    if ps == [] then [] else Concat(ps[..|ps| - 1]) + ps[|ps| - 1].data
  }

  ghost function Packages(l: seq<Buffer>): (ps: seq<Package>)
    ensures |ps| == |l| && forall i | 0 <= i < |l| :: ps[i] == l[i].pkg
  {
    seq(|l|, i requires 0 <= i < |l| => l[i].pkg)
  }

  /** The packages of one priority. */
  ghost function Of(ps: seq<Package>, low: bool): seq<Package> {
    if ps == [] then []
    else
      var rest := Of(ps[..|ps| - 1], low);
      if ps[|ps| - 1].low == low then rest + [ps[|ps| - 1]] else rest
  }

  function BytesLeft(b: Buffer): int {
    |b.pkg.data| - b.off
  }

  ghost function Unsent(l: seq<Buffer>): int {
    if l == [] then 0 else BytesLeft(l[0]) + Unsent(l[1..])
  }

  /** The bytes of the head that are on the wire already. */
  ghost function Started(l: seq<Buffer>): seq<bv8>
    requires l != [] ==> l[0].off <= |l[0].pkg.data|
  {
    if l == [] then [] else l[0].pkg.data[..l[0].off]
  }

  /** The bytes that a sequence of answers took. */
  ghost function Total(answers: seq<Outcome>): nat {
    if answers == [] then 0
    else Total(answers[..|answers| - 1]) + Taken(answers[|answers| - 1])
  }

  /** The bytes that one answer took. */
  function Taken(o: Outcome): nat {
    if o.Wrote? then o.n else 0
  }

  ghost predicate Faulted(answers: seq<Outcome>) {
    answers != [] && answers[|answers| - 1].Failed?
  }

  /** Answer `o` took all of buffer `b`. */
  predicate Whole(b: Buffer, o: Outcome) {
    o.Wrote? && o.n == BytesLeft(b)
  }

  /** Every buffer of `l` was written, one after the other. */
  ghost predicate AllWritten(l: seq<Buffer>, answers: seq<Outcome>) {
    |answers| == |l| && forall i | 0 <= i < |l| :: Whole(l[i], answers[i])
  }

  /** One buffer after the other was offered, up to the first one that was not written whole. */
  ghost predicate Tried(l: seq<Buffer>, answers: seq<Outcome>) {
    && |answers| <= |l|
    && (forall i | 0 <= i < |answers| - 1 :: Whole(l[i], answers[i]))
    && (|answers| < |l| ==> answers != [] && !Whole(l[|answers| - 1], answers[|answers| - 1]))
  }

  /** What `answers` left of `l`. */
  ghost function Left(l: seq<Buffer>, answers: seq<Outcome>): seq<Buffer>
    requires Tried(l, answers)
  {
    if AllWritten(l, answers) then []
    else
      var k := |answers| - 1;
      if answers[k].Wrote? then [Buffer(l[k].pkg, l[k].off + answers[k].n)] + l[k + 1..] else l[k..]
  }

  lemma TotalEmpty()
    ensures Total([]) == 0
  {
  }

  lemma TotalAppend(answers: seq<Outcome>, o: Outcome)
    ensures Total(answers + [o]) == Total(answers) + Taken(o)
  {
    assert (answers + [o])[..|answers|] == answers;
  }

  lemma {:induction false} TotalConcat(a: seq<Outcome>, b: seq<Outcome>)
    ensures Total(a + b) == Total(a) + Total(b)
  {
    if b == [] {
      assert a + b == a;
    } else {
      TotalConcat(a, b[..|b| - 1]);
      assert (a + b)[..|a + b| - 1] == a + b[..|b| - 1];
    }
  }

  /** Two lists that are offered one after the other are one list. */
  lemma TriedConcat(l: seq<Buffer>, m: seq<Buffer>, a: seq<Outcome>, b: seq<Outcome>)
    requires Tried(l, a) && if AllWritten(l, a) then Tried(m, b) else b == []
    ensures Tried(l + m, a + b) && Total(a + b) == Total(a) + Total(b)
    ensures AllWritten(l + m, a + b) <==> AllWritten(l, a) && AllWritten(m, b)
    ensures Faulted(a + b) <==> Faulted(a) || Faulted(b)
  {
    TotalConcat(a, b);
    assert a + [] == a;
  }

  lemma ClosedWritten(l: seq<Buffer>, m: seq<Buffer>, answers: seq<Outcome>)
    ensures m == [] && AllWritten(l, answers) ==> AllWritten(l + m, answers)
  {
    assert l + [] == l;
  }

  /** Every answer so far took a whole buffer. */
  ghost predicate WholeSoFar(l: seq<Buffer>, answers: seq<Outcome>) {
    |answers| <= |l| && forall i | 0 <= i < |answers| :: Whole(l[i], answers[i])
  }

  lemma WholeNone(l: seq<Buffer>)
    ensures WholeSoFar(l, [])
  {
  }

  lemma WholeAll(l: seq<Buffer>, answers: seq<Outcome>)
    requires WholeSoFar(l, answers) && |answers| == |l|
    ensures Tried(l, answers) && Left(l, answers) == [] && !Faulted(answers)
  {
  }

  lemma WholeMore(l: seq<Buffer>, answers: seq<Outcome>, o: Outcome)
    requires WholeSoFar(l, answers) && |answers| < |l|
    ensures Whole(l[|answers|], o) ==> WholeSoFar(l, answers + [o])
    ensures !Whole(l[|answers|], o) ==>
      && Tried(l, answers + [o]) && (Faulted(answers + [o]) <==> o.Failed?)
      && Left(l, answers + [o]) ==
         if o.Wrote? then [Buffer(l[|answers|].pkg, l[|answers|].off + o.n)] + l[|answers| + 1..] else l[|answers|..]
  {
  }

  lemma TriedNone()
    ensures Tried([], []) && AllWritten([], [])
  {
  }

  lemma LeftEmpty(l: seq<Buffer>, answers: seq<Outcome>)
    requires Tried(l, answers)
    ensures Left(l, answers) == [] <==> AllWritten(l, answers)
    ensures AllWritten(l, answers) ==> !Faulted(answers)
  {
  }

  predicate Untouched(l: seq<Buffer>) {
    forall i | 0 <= i < |l| :: l[i].off == 0
  }

  /** Only the head may be partly written. */
  predicate HeadPartial(l: seq<Buffer>) {
    l != [] ==> l[0].off <= |l[0].pkg.data| && Untouched(l[1..])
  }

  lemma {:induction false} OfAppend(ps: seq<Package>, p: Package, low: bool)
    ensures Of(ps + [p], low) == if p.low == low then Of(ps, low) + [p] else Of(ps, low)
  {
    assert (ps + [p])[..|ps|] == ps;
  }

  lemma {:induction false} OfConcat(ps: seq<Package>, qs: seq<Package>, low: bool)
    ensures Of(ps + qs, low) == Of(ps, low) + Of(qs, low)
  {
    if qs == [] {
      assert ps + qs == ps;
    } else {
      var rest := qs[..|qs| - 1];
      OfConcat(ps, rest, low);
      assert (ps + qs)[..|ps + qs| - 1] == ps + rest;
    }
  }

  lemma {:induction false} OfOther(ps: seq<Package>, low: bool)
    requires forall i | 0 <= i < |ps| :: ps[i].low != low
    ensures Of(ps, low) == []
  {
    if ps != [] {
      OfOther(ps[..|ps| - 1], low);
    }
  }

  lemma ConcatAppend(ps: seq<Package>, p: Package)
    ensures Concat(ps + [p]) == Concat(ps) + p.data
  {
    assert (ps + [p])[..|ps|] == ps;
  }

  lemma {:induction false} UnsentAppend(l: seq<Buffer>, b: Buffer)
    ensures Unsent(l + [b]) == Unsent(l) + BytesLeft(b)
  {
    if l == [] {
      assert (l + [b])[1..] == [];
    } else {
      UnsentAppend(l[1..], b);
      assert (l + [b])[1..] == l[1..] + [b];
    }
  }

  //////////////////////////////////////////////////////////////////////////////
  // What holds of a socket
  //////////////////////////////////////////////////////////////////////////////

  /** The state a step can see, with the history that explains it: `wire` is every byte the
      operating system took, `sent` the packages finished, `accepted` the packages taken from the
      callers per priority, `clean` that there was no I/O error, peer EOF or shutdown. */
  datatype State = State(kind: Kind, high: seq<Buffer>, low: seq<Buffer>, size: int, writeOn: bool,
                         wire: seq<bv8>, sent: seq<Package>, acceptedHigh: seq<Package>,
                         acceptedLow: seq<Package>, clean: bool)

  /** Everything accepted, in the order in which it goes to the wire. */
  ghost function Order(sent: seq<Package>, high: seq<Buffer>, low: seq<Buffer>): seq<Package> {
    sent + Packages(high) + Packages(low)
  }

  predicate AllLow(l: seq<Buffer>) {
    forall i | 0 <= i < |l| :: l[i].pkg.low
  }

  ghost predicate ListsRight(s: State) {
    && HeadPartial(s.high) && Untouched(s.low) && AllLow(s.low)
    && s.size == Unsent(s.high) + Unsent(s.low)
  }

  /** Whole packages in sequence, then a prefix of the head of the high list. */
  ghost predicate WireRight(s: State)
    requires HeadPartial(s.high)
  {
    s.wire == Concat(s.sent) + Started(s.high)
  }

  /** Each priority is first in, first out, and nothing is lost or invented. */
  ghost predicate OrderRight(s: State) {
    && Of(Order(s.sent, s.high, s.low), false) == s.acceptedHigh
    && Of(Order(s.sent, s.high, s.low), true) == s.acceptedLow
  }

  predicate Sendable(k: Kind) {
    k.Connecting? || k.Connected? || k.HalfClose?
  }

  predicate Open(k: Kind) {
    !k.Invalid? && !k.Reserve?
  }

  /** A socket with something to write, still connecting or half closed asks to be told when it can. */
  predicate InterestRight(s: State) {
    && (Sendable(s.kind) && (s.high != [] || s.low != []) ==> s.writeOn)
    && (s.kind.Connecting? || s.kind.HalfClose? ==> s.writeOn)
  }

  ghost predicate Inv(s: State) {
    && (!Sendable(s.kind) ==> s.high == [] && s.low == [])
    && (Open(s.kind) ==> ListsRight(s))
    && (Open(s.kind) || s.clean ==> HeadPartial(s.high) && WireRight(s) && OrderRight(s))
    && InterestRight(s)
  }

  /** A socket that closed without an error, a peer EOF or a shutdown wrote every accepted byte. */
  ghost predicate Delivered(s: State) {
    && s.wire == Concat(s.sent)
    && Of(s.sent, false) == s.acceptedHigh && Of(s.sent, true) == s.acceptedLow
  }

  lemma ClosedDelivered(s: State)
    requires Inv(s) && s.kind.Invalid? && s.clean
    ensures Delivered(s)
  {
    hide Concat, Of;
    assert Order(s.sent, [], []) == s.sent;
  }

  //////////////////////////////////////////////////////////////////////////////
  // Steps on the state
  //////////////////////////////////////////////////////////////////////////////

  function Accept(s: State, p: Package): State {
    if p.low then s.(acceptedLow := s.acceptedLow + [p]) else s.(acceptedHigh := s.acceptedHigh + [p])
  }

  function Enqueue(s: State, p: Package): State {
    var b := Buffer(p, 0);
    var t := Accept(s, p).(size := s.size + |p.data|);
    if p.low then t.(low := s.low + [b]) else t.(high := s.high + [b])
  }

  ghost function Extra(p: Package, low: bool): seq<Package> {
    if p.low == low then [p] else []
  }

  /** A high package goes before the low ones, and no low package notices. */
  lemma InsertOrder(front: seq<Package>, back: seq<Package>, p: Package, low: bool)
    requires p.low || forall i | 0 <= i < |back| :: back[i].low
    ensures Of(if p.low then front + back + [p] else front + [p] + back, low) == Of(front + back, low) + Extra(p, low)
  {
    hide Of;
    OfAppend(front + back, p, low);
    if !p.low {
      OfConcat(front, back, low);
      OfConcat(front + [p], back, low);
      OfAppend(front, p, low);
      if !low {
        OfOther(back, false);
      }
    }
  }

  lemma EnqueueOrder(s: State, p: Package)
    requires OrderRight(s) && AllLow(s.low)
    ensures OrderRight(Enqueue(s, p))
  {
    hide Of, Packages;
    var t, b := Enqueue(s, p), Buffer(p, 0);
    var front, back := s.sent + Packages(s.high), Packages(s.low);
    PackagesAppend(s.high, b);
    PackagesAppend(s.low, b);
    LowPackages(s.low);
    InsertOrder(front, back, p, false);
    InsertOrder(front, back, p, true);
    if p.low {
      assert Order(t.sent, t.high, t.low) == front + back + [p];
    } else {
      assert Order(t.sent, t.high, t.low) == front + [p] + back;
    }
  }

  lemma PackagesAppend(l: seq<Buffer>, b: Buffer)
    ensures Packages(l + [b]) == Packages(l) + [b.pkg]
  {
  }

  lemma LowPackages(l: seq<Buffer>)
    requires AllLow(l)
    ensures forall i | 0 <= i < |Packages(l)| :: Packages(l)[i].low
  {
  }

  lemma EnqueueLists(s: State, p: Package)
    requires ListsRight(s) && WireRight(s)
    ensures ListsRight(Enqueue(s, p)) && WireRight(Enqueue(s, p))
  {
    hide Unsent, Concat, HeadPartial;
    var b := Buffer(p, 0);
    UnsentAppend(s.high, b);
    UnsentAppend(s.low, b);
    AppendedHead(s.high, b);
  }

  lemma EnqueueKeeps(s: State, p: Package)
    requires Inv(s) && (s.kind.Connecting? || s.kind.Connected?) && s.writeOn
    ensures Inv(Enqueue(s, p))
  {
    EnqueueLists(s, p);
    EnqueueOrder(s, p);
    hide ListsRight, OrderRight, WireRight;
  }

  lemma AppendedHead(l: seq<Buffer>, b: Buffer)
    requires HeadPartial(l) && b.off == 0
    ensures HeadPartial(l + [b]) && Started(l + [b]) == Started(l)
  {
    assert l != [] ==> (l + [b])[1..] == l[1..] + [b];
  }

  /** A package sent to an idle connected socket, of which the first `n` bytes went out at once. */
  function Direct(s: State, p: Package, n: nat): State
    requires n <= |p.data|
  {
    var t := Accept(s, p).(wire := s.wire + p.data[..n]);
    if n == |p.data| then t.(sent := s.sent + [p])
    else t.(high := [Buffer(p, n)], size := s.size + |p.data| - n, writeOn := true)
  }

  lemma DirectOrder(s: State, p: Package, n: nat)
    requires OrderRight(s) && s.high == [] && s.low == [] && n <= |p.data|
    ensures OrderRight(Direct(s, p, n))
  {
    OfAppend(s.sent, p, false);
    OfAppend(s.sent, p, true);
    hide Of, Packages;
    assert Packages([]) == [] && Packages([Buffer(p, n)]) == [p];
    assert Order(s.sent, [], []) == s.sent;
    assert Order(s.sent + [p], [], []) == s.sent + [p] == Order(s.sent, [Buffer(p, n)], []);
  }

  lemma DirectLists(s: State, p: Package, n: nat)
    requires ListsRight(s) && WireRight(s) && s.high == [] && s.low == [] && n <= |p.data|
    ensures ListsRight(Direct(s, p, n)) && WireRight(Direct(s, p, n))
  {
    ConcatAppend(s.sent, p);
    hide Concat;
    assert p.data[..|p.data|] == p.data;
    assert Unsent([]) == 0 && [Buffer(p, n)][1..] == [];
  }

  lemma DirectKeeps(s: State, p: Package, n: nat)
    requires Inv(s) && s.kind.Connected? && s.high == [] && s.low == [] && n <= |p.data|
    ensures Inv(Direct(s, p, n))
  {
    hide OrderRight, WireRight, Order;
    DirectOrder(s, p, n);
    DirectLists(s, p, n);
    hide ListsRight;
  }

  /** A partial write moves bytes from the head to the wire. */
  lemma WroteSome(l: seq<Buffer>, n: nat)
    requires l != [] && HeadPartial(l) && n <= BytesLeft(l[0])
    ensures var b := l[0]; var l' := [Buffer(b.pkg, b.off + n)] + l[1..];
      && HeadPartial(l') && Packages(l') == Packages(l) && Unsent(l') == Unsent(l) - n
      && Started(l') == Started(l) + b.pkg.data[b.off..b.off + n]
  {
    var b := l[0];
    var l' := [Buffer(b.pkg, b.off + n)] + l[1..];
    assert l'[1..] == l[1..];
  }

  /** A complete write moves the head to the finished packages. */
  lemma WroteAll(l: seq<Buffer>, sent: seq<Package>)
    requires l != [] && HeadPartial(l)
    ensures var b := l[0];
      && HeadPartial(l[1..]) && Unsent(l[1..]) == Unsent(l) - BytesLeft(b)
      && (sent + [b.pkg]) + Packages(l[1..]) == sent + Packages(l)
      && Concat(sent + [b.pkg]) + Started(l[1..]) == Concat(sent) + Started(l) + b.pkg.data[b.off..]
  {
    hide Concat, Packages;
    var b := l[0];
    TailStarted(l);
    ConcatAppend(sent, b.pkg);
    PackagesHead(l);
    Halves(Concat(sent), b.pkg.data, b.off);
  }

  lemma TailStarted(l: seq<Buffer>)
    requires l != [] && HeadPartial(l)
    ensures HeadPartial(l[1..]) && Started(l[1..]) == []
  {
    assert l[1..] != [] ==> l[1..][0].off == 0;
  }

  lemma PackagesHead(l: seq<Buffer>)
    requires l != []
    ensures Packages(l) == [l[0].pkg] + Packages(l[1..])
  {
  }

  lemma Halves(front: seq<bv8>, data: seq<bv8>, off: nat)
    requires off <= |data|
    ensures front + data[..off] + data[off..] == front + data
  {
    assert data[..off] + data[off..] == data;
  }

  lemma NothingStarted(l: seq<Buffer>)
    requires Untouched(l)
    ensures HeadPartial(l) && Started(l) == []
  {
  }

  predicate ListUncomplete(l: seq<Buffer>) {
    l != [] && l[0].off != 0
  }

  /** What `send_buffer` leaves once a partly written low package is raised. */
  function Raised(s: State): State {
    if ListUncomplete(s.low) then s.(high := [s.low[0]], low := s.low[1..]) else s
  }

  lemma UncompleteRight(s: State)
    requires s.high == [] && HeadPartial(s.low) && AllLow(s.low)
    requires s.size == Unsent(s.low) && s.wire == Concat(s.sent) + Started(s.low)
    ensures ListsRight(Raised(s)) && WireRight(Raised(s))
  {
    hide Concat;
    assert Unsent([]) == 0;
    if ListUncomplete(s.low) {
      assert [s.low[0]][1..] == [];
    }
  }

  lemma RaisedOrder(s: State)
    requires s.high == []
    ensures var t := Raised(s); Order(t.sent, t.high, t.low) == Order(s.sent, s.high, s.low)
  {
    if ListUncomplete(s.low) {
      var head, rest := s.low[0], s.low[1..];
      PackagesHead(s.low);
      PackagesHead([head]);
      assert [head][1..] == [];
      hide Packages;
      RaisedParts(s.sent, head.pkg, Packages([]), Packages(rest));
    }
  }

  lemma RaisedParts(sent: seq<Package>, p: Package, none: seq<Package>, rest: seq<Package>)
    requires none == []
    ensures sent + none + ([p] + rest) == sent + ([p] + none) + rest
  {
    assert [p] + none == [p] && sent + none == sent;
  }

  /** What is left of a list of low packages is low. */
  lemma LeftLow(sent0: seq<Package>, l0: seq<Buffer>, sent: seq<Package>, l: seq<Buffer>)
    requires sent0 <= sent && sent + Packages(l) == sent0 + Packages(l0) && AllLow(l0)
    ensures AllLow(l)
  {
    LowPackages(l0);
    var all := sent0 + Packages(l0);
    forall i | 0 <= i < |l| ensures l[i].pkg.low {
      assert all[|sent| + i] == l[i].pkg;
    }
  }

  /** Sending takes packages off the front of the order. */
  lemma SentKeeps(s: State, t: State)
    requires Inv(s) && Sendable(s.kind) && ListsRight(t) && WireRight(t) && s.sent <= t.sent
    requires Order(t.sent, t.high, t.low) == Order(s.sent, s.high, s.low)
    requires t == s.(high := t.high, low := t.low, size := t.size, wire := t.wire, sent := t.sent)
    ensures Inv(t)
  {
    assert HeadPartial(t.high);
    hide ListsRight, WireRight;
    assert |Order(t.sent, t.high, t.low)| == |t.sent| + |t.high| + |t.low|;
    assert |Order(s.sent, s.high, s.low)| == |s.sent| + |s.high| + |s.low|;
  }

  /** With nothing left to write, closing loses nothing. */
  lemma IdleClose(s: State, on: bool)
    requires Inv(s) && s.high == [] && s.low == [] && (Open(s.kind) || s.clean)
    ensures Inv(s.(kind := Invalid, writeOn := on)) && Delivered(s.(kind := Invalid, writeOn := on))
  {
    assert Order(s.sent, [], []) == s.sent;
    hide Concat, Of;
  }

  /** `close_socket` can meet a connecting socket whose lists are all written: write interest is off
      then, and the caller closes it at once. */
  ghost predicate Flushed(s: State) {
    s.kind.Connecting? && s.high == [] && s.low == [] && Inv(s.(writeOn := true))
  }

  /** Whether a send request is taken rather than dropped. */
  predicate Takes(s: State, id: nat, to: nat) {
    id == to && (s.kind.Connecting? || s.kind.Connected?)
  }

  /** The kinds a slot can be opened with, and those of them that are not polled yet. */
  predicate Openable(k: Kind) { k.Connecting? || k.Connected? || Passive(k) }
  predicate Passive(k: Kind) { k.PListen? || k.PAccept? }

  /** A command or event for an open slot is meant for this socket. */
  predicate Addressed(op: Op, id: nat) {
    match op
    case OpSend(to, _) => to == id
    case OpClose(to, _) => to == id
    case OpStart(to, _) => to == id
    case OpEvent(_, _, _, _) => true
    case _ => false
  }

  function IdAfter(s: State, id: nat, op: Op): nat {
    if op.OpReserve? && s.kind.Invalid? then op.newId else id
  }

  /** The packages accepted at one priority after operation `op` with result `r`. */
  function AcceptedAfter(s: State, id: nat, op: Op, r: Result, low: bool): seq<Package> {
    var before := if low then s.acceptedLow else s.acceptedHigh;
    if s.kind.Reserve? && op.OpOpen? && Openable(op.k) && !r.Error? then []
    else if op.OpSend? && op.p.low == low && Takes(s, id, op.to) && !r.Closed? then before + [op.p]
    else before
  }

  /** The kind after operation `op` of an open socket that it is meant for. */
  function KindAfter(k: Kind, op: Op, r: Result): Kind {
    if r.Closed? || r.Error? then Invalid
    else match op
      case OpClose(_, _) => HalfClose
      case OpStart(_, _) => if k.PAccept? then Connected else if k.PListen? then Listen else k
      case OpEvent(_, _, _, _) => if k.Connecting? then Connected else k
      case _ => k
  }

  /** What the result can be. */
  predicate ResultRight(s: State, op: Op, r: Result) {
    match op
    case OpSend(_, _) => r.Nothing? || (r.Closed? && s.kind.Connected? && s.high == [] && s.low == [])
    case OpClose(_, shutdown) => r.Closed? || (r.Nothing? && !shutdown && (s.high != [] || s.low != []))
    case OpStart(_, added) =>
      r == if Passive(s.kind) then (if added then Opened else Error) else if s.kind.Connected? then Opened else Nothing
    case OpEvent(read, got, again, ok) =>
      if s.kind.Connecting? then r == if ok then Opened else Error
      else if !(s.kind.Connected? || s.kind.HalfClose?) then r.Nothing?
      else if !read then r.Nothing? || r.Closed?
      else r == if got > 0 then (if s.kind.HalfClose? then Nothing else Data) else if got < 0 then (if again then Nothing else Error) else Closed
    case _ => r.Nothing?
  }

  /** What operation `op` does to a socket with identity `id` in state `s`, given its result. */
  ghost predicate Moves(s: State, id: nat, op: Op, r: Result, t: State) {
    && t.acceptedHigh == AcceptedAfter(s, id, op, r, false)
    && t.acceptedLow == AcceptedAfter(s, id, op, r, true)
    && if s.kind.Reserve? then
         if op.OpOpen? && Openable(op.k) then
           if op.added || Passive(op.k) then r.Nothing? && t.kind == op.k && t.wire == [] && t.clean
           else r.Error? && t.kind.Invalid?
         else r.Nothing? && t == s
       else if s.kind.Invalid? then
         && t.kind == (if op.OpReserve? then Reserve else Invalid)
         && r == if op.OpClose? then Closed else if op.OpStart? then Error else Nothing
       else if Addressed(op, id) then
         ResultRight(s, op, r) && t.kind == KindAfter(s.kind, op, r) && s.sent <= t.sent && s.wire <= t.wire
       else
         t == s && r == if op.OpClose? then Closed else if op.OpStart? then Error else Nothing
  }

  lemma HalfCloseKeeps(s: State)
    requires Inv(s) && (s.high != [] || s.low != [])
    ensures Inv(s.(kind := HalfClose)) && s.writeOn
  {
  }

  lemma FreshKeeps(k: Kind)
    requires Open(k) && !k.HalfClose?
    ensures Inv(State(k, [], [], 0, k.Connecting?, [], [], [], [], true))
  {
    assert Order([], [], []) == [] && Unsent([]) == 0;
  }

  lemma InvalidAgain(s: State)
    requires Inv(s) && s.kind.Reserve?
    ensures Inv(s.(kind := Invalid))
  {
  }

  lemma EmptyLists(s: State)
    requires Inv(s) && !Sendable(s.kind)
    ensures s.high == [] && s.low == []
  {
  }

  /** After a fault nothing more is promised. */
  lemma FaultKeeps(s: State)
    requires s.kind.Invalid? && s.high == [] && s.low == [] && !s.clean
    ensures Inv(s)
  {
  }

  lemma OpenParts(s: State)
    requires Inv(s) && Open(s.kind)
    ensures ListsRight(s) && WireRight(s)
  {
  }

  lemma StartKeeps(s: State, k: Kind)
    requires Inv(s) && (s.kind.PAccept? || s.kind.PListen?) && (k.Connected? || k.Listen?)
    ensures Inv(s.(kind := k, writeOn := false))
  {
  }

  lemma ConnectKeeps(s: State)
    requires Inv(s) && s.kind.Connecting?
    ensures Inv(s.(kind := Connected, writeOn := s.high != [] || s.low != []))
  {
  }

  lemma IdleRest(s: State)
    requires Inv(s) && s.high == [] && s.low == [] && s.kind.Connected?
    ensures Inv(s.(writeOn := false))
  {
  }

  //////////////////////////////////////////////////////////////////////////////
  // The socket
  //////////////////////////////////////////////////////////////////////////////

  class Socket {
    var kind: Kind
    var id: nat
    var high: seq<Buffer>
    var low: seq<Buffer>
    var wbSize: int
    var writeOn: bool
    ghost var wire: seq<bv8>
    ghost var sent: seq<Package>
    ghost var acceptedHigh: seq<Package>
    ghost var acceptedLow: seq<Package>
    ghost var clean: bool

    ghost function View(): State
      reads this
    {
      State(kind, high, low, wbSize, writeOn, wire, sent, acceptedHigh, acceptedLow, clean)
    }

    ghost predicate Valid()
      reads this
    {
      Inv(View())
    }

    constructor ()
      ensures Valid() && View() == State(Invalid, [], [], 0, false, [], [], [], [], true) && id == 0
    {
      kind, id, high, low, wbSize, writeOn := Invalid, 0, [], [], 0, false;
      wire, sent, acceptedHigh, acceptedLow, clean := [], [], [], [], true;
    }

    /** Frees the lists; what is in them is lost. */
    method ForceClose()
      requires !kind.Reserve?
      modifies `kind, `high, `low
      ensures View() == old(View()).(kind := Invalid, high := if old(kind.Invalid?) then old(high) else [],
                                     low := if old(kind.Invalid?) then old(low) else [])
    {
      if kind.Invalid? {
        return;
      }
      high, low := [], [];
      kind := Invalid;
    }

    /** Closes after a fault or for a shutdown. */
    method Abort()
      requires Open(kind)
      modifies `kind, `high, `low, `clean
      ensures View() == old(View()).(kind := Invalid, high := [], low := [], clean := false) && Valid()
    {
      clean := false;
      ForceClose();
      FaultKeeps(View());
    }

    /** One `write` of the head of a list. */
    method WriteHead(list0: seq<Buffer>) returns (list: seq<Buffer>, o: Outcome)
      requires list0 != [] && HeadPartial(list0) && wire == Concat(sent) + Started(list0)
      modifies `wbSize, `wire, `sent
      ensures HeadPartial(list) && wire == Concat(sent) + Started(list)
      ensures sent + Packages(list) == old(sent) + Packages(list0) && old(sent) <= sent && old(wire) <= wire
      ensures wbSize - Unsent(list) == old(wbSize) - Unsent(list0) && |wire| == |old(wire)| + Taken(o)
      ensures list == if Whole(list0[0], o) then list0[1..]
                      else if o.Wrote? then [Buffer(list0[0].pkg, list0[0].off + o.n)] + list0[1..] else list0
    {
      hide Concat, Packages, Unsent, Untouched, Started;
      var b := list0[0];
      list := list0;
      o := OsWrite(BytesLeft(b));
      if o.Wrote? {
        wbSize := wbSize - o.n;
        wire := wire + b.pkg.data[b.off..b.off + o.n];
        if o.n != BytesLeft(b) {
          WroteSome(list, o.n);
          list := [Buffer(b.pkg, b.off + o.n)] + list[1..];
        } else {
          WroteAll(list, sent);
          sent := sent + [b.pkg];
          list := list[1..];
        }
      }
    }

    /** Writes buffers until one is refused or written in part. */
    method SendList(list0: seq<Buffer>) returns (list: seq<Buffer>, failed: bool, ghost answers: seq<Outcome>)
      requires HeadPartial(list0) && wire == Concat(sent) + Started(list0)
      modifies `wbSize, `wire, `sent
      ensures HeadPartial(list) && wire == Concat(sent) + Started(list)
      ensures sent + Packages(list) == old(sent) + Packages(list0) && old(sent) <= sent && old(wire) <= wire
      ensures wbSize - Unsent(list) == old(wbSize) - Unsent(list0) && |list| <= |list0|
      ensures Tried(list0, answers) && list == Left(list0, answers)
      ensures failed <==> Faulted(answers)
      ensures |wire| == |old(wire)| + Total(answers)
    {
      hide Concat, Packages, Unsent, Total, Tried, Left, Faulted, WholeSoFar, Untouched, Started;
      list, answers := list0, [];
      TotalEmpty();
      WholeNone(list0);
      while list != []
        invariant WholeSoFar(list0, answers) && |answers| <= |list0| && list == list0[|answers|..]
        invariant |wire| == |old(wire)| + Total(answers)
        invariant HeadPartial(list) && wire == Concat(sent) + Started(list)
        invariant sent + Packages(list) == old(sent) + Packages(list0) && old(sent) <= sent && old(wire) <= wire
        invariant wbSize - Unsent(list) == old(wbSize) - Unsent(list0) && |list| <= |list0|
        decreases |list|
      {
        var head := list[0];
        var o;
        assert head == list0[|answers|] && list[1..] == list0[|answers| + 1..];
        list, o := WriteHead(list);
        TotalAppend(answers, o);
        WholeMore(list0, answers, o);
        answers := answers + [o];
        if !Whole(head, o) {
          return list, o.Failed?, answers;
        }
      }
      WholeAll(list0, answers);
      return list, false, answers;
    }

    /** Moves the head of the low list to the empty high list. */
    method RaiseUncomplete()
      requires high == [] && low != []
      modifies `high, `low
      ensures high == [old(low)[0]] && low == old(low)[1..]
    {
      var tmp := low[0];
      low := low[1..];
      high := [tmp];
    }

    /** Step 1: the high list. */
    method SendHigh() returns (failed: bool, ghost answers: seq<Outcome>)
      requires ListsRight(View()) && WireRight(View())
      modifies `high, `wbSize, `wire, `sent
      ensures ListsRight(View()) && WireRight(View()) && old(sent) <= sent && old(wire) <= wire
      ensures |high| <= old(|high|) && Order(sent, high, low) == old(Order(sent, high, low))
      ensures Tried(old(high), answers) && high == Left(old(high), answers)
      ensures (failed <==> Faulted(answers)) && |wire| == |old(wire)| + Total(answers)
    {
      hide Concat, Packages, Unsent, HeadPartial, Untouched, AllLow, Started, Tried, Left, Total, Faulted;
      var rest;
      rest, failed, answers := SendList(high);
      high := rest;
    }

    /** Steps 2 and 3: the low list, and a partly written package goes to the high list. */
    method SendLow() returns (failed: bool, ghost answers: seq<Outcome>)
      requires ListsRight(View()) && WireRight(View()) && high == []
      modifies `high, `low, `wbSize, `wire, `sent
      ensures !failed ==> ListsRight(View()) && WireRight(View())
      ensures old(sent) <= sent && old(wire) <= wire
      ensures !failed ==> Order(sent, high, low) == old(Order(sent, high, low))
      ensures Tried(old(low), answers) && (high == [] && low == [] <==> Left(old(low), answers) == [])
      ensures (failed <==> Faulted(answers)) && |wire| == |old(wire)| + Total(answers)
    {
      hide Concat, Packages, Untouched, AllLow, Tried, Left, Total, Faulted;
      assert Unsent([]) == 0;
      hide Unsent;
      NothingStarted(low);
      assert Order(sent, high, low) == sent + Packages(low);
      var rest;
      rest, failed, answers := SendList(low);
      LeftLow(old(sent), old(low), sent, rest);
      low := rest;
      if failed {
        return;
      }
      assert Order(sent, high, low) == sent + Packages(low);
      UncompleteRight(View());
      RaisedOrder(View());
      hide ListsRight, WireRight, Order;
      if ListUncomplete(low) {
        RaiseUncomplete();
      }
    }

    method SendBuffer() returns (r: Result, ghost answers: seq<Outcome>)
      requires Valid() && Sendable(kind)
      modifies this
      ensures Valid() || (r.Nothing? && Flushed(View()))
      ensures id == old(id) && old(sent) <= sent && old(wire) <= wire && |wire| == |old(wire)| + Total(answers)
      ensures acceptedHigh == old(acceptedHigh) && acceptedLow == old(acceptedLow)
      // the high list and then the low list are offered like one list, up to the first refusal
      ensures Tried(old(high + low), answers) && clean == (old(clean) && !Faulted(answers))
      ensures r.Nothing? || r.Closed?
      ensures r.Closed? <==> Faulted(answers) || (old(kind.HalfClose? && low == []) && AllWritten(old(high), answers))
      ensures r.Closed? ==> kind.Invalid? && (clean ==> Delivered(View()))
      ensures r.Nothing? ==> (high == [] && low == [] <==> AllWritten(old(high + low), answers))
      ensures r.Nothing? ==> writeOn == (old(writeOn) && !(high == [] && old(low) == []))
      ensures r.Nothing? ==> kind == old(kind) && Order(sent, high, low) == old(Order(sent, high, low))
    {
      hide Inv, ListsRight, WireRight, Order, Delivered, Total, Tried, Left, Faulted, AllWritten;
      ghost var s, more := View(), [];
      OpenParts(s);
      var failed;
      failed, answers := SendHigh();
      LeftEmpty(old(high), answers);
      if failed {
        Abort();
        TriedConcat(old(high), old(low), answers, []);
        assert answers + [] == answers;
        return Closed, answers;
      }
      SentKeeps(s, View());
      OpenParts(View());
      if high == [] {
        if low != [] {
          s := View();
          failed, more := SendLow();
          LeftEmpty(old(low), more);
          TriedConcat(old(high), old(low), answers, more);
          answers := answers + more;
          if failed {
            Abort();
            return Closed, answers;
          }
          SentKeeps(s, View());
        } else {
          s := View();
          writeOn := false;
          TriedNone();
          TriedConcat(old(high), old(low), answers, []);
          assert answers + [] == answers;
          if kind.HalfClose? {
            IdleClose(s, false);
            ForceClose();
            return Closed, answers;
          }
          if kind.Connected? {
            IdleRest(s);
          }
        }
      } else {
        TriedConcat(old(high), old(low), answers, []);
        assert answers + [] == answers;
      }
      return Nothing, answers;
    }

    /** Nothing is waiting: tries the wire first; a rest goes to the high list at any priority. */
    method SendDirect(p: Package) returns (failed: bool, ghost answer: Outcome)
      requires high == [] && low == [] && kind.Connected?
      modifies this
      ensures id == old(id) && Taken(answer) <= |p.data| && (failed <==> answer.Failed?)
      ensures View() == if failed then old(View()) else Direct(old(View()), p, Taken(answer))
    {
      var o := OsWrite(|p.data|);
      answer := o;
      if o.Failed? {
        return true, answer;
      }
      var m := Taken(o);
      wire := wire + p.data[..m];
      if p.low {
        acceptedLow := acceptedLow + [p];
      } else {
        acceptedHigh := acceptedHigh + [p];
      }
      if m == |p.data| {
        sent := sent + [p];
        return false, answer;
      }
      high := [Buffer(p, m)];
      wbSize := wbSize + |p.data| - m;
      writeOn := true;
      return false, answer;
    }

    method AppendBuffer(p: Package)
      modifies this
      ensures id == old(id) && View() == Enqueue(old(View()), p)
    {
      if p.low {
        low := low + [Buffer(p, 0)];
        acceptedLow := acceptedLow + [p];
      } else {
        high := high + [Buffer(p, 0)];
        acceptedHigh := acceptedHigh + [p];
      }
      wbSize := wbSize + |p.data|;
    }

    /** Takes a package: the bytes it can at once, the rest through the lists. */
    method Send(to: nat, p: Package) returns (r: Result, ghost answers: seq<Outcome>)
      requires Valid() && !kind.Reserve?
      modifies this
      ensures Valid() && id == old(id) && old(sent) <= sent && old(wire) <= wire
      // the system is asked exactly when the socket is connected with nothing waiting
      ensures |answers| == if old(Takes(View(), id, to) && kind.Connected? && high == [] && low == []) then 1 else 0
      ensures !old(Takes(View(), id, to)) ==> r.Nothing? && View() == old(View())
      ensures old(Takes(View(), id, to)) && answers == [] ==> r.Nothing? && View() == Enqueue(old(View()), p)
      ensures answers != [] && !answers[0].Failed? ==>
        r.Nothing? && Taken(answers[0]) <= |p.data| && View() == Direct(old(View()), p, Taken(answers[0]))
      ensures answers != [] && answers[0].Failed? ==> r.Closed? && View() == old(View()).(kind := Invalid, clean := false)
    {
      hide ListsRight, WireRight, OrderRight, Order;
      ghost var s := View();
      assert kind.Connecting? || high != [] || low != [] ==> !Sendable(kind) || writeOn;
      hide Inv;
      if kind.Invalid? || id != to || kind.HalfClose? || kind.PAccept? {
        return Nothing, [];
      }
      if kind.PListen? || kind.Listen? {
        return Nothing, [];
      }
      if high == [] && low == [] && kind.Connected? {
        var failed, answer := SendDirect(p);
        if failed {
          Abort();
          return Closed, [answer];
        }
        DirectKeeps(s, p, Taken(answer));
        return Nothing, [answer];
      }
      EnqueueKeeps(s, p);
      AppendBuffer(p);
      return Nothing, [];
    }

    method CloseSocket(to: nat, shutdown: bool) returns (r: Result, ghost answers: seq<Outcome>)
      requires Valid() && !kind.Reserve?
      modifies this
      ensures Valid() && id == old(id) && old(sent) <= sent && old(wire) <= wire && |wire| == |old(wire)| + Total(answers)
      ensures acceptedHigh == old(acceptedHigh) && acceptedLow == old(acceptedLow)
      ensures r.Closed? || (r.Nothing? && !shutdown && old(high != [] || low != []))
      ensures old(kind.Invalid? || id != to) ==> r.Closed? && answers == [] && View() == old(View())
      // one more attempt to write what waits; the socket closes when nothing is left, on a fault or on a shutdown
      ensures old(!kind.Invalid? && id == to) ==>
        && Tried(old(high + low), answers)
        && (r.Closed? <==> Faulted(answers) || AllWritten(old(high + low), answers) || shutdown)
        && clean == (old(clean) && !Faulted(answers) && (shutdown ==> AllWritten(old(high + low), answers)))
        && if r.Closed? then kind.Invalid? && (clean ==> Delivered(View()))
           else kind.HalfClose? && writeOn && Order(sent, high, low) == old(Order(sent, high, low))
    {
      hide ListsRight, WireRight, OrderRight, Order, Delivered, Total, Tried, AllWritten, Faulted;
      answers := [];
      TotalEmpty();
      if kind.Invalid? || id != to {
        return Closed, answers;
      }
      TriedNone();
      LeftEmpty([], []);
      if high != [] || low != [] {
        r, answers := SendBuffer();
        LeftEmpty(old(high + low), answers);
        if r.Closed? {
          ClosedWritten(old(high), old(low), answers);
          return Closed, answers;
        }
      }
      ghost var s := View();
      if high == [] && low == [] {
        IdleClose(if kind.Connecting? then s.(writeOn := true) else s, writeOn);
        ForceClose();
        return Closed, answers;
      }
      if shutdown {
        Abort();
        return Closed, answers;
      }
      HalfCloseKeeps(s);
      hide Inv;
      kind := HalfClose;
      return Nothing, answers;
    }

    /** `reserve_id`: the slot is handed to a new socket. */
    method ReserveSlot(newId: nat)
      requires Valid() && kind.Invalid?
      modifies `kind, `id
      ensures Valid() && kind.Reserve? && id == newId
    {
      kind, id := Reserve, newId;
    }

    /** `new_fd`, with the type its caller then sets; the lists are empty as it asserts. A socket
        that is to be polled at once is given up when the poller does not take it. */
    method NewFd(k: Kind, added: bool) returns (ok: bool)
      requires Valid() && kind.Reserve? && Openable(k)
      modifies this
      ensures Valid() && id == old(id) && (ok <==> added || Passive(k))
      ensures ok ==> kind == k && clean && wire == [] && sent == [] && acceptedHigh == [] && acceptedLow == []
      ensures ok ==> wbSize == 0 && writeOn == k.Connecting?
      ensures !ok ==> View() == old(View()).(kind := Invalid)
    {
      hide Inv;
      EmptyLists(View());
      if !added && (k.Connecting? || k.Connected?) {
        InvalidAgain(View());
        kind := Invalid;
        return false;
      }
      assert high == [] && low == [];
      wbSize := 0;
      kind := k;
      writeOn := k.Connecting?;
      wire, sent, acceptedHigh, acceptedLow, clean := [], [], [], [], true;
      FreshKeeps(k);
      return true;
    }

    /** `start_socket`; `added` says whether the poller took the descriptor. */
    method Start(to: nat, added: bool) returns (r: Result)
      requires Valid() && !kind.Reserve?
      modifies this
      ensures Valid() && id == old(id)
      ensures old(kind.Invalid? || id != to) ==> r.Error? && View() == old(View())
      ensures old(id == to && (kind.PAccept? || kind.PListen?)) ==>
        if added then r.Opened? && View() == old(View()).(kind := if old(kind.PAccept?) then Connected else Listen, writeOn := false)
        else r.Error? && View() == old(View()).(kind := Invalid, clean := false)
      ensures old(id == to && !kind.PAccept? && !kind.PListen? && !kind.Invalid?) ==>
        View() == old(View()) && r == if old(kind.Connected?) then Opened else Nothing
    {
      hide ListsRight, WireRight, OrderRight, Order;
      if kind.Invalid? || id != to {
        return Error;
      }
      ghost var s := View();
      if kind.PAccept? || kind.PListen? {
        if !added {
          Abort();
          return Error;
        }
        StartKeeps(s, if kind.PAccept? then Connected else Listen);
        kind := if kind.PAccept? then Connected else Listen;
        writeOn := false;
        return Opened;
      } else if kind.Connected? {
        return Opened;
      }
      return Nothing;
    }

    /** The connection attempt ended. */
    method ReportConnect(ok: bool) returns (r: Result)
      requires Valid() && kind.Connecting?
      modifies this
      ensures Valid() && id == old(id) && wire == old(wire) && sent == old(sent)
      ensures acceptedHigh == old(acceptedHigh) && acceptedLow == old(acceptedLow)
      ensures if ok then r.Opened? && kind.Connected? && clean == old(clean) && high == old(high) && low == old(low)
              else r.Error? && kind.Invalid? && !clean
      ensures ok ==> (writeOn <==> high != [] || low != [])
    {
      hide ListsRight, WireRight, OrderRight, Order;
      if !ok {
        Abort();
        return Error;
      }
      ghost var s := View();
      ConnectKeeps(s);
      kind := Connected;
      if high == [] && low == [] {
        writeOn := false;
      }
      return Opened;
    }

    /** `forward_message_tcp`, as far as the write path goes: `got` bytes, or an error when negative. */
    method ForwardMessage(got: int, again: bool) returns (r: Result)
      requires Valid() && Sendable(kind)
      modifies this
      ensures Valid() && id == old(id) && wire == old(wire) && sent == old(sent)
      ensures acceptedHigh == old(acceptedHigh) && acceptedLow == old(acceptedLow)
      ensures if got > 0 || (got < 0 && again) then View() == old(View()) && r == if got > 0 && !kind.HalfClose? then Data else Nothing
              else kind.Invalid? && !clean && r == if got < 0 then Error else Closed
    {
      hide ListsRight, WireRight, OrderRight, Order;
      if got < 0 && again {
        return Nothing;
      }
      if got <= 0 {
        Abort();
        return if got < 0 then Error else Closed;
      }
      return if kind.HalfClose? then Nothing else Data;
    }

    /** An event of the poller. */
    method HandleEvent(read: bool, got: int, again: bool, ok: bool) returns (r: Result)
      requires Valid() && Open(kind)
      modifies this
      ensures Valid() && id == old(id) && acceptedHigh == old(acceptedHigh) && acceptedLow == old(acceptedLow)
      ensures old(sent) <= sent && old(wire) <= wire
      ensures ResultRight(old(View()), OpEvent(read, got, again, ok), r)
      ensures kind == KindAfter(old(kind), OpEvent(read, got, again, ok), r)
    {
      hide Inv, Total, Tried, Faulted, AllWritten, Order, Delivered;
      r := Nothing;
      if kind.Connecting? {
        r := ReportConnect(ok);
      } else if kind.Connected? || kind.HalfClose? {
        if read {
          r := ForwardMessage(got, again);
        } else {
          ghost var answers;
          r, answers := SendBuffer();
        }
      }
    }

    /** One command or event of the poll loop. */
    method Step(op: Op) returns (r: Result)
      requires Valid()
      modifies this
      ensures Valid() && id == IdAfter(old(View()), old(id), op) && Moves(old(View()), old(id), op, r, View())
    {
      hide Inv, Total, Tried, Faulted, AllWritten, Order, Delivered;
      ghost var answers;
      r := Nothing;
      if kind.Reserve? {
        if op.OpOpen? && Openable(op.k) {
          var ok := NewFd(op.k, op.added);
          r := if ok then Nothing else Error;
        }
        return;
      }
      match op {
        case OpReserve(newId) =>
          if kind.Invalid? {
            ReserveSlot(newId);
          }
        case OpOpen(_, _) =>
        case OpSend(to, p) => r, answers := Send(to, p);
        case OpClose(to, shutdown) => r, answers := CloseSocket(to, shutdown);
        case OpStart(to, added) => r := Start(to, added);
        case OpEvent(read, got, again, ok) =>
          if !kind.Invalid? {
            r := HandleEvent(read, got, again, ok);
          }
      }
    }

    /** Every state of every run keeps the write-path invariant, and every operation does to the
        socket what its kind allows. */
    method Run(ops: seq<Op>) returns (rs: seq<Result>, ghost trace: seq<State>, ghost ids: seq<nat>)
      requires Valid()
      modifies this
      ensures |rs| == |ops| && |trace| == |ids| == |ops| + 1
      ensures trace[0] == old(View()) && ids[0] == old(id) && trace[|ops|] == View() && ids[|ops|] == id
      ensures forall i | 0 <= i < |trace| :: Inv(trace[i])
      ensures forall i | 0 <= i < |trace| && trace[i].kind.Invalid? && trace[i].clean :: Delivered(trace[i])
      ensures forall i | 0 <= i < |ops| :: Moves(trace[i], ids[i], ops[i], rs[i], trace[i + 1])
      ensures forall i | 0 <= i < |ops| :: ids[i + 1] == IdAfter(trace[i], ids[i], ops[i])
    {
      hide Inv, Delivered, Moves, IdAfter;
      rs, trace, ids := [], [View()], [id];
      for i := 0 to |ops|
        invariant Valid() && |rs| == i && |trace| == |ids| == i + 1
        invariant trace[0] == old(View()) && ids[0] == old(id) && trace[i] == View() && ids[i] == id
        invariant forall j | 0 <= j < |trace| :: Inv(trace[j])
        invariant forall j | 0 <= j < i :: Moves(trace[j], ids[j], ops[j], rs[j], trace[j + 1])
        invariant forall j | 0 <= j < i :: ids[j + 1] == IdAfter(trace[j], ids[j], ops[j])
      {
        var r := Step(ops[i]);
        rs := rs + [r];
        trace := trace + [View()];
        ids := ids + [id];
      }
      forall i | 0 <= i < |trace| && trace[i].kind.Invalid? && trace[i].clean ensures Delivered(trace[i]) {
        ClosedDelivered(trace[i]);
      }
    }
  }
}
