/** The stream reassembly of lua-netpack.c: packets behind a two-byte big-endian length, cut out of
    any number of byte streams that arrive in pieces. */
module Netpack {
  import opened Common

  datatype Packet = Packet(id: nat, data: seq<Byte>)

  /** A partial packet: `read` is -1 when only the first length byte is there. */
  datatype Uncomplete = Uncomplete(id: nat, size: nat, read: int, header: Byte, data: seq<Byte>)

  /** What a chunk leads to: nothing yet, one whole packet, or packets in the queue. */
  datatype Result = Nothing | Data(packet: Packet) | More

  const QUEUE_SIZE: nat := 1024
  const HASH_SIZE: nat := 4096

  //////////////////////////////////////////////////////////////////////////////
  // Streams and frames
  //////////////////////////////////////////////////////////////////////////////

  function ReadSize(s: seq<Byte>): (n: nat)
    requires |s| >= 2
    ensures n < 0x10000
  {
    s[0] as int * 256 + s[1] as int
  }

  /** A stream starts with a whole frame. */
  predicate Whole(s: seq<Byte>) {
    |s| >= 2 && |s| - 2 >= ReadSize(s)
  }

  function Frame(s: seq<Byte>): seq<Byte>
    requires Whole(s)
  {
    s[2..2 + ReadSize(s)]
  }

  function Rest(s: seq<Byte>): (r: seq<Byte>)
    requires Whole(s)
    ensures |r| < |s|
  {
    s[2 + ReadSize(s)..]
  }

  /** The packets of a stream, in order. */
  function Frames(s: seq<Byte>): seq<seq<Byte>>
    decreases |s|
  {
    if !Whole(s) then [] else [Frame(s)] + Frames(Rest(s))
  }

  /** The bytes behind the last whole frame. */
  function Remainder(s: seq<Byte>): (r: seq<Byte>)
    ensures !Whole(r)
    decreases |s|
  {
    if !Whole(s) then s else Remainder(Rest(s))
  }

  lemma WholeGrows(s: seq<Byte>, t: seq<Byte>)
    requires Whole(s)
    ensures Whole(s + t) && Frame(s + t) == Frame(s) && Rest(s + t) == Rest(s) + t
  {
    assert (s + t)[0] == s[0] && (s + t)[1] == s[1];
  }

  /** Cutting a stream anywhere changes nothing: the remainder stands for all that came before. */
  lemma {:induction false} FramesSplit(s: seq<Byte>, t: seq<Byte>)
    ensures Frames(s + t) == Frames(s) + Frames(Remainder(s) + t)
    ensures Remainder(s + t) == Remainder(Remainder(s) + t)
    decreases |s|
  {
    if Whole(s) {
      WholeGrows(s, t);
      FramesSplit(Rest(s), t);
    }
  }

  /** `lpack`: refuses what does not fit two bytes of length. */
  function PackOne(data: seq<Byte>): (r: Option<seq<Byte>>)
    ensures r.Some? <==> |data| < 0x10000
    ensures r.Some? ==> Frames(r.value) == [data] && Remainder(r.value) == []
  {
    if |data| >= 0x10000 then None
    else
      var s := [|data| / 256, |data| % 256] + data;
      assert ReadSize(s) == |data| && s[2..2 + |data|] == data && s[2 + |data|..] == [];
      assert Frames([]) == [] && Frames(s) == [data] + Frames([]);
      Some(s)
  }

  function PackAll(ps: seq<seq<Byte>>): seq<Byte>
    requires forall i | 0 <= i < |ps| :: |ps[i]| < 0x10000
  {
    if ps == [] then [] else PackAll(ps[..|ps| - 1]) + PackOne(ps[|ps| - 1]).value
  }

  /** A stream built by `lpack` decodes to the packets it was built from. */
  lemma {:induction false} PackedFrames(ps: seq<seq<Byte>>)
    requires forall i | 0 <= i < |ps| :: |ps[i]| < 0x10000
    ensures Frames(PackAll(ps)) == ps && Remainder(PackAll(ps)) == []
  {
    if ps != [] {
      var front, last := ps[..|ps| - 1], PackOne(ps[|ps| - 1]).value;
      PackedFrames(front);
      FramesSplit(PackAll(front), last);
      assert [] + last == last;
      assert ps == front + [ps[|ps| - 1]];
    }
  }

  //////////////////////////////////////////////////////////////////////////////
  // Partial packets in hash chains
  //////////////////////////////////////////////////////////////////////////////

  function HashFd(fd: nat): (h: nat)
    ensures h < HASH_SIZE
  {
    (fd / 0x1000000 + fd / 0x1000 + fd) % HASH_SIZE
  }

  /** The bytes a partial packet stands for. */
  function Bytes(u: Uncomplete): seq<Byte>
    requires Proper(u)
  {
    if u.read < 0 then [u.header] else [u.size / 256, u.size % 256] + u.data
  }

  predicate Proper(u: Uncomplete) {
    u.read == -1 || (u.read == |u.data| < u.size < 0x10000)
  }

  predicate EntryRight(u: Uncomplete, h: nat, partial: map<nat, seq<Byte>>) {
    && Proper(u) && HashFd(u.id) == h && u.id in partial && partial[u.id] == Bytes(u)
  }

  /** A chain holds one entry for each stream with a remainder in its bucket. */
  predicate ChainRight(chain: seq<Uncomplete>, h: nat, partial: map<nat, seq<Byte>>) {
    && (forall i | 0 <= i < |chain| :: EntryRight(chain[i], h, partial))
    && (forall i, j | 0 <= i < j < |chain| :: chain[i].id != chain[j].id)
    && (forall fd | fd in partial && HashFd(fd) == h :: Listed(chain, fd))
  }

  predicate Listed(chain: seq<Uncomplete>, fd: nat) {
    exists i | 0 <= i < |chain| :: chain[i].id == fd
  }

  lemma Unlink(chain: seq<Uncomplete>, h: nat, partial: map<nat, seq<Byte>>, k: nat)
    requires ChainRight(chain, h, partial) && k < |chain|
    ensures ChainRight(chain[..k] + chain[k + 1..], h, partial - {chain[k].id})
  {
    hide HashFd, Bytes, Proper;
    var fd, chain' := chain[k].id, chain[..k] + chain[k + 1..];
    assert forall i | 0 <= i < k :: chain'[i] == chain[i];
    assert forall i | k <= i < |chain'| :: chain'[i] == chain[i + 1];
    forall g | g in partial - {fd} && HashFd(g) == h ensures Listed(chain', g) {
      assert Listed(chain, g);
      var i :| 0 <= i < |chain| && chain[i].id == g;
      assert chain'[if i < k then i else i - 1].id == g;
    }
  }

  lemma Link(chain: seq<Uncomplete>, h: nat, partial: map<nat, seq<Byte>>, u: Uncomplete)
    requires ChainRight(chain, h, partial) && Proper(u) && HashFd(u.id) == h && u.id !in partial
    ensures ChainRight([u] + chain, h, partial[u.id := Bytes(u)])
  {
    hide HashFd, Bytes, Proper;
    var chain', partial' := [u] + chain, partial[u.id := Bytes(u)];
    assert forall i | 0 < i < |chain'| :: chain'[i] == chain[i - 1];
    forall g | g in partial' && HashFd(g) == h ensures Listed(chain', g) {
      if g == u.id {
        assert chain'[0].id == g;
      } else {
        assert Listed(chain, g);
        var i :| 0 <= i < |chain| && chain[i].id == g;
        assert chain'[i + 1].id == g;
      }
    }
  }

  /** Another bucket does not notice. */
  lemma OtherChain(chain: seq<Uncomplete>, h: nat, partial: map<nat, seq<Byte>>, partial': map<nat, seq<Byte>>, fd: nat)
    requires ChainRight(chain, h, partial) && HashFd(fd) != h
    requires partial - {fd} == partial' - {fd}
    ensures ChainRight(chain, h, partial')
  {
    hide HashFd, Bytes, Proper;
    forall i | 0 <= i < |chain| ensures EntryRight(chain[i], h, partial') {
      assert chain[i].id in partial - {fd};
    }
    forall g | g in partial' && HashFd(g) == h ensures Listed(chain, g) {
      assert g in partial' - {fd};
    }
  }

  ghost predicate ChainsRight(hash: seq<seq<Uncomplete>>, partial: map<nat, seq<Byte>>) {
    |hash| == HASH_SIZE && forall h | 0 <= h < HASH_SIZE :: ChainRight(hash[h], h, partial)
  }

  lemma ReplaceChain(hash: seq<seq<Uncomplete>>, partial: map<nat, seq<Byte>>, fd: nat, chain: seq<Uncomplete>,
                     partial': map<nat, seq<Byte>>)
    requires ChainsRight(hash, partial) && partial - {fd} == partial' - {fd}
    requires ChainRight(chain, HashFd(fd), partial')
    ensures ChainsRight(hash[HashFd(fd) := chain], partial')
  {
    hide HashFd, ChainRight;
    var hash' := hash[HashFd(fd) := chain];
    forall h | 0 <= h < HASH_SIZE ensures ChainRight(hash'[h], h, partial') {
      if h != HashFd(fd) {
        OtherChain(hash[h], h, partial, partial', fd);
      }
    }
  }

  //////////////////////////////////////////////////////////////////////////////
  // The queue
  //////////////////////////////////////////////////////////////////////////////

  /** Slot of the `i`-th queued packet. */
  function Slot(head: nat, i: nat, cap: nat): nat {
    if head + i < cap then head + i else head + i - cap
  }

  ghost predicate RingRight(ring: seq<Packet>, head: nat, tail: nat, queued: seq<Packet>) {
    && head < |ring| && |queued| < |ring| && tail == Slot(head, |queued|, |ring|)
    && forall i: nat | i < |queued| :: ring[Slot(head, i, |ring|)] == queued[i]
  }

  function Tagged(fd: nat, ps: seq<seq<Byte>>): (r: seq<Packet>)
    ensures |r| == |ps| && forall i | 0 <= i < |ps| :: r[i] == Packet(fd, ps[i])
  {
    seq(|ps|, i requires 0 <= i < |ps| => Packet(fd, ps[i]))
  }

  ghost function Pending(partial: map<nat, seq<Byte>>, fd: nat): seq<Byte> {
    if fd in partial then partial[fd] else []
  }

  /** What a chunk that brings a stream to `s` is answered with. */
  function Response(fd: nat, s: seq<Byte>): Result {
    if Frames(s) == [] then Nothing
    else if |Frames(s)| == 1 && Remainder(s) == [] then Data(Packet(fd, Frames(s)[0]))
    else More
  }

  lemma HeaderBytes(s: seq<Byte>)
    requires |s| >= 2
    ensures [ReadSize(s) / 256, ReadSize(s) % 256] == s[..2]
    ensures s == [ReadSize(s) / 256, ReadSize(s) % 256] + s[2..]
  {
    assert s == s[..2] + s[2..] && s[..2] == [s[0], s[1]];
  }

  lemma Filled(size: nat, data: seq<Byte>, buffer: seq<Byte>, s: seq<Byte>)
    requires size < 0x10000 && |data| <= size && s == [size / 256, size % 256] + data + buffer
    ensures Whole(s) <==> |buffer| >= size - |data|
    ensures Whole(s) ==> Frame(s) == data + buffer[..size - |data|] && Rest(s) == buffer[size - |data|..]
  {
    assert s[0] == size / 256 && s[1] == size % 256;
    assert s[2..] == data + buffer;
  }

  lemma OneFrame(fd: nat, s: seq<Byte>)
    requires Whole(s)
    ensures Rest(s) == [] ==> Response(fd, s) == Data(Packet(fd, Frame(s))) && Remainder(s) == []
    ensures Rest(s) != [] ==> Response(fd, s).More?
  {
    assert Frames([]) == [];
    assert |Frames(s)| == 1 + |Frames(Rest(s))|;
    assert Frames(Rest(s)) == [] ==> Remainder(Rest(s)) == Rest(s);
  }

  lemma TaggedCons(fd: nat, p: seq<Byte>, ps: seq<seq<Byte>>)
    ensures Tagged(fd, [p] + ps) == [Packet(fd, p)] + Tagged(fd, ps)
  {
  }

  lemma TaggedStep(fd: nat, s: seq<Byte>)
    requires Whole(s)
    ensures Tagged(fd, Frames(s)) == [Packet(fd, Frame(s))] + Tagged(fd, Frames(Rest(s)))
    ensures Remainder(s) == Remainder(Rest(s))
    ensures Rest(s) == [] ==> Tagged(fd, Frames(s)) == [Packet(fd, Frame(s))] && Remainder(s) == []
  {
    hide Tagged;
    assert Frames(s) == [Frame(s)] + Frames(Rest(s));
    TaggedCons(fd, Frame(s), Frames(Rest(s)));
    if Rest(s) == [] {
      assert Frames([]) == [] && Tagged(fd, []) == [];
    }
  }

  lemma NoFrame(fd: nat, s: seq<Byte>)
    requires s != []
    ensures !Whole(s) ==> Tagged(fd, Frames(s)) == [] && Remainder(s) == s && Response(fd, s) == Nothing
  {
  }

  lemma LeaveLater(partial: map<nat, seq<Byte>>, fd: nat, rest: seq<Byte>)
    ensures Leave(partial - {fd}, fd, rest) == Leave(partial, fd, rest)
  {
  }

  /** The remainders once `fd` is left with `rest`. */
  ghost function Leave(partial: map<nat, seq<Byte>>, fd: nat, rest: seq<Byte>): map<nat, seq<Byte>> {
    if rest == [] then partial - {fd} else partial[fd := rest]
  }

  class Queue {
    var ring: array<Packet>
    var head: nat
    var tail: nat
    var hash: array<seq<Uncomplete>>
    /** The packets in the ring, and the remainder of each stream that has one. */
    ghost var queued: seq<Packet>
    ghost var partial: map<nat, seq<Byte>>

    ghost predicate Valid()
      reads this, ring, hash
    {
      && ring.Length > 0 && RingRight(ring[..], head, tail, queued)
      && ChainsRight(hash[..], partial)
    }

    constructor ()
      ensures Valid() && fresh(ring) && fresh(hash) && queued == [] && partial == map[]
    {
      ring := new Packet[QUEUE_SIZE](_ => Packet(0, []));
      hash := new seq<Uncomplete>[HASH_SIZE](_ => []);
      head, tail, queued, partial := 0, 0, [], map[];
    }

    /** Takes the partial packet of `fd` out of its chain. */
    method FindUncomplete(fd: nat) returns (r: Option<Uncomplete>)
      requires Valid()
      modifies `partial, hash
      ensures Valid() && partial == old(partial) - {fd}
      ensures r.Some? <==> fd in old(partial)
      ensures r.Some? ==> Proper(r.value) && r.value.id == fd && Bytes(r.value) == old(partial)[fd]
    {
      hide HashFd, RingRight, Bytes, Proper, ChainsRight;
      var h := HashFd(fd);
      ghost var before := hash[..];
      ChainOf(before, partial, fd);
      var chain := hash[h];
      var i := 0;
      while i < |chain|
        invariant i <= |chain| && forall j | 0 <= j < i :: chain[j].id != fd
      {
        if chain[i].id == fd {
          Unlink(chain, h, partial, i);
          ReplaceChain(before, partial, fd, chain[..i] + chain[i + 1..], partial - {fd});
          assert EntryRight(chain[i], h, partial);
          hash[h] := chain[..i] + chain[i + 1..];
          assert hash[..] == before[h := chain[..i] + chain[i + 1..]];
          partial := partial - {fd};
          return Some(chain[i]);
        }
        i := i + 1;
      }
      assert fd in partial ==> Listed(chain, fd);
      assert partial == partial - {fd};
      return None;
    }

    /** Puts a partial packet at the head of its chain. */
    method SaveUncomplete(u: Uncomplete)
      requires Valid() && Proper(u) && u.id !in partial
      modifies `partial, hash
      ensures Valid() && partial == old(partial)[u.id := Bytes(u)]
    {
      hide HashFd, RingRight, Bytes, Proper, ChainsRight, ChainRight;
      var h := HashFd(u.id);
      ghost var before, partial' := hash[..], partial[u.id := Bytes(u)];
      ChainOf(before, partial, u.id);
      Link(hash[h], h, partial, u);
      assert partial - {u.id} == partial' - {u.id};
      ReplaceChain(before, partial, u.id, [u] + hash[h], partial');
      hash[h] := [u] + hash[h];
      assert hash[..] == before[h := hash[h]];
      partial := partial';
    }

    method PushData(p: Packet)
      requires Valid()
      modifies this, ring
      ensures Valid() && queued == old(queued) + [p] && partial == old(partial) && hash == old(hash)
      ensures ring == old(ring) || fresh(ring)
    {
      hide ChainsRight;
      ring[tail] := p;
      tail := tail + 1;
      if tail >= ring.Length {
        tail := tail - ring.Length;
      }
      queued := queued + [p];
      if head == tail {
        ExpandQueue();
      }
    }

    /** A full ring is copied into one larger by `QUEUE_SIZE`, in queue order. */
    method ExpandQueue()
      requires ring.Length > 0 && head == tail < ring.Length == |queued|
      requires forall i: nat | i < |queued| :: ring[Slot(head, i, ring.Length)] == queued[i]
      modifies this
      ensures fresh(ring) && ring.Length > 0 && RingRight(ring[..], head, tail, queued)
      ensures queued == old(queued) && partial == old(partial) && hash == old(hash)
    {
      var cap := ring.Length;
      var bigger := new Packet[cap + QUEUE_SIZE](_ => Packet(0, []));
      var i := 0;
      while i < cap
        invariant 0 <= i <= cap == ring.Length && ring == old(ring) && fresh(bigger) && bigger.Length == cap + QUEUE_SIZE
        invariant head == old(head) && queued == old(queued) && partial == old(partial) && hash == old(hash)
        invariant forall j: nat | j < |queued| :: ring[Slot(head, j, cap)] == queued[j]
        invariant forall j: nat | j < i :: bigger[j] == queued[j]
      {
        var idx := (head + i) % cap;
        WrapSlot(head, i, cap);
        bigger[i] := ring[idx];
        i := i + 1;
      }
      head, tail, ring := 0, cap, bigger;
    }

    /** The packets of a stretch that starts at a frame; what is left over is saved. */
    method PushMore(fd: nat, buffer: seq<Byte>)
      requires Valid() && buffer != [] && fd !in partial
      modifies this, ring, hash
      ensures Valid() && hash == old(hash) && (ring == old(ring) || fresh(ring))
      ensures queued == old(queued) + Tagged(fd, Frames(buffer))
      ensures partial == Leave(old(partial), fd, Remainder(buffer))
      decreases |buffer|
    {
      hide ChainsRight, RingRight, HashFd, Frames, Remainder, Tagged;
      NoFrame(fd, buffer);
      if |buffer| == 1 {
        SaveUncomplete(Uncomplete(fd, 0, -1, buffer[0], []));
        assert [buffer[0]] == buffer;
        return;
      }
      var packSize := ReadSize(buffer);
      HeaderBytes(buffer);
      var size := |buffer| - 2;
      if size < packSize {
        SaveUncomplete(Uncomplete(fd, packSize, size, 0, buffer[2..]));
        return;
      }
      PushData(Packet(fd, buffer[2..2 + packSize]));
      var rest := buffer[2 + packSize..];
      TaggedStep(fd, buffer);
      if rest != [] {
        Requeue(old(queued), [Packet(fd, Frame(buffer))], Tagged(fd, Frames(rest)));
        PushMore(fd, rest);
      } else {
        assert partial == partial - {fd};
      }
    }

    /** `filter_data_`: one chunk of one stream. */
    method FilterData(fd: nat, chunk: seq<Byte>) returns (r: Result)
      requires Valid() && chunk != []
      modifies this, ring, hash
      ensures Valid() && hash == old(hash) && (ring == old(ring) || fresh(ring))
      ensures var s := Pending(old(partial), fd) + chunk;
        && r == Response(fd, s)
        && queued == old(queued) + (if r.More? then Tagged(fd, Frames(s)) else [])
        && partial == Leave(old(partial), fd, Remainder(s))
    {
      hide ChainsRight, RingRight, HashFd, Frames, Remainder, Tagged, Response;
      ghost var s := Pending(partial, fd) + chunk;
      ghost var was := partial;
      var found := FindUncomplete(fd);
      if found.Some? {
        var u, buffer := found.value, chunk;
        if u.read < 0 {
          var packSize := u.header as int * 256 + buffer[0] as int;
          u := u.(size := packSize, read := 0, data := []);
          buffer := buffer[1..];
          HeaderBytes(s);
        }
        assert s == [u.size / 256, u.size % 256] + u.data + buffer;
        r := FillUncomplete(u, buffer, s);
        LeaveLater(was, fd, Remainder(s));
      } else {
        assert [] + chunk == chunk == s;
        assert partial == was;
        r := FreshChunk(fd, chunk);
      }
    }

    /** A chunk for a stream that has a partial packet, once its length is known. */
    method FillUncomplete(u: Uncomplete, buffer: seq<Byte>, ghost s: seq<Byte>) returns (r: Result)
      requires Valid() && u.id !in partial && u.size < 0x10000 && u.read == |u.data| <= u.size
      requires s == [u.size / 256, u.size % 256] + u.data + buffer
      modifies this, ring, hash
      ensures Valid() && hash == old(hash) && (ring == old(ring) || fresh(ring))
      ensures r == Response(u.id, s)
      ensures queued == old(queued) + (if r.More? then Tagged(u.id, Frames(s)) else [])
      ensures partial == Leave(old(partial), u.id, Remainder(s))
    {
      hide ChainsRight, RingRight, HashFd, Frames, Remainder, Tagged, Response;
      var need := u.size - u.read;
      Filled(u.size, u.data, buffer, s);
      NoFrame(u.id, s);
      if |buffer| < need {
        var v := u.(data := u.data + buffer, read := u.read + |buffer|);
        assert Bytes(v) == s;
        SaveUncomplete(v);
        return Nothing;
      }
      var packet := u.data + buffer[..need];
      var rest := buffer[need..];
      OneFrame(u.id, s);
      if rest == [] {
        assert partial == partial - {u.id};
        return Data(Packet(u.id, packet));
      }
      TaggedStep(u.id, s);
      Requeue(queued, [Packet(u.id, packet)], Tagged(u.id, Frames(rest)));
      PushData(Packet(u.id, packet));
      PushMore(u.id, rest);
      return More;
    }

    /** A chunk for a stream without a partial packet. */
    method FreshChunk(fd: nat, buffer: seq<Byte>) returns (r: Result)
      requires Valid() && buffer != [] && fd !in partial
      modifies this, ring, hash
      ensures Valid() && hash == old(hash) && (ring == old(ring) || fresh(ring))
      ensures r == Response(fd, buffer)
      ensures queued == old(queued) + (if r.More? then Tagged(fd, Frames(buffer)) else [])
      ensures partial == Leave(old(partial), fd, Remainder(buffer))
    {
      hide ChainsRight, RingRight, HashFd, Frames, Remainder, Tagged, Response;
      NoFrame(fd, buffer);
      if |buffer| == 1 {
        SaveUncomplete(Uncomplete(fd, 0, -1, buffer[0], []));
        assert [buffer[0]] == buffer;
        return Nothing;
      }
      var packSize := ReadSize(buffer);
      HeaderBytes(buffer);
      var size := |buffer| - 2;
      if size < packSize {
        SaveUncomplete(Uncomplete(fd, packSize, size, 0, buffer[2..]));
        return Nothing;
      }
      OneFrame(fd, buffer);
      if size == packSize {
        assert partial == partial - {fd};
        return Data(Packet(fd, buffer[2..2 + packSize]));
      }
      TaggedStep(fd, buffer);
      Requeue(queued, [Packet(fd, Frame(buffer))], Tagged(fd, Frames(Rest(buffer))));
      PushData(Packet(fd, buffer[2..2 + packSize]));
      PushMore(fd, buffer[2 + packSize..]);
      return More;
    }

    /** The stream ended: its remainder is dropped. */
    method CloseUncomplete(fd: nat)
      requires Valid()
      modifies `partial, hash
      ensures Valid() && partial == old(partial) - {fd}
    {
      hide ChainsRight, RingRight, HashFd;
      var _ := FindUncomplete(fd);
    }

    /** `lpop`. */
    method Pop() returns (r: Option<Packet>)
      requires Valid()
      modifies this`head, this`queued
      ensures Valid()
      ensures r == if old(queued) == [] then None else Some(old(queued)[0])
      ensures queued == if old(queued) == [] then [] else old(queued)[1..]
    {
      hide ChainsRight;
      if head == tail {
        return None;
      }
      assert Slot(head, 0, ring.Length) == head;
      r := Some(ring[head]);
      head := head + 1;
      if head >= ring.Length {
        head := 0;
      }
      queued := queued[1..];
      assert forall i: nat | i < |queued| :: Slot(head, i, ring.Length) == Slot(old(head), i + 1, ring.Length);
    }
  }

  lemma WrapSlot(head: nat, i: nat, cap: nat)
    requires head < cap && i < cap
    ensures (head + i) % cap == Slot(head, i, cap)
  {
  }

  lemma ChainOf(hash: seq<seq<Uncomplete>>, partial: map<nat, seq<Byte>>, fd: nat)
    requires ChainsRight(hash, partial)
    ensures |hash| == HASH_SIZE && ChainRight(hash[HashFd(fd)], HashFd(fd), partial)
  {
  }

  //////////////////////////////////////////////////////////////////////////////
  // Every interleaving
  //////////////////////////////////////////////////////////////////////////////

  datatype Event = Chunk(fd: nat, data: seq<Byte>) | Close(fd: nat) | Take

  /** Everything a stream delivered since it was last closed. */
  function Stream(es: seq<Event>, fd: nat): seq<Byte> {
    if es == [] then []
    else
      var front, e := Stream(es[..|es| - 1], fd), es[|es| - 1];
      if e == Close(fd) then []
      else if e.Chunk? && e.fd == fd then front + e.data
      else front
  }

  /** The packets handed out for a stream since it was last closed; `log` has those of each event. */
  function Emitted(es: seq<Event>, log: seq<seq<Packet>>, fd: nat): seq<Packet>
    requires |log| == |es|
  {
    if es == [] then []
    else
      var front, e := Emitted(es[..|es| - 1], log[..|es| - 1], fd), es[|es| - 1];
      if e == Close(fd) then []
      else if e.Chunk? && e.fd == fd then front + log[|es| - 1]
      else front
  }

  /** The packets that went through the queue. */
  function Pushed(rs: seq<Result>, log: seq<seq<Packet>>): seq<Packet>
    requires |log| == |rs|
  {
    if rs == [] then []
    else
      var front := Pushed(rs[..|rs| - 1], log[..|rs| - 1]);
      if rs[|rs| - 1].More? then front + log[|rs| - 1] else front
  }

  /** A stream is served right: its packets are the frames of all it sent, the remainder is kept. */
  ghost predicate Served(es: seq<Event>, log: seq<seq<Packet>>, partial: map<nat, seq<Byte>>, fd: nat)
    requires |log| == |es|
  {
    && Emitted(es, log, fd) == Tagged(fd, Frames(Stream(es, fd)))
    && Pending(partial, fd) == Remainder(Stream(es, fd))
  }

  lemma TaggedConcat(fd: nat, a: seq<seq<Byte>>, b: seq<seq<Byte>>)
    ensures Tagged(fd, a) + Tagged(fd, b) == Tagged(fd, a + b)
  {
  }

  lemma ServedChunk(es: seq<Event>, log: seq<seq<Packet>>, partial: map<nat, seq<Byte>>, fd: nat, data: seq<Byte>, g: nat)
    requires |log| == |es| && Served(es, log, partial, g) && Served(es, log, partial, fd)
    ensures var s := Pending(partial, fd) + data;
      Served(es + [Chunk(fd, data)], log + [Tagged(fd, Frames(s))], Leave(partial, fd, Remainder(s)), g)
  {
    hide Frames, Remainder, Tagged;
    var s := Pending(partial, fd) + data;
    var e, out := Chunk(fd, data), Tagged(fd, Frames(s));
    assert (es + [e])[..|es|] == es && (log + [out])[..|es|] == log;
    FramesSplit(Stream(es, fd), data);
    TaggedConcat(fd, Frames(Stream(es, fd)), Frames(s));
  }

  lemma ServedOther(es: seq<Event>, log: seq<seq<Packet>>, partial: map<nat, seq<Byte>>, e: Event, g: nat)
    requires |log| == |es| && Served(es, log, partial, g) && !e.Chunk?
    ensures Served(es + [e], log + [[]], if e.Close? then partial - {e.fd} else partial, g)
  {
    assert (es + [e])[..|es|] == es && (log + [[]])[..|es|] == log;
    assert Frames([]) == [];
  }

  lemma PushedStep(rs: seq<Result>, log: seq<seq<Packet>>, r: Result, out: seq<Packet>)
    requires |log| == |rs|
    ensures Pushed(rs + [r], log + [out]) == Pushed(rs, log) + if r.More? then out else []
  {
    assert (rs + [r])[..|rs|] == rs && (log + [out])[..|rs|] == log;
  }

  /** What a result says is what was handed out. */
  predicate Handed(r: Result, out: seq<Packet>) {
    (r.Nothing? ==> out == []) && (r.Data? ==> out == [r.packet])
  }

  lemma HandedOut(fd: nat, s: seq<Byte>)
    ensures Handed(Response(fd, s), Tagged(fd, Frames(s)))
  {
    if Response(fd, s).Data? {
      assert Frames(s) == [Frames(s)[0]];
    }
  }

  /** The packets an event hands out, and the remainders it leaves. */
  ghost function StepOut(partial: map<nat, seq<Byte>>, e: Event): seq<Packet> {
    if e.Chunk? then Tagged(e.fd, Frames(Pending(partial, e.fd) + e.data)) else []
  }

  ghost function StepPartial(partial: map<nat, seq<Byte>>, e: Event): map<nat, seq<Byte>> {
    match e
    case Chunk(fd, data) => Leave(partial, fd, Remainder(Pending(partial, fd) + data))
    case Close(fd) => partial - {fd}
    case Take => partial
  }

  method Step(q: Queue, e: Event) returns (r: Result, popped: seq<Packet>, ghost out: seq<Packet>)
    requires q.Valid() && (e.Chunk? ==> e.data != [])
    modifies q, q.ring, q.hash
    ensures q.Valid() && (q.ring == old(q.ring) || fresh(q.ring)) && q.hash == old(q.hash)
    ensures Handed(r, out) && out == StepOut(old(q.partial), e) && q.partial == StepPartial(old(q.partial), e)
    ensures popped + q.queued == old(q.queued) + if r.More? then out else []
  {
    hide Tagged, Frames, Remainder, Response;
    popped, r, out := [], Nothing, StepOut(q.partial, e);
    match e {
      case Chunk(fd, data) =>
        HandedOut(fd, Pending(q.partial, fd) + data);
        r := q.FilterData(fd, data);
      case Close(fd) =>
        q.CloseUncomplete(fd);
      case Take =>
        var p := q.Pop();
        if p.Some? {
          popped := [p.value];
        }
    }
  }

  /** Whatever the cutting and the interleaving: each stream is served right, and the queue pops in
      the order of the pushes. */
  method Run(q: Queue, es: seq<Event>) returns (rs: seq<Result>, popped: seq<Packet>, ghost log: seq<seq<Packet>>)
    requires q.Valid() && q.queued == [] && q.partial == map[]
    requires forall i | 0 <= i < |es| && es[i].Chunk? :: es[i].data != []
    modifies q, q.ring, q.hash
    ensures q.Valid() && |rs| == |log| == |es|
    ensures forall fd: nat :: Served(es, log, q.partial, fd)
    ensures forall i | 0 <= i < |es| :: Handed(rs[i], log[i])
    ensures popped + q.queued == Pushed(rs, log)
  {
    hide Served, Handed, Pushed, StepOut, StepPartial;
    rs, popped, log := [], [], [];
    StartServed();
    for i := 0 to |es|
      invariant q.Valid() && |rs| == |log| == i && (q.ring == old(q.ring) || fresh(q.ring)) && q.hash == old(q.hash)
      invariant forall fd: nat :: Served(es[..i], log, q.partial, fd)
      invariant forall j | 0 <= j < i :: Handed(rs[j], log[j])
      invariant popped + q.queued == Pushed(rs, log)
    {
      assert es[..i + 1] == es[..i] + [es[i]];
      ghost var partial, queued := q.partial, q.queued;
      var r, taken, out := Step(q, es[i]);
      AllServed(es[..i], log, partial, es[i]);
      PushedStep(rs, log, r, out);
      Requeue(popped, queued, if r.More? then out else []);
      Requeue(popped, taken, q.queued);
      popped := popped + taken;
      rs, log := rs + [r], log + [out];
    }
    assert es[..|es|] == es;
  }

  lemma StartServed()
    ensures forall fd: nat :: Served([], [], map[], fd)
    ensures Pushed([], []) == []
  {
  }

  lemma Requeue(popped: seq<Packet>, queued: seq<Packet>, out: seq<Packet>)
    ensures popped + (queued + out) == (popped + queued) + out
  {
  }

  lemma AllServed(es: seq<Event>, log: seq<seq<Packet>>, partial: map<nat, seq<Byte>>, e: Event)
    requires |log| == |es| && forall g: nat :: Served(es, log, partial, g)
    ensures forall g: nat :: Served(es + [e], log + [StepOut(partial, e)], StepPartial(partial, e), g)
  {
    hide Served, Tagged, Frames, Remainder;
    forall g: nat ensures Served(es + [e], log + [StepOut(partial, e)], StepPartial(partial, e), g) {
      if e.Chunk? {
        ServedChunk(es, log, partial, e.fd, e.data, g);
      } else {
        ServedOther(es, log, partial, e, g);
      }
    }
  }
}
