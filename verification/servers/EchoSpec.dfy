/** One connection of server_epoll.c as a value, and what an epoll event does to it.  The kernel
    is an adversary: it chooses what every read and write returns. */
module EchoSpec {

  type Byte = x: int | 0 <= x < 256

  datatype ReadOutcome = Data(bytes: seq<Byte>) | Eof | ReadAgain | ReadError

  /** Wrote(n): the kernel takes at most n of the bytes offered. */
  datatype WriteOutcome = Wrote(n: nat) | WriteAgain | WriteError

  /** A client event: EPOLLERR, EPOLLHUP or EPOLLRDHUP; EPOLLIN; EPOLLOUT.  `input(k)` is the
      result of the k-th read made while handling it, `write` that of its one write. */
  datatype Event = Event(hangup: bool, readable: bool, writable: bool, input: nat -> ReadOutcome, write: WriteOutcome)

  /** `window` is buffer[begin..end]; `wantsOut` is whether EPOLLOUT is registered; `received`
      and `sent` are all bytes read from and written to the client so far. */
  datatype Conn = Conn(
    begin: nat, end: nat, window: seq<Byte>, wantsOut: bool, received: seq<Byte>, sent: seq<Byte>)

  datatype Status = Closed | Live(conn: Conn)

  const FRESH: Conn := Conn(0, 0, [], false, [], [])

  function Min(a: nat, b: nat): nat {
    if a <= b then a else b
  }

  /** read_buff: the connection afterwards and the return value. */
  function ReadBuff(c: Conn, cap: nat, o: ReadOutcome): (Conn, int) {
    if c.end >= cap then (c, -1)
    else match o
      case Data(bytes) =>
        var got := bytes[..Min(|bytes|, cap - c.end)];
        (c.(end := c.end + |got|, window := c.window + got, received := c.received + got), |got|)
      case Eof => (c, 0)
      case ReadAgain => (c, 0)
      case ReadError => (c, -1)
  }

  /** write_buff. */
  function WriteBuff(c: Conn, o: WriteOutcome): (Conn, int) {
    if c.begin >= c.end then (c, 0)
    else match o
      case Wrote(n) =>
        var k: int := Min(n, |c.window|);
        var c' := c.(begin := c.begin + k, window := c.window[k..], sent := c.sent + c.window[..k]);
        (if c'.begin == c'.end then c'.(begin := 0, end := 0) else c', k)
      case WriteAgain => (c, 0)
      case WriteError => (c, -1)
  }

  /** The while (1) loop of an EPOLLIN event from its i-th read on; Closed if it ends in
      close_connection.  It ends because buffer_end grows with every turn. */
  function ReadLoop(c: Conn, cap: nat, input: nat -> ReadOutcome, i: nat): Status
    decreases cap - c.end
  {
    var (c', r) := ReadBuff(c, cap, input(i));
    if r > 0 then ReadLoop(c'.(wantsOut := true), cap, input, i + 1)
    else if r == 0 then Live(c')
    else Closed
  }

  function AfterWrite(c: Conn, o: WriteOutcome): Status {
    var (c', r) := WriteBuff(c, o);
    if r < 0 then Closed
    else if c'.begin == c'.end then Live(c'.(wantsOut := false))
    else Live(c')
  }

  /** process_epoll_event for a client. */
  function Handle(c: Conn, cap: nat, ev: Event): Status {
    if ev.hangup then Closed
    else
      var afterIn := if ev.readable then ReadLoop(c, cap, ev.input, 0) else Live(c);
      if afterIn.Closed? || !ev.writable then afterIn
      else AfterWrite(afterIn.conn, ev.write)
  }

  /** Conservation: what was received is what was sent followed by what is buffered. */
  ghost predicate Echoes(c: Conn) {
    c.received == c.sent + c.window && c.begin <= c.end && |c.window| == c.end - c.begin
  }

  /** What holds of every live connection between events. */
  ghost predicate Settled(c: Conn, cap: nat) {
    && Echoes(c)
    && c.end < cap
    && (c.begin == c.end ==> c.begin == 0)
    && (c.wantsOut <==> c.begin < c.end)
  }

  /** The loop keeps the connection settled and only appends to what was received. */
  lemma {:induction false} ReadLoopSettled(c: Conn, cap: nat, input: nat -> ReadOutcome, i: nat)
    requires Echoes(c) && c.end <= cap && (c.begin == c.end ==> c.begin == 0) && (c.wantsOut <==> c.begin < c.end)
    ensures var r := ReadLoop(c, cap, input, i);
      r.Live? ==> Settled(r.conn, cap) && r.conn.sent == c.sent && c.received <= r.conn.received
    decreases cap - c.end
  {
    var (c', r) := ReadBuff(c, cap, input(i));
    if r > 0 {
      ReadLoopSettled(c'.(wantsOut := true), cap, input, i + 1);
    }
  }

  /** One event, whatever the kernel answers, keeps the connection settled or closes it; bytes are
      only ever appended to both streams, and the client has seen an in-order prefix. */
  lemma HandleSettled(c: Conn, cap: nat, ev: Event)
    requires Settled(c, cap)
    ensures var r := Handle(c, cap, ev);
      r.Live? ==> Settled(r.conn, cap) && c.received <= r.conn.received
                  && c.sent <= r.conn.sent <= r.conn.received
  {
    var afterIn := if ev.readable then ReadLoop(c, cap, ev.input, 0) else Live(c);
    ReadLoopSettled(c, cap, ev.input, 0);
    if !ev.hangup && afterIn.Live? {
      WriteEchoes(afterIn.conn, ev.write);
    }
  }

  lemma WriteEchoes(c: Conn, o: WriteOutcome)
    requires Echoes(c)
    ensures var (c', r) := WriteBuff(c, o);
      Echoes(c') && c.sent <= c'.sent && c'.received == c.received && c'.end <= c.end
  {
    var (c', r) := WriteBuff(c, o);
    if c.begin < c.end && o.Wrote? {
      var k := Min(o.n, |c.window|);
      assert c.window == c.window[..k] + c.window[k..];
    }
  }

  // ----- whole lives of a connection -----

  function Life(c: Conn, cap: nat, evs: seq<Event>): Status
    decreases |evs|
  {
    if evs == [] then Live(c)
    else match Handle(c, cap, evs[0])
      case Closed => Closed
      case Live(c') => Life(c', cap, evs[1..])
  }

  lemma {:induction false} LifeSettled(c: Conn, cap: nat, evs: seq<Event>)
    requires Settled(c, cap)
    ensures var r := Life(c, cap, evs);
      r.Live? ==> Settled(r.conn, cap) && c.received <= r.conn.received && c.sent <= r.conn.sent
    decreases |evs|
  {
    if evs != [] {
      HandleSettled(c, cap, evs[0]);
      var r := Handle(c, cap, evs[0]);
      if r.Live? {
        LifeSettled(r.conn, cap, evs[1..]);
      }
    }
  }

  // ----- what the bytes are -----

  /** The k-th answer is data: not end of file, EAGAIN or an error. */
  predicate Gives(input: nat -> ReadOutcome, k: nat) {
    input(k).Data? && input(k).bytes != []
  }

  /** All m answers from i on are data. */
  ghost predicate Burst(input: nat -> ReadOutcome, i: nat, m: nat) {
    forall k :: i <= k < i + m ==> Gives(input, k)
  }

  /** The bytes of the m answers from i on, one after the other. */
  function Stream(input: nat -> ReadOutcome, i: nat, m: nat): seq<Byte>
    decreases m
  {
    if m == 0 then [] else (if Gives(input, i) then input(i).bytes else []) + Stream(input, i + 1, m - 1)
  }

  /** Exactly the first m answers are data before the first that is not. */
  ghost predicate WholeBurst(input: nat -> ReadOutcome, i: nat, m: nat) {
    Burst(input, i, m) && !Gives(input, i + m)
  }

  /** A read loop that leaves the connection open has appended the whole burst, in the order the
      kernel gave it, to the record and to the buffer, and nothing else has moved. */
  lemma {:induction false} ReadLoopStores(c: Conn, cap: nat, input: nat -> ReadOutcome, i: nat) returns (m: nat)
    requires ReadLoop(c, cap, input, i).Live?
    ensures WholeBurst(input, i, m)
    ensures var bytes := Stream(input, i, m);
      ReadLoop(c, cap, input, i).conn ==
        Conn(c.begin, c.end + |bytes|, c.window + bytes, c.wantsOut || m > 0, c.received + bytes, c.sent)
    decreases cap - c.end
  {
    if Gives(input, i) {
      var c' := ReadBuff(c, cap, input(i)).0.(wantsOut := true);
      var rest := ReadLoopStores(c', cap, input, i + 1);
      m := rest + 1;
      assert c'.end < cap && c'.window == c.window + input(i).bytes;
      assert Burst(input, i, m);
    } else {
      m := 0;
    }
  }

  lemma {:induction false} BurstsAgree(input: nat -> ReadOutcome, m: nat, n: nat)
    requires WholeBurst(input, 0, m) && WholeBurst(input, 0, n)
    ensures m == n
  {
    assert m < n ==> Gives(input, m);
    assert n < m ==> Gives(input, n);
  }

  /** The bytes the kernel hands over during an event: the burst it starts with. */
  ghost function Fed(ev: Event): seq<Byte> {
    if ev.readable && exists m: nat :: WholeBurst(ev.input, 0, m) then
      var m: nat :| WholeBurst(ev.input, 0, m);
      Stream(ev.input, 0, m)
    else []
  }

  /** How much of what is buffered after the reading an event sends. */
  function Taken(ev: Event, buffered: nat): nat {
    if ev.writable && ev.write.Wrote? then Min(ev.write.n, buffered) else 0
  }

  lemma ReadMoves(c: Conn, cap: nat, ev: Event)
    requires ev.readable && ReadLoop(c, cap, ev.input, 0).Live?
    ensures var c' := ReadLoop(c, cap, ev.input, 0).conn;
      c'.received == c.received + Fed(ev) && c'.window == c.window + Fed(ev) && c'.sent == c.sent
  {
    var m := ReadLoopStores(c, cap, ev.input, 0);
    var n: nat :| WholeBurst(ev.input, 0, n) && Fed(ev) == Stream(ev.input, 0, n);
    BurstsAgree(ev.input, m, n);
  }

  /** An event that leaves the connection open adds the bytes fed to what was received, and sends
      the first bytes of what is then buffered, as many as write takes; the rest stays buffered. */
  lemma HandleMoves(c: Conn, cap: nat, ev: Event)
    requires Settled(c, cap) && Handle(c, cap, ev).Live?
    ensures var c', buffered := Handle(c, cap, ev).conn, c.window + Fed(ev);
      var k := Taken(ev, |buffered|);
      && c'.received == c.received + Fed(ev)
      && c'.sent == c.sent + buffered[..k] && c'.window == buffered[k..]
  {
    assert !ev.readable ==> Fed(ev) == [];
    hide ReadLoop, Fed;
    ReadLoopSettled(c, cap, ev.input, 0);
    if ev.readable {
      ReadMoves(c, cap, ev);
    }
    if ev.writable {
      hide WriteBuff;
      WriteMoves(if ev.readable then ReadLoop(c, cap, ev.input, 0).conn else c, ev.write);
    }
  }

  lemma WriteMoves(c: Conn, o: WriteOutcome)
    requires Echoes(c)
    ensures var (c', r) := WriteBuff(c, o);
      var k := if o.Wrote? then Min(o.n, |c.window|) else 0;
      c'.received == c.received && c'.sent == c.sent + c.window[..k] && c'.window == c.window[k..]
  {
  }

  /** All bytes the kernel hands over during the events. */
  ghost function FedBy(evs: seq<Event>): seq<Byte> {
    if evs == [] then [] else Fed(evs[0]) + FedBy(evs[1..])
  }

  lemma {:induction false} LifeReceives(c: Conn, cap: nat, evs: seq<Event>)
    requires Settled(c, cap) && Life(c, cap, evs).Live?
    ensures Life(c, cap, evs).conn.received == c.received + FedBy(evs)
    decreases |evs|
  {
    hide Handle, Fed, Settled, Taken;
    if evs != [] {
      HandleMoves(c, cap, evs[0]);
      HandleSettled(c, cap, evs[0]);
      LifeReceives(Handle(c, cap, evs[0]).conn, cap, evs[1..]);
    }
  }

  /** From accept on, under every order of events and every outcome of read and write, what the
      client has got back is an in-order prefix of what it sent, the rest being buffered. */
  lemma EchoIsPrefix(cap: nat, evs: seq<Event>, c: Conn)
    requires cap > 0 && Life(FRESH, cap, evs) == Live(c)
    ensures Settled(c, cap) && c.sent + c.window == FedBy(evs) && c.sent <= FedBy(evs)
  {
    hide Life;
    LifeSettled(FRESH, cap, evs);
    LifeReceives(FRESH, cap, evs);
  }

  // ----- exactly when an event closes the connection -----

  /** The bytes in the m answers from i on. */
  function Offered(input: nat -> ReadOutcome, i: nat, m: nat): nat
    decreases m
  {
    if m == 0 then 0 else (if Gives(input, i) then |input(i).bytes| else 0) + Offered(input, i + 1, m - 1)
  }

  /** After m answers of data from i on the buffer is full to its last byte, or a hard error comes. */
  ghost predicate Overflows(c: Conn, cap: nat, input: nat -> ReadOutcome, i: nat, m: nat) {
    Burst(input, i, m) && (c.end + Offered(input, i, m) >= cap || input(i + m).ReadError?)
  }

  lemma OverflowsLater(c: Conn, cap: nat, input: nat -> ReadOutcome, i: nat, m: nat)
    requires c.end < cap && Gives(input, i)
    ensures var c' := ReadBuff(c, cap, input(i)).0.(wantsOut := true);
      Overflows(c, cap, input, i, m + 1) <==> Overflows(c', cap, input, i + 1, m)
  {
    assert Burst(input, i, m + 1) <==> Burst(input, i + 1, m);
    if |input(i).bytes| >= cap - c.end {
      assert Offered(input, i, m + 1) >= |input(i).bytes|;
    }
  }

  /** Reading closes the connection if and only if the data, possibly without end, would fill the
      buffer to its last byte, or a hard error comes first. */
  lemma {:induction false} ReadLoopCloses(c: Conn, cap: nat, input: nat -> ReadOutcome, i: nat)
    requires c.end <= cap
    ensures ReadLoop(c, cap, input, i).Closed? <==> exists m: nat :: Overflows(c, cap, input, i, m)
    decreases cap - c.end
  {
    if c.end < cap && Gives(input, i) {
      var c' := ReadBuff(c, cap, input(i)).0.(wantsOut := true);
      var j := i + 1;
      ReadLoopCloses(c', cap, input, j);
      assert !Overflows(c, cap, input, i, 0);
      if m: nat :| Overflows(c', cap, input, j, m) {
        OverflowsLater(c, cap, input, i, m);
        assert Overflows(c, cap, input, i, m + 1);
      }
      if m: nat :| Overflows(c, cap, input, i, m) {
        OverflowsLater(c, cap, input, i, m - 1);
      }
    } else {
      assert Overflows(c, cap, input, i, 0) <==> c.end >= cap || input(i).ReadError?;
      forall m: nat | Overflows(c, cap, input, i, m) ensures Overflows(c, cap, input, i, 0) {
        assert m > 0 && c.end < cap ==> !Gives(input, i);
      }
    }
  }

  /** Reading only ever adds to what is buffered. */
  lemma {:induction false} ReadLoopBuffers(c: Conn, cap: nat, input: nat -> ReadOutcome, i: nat)
    requires c.end <= cap && ReadLoop(c, cap, input, i).Live?
    ensures ReadLoop(c, cap, input, i).conn.window != [] <==> c.window != [] || Gives(input, i)
    decreases cap - c.end
  {
    if Gives(input, i) {
      var (c', r) := ReadBuff(c, cap, input(i));
      ReadLoopBuffers(c'.(wantsOut := true), cap, input, i + 1);
    }
  }

  /** An event closes a settled connection in three cases and no other: hangup; data that would fill
      the buffer, or a hard error after it; a hard error on a write of something buffered. */
  lemma ClosesIff(c: Conn, cap: nat, ev: Event)
    requires Settled(c, cap)
    ensures Handle(c, cap, ev).Closed? <==>
      || ev.hangup
      || (ev.readable && exists m: nat :: Overflows(c, cap, ev.input, 0, m))
      || (ev.writable && ev.write.WriteError? && (c.window != [] || (ev.readable && Gives(ev.input, 0))))
  {
    hide Overflows;
    ReadLoopCloses(c, cap, ev.input, 0);
    ReadLoopSettled(c, cap, ev.input, 0);
    if ev.readable && ReadLoop(c, cap, ev.input, 0).Live? {
      ReadLoopBuffers(c, cap, ev.input, 0);
    }
  }

  // ----- a client that keeps reading gets everything -----

  function OutOnly(n: nat): Event {
    Event(false, false, true, k => ReadAgain, Wrote(n))
  }

  function OutOnlys(ns: seq<nat>): (r: seq<Event>)
    ensures |r| == |ns|
  {
    seq(|ns|, i requires 0 <= i < |ns| => OutOnly(ns[i]))
  }

  /** Every writable event that takes at least one byte makes progress: after as many of them as
      there are buffered bytes the client has everything it sent and EPOLLOUT is off again. */
  lemma {:induction false} Drains(c: Conn, cap: nat, ns: seq<nat>)
    requires Settled(c, cap) && |ns| >= |c.window| && forall i :: 0 <= i < |ns| ==> ns[i] >= 1
    ensures var r := Life(c, cap, OutOnlys(ns));
      r.Live? && r.conn.sent == r.conn.received == c.received
      && r.conn.begin == r.conn.end == 0 && !r.conn.wantsOut
    decreases |ns|
  {
    var evs := OutOnlys(ns);
    if ns != [] {
      HandleSettled(c, cap, evs[0]);
      var c' := Handle(c, cap, evs[0]).conn;
      Drains(c', cap, ns[1..]);
      assert evs[1..] == OutOnlys(ns[1..]);
    }
  }

  lemma {:induction false} LifeConcat(c: Conn, cap: nat, xs: seq<Event>, ys: seq<Event>)
    requires Life(c, cap, xs).Live?
    ensures Life(c, cap, xs + ys) == Life(Life(c, cap, xs).conn, cap, ys)
    decreases |xs|
  {
    if xs == [] {
      assert xs + ys == ys;
    } else {
      assert (xs + ys)[1..] == xs[1..] + ys;
      LifeConcat(Handle(c, cap, xs[0]).conn, cap, xs[1..], ys);
    }
  }

  /** Whatever happened since accept, a client that is still connected and goes on reading gets back
      exactly the bytes it sent. */
  lemma EverythingComesBack(cap: nat, evs: seq<Event>, c: Conn, ns: seq<nat>)
    requires cap > 0 && Life(FRESH, cap, evs) == Live(c)
    requires |ns| >= |c.window| && forall i :: 0 <= i < |ns| ==> ns[i] >= 1
    ensures var r := Life(FRESH, cap, evs + OutOnlys(ns)); r.Live? && r.conn.sent == FedBy(evs)
  {
    hide Life, FedBy;
    EchoIsPrefix(cap, evs, c);
    LifeConcat(FRESH, cap, evs, OutOnlys(ns));
    Drains(c, cap, ns);
  }
}
