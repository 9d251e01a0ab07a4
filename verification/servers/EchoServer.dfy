/** server_epoll.c with its fixed buffers updated in place, and the batch loop of main. */
module EchoServer {
  import opened EchoSpec

  /** `wantsOut` stands for the mask last registered with epoll_ctl; `received` and `sent` record
      the traffic. */
  class FdData {
    const buffer: array<Byte>
    var begin: nat
    var end: nat
    var wantsOut: bool
    ghost var received: seq<Byte>
    ghost var sent: seq<Byte>

    /** calloc and registration with EPOLLIN | EPOLLET | EPOLLRDHUP. */
    constructor (capacity: nat)
      ensures fresh(buffer) && buffer.Length == capacity
      ensures InBounds() && Snapshot() == FRESH
    {
      buffer := new Byte[capacity](_ => 0);
      begin, end, wantsOut := 0, 0, false;
      received, sent := [], [];
    }

    predicate InBounds()
      reads this
    {
      begin <= end <= buffer.Length
    }

    ghost function Snapshot(): Conn
      requires InBounds()
      reads this, buffer
    {
      Conn(begin, end, buffer[begin..end], wantsOut, received, sent)
    }

    method Receive(o: ReadOutcome) returns (r: int)
      requires InBounds()
      modifies this`end, this`received, buffer
      ensures InBounds()
      ensures (Snapshot(), r) == ReadBuff(old(Snapshot()), buffer.Length, o)
      ensures o.Data? && old(end) < buffer.Length ==>
                && r == Min(|o.bytes|, buffer.Length - old(end)) && end == old(end) + r
                && (forall x :: 0 <= x < r ==> buffer[old(end) + x] == o.bytes[x])
      ensures forall x :: 0 <= x < old(end) ==> buffer[x] == old(buffer[x])
    {
      if end >= buffer.Length {
        return -1;
      }
      match o {
        case Data(bytes) =>
          var n: int := Min(|bytes|, buffer.Length - end);
          var at: int := end;
          forall i | 0 <= i < n {
            buffer[at + i] := bytes[i];
          }
          end := end + n;
          received := received + bytes[..n];
          assert buffer[begin..end] == old(buffer[begin..end]) + bytes[..n];
          return n;
        case Eof => return 0;
        case ReadAgain => return 0;
        case ReadError => return -1;
      }
    }

    method Send(o: WriteOutcome) returns (r: int)
      requires InBounds()
      modifies this`begin, this`end, this`sent
      ensures InBounds()
      ensures (Snapshot(), r) == WriteBuff(old(Snapshot()), o)
    {
      if begin >= end {
        return 0;
      }
      match o {
        case Wrote(n) =>
          var k: int := Min(n, end - begin);
          sent := sent + buffer[begin..end][..k];
          assert buffer[begin + k..end] == buffer[begin..end][k..];
          begin := begin + k;
          if begin == end {
            assert buffer[0..0] == [];
            begin := 0;
            end := 0;
          }
          return k;
        case WriteAgain => return 0;
        case WriteError => return -1;
      }
    }

    /** process_epoll_event for this client; the result says whether close_connection is called. */
    method Process(ev: Event) returns (closed: bool)
      requires InBounds()
      modifies this`begin, this`end, this`wantsOut, this`received, this`sent, buffer
      ensures InBounds()
      ensures closed <==> Handle(old(Snapshot()), buffer.Length, ev).Closed?
      ensures !closed ==> Live(Snapshot()) == Handle(old(Snapshot()), buffer.Length, ev)
    {
      if ev.hangup {
        return true;
      }
      if ev.readable {
        var i: nat := 0;
        var r := 1;
        while r > 0
          invariant InBounds()
          invariant r > 0 ==>
                      ReadLoop(Snapshot(), buffer.Length, ev.input, i)
                      == ReadLoop(old(Snapshot()), buffer.Length, ev.input, 0)
          invariant r == 0 ==> Live(Snapshot()) == ReadLoop(old(Snapshot()), buffer.Length, ev.input, 0)
          invariant r < 0 ==> ReadLoop(old(Snapshot()), buffer.Length, ev.input, 0).Closed?
          decreases r > 0, buffer.Length - end
        {
          r := Receive(ev.input(i));
          i := i + 1;
          if r > 0 {
            wantsOut := true;
          }
        }
        if r < 0 {
          return true;
        }
      }
      if ev.writable {
        var r := Send(ev.write);
        if r < 0 {
          return true;
        }
        if begin == end {
          wantsOut := false;
        }
      }
      return false;
    }
  }

  /** What epoll_wait reports: a new client that accept turns into a connection or not, or an
      event on a registered connection. */
  datatype Ready = Incoming(accepted: bool) | Client(data: FdData, ev: Event)

  /** The live connections and their states. */
  type Table = map<FdData, Conn>

  /** How many of the events are accepted connections. */
  function Accepts(batch: seq<Ready>): nat {
    if batch == [] then 0
    else
      var last := batch[|batch| - 1];
      Accepts(batch[..|batch| - 1]) + if last.Incoming? && last.accepted then 1 else 0
  }

  /** The event's own connection, t[d] before it, is closed and freed, or live in the state the
      event leads to. */
  ghost predicate Served(cap: nat, t: Table, d: FdData, ev: Event, t': Table) {
    d in t && match Handle(t[d], cap, ev)
      case Closed => d !in t'
      case Live(c) => d in t' && t'[d] == c
  }

  /** One entry of a batch: an accepted client gets a connection of its own, with an empty buffer;
      an event changes the connection it names and no other. */
  ghost predicate OneStep(cap: nat, t: Table, r: Ready, t': Table) {
    match r
    case Incoming(accepted) => if accepted then exists d :: d in t' && d !in t && t' == t[d := FRESH]
                               else t' == t
    case Client(d, ev) => Served(cap, t, d, ev, t') && t' - {d} == t - {d}
  }

  ghost predicate Names(batch: seq<Ready>, n: nat, d: FdData)
    requires n <= |batch|
  {
    exists j :: 0 <= j < n && batch[j].Client? && batch[j].data == d
  }

  ghost predicate AllServed(cap: nat, t0: Table, batch: seq<Ready>, n: nat, t: Table)
    requires n <= |batch|
  {
    forall j :: 0 <= j < n && batch[j].Client? ==> Served(cap, t0, batch[j].data, batch[j].ev, t)
  }

  ghost predicate OthersKept(t0: Table, batch: seq<Ready>, n: nat, t: Table)
    requires n <= |batch|
  {
    forall d :: d in t0 && !Names(batch, n, d) ==> d in t && t[d] == t0[d]
  }

  /** The connections in t and not in t0 are k many, with nothing read or sent yet. */
  ghost predicate Newcomers(t0: Table, t: Table, k: nat) {
    (forall d :: d in t && d !in t0 ==> t[d] == FRESH) && |t.Keys - t0.Keys| == k
  }

  /** What the first n events of a batch do to the table t0: each named connection goes through its
      own event, the others stay as they are, and each accepted client has a new connection. */
  ghost predicate BatchDone(cap: nat, t0: Table, batch: seq<Ready>, n: nat, t: Table)
    requires n <= |batch|
  {
    AllServed(cap, t0, batch, n, t) && OthersKept(t0, batch, n, t) && Newcomers(t0, t, Accepts(batch[..n]))
  }

  /** No connection is named twice, and all named ones are there. */
  ghost predicate Proper(batch: seq<Ready>, conns: set<FdData>) {
    && (forall i :: 0 <= i < |batch| && batch[i].Client? ==> batch[i].data in conns)
    && (forall i, j :: 0 <= i < j < |batch| && batch[i].Client? && batch[j].Client? ==>
          batch[i].data != batch[j].data)
  }

  lemma NewcomerJoins(t0: Table, t: Table, d: FdData, k: nat)
    requires Newcomers(t0, t, k) && d !in t && d !in t0
    ensures Newcomers(t0, t[d := FRESH], k + 1)
  {
    KeysGrow(t0.Keys, t, d);
  }

  lemma KeysGrow(keys0: set<FdData>, t: Table, d: FdData)
    requires d !in t && d !in keys0
    ensures |t[d := FRESH].Keys - keys0| == |t.Keys - keys0| + 1
  {
    var keys := t.Keys;
    assert t[d := FRESH].Keys == keys + {d};
    OneMore(keys, keys0, d);
  }

  lemma OneMore<T>(a: set<T>, b: set<T>, x: T)
    requires x !in a && x !in b
    ensures |(a + {x}) - b| == |a - b| + 1
  {
    assert (a + {x}) - b == (a - b) + {x};
  }

  lemma OldStay(cap: nat, t0: Table, batch: seq<Ready>, i: nat, t: Table, d: FdData)
    requires i < |batch| && batch[i].Incoming? && d !in t && d !in t0
    requires AllServed(cap, t0, batch, i, t) && OthersKept(t0, batch, i, t)
    ensures AllServed(cap, t0, batch, i + 1, t[d := FRESH]) && OthersKept(t0, batch, i + 1, t[d := FRESH])
  {
    hide Handle;
    forall e | e in t0 && !Names(batch, i + 1, e) ensures e in t && t[e] == t0[e] {
      assert !Names(batch, i, e);
    }
  }

  lemma Refused(cap: nat, t0: Table, batch: seq<Ready>, i: nat, t: Table)
    requires i < |batch| && batch[i].Incoming?
    requires AllServed(cap, t0, batch, i, t) && OthersKept(t0, batch, i, t)
    ensures AllServed(cap, t0, batch, i + 1, t) && OthersKept(t0, batch, i + 1, t)
  {
    hide Served;
    forall e | e in t0 && !Names(batch, i + 1, e) ensures e in t && t[e] == t0[e] {
      assert !Names(batch, i, e);
    }
  }

  lemma IncomingStep(cap: nat, t0: Table, batch: seq<Ready>, i: nat, t: Table, t': Table)
    requires i < |batch| && batch[i].Incoming? && BatchDone(cap, t0, batch, i, t)
    requires OneStep(cap, t, batch[i], t') && forall d :: d in t' && d !in t ==> d !in t0
    ensures BatchDone(cap, t0, batch, i + 1, t')
  {
    hide Accepts, AllServed, OthersKept, Newcomers;
    NextAccepts(batch, i);
    if batch[i].accepted {
      var d :| d in t' && d !in t && t' == t[d := FRESH];
      NewcomerJoins(t0, t, d, Accepts(batch[..i]));
      OldStay(cap, t0, batch, i, t, d);
    } else {
      Refused(cap, t0, batch, i, t);
    }
  }

  lemma SameElsewhere(t: Table, t': Table, d: FdData, e: FdData)
    requires t' - {d} == t - {d} && e != d
    ensures (e in t' <==> e in t) && (e in t ==> t'[e] == t[e])
  {
    assert e in t' <==> e in t' - {d};
    assert e in t <==> e in t - {d};
    if e in t {
      assert t'[e] == (t' - {d})[e] == (t - {d})[e];
    }
  }

  lemma ServedNext(cap: nat, t0: Table, batch: seq<Ready>, i: nat, t: Table, t': Table)
    requires i < |batch| && batch[i].Client? && Proper(batch, t0.Keys)
    requires AllServed(cap, t0, batch, i, t) && OthersKept(t0, batch, i, t) && OneStep(cap, t, batch[i], t')
    ensures AllServed(cap, t0, batch, i + 1, t')
  {
    hide Handle;
    var d := batch[i].data;
    assert !Names(batch, i, d);
    assert t[d] == t0[d];
    forall j | 0 <= j < i && batch[j].Client?
      ensures Served(cap, t0, batch[j].data, batch[j].ev, t')
    {
      SameElsewhere(t, t', d, batch[j].data);
    }
  }

  lemma KeptNext(cap: nat, t0: Table, batch: seq<Ready>, i: nat, t: Table, t': Table)
    requires i < |batch| && batch[i].Client?
    requires OthersKept(t0, batch, i, t) && OneStep(cap, t, batch[i], t')
    ensures OthersKept(t0, batch, i + 1, t')
  {
    hide Served;
    var d := batch[i].data;
    assert Names(batch, i + 1, d);
    forall e | e in t0 && !Names(batch, i + 1, e) ensures e in t' && t'[e] == t0[e] {
      assert !Names(batch, i, e);
      SameElsewhere(t, t', d, e);
    }
  }

  lemma NewOnesKept(t0: Table, t: Table, t': Table, d: FdData, k: nat)
    requires t' - {d} == t - {d} && d in t0 && Newcomers(t0, t, k)
    ensures Newcomers(t0, t', k)
  {
    forall e | e !in t0
      ensures (e in t' <==> e in t) && (e in t ==> t'[e] == t[e])
    {
      SameElsewhere(t, t', d, e);
    }
    assert t'.Keys - t0.Keys == t.Keys - t0.Keys;
  }

  lemma ClientStep(cap: nat, t0: Table, batch: seq<Ready>, i: nat, t: Table, t': Table)
    requires i < |batch| && batch[i].Client? && Proper(batch, t0.Keys) && BatchDone(cap, t0, batch, i, t)
    requires OneStep(cap, t, batch[i], t')
    ensures BatchDone(cap, t0, batch, i + 1, t')
  {
    hide Accepts, AllServed, OthersKept, Newcomers, Served;
    NextAccepts(batch, i);
    ServedNext(cap, t0, batch, i, t, t');
    KeptNext(cap, t0, batch, i, t, t');
    NewOnesKept(t0, t, t', batch[i].data, Accepts(batch[..i]));
  }

  lemma NextAccepts(batch: seq<Ready>, i: nat)
    requires i < |batch|
    ensures Accepts(batch[..i + 1]) == Accepts(batch[..i]) + if batch[i].Incoming? && batch[i].accepted then 1 else 0
  {
    assert batch[..i + 1][..i] == batch[..i];
  }

  class Server {
    const capacity: nat
    /** The connections allocated and registered; close_connection takes one out and frees it. */
    var conns: set<FdData>

    constructor (capacity: nat)
      requires capacity > 0
      ensures this.capacity == capacity && conns == {} && Valid()
    {
      this.capacity := capacity;
      conns := {};
    }

    ghost predicate Good(d: FdData)
      reads d, d.buffer
    {
      d.buffer.Length == capacity && d.InBounds() && Settled(d.Snapshot(), capacity)
    }

    ghost predicate Valid()
      reads this, conns, set d | d in conns :: d.buffer
    {
      && capacity > 0
      && (forall d :: d in conns ==> Good(d))
      && (forall d, e :: d in conns && e in conns && d != e ==> d.buffer != e.buffer)
    }

    /** One event on one live connection: all the others stay as they are, and this one is closed
        and freed or settled again.  Requiring `d in conns` is the absence of use after free. */
    method ProcessClient(d: FdData, ev: Event)
      requires Valid() && d in conns
      modifies this, d, d.buffer
      ensures Valid()
      ensures Handle(old(d.Snapshot()), capacity, ev).Closed? ==> conns == old(conns) - {d}
      ensures Handle(old(d.Snapshot()), capacity, ev).Live? ==>
                conns == old(conns) && Live(d.Snapshot()) == Handle(old(d.Snapshot()), capacity, ev)
    {
      HandleSettled(d.Snapshot(), capacity, ev);
      var closed := d.Process(ev);
      if closed {
        conns := conns - {d};
      }
    }

    method Accept(accepted: bool) returns (d: FdData?)
      requires Valid()
      modifies this
      ensures Valid()
      ensures !accepted ==> d == null && conns == old(conns)
      ensures accepted ==> d != null && fresh(d) && fresh(d.buffer) && conns == old(conns) + {d}
      ensures accepted ==> Good(d) && d.Snapshot() == FRESH
    {
      d := null;
      if accepted {
        assert Settled(FRESH, capacity);
        hide Settled;
        d := new FdData(capacity);
        conns := conns + {d};
      }
    }

    ghost function Connections(): (t: Table)
      requires Valid()
      reads this, conns, set d | d in conns :: d.buffer
      ensures t.Keys == conns
    {
      map d | d in conns :: d.Snapshot()
    }

    /** One entry of a batch.  Requiring that the connection is there is the absence of use after
        free. */
    method ProcessReady(r: Ready)
      requires Valid() && (r.Client? ==> r.data in conns)
      modifies this, if r.Client? then {r.data, r.data.buffer} else {}
      ensures Valid() && OneStep(capacity, old(Connections()), r, Connections())
      ensures forall d :: d in conns && d !in old(conns) ==> fresh(d)
    {
      hide Settled, Handle, FdData.Snapshot;
      ghost var t := Connections();
      match r
      case Incoming(accepted) =>
        var d := Accept(accepted);
        if accepted {
          assert d in Connections() && d !in t && Connections() == t[d := FRESH];
        } else {
          assert Connections() == t;
        }
      case Client(d, ev) =>
        ProcessClient(d, ev);
    }

    /** The for loop of main over one batch.  When a batch names each connection at most once, no
        event reaches a connection that an earlier event of the batch has freed; each named
        connection goes through its own event, the others do not change, and each accepted client
        gets a connection of its own. */
    method ProcessBatch(batch: seq<Ready>)
      requires Valid() && Proper(batch, conns)
      modifies this, conns, set d | d in conns :: d.buffer
      ensures Valid() && BatchDone(capacity, old(Connections()), batch, |batch|, Connections())
      ensures forall d :: d in conns && d !in old(conns) ==> fresh(d)
    {
      hide Handle, FdData.Snapshot, Valid, BatchDone, OneStep, Connections;
      ghost var t0 := Connections();
      BatchStart(capacity, t0, batch);
      for i := 0 to |batch|
        invariant Valid() && BatchDone(capacity, t0, batch, i, Connections())
        invariant forall d :: d in conns ==> d in t0 || fresh(d)
      {
        ghost var t := Connections();
        StillThere(capacity, t0, batch, i, t);
        ProcessReady(batch[i]);
        if batch[i].Client? {
          ClientStep(capacity, t0, batch, i, t, Connections());
        } else {
          IncomingStep(capacity, t0, batch, i, t, Connections());
        }
      }
    }
  }

  lemma BatchStart(cap: nat, t0: Table, batch: seq<Ready>)
    ensures BatchDone(cap, t0, batch, 0, t0)
  {
    assert t0.Keys - t0.Keys == {};
  }

  lemma StillThere(cap: nat, t0: Table, batch: seq<Ready>, i: nat, t: Table)
    requires i < |batch| && Proper(batch, t0.Keys) && BatchDone(cap, t0, batch, i, t)
    ensures batch[i].Client? ==> batch[i].data in t && batch[i].data in t0
  {
    assert batch[i].Client? ==> !Names(batch, i, batch[i].data);
  }
}
