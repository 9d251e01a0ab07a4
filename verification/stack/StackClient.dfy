/** The client run of main: one producer pushing 0, 1, 2, ... and one consumer that pops, prints
    and frees, with malloc free to recycle addresses. */
module StackClient {
  import opened StackMachine
  import opened StackSafety
  import opened StackTheorems

  datatype Roles = Roles(producer: Tid, consumer: Tid, pushes: nat, pops: nat) {
    function Cfg(): Config {
      Config({consumer}, true)
    }
  }

  /** The loops of producer and consumer: value i on the i-th push, and a bounded number of
      rounds each (n_pushes for both in main). */
  predicate ByMain(r: Roles, s: State, e: Event) {
    match e
    case Malloc(t, _, v, _) => t == r.producer && v == s.mallocs && s.mallocs < r.pushes
    case LoadForPop(_) => |s.out| < r.pops
    case _ => true
  }

  predicate MainRun(r: Roles, s: State, es: seq<Event>)
    decreases |es|
  {
    es == [] || (Enabled(r.Cfg(), s, es[0]) && ByMain(r, s, es[0]) && MainRun(r, Next(s, es[0]), es[1..]))
  }

  /** Both threads have returned, so main has joined them. */
  ghost predicate Joined(r: Roles, s: State) {
    s.mallocs == r.pushes && |s.out| == r.pops && forall t :: PcOf(s, t).Idle?
  }

  /** 0, 1, ..., n - 1. */
  function Upto(n: nat): (r: seq<int>)
    ensures |r| == n && forall i :: 0 <= i < n ==> r[i] == i
  {
    if n == 0 then [] else Upto(n - 1) + [n - 1]
  }

  function Pushes(log: seq<Op>): seq<int> {
    if log == [] then []
    else Pushes(log[..|log| - 1]) + (match log[|log| - 1] case Push(v) => [v] case _ => [])
  }

  function Pops(log: seq<Op>): seq<int> {
    if log == [] then []
    else Pops(log[..|log| - 1]) + (match log[|log| - 1] case Pop(v) => [v] case _ => [])
  }

  lemma LogSnoc(log: seq<Op>, op: Op)
    ensures Pushes(log + [op]) == Pushes(log) + (match op case Push(v) => [v] case _ => [])
    ensures Pops(log + [op]) == Pops(log) + (match op case Pop(v) => [v] case _ => [])
  {
    assert (log + [op])[..|log|] == log;
  }

  // ----- what a stack can do to an increasing input -----

  /** No three entries c, a, b in this order with a < b < c. */
  ghost predicate Avoids312(out: seq<int>) {
    forall i, j, k :: 0 <= i < j < k < |out| ==> !(out[j] < out[k] < out[i])
  }

  /** Once a smaller value follows a larger one, everything in between has already left. */
  ghost predicate NothingBetween(out: seq<int>) {
    forall i, j, y :: 0 <= i < j < |out| && out[j] < y < out[i] ==> y in out[..j]
  }

  ghost predicate Descending(stk: seq<int>) {
    forall i, j :: 0 <= i < j < |stk| ==> stk[j] < stk[i]
  }

  /** `out` has been popped and `stk` remains of the increasing input 0, ..., n - 1. */
  ghost predicate Sorted(out: seq<int>, stk: seq<int>, n: nat) {
    && Descending(stk) && NoDup(out) && NothingBetween(out)
    && (forall x :: x in stk ==> x !in out)
    && (forall x :: (x in stk || x in out) <==> 0 <= x < n)
  }

  lemma SortedPush(out: seq<int>, stk: seq<int>, n: nat)
    requires Sorted(out, stk, n)
    ensures Sorted(out, [n] + stk, n + 1)
  {
    assert forall j :: 0 <= j < |stk| ==> stk[j] in stk;
    assert forall x :: x in [n] + stk <==> x == n || x in stk;
  }

  lemma SortedPop(out: seq<int>, v: int, stk: seq<int>, n: nat)
    requires Sorted(out, [v] + stk, n)
    ensures Sorted(out + [v], stk, n)
  {
    var old_stk, out' := [v] + stk, out + [v];
    assert forall j :: 0 <= j < |stk| ==> stk[j] == old_stk[j + 1] < old_stk[0];
    assert forall x :: x in old_stk <==> x == v || x in stk;
    assert forall x :: x in out' <==> x == v || x in out;
    assert old_stk[0] in old_stk;
    assert Descending(stk) && NoDup(out');
    forall i, j, y | 0 <= i < j < |out'| && out'[j] < y < out'[i] ensures y in out'[..j] {
      assert out'[..j] == out[..j];
      if j == |out| {
        assert out[i] in out && y !in stk;
      }
    }
  }

  lemma {:induction false} ReplayIncreasing(log: seq<Op>, stk: seq<int>)
    requires Replay(log) == Stack(stk)
    requires Pushes(log) == Upto(|Pushes(log)|)
    ensures Sorted(Pops(log), stk, |Pushes(log)|)
    decreases |log|
  {
    if log != [] {
      var init, op := log[..|log| - 1], log[|log| - 1];
      var n := |Pushes(init)|;
      var before := Replay(init).items;
      assert Pushes(init) == Upto(n) by {
        assert Pushes(init) == Pushes(log)[..n] == Upto(|Pushes(log)|)[..n];
      }
      ReplayIncreasing(init, before);
      match op
      case Push(v) =>
        assert v == Pushes(log)[n] == n && Pops(log) == Pops(init);
        SortedPush(Pops(init), before, n);
      case Pop(v) =>
        assert before == [v] + stk && Pops(log) == Pops(init) + [v] && Pushes(log) == Pushes(init);
        SortedPop(Pops(init), v, stk, n);
      case PopNull =>
        assert Pops(log) == Pops(init) && Pushes(log) == Pushes(init);
    }
  }

  lemma {:induction false} ReplayConserves(log: seq<Op>, stk: seq<int>)
    requires Replay(log) == Stack(stk)
    ensures multiset(Pushes(log)) == multiset(Pops(log)) + multiset(stk)
    decreases |log|
  {
    if log != [] {
      var init, op := log[..|log| - 1], log[|log| - 1];
      ReplayConserves(init, Replay(init).items);
      if op.Pop? {
        assert Replay(init).items == [op.value] + stk;
      }
    }
  }

  // ----- the client invariant -----

  function InFlight(s: State, t: Tid): seq<int> {
    if PcOf(s, t).Popped? then [PayloadAt(s, PcOf(s, t).node)] else []
  }

  function BeingPushed(s: State, t: Tid): seq<int> {
    if Pushing(PcOf(s, t)) then [PayloadAt(s, PcOf(s, t).node)] else []
  }

  function HeldBy(s: State, t: Tid): set<Addr> {
    if Holds(PcOf(s, t)) then {PcOf(s, t).node} else {}
  }

  /** Each thread stays in its own loop. */
  ghost predicate Duties(r: Roles, s: State) {
    && !Popping(PcOf(s, r.producer)) && !PcOf(s, r.producer).Popped? && !PcOf(s, r.producer).Printed?
    && !Pushing(PcOf(s, r.consumer))
    && forall t :: t != r.producer && t != r.consumer ==> PcOf(s, t).Idle?
  }

  /** The logged pushes are 0, 1, 2, ... and the logged pops are what was printed, up to the one
      value each thread may have in hand. */
  ghost predicate LogsOk(r: Roles, s: State) {
    && Pushes(s.log) + BeingPushed(s, r.producer) == Upto(s.mallocs)
    && Pops(s.log) == s.out + InFlight(s, r.consumer)
  }

  /** Every live node is on the stack or in one of the two threads' hands. */
  ghost predicate HeapOk(r: Roles, s: State, c: seq<Addr>) {
    && (forall a :: a in s.heap <==> a in c || a in HeldBy(s, r.producer) || a in HeldBy(s, r.consumer))
    && s.mallocs == s.frees + |s.heap|
  }

  ghost predicate ClientInv(r: Roles, s: State, c: seq<Addr>) {
    Inv(r.Cfg(), s, c) && Duties(r, s) && LogsOk(r, s) && HeapOk(r, s, c)
  }

  lemma DutiesStep(r: Roles, s: State, e: Event)
    requires r.producer != r.consumer && Duties(r, s)
    requires Enabled(r.Cfg(), s, e) && ByMain(r, s, e)
    ensures Duties(r, Next(s, e))
    ensures e.Malloc? || e.LoadForPush? || e.Link? || e.PushCas? ==> e.tid == r.producer
    ensures e.LoadForPop? || e.ReadPrev? || e.PopCas? || e.Print? || e.Free? ==> e.tid == r.consumer
  {
    OthersStay(s, e);
  }

  /** The two held nodes differ and, with their payloads, are left alone by the other thread. */
  ghost predicate HandsOk(r: Roles, s: State, c: seq<Addr>) {
    var p, q := PcOf(s, r.producer), PcOf(s, r.consumer);
    && (Holds(p) ==> p.node in s.heap && p.node !in c)
    && (Holds(q) ==> q.node in s.heap && q.node !in c)
    && (Holds(p) && Holds(q) ==> p.node != q.node)
  }

  lemma ProducerLogs(r: Roles, s: State, c: seq<Addr>, e: Event)
    requires r.producer != r.consumer && e.tid == r.producer && HandsOk(r, s, c) && LogsOk(r, s)
    requires Enabled(r.Cfg(), s, e) && ByMain(r, s, e) && !e.LoadForPop?
    requires Duties(r, s)
    ensures LogsOk(r, Next(s, e))
  {
    hide Pushes, Pops;
    var s' := Next(s, e);
    OthersStay(s, e);
    assert InFlight(s', r.consumer) == InFlight(s, r.consumer);
    if s'.log == s.log {
      assert e.Malloc? || BeingPushed(s', r.producer) == BeingPushed(s, r.producer);
    } else {
      LogSnoc(s.log, Push(PayloadAt(s, PcOf(s, e.tid).node)));
    }
  }

  lemma ConsumerPop(r: Roles, s: State, c: seq<Addr>, e: Event)
    requires r.producer != r.consumer && e.tid == r.consumer && LogsOk(r, s)
    requires Enabled(r.Cfg(), s, e) && e.PopCas? && SeenLive(s, r.consumer)
    ensures LogsOk(r, Next(s, e))
  {
    hide Pushes, Pops, Upto;
    var s' := Next(s, e);
    OthersStay(s, e);
    assert BeingPushed(s', r.producer) == BeingPushed(s, r.producer);
    LogSnoc(s.log, Pop(PayloadAt(s, PcOf(s, e.tid).seen)));
  }

  lemma ConsumerLogs(r: Roles, s: State, c: seq<Addr>, e: Event)
    requires r.producer != r.consumer && e.tid == r.consumer && HandsOk(r, s, c) && LogsOk(r, s)
    requires Enabled(r.Cfg(), s, e) && !e.Malloc? && !e.PopCas? && Duties(r, s)
    ensures LogsOk(r, Next(s, e))
  {
    hide Pushes, Pops, Upto;
    var s' := Next(s, e);
    OthersStay(s, e);
    assert BeingPushed(s', r.producer) == BeingPushed(s, r.producer);
    if e.LoadForPop? {
      LogSnoc(s.log, PopNull);
    }
    assert Pushes(s'.log) == Pushes(s.log) && Pops(s'.log) == Pops(s.log);
    assert s'.out + InFlight(s', r.consumer) == s.out + InFlight(s, r.consumer);
  }

  ghost predicate SeenLive(s: State, t: Tid) {
    PcOf(s, t).PopRead? ==> PcOf(s, t).seen in s.heap
  }

  lemma MapGrows<K, V>(m: map<K, V>, k: K, v: V)
    requires k !in m
    ensures |m[k := v]| == |m| + 1
  {
    assert m[k := v].Keys == m.Keys + {k};
    assert |m[k := v]| == |m[k := v].Keys| && |m| == |m.Keys|;
  }

  lemma ProducerMalloc(r: Roles, s: State, c: seq<Addr>, e: Event)
    requires r.producer != r.consumer && e.tid == r.producer && HeapOk(r, s, c)
    requires Enabled(r.Cfg(), s, e) && e.Malloc?
    ensures HeapOk(r, Next(s, e), c)
  {
    var s' := Next(s, e);
    OthersStay(s, e);
    MapGrows(s.heap, e.addr, Node(e.value, e.junk));
    assert HeldBy(s', r.producer) == {e.addr} && HeldBy(s', r.consumer) == HeldBy(s, r.consumer);
  }

  lemma ProducerHeap(r: Roles, s: State, c: seq<Addr>, e: Event)
    requires r.producer != r.consumer && e.tid == r.producer && HandsOk(r, s, c) && HeapOk(r, s, c)
    requires Enabled(r.Cfg(), s, e) && !e.LoadForPop? && !e.Malloc? && Duties(r, s)
    ensures HeapOk(r, Next(s, e), NextChain(s, e, c))
  {
    var s', c' := Next(s, e), NextChain(s, e, c);
    OthersStay(s, e);
    assert s'.heap.Keys == s.heap.Keys;
    assert |s'.heap| == |s'.heap.Keys| == |s.heap|;
  }

  lemma ConsumerFree(r: Roles, s: State, c: seq<Addr>, e: Event)
    requires r.producer != r.consumer && e.tid == r.consumer && HandsOk(r, s, c) && HeapOk(r, s, c)
    requires Enabled(r.Cfg(), s, e) && e.Free?
    ensures HeapOk(r, Next(s, e), c)
  {
    var s' := Next(s, e);
    OthersStay(s, e);
    assert s'.heap.Keys == s.heap.Keys - {PcOf(s, e.tid).node};
    assert |s'.heap| == |s'.heap.Keys| == |s.heap| - 1;
  }

  lemma ConsumerHeap(r: Roles, s: State, c: seq<Addr>, e: Event)
    requires r.producer != r.consumer && e.tid == r.consumer && HandsOk(r, s, c) && HeapOk(r, s, c)
    requires Enabled(r.Cfg(), s, e) && !e.Malloc? && Duties(r, s) && !e.Free?
    requires Linked(s.heap, s.top, c) && (PcOf(s, r.consumer).PopRead? ==> PcOf(s, r.consumer).seen != NULL)
    ensures HeapOk(r, Next(s, e), NextChain(s, e, c))
  {
    var s', c' := Next(s, e), NextChain(s, e, c);
    OthersStay(s, e);
    if e.PopCas? && PcOf(s', e.tid).Popped? {
      assert c == [c[0]] + c';
    }
  }

  lemma ClientStep(r: Roles, s: State, c: seq<Addr>, e: Event)
    requires ClientInv(r, s, c) && r.producer != r.consumer
    requires Enabled(r.Cfg(), s, e) && ByMain(r, s, e)
    ensures ClientInv(r, Next(s, e), NextChain(s, e, c))
  {
    StepInv(r.Cfg(), s, c, e);
    DutiesStep(r, s, e);
    assert HandsOk(r, s, c);
    if e.tid == r.producer {
      ProducerLogs(r, s, c, e);
      if e.Malloc? {
        ProducerMalloc(r, s, c, e);
      } else {
        ProducerHeap(r, s, c, e);
      }
    } else {
      LinkedLive(s.heap, s.top, c);
      assert SeenLive(s, r.consumer);
      if e.PopCas? {
        ConsumerPop(r, s, c, e);
      } else {
        ConsumerLogs(r, s, c, e);
      }
      if e.Free? {
        ConsumerFree(r, s, c, e);
      } else {
        ConsumerHeap(r, s, c, e);
      }
    }
  }

  lemma {:induction false} MainRunInv(r: Roles, s: State, c: seq<Addr>, es: seq<Event>) returns (c': seq<Addr>)
    requires ClientInv(r, s, c) && r.producer != r.consumer && MainRun(r, s, es)
    ensures ClientInv(r, Exec(s, es), c')
    decreases |es|
  {
    if es == [] {
      c' := c;
    } else {
      ClientStep(r, s, c, es[0]);
      c' := MainRunInv(r, Next(s, es[0]), NextChain(s, es[0], c), es[1..]);
    }
  }

  lemma PrefixAvoids(out: seq<int>, rest: seq<int>)
    requires NoDup(out + rest) && NothingBetween(out + rest)
    ensures Avoids312(out)
  {
    var all := out + rest;
    forall i, j, k | 0 <= i < j < k < |out| ensures !(out[j] < out[k] < out[i]) {
      assert all[i] == out[i] && all[j] == out[j] && all[k] == out[k];
      assert all[k] !in all[..j];
    }
  }

  lemma PrefixUpto(a: seq<int>, b: seq<int>, n: nat)
    requires a + b == Upto(n)
    ensures a == Upto(|a|)
  {
    assert a == Upto(n)[..|a|];
  }

  /** 0 <= x < n is printed, in a thread's hands, or on the stack, each exactly once. */
  ghost predicate Conserved(r: Roles, s: State, c: seq<Addr>) {
    multiset(Upto(s.mallocs)) == multiset(s.out) + multiset(InFlight(s, r.consumer))
      + multiset(Values(s.heap, c)) + multiset(BeingPushed(s, r.producer))
  }

  lemma LogsGiveOutput(r: Roles, s: State, c: seq<Addr>)
    requires StackOk(s, c) && LogsOk(r, s)
    ensures Avoids312(s.out) && Conserved(r, s, c)
  {
    PrefixUpto(Pushes(s.log), BeingPushed(s, r.producer), s.mallocs);
    ReplayIncreasing(s.log, Values(s.heap, c));
    PrefixAvoids(s.out, InFlight(s, r.consumer));
    ReplayConserves(s.log, Values(s.heap, c));
  }

  /** The chain c is the stack, the output has no c, a, b with a < b < c, each value pushed so far
      is printed, in hand or on the stack, and the live nodes are the stack's and those in hand. */
  ghost predicate OutputOk(r: Roles, s: State, c: seq<Addr>) {
    StackOk(s, c) && Avoids312(s.out) && Conserved(r, s, c) && HeapOk(r, s, c)
  }

  lemma MainRunChain(r: Roles, es: seq<Event>) returns (c: seq<Addr>)
    requires r.producer != r.consumer && MainRun(r, INIT, es)
    ensures OutputOk(r, Exec(INIT, es), c)
  {
    InitInv(r.Cfg());
    c := MainRunInv(r, INIT, [], es);
    LogsGiveOutput(r, Exec(INIT, es), c);
  }

  /** In every state of every run of main: the output contains no pattern c, a, b with a < b < c,
      the pushed values are exactly those printed, those in the threads' hands and those on the
      stack, and the live nodes are exactly the nodes not yet freed. */
  lemma MainRunOutput(r: Roles, es: seq<Event>)
    requires r.producer != r.consumer && MainRun(r, INIT, es)
    ensures exists c :: OutputOk(r, Exec(INIT, es), c)
  {
    var c := MainRunChain(r, es);
  }

  lemma ConservedCounts(n: nat, out: seq<int>, stk: seq<int>)
    requires multiset(Upto(n)) == multiset(out) + multiset(stk)
    ensures |out| + |stk| == n
  {
    assert |multiset(Upto(n))| == n;
    assert |multiset(out)| == |out| && |multiset(stk)| == |stk|;
  }

  /** After both joins: the values not printed are on the stack, each once, and the live nodes are
      the stack's; with as many pops as pushes, as in main, nothing is left. */
  ghost predicate EndOk(r: Roles, s: State, c: seq<Addr>) {
    && Avoids312(s.out)
    && multiset(Upto(r.pushes)) == multiset(s.out) + multiset(Values(s.heap, c))
    && Linked(s.heap, s.top, c) && NoDup(c) && (forall a :: a in s.heap <==> a in c)
    && s.mallocs == r.pushes && r.pops + |c| == r.pushes && s.frees + |s.heap| == r.pushes
    && (r.pops == r.pushes ==> s.top == NULL && s.heap == map[] && s.frees == r.pushes)
  }

  lemma JoinedChain(r: Roles, es: seq<Event>) returns (c: seq<Addr>)
    requires r.producer != r.consumer && MainRun(r, INIT, es) && Joined(r, Exec(INIT, es))
    ensures EndOk(r, Exec(INIT, es), c)
  {
    hide Upto, Exec, MainRun;
    c := MainRunChain(r, es);
    var s := Exec(INIT, es);
    assert InFlight(s, r.consumer) == BeingPushed(s, r.producer) == [];
    ConservedCounts(r.pushes, s.out, Values(s.heap, c));
    if c == [] {
      assert s.heap.Keys == {};
    }
  }

  lemma MainRunComplete(r: Roles, es: seq<Event>)
    requires r.producer != r.consumer && MainRun(r, INIT, es) && Joined(r, Exec(INIT, es))
    ensures exists c :: Linked(Exec(INIT, es).heap, Exec(INIT, es).top, c)
    ensures forall c :: Linked(Exec(INIT, es).heap, Exec(INIT, es).top, c) ==> EndOk(r, Exec(INIT, es), c)
  {
    var s := Exec(INIT, es);
    var chain := JoinedChain(r, es);
    forall c | Linked(s.heap, s.top, c) ensures EndOk(r, s, c) {
      LinkedUnique(s.heap, s.top, c, chain);
    }
  }
}
