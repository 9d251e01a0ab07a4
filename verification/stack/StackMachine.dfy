/** The lock-free stack as a transition system: one event is one atomic action of one thread,
    and a run is any interleaving of events.  The kernel and the allocator are adversaries:
    they choose the addresses malloc returns, the spurious failures of the weak
    compare-exchange, and what a read of freed memory yields. */
module StackMachine {

  type Tid = nat
  type Addr = nat

  const NULL: Addr := 0

  datatype Node = Node(payload: int, prev: Addr)

  /** Where a thread stands inside stack_push, stack_pop or the consumer's loop body. */
  datatype Pc =
    | Idle
    | Filled(node: Addr)                     // push: node allocated, payload written
    | PushLoaded(node: Addr, seen: Addr)     // push: top loaded
    | PushLinked(node: Addr, seen: Addr)     // push: node->prev written, CAS is next
    | PopLoaded(seen: Addr)                  // pop: non-null top loaded
    | PopRead(seen: Addr, next: Addr)        // pop: top->prev read, CAS is next
    | Popped(node: Addr)                     // consumer: stack_pop returned node
    | Printed(node: Addr)                    // consumer: payload printed, free is next

  /** The operations of the atomic stack that the machine is compared with. */
  datatype Op = Push(value: int) | Pop(value: int) | PopNull

  datatype Event =
    | Malloc(tid: Tid, addr: Addr, value: int, junk: Addr)
    | LoadForPush(tid: Tid)
    | Link(tid: Tid)
    | PushCas(tid: Tid, spurious: bool)
    | LoadForPop(tid: Tid)
    | ReadPrev(tid: Tid, junk: Addr)
    | PopCas(tid: Tid, spurious: bool)
    | Print(tid: Tid)
    | Free(tid: Tid)

  /** Any thread may push; only `poppers` pop.  `reuse` says whether malloc may hand out an
      address that was freed before. */
  datatype Config = Config(poppers: set<Tid>, reuse: bool) {
    ghost predicate SinglePopper() {
      forall p, q :: p in poppers && q in poppers ==> p == q
    }
  }

  /** `heap` holds the live nodes; `used`, `mallocs`, `frees`, `log` and `out` only record
      what happened: addresses ever returned by malloc, the calls of malloc and free, the
      linearised operations, and the printed payloads. */
  datatype State = State(
    top: Addr,
    heap: map<Addr, Node>,
    pcs: map<Tid, Pc>,
    used: set<Addr>,
    mallocs: nat,
    frees: nat,
    log: seq<Op>,
    out: seq<int>)

  const INIT: State := State(NULL, map[], map[], {}, 0, 0, [], [])

  function PcOf(s: State, t: Tid): Pc {
    if t in s.pcs then s.pcs[t] else Idle
  }

  predicate Pushing(pc: Pc) {
    pc.Filled? || pc.PushLoaded? || pc.PushLinked?
  }

  predicate Holds(pc: Pc) {
    Pushing(pc) || pc.Popped? || pc.Printed?
  }

  predicate Popping(pc: Pc) {
    pc.PopLoaded? || pc.PopRead?
  }

  function PayloadAt(s: State, a: Addr): int {
    if a in s.heap then s.heap[a].payload else 0
  }

  predicate Enabled(cfg: Config, s: State, e: Event) {
    var pc := PcOf(s, e.tid);
    match e
    case Malloc(_, a, _, _) =>
      pc.Idle? && a != NULL && a !in s.heap && (a in s.used ==> cfg.reuse)
    case LoadForPush(_) => pc.Filled?
    case Link(_) => pc.PushLoaded?
    case PushCas(_, _) => pc.PushLinked?
    case LoadForPop(_) => pc.Idle? && e.tid in cfg.poppers
    case ReadPrev(_, _) => pc.PopLoaded?
    case PopCas(_, _) => pc.PopRead?
    case Print(_) => pc.Popped?
    case Free(_) => pc.Printed?
  }

  function Next(s: State, e: Event): State {
    var t := e.tid;
    var pc := PcOf(s, t);
    match e
    case Malloc(_, a, v, junk) =>
      s.(heap := s.heap[a := Node(v, junk)], pcs := s.pcs[t := Filled(a)],
         used := s.used + {a}, mallocs := s.mallocs + 1)
    case LoadForPush(_) =>
      if !pc.Filled? then s else
      s.(pcs := s.pcs[t := PushLoaded(pc.node, s.top)])
    case Link(_) =>
      if !pc.PushLoaded? then s else
      s.(heap := s.heap[pc.node := Node(PayloadAt(s, pc.node), pc.seen)],
         pcs := s.pcs[t := PushLinked(pc.node, pc.seen)])
    case PushCas(_, spurious) =>
      if !pc.PushLinked? then s else
      if !spurious && s.top == pc.seen then
        s.(top := pc.node, pcs := s.pcs[t := Idle], log := s.log + [Push(PayloadAt(s, pc.node))])
      else
        s.(pcs := s.pcs[t := Filled(pc.node)])
    case LoadForPop(_) =>
      if s.top == NULL then s.(log := s.log + [PopNull])
      else s.(pcs := s.pcs[t := PopLoaded(s.top)])
    case ReadPrev(_, junk) =>
      if !pc.PopLoaded? then s else
      var next := if pc.seen in s.heap then s.heap[pc.seen].prev else junk;
      s.(pcs := s.pcs[t := PopRead(pc.seen, next)])
    case PopCas(_, spurious) =>
      if !pc.PopRead? then s else
      if !spurious && s.top == pc.seen then
        s.(top := pc.next, pcs := s.pcs[t := Popped(pc.seen)],
           log := s.log + [Pop(PayloadAt(s, pc.seen))])
      else
        s.(pcs := s.pcs[t := Idle])
    case Print(_) =>
      if !pc.Popped? then s else
      s.(pcs := s.pcs[t := Printed(pc.node)], out := s.out + [PayloadAt(s, pc.node)])
    case Free(_) =>
      if !pc.Printed? then s else
      s.(heap := s.heap - {pc.node}, pcs := s.pcs[t := Idle], frees := s.frees + 1)
  }

  /** `es` is a run from `s`: every event is enabled where it happens. */
  predicate ValidRun(cfg: Config, s: State, es: seq<Event>)
    decreases |es|
  {
    es == [] || (Enabled(cfg, s, es[0]) && ValidRun(cfg, Next(s, es[0]), es[1..]))
  }

  function Exec(s: State, es: seq<Event>): State
    decreases |es|
  {
    if es == [] then s else Exec(Next(s, es[0]), es[1..])
  }

  /** The node an event dereferences or passes to free, NULL for none. */
  function Touches(s: State, e: Event): Addr {
    var pc := PcOf(s, e.tid);
    match e
    case Link(_) => if pc.PushLoaded? then pc.node else NULL
    case ReadPrev(_, _) => if pc.PopLoaded? then pc.seen else NULL
    case Print(_) => if pc.Popped? then pc.node else NULL
    case Free(_) => if pc.Printed? then pc.node else NULL
    case _ => NULL
  }

  lemma RunCons(cfg: Config, s: State, e: Event, rest: seq<Event>)
    ensures ValidRun(cfg, s, [e] + rest) == (Enabled(cfg, s, e) && ValidRun(cfg, Next(s, e), rest))
    ensures Exec(s, [e] + rest) == Exec(Next(s, e), rest)
  {
    assert ([e] + rest)[1..] == rest;
  }

  lemma {:induction false} RunConcat(cfg: Config, s: State, xs: seq<Event>, ys: seq<Event>)
    requires ValidRun(cfg, s, xs) && ValidRun(cfg, Exec(s, xs), ys)
    ensures ValidRun(cfg, s, xs + ys) && Exec(s, xs + ys) == Exec(Exec(s, xs), ys)
    decreases |xs|
  {
    if xs == [] {
      assert xs + ys == ys;
    } else {
      RunConcat(cfg, Next(s, xs[0]), xs[1..], ys);
      assert (xs + ys)[1..] == xs[1..] + ys;
    }
  }

  // ----- the abstract stack, top first -----

  datatype Replayed = Stuck | Stack(items: seq<int>)

  function Apply(items: seq<int>, op: Op): Replayed {
    match op
    case Push(v) => Stack([v] + items)
    case Pop(v) => if items != [] && items[0] == v then Stack(items[1..]) else Stuck
    case PopNull => if items == [] then Stack([]) else Stuck
  }

  /** Runs the logged operations on an empty atomic stack; Stuck if a pop returns anything
      but the head, or a null result meets a non-empty stack. */
  function Replay(log: seq<Op>): Replayed {
    if log == [] then Stack([])
    else match Replay(log[..|log| - 1])
      case Stuck => Stuck
      case Stack(items) => Apply(items, log[|log| - 1])
  }

  lemma ReplaySnoc(log: seq<Op>, op: Op)
    ensures Replay(log + [op]) ==
            (match Replay(log) case Stuck => Stuck case Stack(items) => Apply(items, op))
  {
    assert (log + [op])[..|log|] == log;
  }

  // ----- the linked chain in the heap -----

  /** Following prev from `a` visits exactly the live nodes `c`, in order, and ends at NULL. */
  ghost predicate Linked(heap: map<Addr, Node>, a: Addr, c: seq<Addr>)
    decreases |c|
  {
    if c == [] then a == NULL
    else a != NULL && a == c[0] && a in heap && Linked(heap, heap[a].prev, c[1..])
  }

  ghost predicate NoDup<T>(c: seq<T>) {
    forall i, j :: 0 <= i < j < |c| ==> c[i] != c[j]
  }

  ghost function Values(heap: map<Addr, Node>, c: seq<Addr>): seq<int> {
    seq(|c|, i requires 0 <= i < |c| => if c[i] in heap then heap[c[i]].payload else 0)
  }

  lemma LinkedCons(h: map<Addr, Node>, a: Addr, c: seq<Addr>)
    requires a != NULL && a in h
    ensures Linked(h, a, [a] + c) <==> Linked(h, h[a].prev, c)
    ensures Values(h, [a] + c) == [h[a].payload] + Values(h, c)
  {
    assert ([a] + c)[1..] == c;
  }

  lemma {:induction false} LinkedFrame(h: map<Addr, Node>, h': map<Addr, Node>, a: Addr, c: seq<Addr>)
    requires Linked(h, a, c)
    requires forall x :: x in c && x in h ==> x in h' && h'[x] == h[x]
    ensures Linked(h', a, c) && Values(h', c) == Values(h, c)
    decreases |c|
  {
    LinkedLive(h, a, c);
    if c != [] {
      assert c[0] in c;
      LinkedFrame(h, h', h[a].prev, c[1..]);
    }
  }

  lemma {:induction false} LinkedLive(h: map<Addr, Node>, a: Addr, c: seq<Addr>)
    requires Linked(h, a, c)
    ensures forall x :: x in c ==> x in h && x != NULL
    decreases |c|
  {
    if c != [] {
      LinkedLive(h, h[a].prev, c[1..]);
      assert c == [c[0]] + c[1..];
    }
  }

  /** The heap and the top pointer determine the chain: there is at most one. */
  lemma {:induction false} LinkedUnique(h: map<Addr, Node>, a: Addr, c: seq<Addr>, d: seq<Addr>)
    requires Linked(h, a, c) && Linked(h, a, d)
    ensures c == d
    decreases |c|
  {
    if c != [] && d != [] {
      LinkedUnique(h, h[a].prev, c[1..], d[1..]);
      assert c == [c[0]] + c[1..] && d == [d[0]] + d[1..];
    }
  }
}
