/** Linearizability and memory safety over every run, and exactly when they hold. */
module StackTheorems {
  import opened StackMachine
  import opened StackSafety

  /** Every run from the empty stack, its operations taken at the instants they are logged (the
      successful compare-exchange, or the load that finds NULL), is a run of one atomic stack. */
  ghost predicate Linearizable(cfg: Config) {
    forall es :: ValidRun(cfg, INIT, es) ==> Replay(Exec(INIT, es).log) != Stuck
  }

  /** Much weaker: the operations of every run are legal on one atomic stack in some order at all,
      even one that contradicts real time and the order within each thread. */
  ghost predicate Reorderable(cfg: Config) {
    forall es :: ValidRun(cfg, INIT, es) ==> LegalInSomeOrder(Exec(INIT, es).log)
  }

  ghost predicate LegalInSomeOrder(log: seq<Op>) {
    exists h :: multiset(h) == multiset(log) && Replay(h) != Stuck
  }

  /** Some acyclic chain of live nodes from top is the whole stack and equals the abstract one. */
  ghost predicate Intact(s: State) {
    exists c :: StackOk(s, c)
  }

  ghost predicate AlwaysIntact(cfg: Config) {
    forall es :: ValidRun(cfg, INIT, es) ==> Intact(Exec(INIT, es))
  }

  /** No run dereferences, writes or frees a node that is not live. */
  ghost predicate NeverTouchesFreed(cfg: Config) {
    forall es, e :: ValidRun(cfg, INIT, es) && Enabled(cfg, Exec(INIT, es), e) ==>
      Touches(Exec(INIT, es), e) == NULL || Touches(Exec(INIT, es), e) in Exec(INIT, es).heap
  }

  lemma {:induction false} RunInv(cfg: Config, s: State, c: seq<Addr>, es: seq<Event>) returns (c': seq<Addr>)
    requires Inv(cfg, s, c) && ValidRun(cfg, s, es)
    ensures Inv(cfg, Exec(s, es), c')
    decreases |es|
  {
    if es == [] {
      c' := c;
    } else {
      StepInv(cfg, s, c, es[0]);
      c' := RunInv(cfg, Next(s, es[0]), NextChain(s, es[0], c), es[1..]);
    }
  }

  /** What one event does to the stack's contents: a successful compare-exchange pushes or pops
      one value, everything else, a spurious failure included, changes nothing. */
  lemma StepRefines(cfg: Config, s: State, c: seq<Addr>, e: Event)
    requires Inv(cfg, s, c) && Enabled(cfg, s, e)
    ensures var s', c' := Next(s, e), NextChain(s, e, c);
      var before, after := Values(s.heap, c), Values(s'.heap, c');
      && StackOk(s', c')
      && (if e.PushCas? && !e.spurious && s.top == PcOf(s, e.tid).seen then
            after == [PayloadAt(s, PcOf(s, e.tid).node)] + before && PcOf(s', e.tid).Idle?
          else if e.PopCas? && !e.spurious && s.top == PcOf(s, e.tid).seen then
            before == [PayloadAt(s', PcOf(s', e.tid).node)] + after && PcOf(s', e.tid).Popped?
          else
            after == before && s'.top == s.top)
  {
    StepInv(cfg, s, c, e);
    hide Replay;
    LinkedLive(s.heap, s.top, c);
    var s' := Next(s, e);
    if e.PushCas? {
    } else if e.PopCas? && !e.spurious && s.top == PcOf(s, e.tid).seen {
      assert c == [c[0]] + c[1..];
    } else {
      LinkedFrame(s.heap, s'.heap, s.top, c);
    }
  }

  lemma SafeIsLinearizable(cfg: Config)
    requires Safe(cfg)
    ensures Linearizable(cfg) && AlwaysIntact(cfg)
  {
    InitInv(cfg);
    forall es | ValidRun(cfg, INIT, es) ensures Intact(Exec(INIT, es)) && Replay(Exec(INIT, es).log) != Stuck {
      var c := RunInv(cfg, INIT, [], es);
    }
  }

  lemma SinglePopperNeverTouchesFreed(cfg: Config)
    requires cfg.SinglePopper()
    ensures NeverTouchesFreed(cfg)
  {
    InitInv(cfg);
    forall es, e | ValidRun(cfg, INIT, es) && Enabled(cfg, Exec(INIT, es), e)
      ensures Touches(Exec(INIT, es), e) == NULL || Touches(Exec(INIT, es), e) in Exec(INIT, es).heap
    {
      var c := RunInv(cfg, INIT, [], es);
    }
  }

  /** In both safe regimes reading a loaded top's prev is the only access that can meet a freed
      node: linking, printing and freeing always find theirs live. */
  lemma OnlyReadPrevMeetsFreed(cfg: Config, es: seq<Event>, e: Event)
    requires Safe(cfg) && ValidRun(cfg, INIT, es) && Enabled(cfg, Exec(INIT, es), e) && !e.ReadPrev?
    ensures Touches(Exec(INIT, es), e) == NULL || Touches(Exec(INIT, es), e) in Exec(INIT, es).heap
  {
    InitInv(cfg);
    var c := RunInv(cfg, INIT, [], es);
  }

  // ----- histories that are legal in no order -----

  function Gain(op: Op): int {
    match op
    case Push(_) => 1
    case Pop(_) => -1
    case PopNull => 0
  }

  /** Pushes minus pops. */
  function Net(log: seq<Op>): int {
    if log == [] then 0 else Net(log[..|log| - 1]) + Gain(log[|log| - 1])
  }

  lemma NetSnoc(log: seq<Op>, op: Op)
    ensures Net(log + [op]) == Net(log) + Gain(op)
  {
    assert (log + [op])[..|log|] == log;
  }

  lemma {:induction false} NetConcat(xs: seq<Op>, ys: seq<Op>)
    ensures Net(xs + ys) == Net(xs) + Net(ys)
    decreases |ys|
  {
    if ys == [] {
      assert xs + ys == xs;
    } else {
      var n := |ys| - 1;
      assert xs + ys == (xs + ys[..n]) + [ys[n]];
      NetSnoc(xs + ys[..n], ys[n]);
      NetConcat(xs, ys[..n]);
    }
  }

  function Without(ops: seq<Op>, i: nat): seq<Op>
    requires i < |ops|
  {
    ops[..i] + ops[i + 1..]
  }

  lemma BagWithout(ops: seq<Op>, i: nat)
    requires i < |ops|
    ensures multiset(Without(ops, i)) == multiset(ops) - multiset{ops[i]}
  {
    assert ops == ops[..i] + [ops[i]] + ops[i + 1..];
  }

  lemma NetWithout(ops: seq<Op>, i: nat)
    requires i < |ops|
    ensures Net(Without(ops, i)) == Net(ops) - Gain(ops[i])
  {
    hide Net;
    var before, after := ops[..i], ops[i + 1..];
    assert ops == (before + [ops[i]]) + after;
    NetSnoc(before, ops[i]);
    NetConcat(before + [ops[i]], after);
    NetConcat(before, after);
  }

  lemma {:induction false} NetOfReordering(xs: seq<Op>, ys: seq<Op>)
    requires multiset(xs) == multiset(ys)
    ensures Net(xs) == Net(ys)
    decreases |xs|
  {
    assert |multiset(xs)| == |xs| && |multiset(ys)| == |ys|;
    if xs != [] {
      hide Net;
      var op := xs[0];
      assert op in multiset(xs);
      var i :| 0 <= i < |ys| && ys[i] == op;
      NetWithout(xs, 0);
      NetWithout(ys, i);
      BagWithout(xs, 0);
      BagWithout(ys, i);
      NetOfReordering(Without(xs, 0), Without(ys, i));
    }
  }

  /** A legal history leaves its pushes minus its pops on the stack. */
  lemma {:induction false} NetIsHeight(log: seq<Op>)
    requires Replay(log) != Stuck
    ensures Net(log) == |Replay(log).items|
    decreases |log|
  {
    if log != [] {
      NetIsHeight(log[..|log| - 1]);
    }
  }

  lemma NoOrderIsLegal(log: seq<Op>)
    requires Net(log) < 0
    ensures !LegalInSomeOrder(log)
  {
    if LegalInSomeOrder(log) {
      var h :| multiset(h) == multiset(log) && Replay(h) != Stuck;
      NetOfReordering(h, log);
      NetIsHeight(h);
    }
  }

  // ----- uninterrupted operations, the pieces the two counterexample runs are made of -----

  /** `junk` is what the prev field holds when malloc returns. */
  function PushRun(t: Tid, a: Addr, v: int, junk: Addr): seq<Event> {
    [Malloc(t, a, v, junk), LoadForPush(t), Link(t), PushCas(t, false)]
  }

  function PopRun(t: Tid): seq<Event> {
    [LoadForPop(t), ReadPrev(t, NULL), PopCas(t, false), Print(t), Free(t)]
  }

  lemma SoloPush(cfg: Config, s: State, t: Tid, a: Addr, v: int, junk: Addr)
    requires PcOf(s, t).Idle? && a != NULL && a !in s.heap && (a in s.used ==> cfg.reuse)
    ensures ValidRun(cfg, s, PushRun(t, a, v, junk))
    ensures Exec(s, PushRun(t, a, v, junk)) ==
            s.(top := a, heap := s.heap[a := Node(v, s.top)], pcs := s.pcs[t := Idle],
               used := s.used + {a}, mallocs := s.mallocs + 1, log := s.log + [Push(v)])
  {
    var es := PushRun(t, a, v, junk);
    var s1 := Next(s, es[0]);
    var s2 := Next(s1, es[1]);
    var s3 := Next(s2, es[2]);
    RunCons(cfg, s3, es[3], []);
    RunCons(cfg, s2, es[2], [es[3]]);
    RunCons(cfg, s1, es[1], [es[2], es[3]]);
    RunCons(cfg, s, es[0], [es[1], es[2], es[3]]);
    assert es == [es[0]] + [es[1], es[2], es[3]];
    assert Next(s3, es[3]).pcs == s.pcs[t := Idle];
    assert Next(s3, es[3]).heap == s.heap[a := Node(v, s.top)];
  }

  lemma SoloPop(cfg: Config, s: State, t: Tid)
    requires PcOf(s, t).Idle? && t in cfg.poppers && s.top != NULL && s.top in s.heap
    ensures ValidRun(cfg, s, PopRun(t))
    ensures Exec(s, PopRun(t)) ==
            s.(top := s.heap[s.top].prev, heap := s.heap - {s.top}, pcs := s.pcs[t := Idle],
               frees := s.frees + 1, log := s.log + [Pop(s.heap[s.top].payload)],
               out := s.out + [s.heap[s.top].payload])
  {
    var es := PopRun(t);
    var n := s.heap[s.top];
    var s1 := Next(s, es[0]);
    var s2 := Next(s1, es[1]);
    assert s2 == s.(pcs := s.pcs[t := PopRead(s.top, n.prev)]);
    var s3 := Next(s2, es[2]);
    assert s3 == s.(top := n.prev, pcs := s.pcs[t := Popped(s.top)], log := s.log + [Pop(n.payload)]);
    var s4 := Next(s3, es[3]);
    RunCons(cfg, s4, es[4], []);
    RunCons(cfg, s3, es[3], [es[4]]);
    RunCons(cfg, s2, es[2], [es[3], es[4]]);
    RunCons(cfg, s1, es[1], [es[2], es[3], es[4]]);
    RunCons(cfg, s, es[0], [es[1], es[2], es[3], es[4]]);
    assert es == [es[0]] + [es[1], es[2], es[3], es[4]];
    assert Next(s4, es[4]).pcs == s.pcs[t := Idle];
  }

  /** The state after q pushed 1 then 2 and p stopped between reading top->prev and its CAS. */
  ghost predicate Paused(s: State, p: Tid, q: Tid) {
    && s.top == 2 && s.heap == map[1 := Node(10, NULL), 2 := Node(20, 1)]
    && PcOf(s, p) == PopRead(2, 1) && PcOf(s, q).Idle?
  }

  lemma PausedRun(cfg: Config, p: Tid, q: Tid) returns (es: seq<Event>)
    requires p in cfg.poppers && q in cfg.poppers && p != q
    ensures ValidRun(cfg, INIT, es) && Paused(Exec(INIT, es), p, q) && Net(Exec(INIT, es).log) == 2
  {
    var xs := PushRun(q, 1, 10, NULL);
    SoloPush(cfg, INIT, q, 1, 10, NULL);
    var s1 := Exec(INIT, xs);
    SoloPush(cfg, s1, q, 2, 20, NULL);
    RunConcat(cfg, INIT, xs, PushRun(q, 2, 20, NULL));
    xs := xs + PushRun(q, 2, 20, NULL);
    var s2 := Exec(INIT, xs);
    var pause := [LoadForPop(p), ReadPrev(p, NULL)];
    RunCons(cfg, Next(s2, pause[0]), pause[1], []);
    RunCons(cfg, s2, pause[0], [pause[1]]);
    assert pause == [pause[0]] + [pause[1]];
    RunConcat(cfg, INIT, xs, pause);
    es := xs + pause;
    NetSnoc([], Push(10));
    NetSnoc([Push(10)], Push(20));
  }

  /** While p is paused, q pops both nodes and pushes a new one at the recycled address 2;
      then p's compare-exchange succeeds and top is left on the freed node 1. */
  lemma AbaFinish(cfg: Config, s: State, p: Tid, q: Tid) returns (es: seq<Event>)
    requires p in cfg.poppers && q in cfg.poppers && p != q && cfg.reuse && Paused(s, p, q)
    ensures ValidRun(cfg, s, es)
    ensures var s' := Exec(s, es);
      && s'.top == 1 && 1 !in s'.heap && PcOf(s', q).Idle?
      && Net(s'.log) == Net(s.log) - 2
  {
    hide Net;
    SoloPop(cfg, s, q);
    var s1 := Exec(s, PopRun(q));
    SoloPop(cfg, s1, q);
    var s2 := Exec(s1, PopRun(q));
    SoloPush(cfg, s2, q, 2, 30, NULL);
    var s3 := Exec(s2, PushRun(q, 2, 30, NULL));
    RunCons(cfg, s3, PopCas(p, false), []);
    var cas := [PopCas(p, false)] + [];
    RunConcat(cfg, s2, PushRun(q, 2, 30, NULL), cas);
    RunConcat(cfg, s1, PopRun(q), PushRun(q, 2, 30, NULL) + cas);
    RunConcat(cfg, s, PopRun(q), PopRun(q) + (PushRun(q, 2, 30, NULL) + cas));
    es := PopRun(q) + (PopRun(q) + (PushRun(q, 2, 30, NULL) + cas));
    NetSnoc(s.log, Pop(20));
    NetSnoc(s1.log, Pop(10));
    NetSnoc(s2.log, Push(30));
    NetSnoc(s3.log, Pop(30));
  }

  /** The A-B-A run: with two poppers and address reuse a run ends with top on a freed node. */
  lemma AbaRun(cfg: Config, p: Tid, q: Tid) returns (es: seq<Event>)
    requires p in cfg.poppers && q in cfg.poppers && p != q && cfg.reuse
    ensures ValidRun(cfg, INIT, es)
    ensures var s := Exec(INIT, es); !Intact(s) && s.top == 1 && PcOf(s, q).Idle? && Net(s.log) == 0
  {
    var xs := PausedRun(cfg, p, q);
    var ys := AbaFinish(cfg, Exec(INIT, xs), p, q);
    RunConcat(cfg, INIT, xs, ys);
    es := xs + ys;
  }

  /** One more pop takes the freed node a second time: three nodes were pushed and four popped. */
  lemma AbaPopsTooMuch(cfg: Config, p: Tid, q: Tid) returns (es: seq<Event>)
    requires p in cfg.poppers && q in cfg.poppers && p != q && cfg.reuse
    ensures ValidRun(cfg, INIT, es) && Net(Exec(INIT, es).log) < 0
  {
    hide Net;
    var xs := AbaRun(cfg, p, q);
    var s := Exec(INIT, xs);
    var again := [LoadForPop(q), ReadPrev(q, NULL), PopCas(q, false)];
    var s1 := Next(s, again[0]);
    var s2 := Next(s1, again[1]);
    RunCons(cfg, s2, again[2], []);
    RunCons(cfg, s1, again[1], [again[2]]);
    RunCons(cfg, s, again[0], [again[1], again[2]]);
    assert again == [again[0]] + [again[1], again[2]];
    RunConcat(cfg, INIT, xs, again);
    NetSnoc(s.log, Pop(PayloadAt(s, s.top)));
    es := xs + again;
  }

  /** Two poppers suffice to read a freed node, even if malloc never recycles an address. */
  lemma TouchesFreedRun(cfg: Config, p: Tid, q: Tid) returns (es: seq<Event>)
    requires p in cfg.poppers && q in cfg.poppers && p != q
    ensures ValidRun(cfg, INIT, es)
    ensures var s, e := Exec(INIT, es), ReadPrev(p, NULL);
      Enabled(cfg, s, e) && Touches(s, e) != NULL && Touches(s, e) !in s.heap
  {
    SoloPush(cfg, INIT, q, 1, 10, NULL);
    var s1 := Exec(INIT, PushRun(q, 1, 10, NULL));
    var s2 := Next(s1, LoadForPop(p));
    SoloPop(cfg, s2, q);
    RunCons(cfg, s1, LoadForPop(p), PopRun(q));
    RunConcat(cfg, INIT, PushRun(q, 1, 10, NULL), [LoadForPop(p)] + PopRun(q));
    es := PushRun(q, 1, 10, NULL) + ([LoadForPop(p)] + PopRun(q));
  }

  /** The stack is linearizable under exactly two regimes: one popper, whatever malloc does, or
      any number of poppers and no address reuse.  Outside them no choice of linearization points
      helps: some run is legal in no order at all. */
  lemma LinearizableIff(cfg: Config)
    ensures Linearizable(cfg) <==> (cfg.SinglePopper() || !cfg.reuse)
    ensures Reorderable(cfg) <==> (cfg.SinglePopper() || !cfg.reuse)
  {
    if Safe(cfg) {
      SafeIsLinearizable(cfg);
    } else {
      var p, q :| p in cfg.poppers && q in cfg.poppers && p != q;
      var es := AbaPopsTooMuch(cfg, p, q);
      NoOrderIsLegal(Exec(INIT, es).log);
    }
  }

  /** The heap holds the abstract stack, in all runs, under the same two regimes. */
  lemma AlwaysIntactIff(cfg: Config)
    ensures AlwaysIntact(cfg) <==> (cfg.SinglePopper() || !cfg.reuse)
  {
    if Safe(cfg) {
      SafeIsLinearizable(cfg);
    } else {
      var p, q :| p in cfg.poppers && q in cfg.poppers && p != q;
      var es := AbaRun(cfg, p, q);
    }
  }

  /** No freed node is ever touched exactly when at most one thread pops. */
  lemma NeverTouchesFreedIff(cfg: Config)
    ensures NeverTouchesFreed(cfg) <==> cfg.SinglePopper()
  {
    if cfg.SinglePopper() {
      SinglePopperNeverTouchesFreed(cfg);
    } else {
      var p, q :| p in cfg.poppers && q in cfg.poppers && p != q;
      var es := TouchesFreedRun(cfg, p, q);
      assert Enabled(cfg, Exec(INIT, es), ReadPrev(p, NULL));
    }
  }
}
