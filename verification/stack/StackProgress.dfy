/** Lock-freedom: a compare-exchange that fails without being spurious has been overtaken by
    another thread's success, and one success can overtake each other thread only once. */
module StackProgress {
  import opened StackMachine
  import opened StackSafety
  import opened StackTheorems

  predicate IsCas(e: Event) {
    e.PushCas? || e.PopCas?
  }

  /** The thread has loaded top and not yet tried its compare-exchange. */
  predicate Pending(pc: Pc) {
    pc.PushLoaded? || pc.PushLinked? || pc.PopLoaded? || pc.PopRead?
  }

  predicate Succeeds(s: State, e: Event) {
    IsCas(e) && Pending(PcOf(s, e.tid)) && !e.spurious && s.top == PcOf(s, e.tid).seen
  }

  /** The compare-exchange finds a different top. */
  predicate Overtaken(s: State, e: Event) {
    IsCas(e) && Pending(PcOf(s, e.tid)) && s.top != PcOf(s, e.tid).seen
  }

  function Successes(s: State, es: seq<Event>): nat
    decreases |es|
  {
    if es == [] then 0 else (if Succeeds(s, es[0]) then 1 else 0) + Successes(Next(s, es[0]), es[1..])
  }

  function Failures(s: State, es: seq<Event>): nat
    decreases |es|
  {
    if es == [] then 0 else (if Overtaken(s, es[0]) then 1 else 0) + Failures(Next(s, es[0]), es[1..])
  }

  /** The threads whose next compare-exchange is bound to fail as things stand. */
  function Stale(s: State, tids: set<Tid>): set<Tid> {
    set t | t in tids && Pending(PcOf(s, t)) && PcOf(s, t).seen != s.top
  }

  ghost predicate By(es: seq<Event>, tids: set<Tid>) {
    forall i :: 0 <= i < |es| ==> es[i].tid in tids
  }

  /** A success leaves its own thread, at most, without a stale view. */
  lemma SuccessStale(s: State, e: Event, tids: set<Tid>)
    requires e.tid in tids && Succeeds(s, e)
    ensures |Stale(Next(s, e), tids)| <= |tids| - 1
  {
    SubsetSize(Stale(Next(s, e), tids), tids - {e.tid});
  }

  /** A failed compare-exchange ends its thread's stale view, if it had one. */
  lemma FailedCasStale(cfg: Config, s: State, e: Event, tids: set<Tid>)
    requires Enabled(cfg, s, e) && e.tid in tids && IsCas(e) && !Succeeds(s, e)
    ensures |Stale(Next(s, e), tids)| + (if Overtaken(s, e) then 1 else 0) <= |Stale(s, tids)|
  {
    SubsetSize(Stale(Next(s, e), tids), Stale(s, tids) - {e.tid});
  }

  /** Any other event leaves top alone and makes nobody's view stale. */
  lemma OtherStale(cfg: Config, s: State, e: Event, tids: set<Tid>)
    requires Enabled(cfg, s, e) && !IsCas(e)
    ensures |Stale(Next(s, e), tids)| <= |Stale(s, tids)|
  {
    SubsetSize(Stale(Next(s, e), tids), Stale(s, tids));
  }

  lemma StepStale(cfg: Config, s: State, e: Event, tids: set<Tid>)
    requires Enabled(cfg, s, e) && e.tid in tids
    ensures Succeeds(s, e) ==> |Stale(Next(s, e), tids)| <= |tids| - 1
    ensures !Succeeds(s, e) ==> |Stale(Next(s, e), tids)| + (if Overtaken(s, e) then 1 else 0) <= |Stale(s, tids)|
  {
    hide Next, Stale;
    if Succeeds(s, e) {
      SuccessStale(s, e, tids);
    } else if IsCas(e) {
      FailedCasStale(cfg, s, e, tids);
    } else {
      OtherStale(cfg, s, e, tids);
    }
  }

  lemma SubsetSize(a: set<Tid>, b: set<Tid>)
    requires a <= b
    ensures |a| <= |b|
  {
    assert b == a + (b - a);
  }

  /** In every run of n threads, in any configuration, at most n - 1 compare-exchanges are overtaken
      per successful one: the threads cannot keep failing unless some keep succeeding. */
  lemma {:induction false} LockFree(cfg: Config, s: State, es: seq<Event>, tids: set<Tid>)
    requires ValidRun(cfg, s, es) && By(es, tids) && tids != {}
    ensures Failures(s, es) <= |Stale(s, tids)| + (|tids| - 1) * Successes(s, es)
    decreases |es|
  {
    hide Next, Stale;
    if es != [] {
      StepStale(cfg, s, es[0], tids);
      LockFree(cfg, Next(s, es[0]), es[1..], tids);
      OneMore(|tids| - 1, Successes(Next(s, es[0]), es[1..]));
    }
  }

  lemma OneMore(m: int, k: int)
    ensures m * (1 + k) == m + m * k
  {
  }

  /** From the empty stack: failures <= (n - 1) * successes; one thread alone is never overtaken. */
  lemma LockFreeFromStart(cfg: Config, es: seq<Event>, tids: set<Tid>)
    requires ValidRun(cfg, INIT, es) && By(es, tids) && tids != {}
    ensures Failures(INIT, es) <= (|tids| - 1) * Successes(INIT, es)
  {
    LockFree(cfg, INIT, es, tids);
    assert Stale(INIT, tids) == {};
  }

  // ----- a thread left alone finishes, wherever it stands -----

  /** Inside an operation a thread always has a move of its own, and an attempted exchange may
      always fail, whatever top holds and whatever the other threads did. */
  lemma NeverBlocked(cfg: Config, s: State, t: Tid)
    requires !PcOf(s, t).Idle?
    ensures exists e: Event :: e.tid == t && Enabled(cfg, s, e)
    ensures PcOf(s, t).PushLinked? ==> forall lost :: Enabled(cfg, s, PushCas(t, lost))
    ensures PcOf(s, t).PopRead? ==> forall lost :: Enabled(cfg, s, PopCas(t, lost))
    ensures PcOf(s, t).PopLoaded? ==> forall junk :: Enabled(cfg, s, ReadPrev(t, junk))
  {
    var e := match PcOf(s, t)
      case Filled(_) => LoadForPush(t)
      case PushLoaded(_, _) => Link(t)
      case PushLinked(_, _) => PushCas(t, false)
      case PopLoaded(_) => ReadPrev(t, NULL)
      case PopRead(_, _) => PopCas(t, false)
      case Popped(_) => Print(t)
      case _ => Free(t);
    assert e.tid == t && Enabled(cfg, s, e);
  }

  ghost predicate OnlyBy(es: seq<Event>, t: Tid) {
    forall i :: 0 <= i < |es| ==> es[i].tid == t
  }

  /** `es` is a run of thread t alone. */
  ghost predicate Alone(cfg: Config, s: State, t: Tid, es: seq<Event>) {
    ValidRun(cfg, s, es) && OnlyBy(es, t)
  }

  lemma AloneCons(cfg: Config, s: State, t: Tid, e: Event, rest: seq<Event>)
    requires e.tid == t && Enabled(cfg, s, e) && Alone(cfg, Next(s, e), t, rest)
    ensures Alone(cfg, s, t, [e] + rest) && Exec(s, [e] + rest) == Exec(Next(s, e), rest)
  {
    RunCons(cfg, s, e, rest);
  }

  /** s' is s after thread t has put its node on top and logged the push. */
  ghost predicate PushDone(s: State, t: Tid, s': State)
    requires Pushing(PcOf(s, t))
  {
    var node := PcOf(s, t).node;
    s' == s.(top := node, heap := s.heap[node := Node(PayloadAt(s, node), s.top)], pcs := s.pcs[t := Idle],
             log := s.log + [Push(PayloadAt(s, node))])
  }

  /** Wherever a push stands, its view of top stale or not, it is over after at most five steps of
      its own: the write of prev, a failed exchange, the load, the write of prev, an exchange. */
  lemma {:induction false} FinishPush(cfg: Config, s: State, t: Tid) returns (es: seq<Event>)
    requires Pushing(PcOf(s, t)) && PcOf(s, t).node in s.heap
    requires PcOf(s, t).PushLinked? ==> s.heap[PcOf(s, t).node].prev == PcOf(s, t).seen
    ensures Alone(cfg, s, t, es) && PushDone(s, t, Exec(s, es))
    ensures |es| <= PushSteps(s, PcOf(s, t)) <= 5
    decreases PushSteps(s, PcOf(s, t))
  {
    var pc := PcOf(s, t);
    var e := match pc
      case Filled(_) => LoadForPush(t)
      case PushLoaded(_, _) => Link(t)
      case _ => PushCas(t, false);
    if pc.PushLinked? && pc.seen == s.top {
      AloneCons(cfg, s, t, e, []);
      es := [e] + [];
      assert s.heap == s.heap[pc.node := Node(PayloadAt(s, pc.node), s.top)];
    } else {
      var rest := FinishPush(cfg, Next(s, e), t);
      AloneCons(cfg, s, t, e, rest);
      es := [e] + rest;
    }
  }

  /** Steps a push needs if it is left alone. */
  function PushSteps(s: State, pc: Pc): nat {
    match pc
    case Filled(_) => 3
    case PushLoaded(_, seen) => if seen == s.top then 2 else 5
    case PushLinked(_, seen) => if seen == s.top then 1 else 4
    case _ => 0
  }

  /** s' is s after thread t has popped the top node, or found no node at all. */
  ghost predicate PopDone(s: State, t: Tid, s': State) {
    if s.top == NULL then
      && s' == s.(pcs := s'.pcs, log := s.log + [PopNull])
      && forall u :: PcOf(s', u) == if u == t then Idle else PcOf(s, u)
    else
      s.top in s.heap
      && s' == s.(top := s.heap[s.top].prev, pcs := s.pcs[t := Popped(s.top)],
                  log := s.log + [Pop(s.heap[s.top].payload)])
  }

  /** Likewise a pop: from wherever it stands it takes the top node, or finds the stack empty. */
  lemma {:induction false} FinishPop(cfg: Config, s: State, t: Tid) returns (es: seq<Event>)
    requires t in cfg.poppers && (PcOf(s, t).Idle? || Popping(PcOf(s, t)))
    requires s.top == NULL || s.top in s.heap
    requires Popping(PcOf(s, t)) ==> PcOf(s, t).seen != NULL
    requires PcOf(s, t).PopRead? && PcOf(s, t).seen == s.top ==> PcOf(s, t).next == s.heap[s.top].prev
    ensures Alone(cfg, s, t, es) && PopDone(s, t, Exec(s, es))
    ensures |es| <= PopSteps(s, PcOf(s, t)) <= 5
    decreases PopSteps(s, PcOf(s, t))
  {
    var pc := PcOf(s, t);
    var e := match pc
      case PopLoaded(_) => ReadPrev(t, NULL)
      case PopRead(_, _) => PopCas(t, false)
      case _ => LoadForPop(t);
    if (pc.PopRead? && pc.seen == s.top) || (pc.Idle? && s.top == NULL) {
      AloneCons(cfg, s, t, e, []);
      es := [e] + [];
    } else {
      var rest := FinishPop(cfg, Next(s, e), t);
      AloneCons(cfg, s, t, e, rest);
      es := [e] + rest;
    }
  }

  function PopSteps(s: State, pc: Pc): nat {
    match pc
    case Idle => 3
    case PopLoaded(seen) => if seen == s.top then 2 else 5
    case PopRead(seen, _) => if seen == s.top then 1 else 4
    case _ => 0
  }

  ghost predicate CanFinishPush(cfg: Config, s: State, t: Tid) {
    exists es :: Pushing(PcOf(s, t)) && |es| <= 5 && Alone(cfg, s, t, es) && PushDone(s, t, Exec(s, es))
  }

  ghost predicate CanFinishPop(cfg: Config, s: State, t: Tid) {
    exists es :: |es| <= 5 && Alone(cfg, s, t, es) && PopDone(s, t, Exec(s, es))
  }

  /** Obstruction freedom: in every state of every run of a safe configuration, a thread inside
      stack_push left alone pushes its node, and a thread inside stack_pop left alone pops the top
      node or finds the stack empty, however many exchanges it has lost before. */
  lemma ObstructionFree(cfg: Config, es: seq<Event>, t: Tid)
    requires Safe(cfg) && ValidRun(cfg, INIT, es)
    ensures Pushing(PcOf(Exec(INIT, es), t)) ==> CanFinishPush(cfg, Exec(INIT, es), t)
    ensures Popping(PcOf(Exec(INIT, es), t)) ==> CanFinishPop(cfg, Exec(INIT, es), t)
  {
    InitInv(cfg);
    var c := RunInv(cfg, INIT, [], es);
    var s := Exec(INIT, es);
    hide ValidRun, Exec, Replay;
    FinishableHere(cfg, s, c, t);
    if Pushing(PcOf(s, t)) {
      var rest := FinishPush(cfg, s, t);
    }
    if Popping(PcOf(s, t)) {
      var rest := FinishPop(cfg, s, t);
    }
  }

  lemma FinishableHere(cfg: Config, s: State, c: seq<Addr>, t: Tid)
    requires Inv(cfg, s, c)
    ensures s.top == NULL || s.top in s.heap
    ensures Pushing(PcOf(s, t)) ==> PcOf(s, t).node in s.heap
    ensures PcOf(s, t).PushLinked? ==> s.heap[PcOf(s, t).node].prev == PcOf(s, t).seen
    ensures Popping(PcOf(s, t)) ==> t in cfg.poppers && PcOf(s, t).seen != NULL
    ensures PcOf(s, t).PopRead? && PcOf(s, t).seen == s.top ==> PcOf(s, t).next == s.heap[s.top].prev
  {
    hide Replay;
    LinkedLive(s.heap, s.top, c);
    assert s.top != NULL ==> c[0] in c;
  }
}
