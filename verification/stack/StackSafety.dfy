/** The invariant behind the stack's correctness, and its preservation by every event. */
module StackSafety {
  import opened StackMachine

  /** At most one popper, or no address is ever handed out twice. */
  ghost predicate Safe(cfg: Config) {
    cfg.SinglePopper() || !cfg.reuse
  }

  /** What a popper knows about the top it loaded.  Either the node is still on the stack with
      the same link, or another popper took it and its address can never come back. */
  ghost predicate SeenOk(cfg: Config, s: State, c: seq<Addr>, pc: Pc)
    requires Popping(pc)
  {
    || (pc.seen in c && pc.seen in s.heap && (pc.PopRead? ==> pc.next == s.heap[pc.seen].prev))
    || (!cfg.SinglePopper() && pc.seen !in c && pc.seen in s.used
        && forall u :: Pushing(PcOf(s, u)) ==> PcOf(s, u).node != pc.seen)
  }

  /** Each node in flight is live, off the stack, and held by one thread only. */
  ghost predicate HoldersOk(s: State, c: seq<Addr>) {
    && (forall t :: Holds(PcOf(s, t)) ==> PcOf(s, t).node in s.heap && PcOf(s, t).node !in c)
    && (forall t, u :: t != u && Holds(PcOf(s, t)) && Holds(PcOf(s, u)) ==> PcOf(s, t).node != PcOf(s, u).node)
    && (forall t :: PcOf(s, t).PushLinked? ==> s.heap[PcOf(s, t).node].prev == PcOf(s, t).seen)
  }

  ghost predicate PoppersOk(cfg: Config, s: State, c: seq<Addr>) {
    && (forall t :: Popping(PcOf(s, t)) ==> t in cfg.poppers && SeenOk(cfg, s, c, PcOf(s, t)))
    && (forall t :: PcOf(s, t).Popped? || PcOf(s, t).Printed? ==> t in cfg.poppers)
  }

  /** `c` is the whole stack: the chain from top, acyclic, equal to the abstract stack. */
  ghost predicate StackOk(s: State, c: seq<Addr>) {
    && Linked(s.heap, s.top, c)
    && NoDup(c)
    && Replay(s.log) == Stack(Values(s.heap, c))
  }

  ghost predicate Inv(cfg: Config, s: State, c: seq<Addr>) {
    && Safe(cfg)
    && NULL !in s.used
    && s.heap.Keys <= s.used
    && StackOk(s, c)
    && HoldersOk(s, c)
    && PoppersOk(cfg, s, c)
  }

  /** The stack after an event: changed by a successful compare-exchange only. */
  function NextChain(s: State, e: Event, c: seq<Addr>): seq<Addr> {
    var pc := PcOf(s, e.tid);
    match e
    case PushCas(_, false) => if pc.PushLinked? && s.top == pc.seen then [pc.node] + c else c
    case PopCas(_, false) => if pc.PopRead? && s.top == pc.seen && c != [] then c[1..] else c
    case _ => c
  }

  lemma InitInv(cfg: Config)
    requires Safe(cfg)
    ensures Inv(cfg, INIT, [])
  {
    assert Values(INIT.heap, []) == [];
  }

  /** An event moves only its own thread. */
  lemma OthersStay(s: State, e: Event)
    ensures forall t {:trigger PcOf(Next(s, e), t)} :: t != e.tid ==> PcOf(Next(s, e), t) == PcOf(s, t)
  {
  }

  lemma MallocInv(cfg: Config, s: State, c: seq<Addr>, e: Event)
    requires Inv(cfg, s, c) && e.Malloc? && Enabled(cfg, s, e)
    ensures Inv(cfg, Next(s, e), c)
  {
    hide Linked, Values, Replay;
    var s' := Next(s, e);
    OthersStay(s, e);
    LinkedLive(s.heap, s.top, c);
    LinkedFrame(s.heap, s'.heap, s.top, c);
  }

  lemma LinkInv(cfg: Config, s: State, c: seq<Addr>, e: Event)
    requires Inv(cfg, s, c) && e.Link? && Enabled(cfg, s, e)
    ensures Inv(cfg, Next(s, e), c)
  {
    hide Linked, Values, Replay;
    var s' := Next(s, e);
    OthersStay(s, e);
    LinkedFrame(s.heap, s'.heap, s.top, c);
  }

  lemma FreeInv(cfg: Config, s: State, c: seq<Addr>, e: Event)
    requires Inv(cfg, s, c) && e.Free? && Enabled(cfg, s, e)
    ensures Inv(cfg, Next(s, e), c)
  {
    hide Linked, Values, Replay;
    var s' := Next(s, e);
    OthersStay(s, e);
    LinkedLive(s.heap, s.top, c);
    LinkedFrame(s.heap, s'.heap, s.top, c);
  }

  lemma PushCasInv(cfg: Config, s: State, c: seq<Addr>, e: Event)
    requires Inv(cfg, s, c) && e.PushCas? && Enabled(cfg, s, e)
    ensures Inv(cfg, Next(s, e), NextChain(s, e, c))
  {
    hide Linked, Values, Replay;
    var s' := Next(s, e);
    OthersStay(s, e);
    var pc := PcOf(s, e.tid);
    if !e.spurious && s.top == pc.seen {
      LinkedCons(s.heap, pc.node, c);
      ReplaySnoc(s.log, Push(PayloadAt(s, pc.node)));
    }
  }

  lemma LoadForPopInv(cfg: Config, s: State, c: seq<Addr>, e: Event)
    requires Inv(cfg, s, c) && e.LoadForPop? && Enabled(cfg, s, e)
    ensures Inv(cfg, Next(s, e), c)
  {
    hide Replay;
    OthersStay(s, e);
    if s.top == NULL {
      ReplaySnoc(s.log, PopNull);
    } else {
      assert c[0] in c;
    }
  }

  lemma PopCasInv(cfg: Config, s: State, c: seq<Addr>, e: Event)
    requires Inv(cfg, s, c) && e.PopCas? && Enabled(cfg, s, e)
    ensures Inv(cfg, Next(s, e), NextChain(s, e, c))
  {
    hide Values, Replay;
    var s' := Next(s, e);
    OthersStay(s, e);
    var pc := PcOf(s, e.tid);
    if !e.spurious && s.top == pc.seen {
      LinkedLive(s.heap, s.top, c);
      assert c == [c[0]] + c[1..];
      LinkedCons(s.heap, c[0], c[1..]);
      ReplaySnoc(s.log, Pop(PayloadAt(s, pc.seen)));
    }
  }

  /** The events that move nothing but their own thread's position, and the output. */
  lemma OwnPcInv(cfg: Config, s: State, c: seq<Addr>, e: Event)
    requires Inv(cfg, s, c) && Enabled(cfg, s, e) && (e.LoadForPush? || e.ReadPrev? || e.Print?)
    ensures Inv(cfg, Next(s, e), c)
  {
    hide Linked, Values, Replay;
    OthersStay(s, e);
  }

  /** Every event keeps the invariant, in whatever order the events come. */
  lemma StepInv(cfg: Config, s: State, c: seq<Addr>, e: Event)
    requires Inv(cfg, s, c) && Enabled(cfg, s, e)
    ensures Inv(cfg, Next(s, e), NextChain(s, e, c))
  {
    hide Inv;
    match e
    case Malloc(_, _, _, _) => MallocInv(cfg, s, c, e);
    case Link(_) => LinkInv(cfg, s, c, e);
    case PushCas(_, _) => PushCasInv(cfg, s, c, e);
    case LoadForPop(_) => LoadForPopInv(cfg, s, c, e);
    case PopCas(_, _) => PopCasInv(cfg, s, c, e);
    case Free(_) => FreeInv(cfg, s, c, e);
    case _ => OwnPcInv(cfg, s, c, e);
  }
}
