/** What any number of consumers print together, in every safe configuration. */
module StackOutput {
  import opened StackMachine
  import opened StackSafety
  import opened StackTheorems
  import opened StackClient

  /** `ts` lists the threads that have popped a node and not printed it yet. */
  ghost predicate Outstanding(s: State, ts: seq<Tid>) {
    NoDup(ts) && forall t :: t in ts <==> PcOf(s, t).Popped?
  }

  /** What one thread has popped and not printed. */
  function ValueInHand(s: State, t: Tid): int {
    if PcOf(s, t).Popped? then PayloadAt(s, PcOf(s, t).node) else 0
  }

  function InHand(s: State, ts: seq<Tid>): seq<int> {
    seq(|ts|, i requires 0 <= i < |ts| => ValueInHand(s, ts[i]))
  }

  ghost predicate OutputInv(s: State, ts: seq<Tid>) {
    Outstanding(s, ts) && multiset(Pops(s.log)) == multiset(s.out) + multiset(InHand(s, ts))
  }

  /** A thread that keeps its popped node keeps its payload: no other thread writes or frees it. */
  lemma HandsKeep(cfg: Config, s: State, c: seq<Addr>, e: Event, t: Tid)
    requires Inv(cfg, s, c) && Enabled(cfg, s, e) && t != e.tid && PcOf(s, t).Popped?
    ensures PcOf(Next(s, e), t).Popped? && ValueInHand(Next(s, e), t) == ValueInHand(s, t)
  {
    hide Linked, Values, Replay;
    OthersStay(s, e);
    assert Holds(PcOf(s, t)) && PcOf(s, t).node in s.heap;
  }

  function Index(ts: seq<Tid>, t: Tid): (i: nat)
    requires t in ts
    ensures i < |ts| && ts[i] == t
  {
    if ts[0] == t then 0 else 1 + Index(ts[1..], t)
  }

  function NextOutstanding(s: State, e: Event, ts: seq<Tid>): seq<Tid> {
    if e.Print? && e.tid in ts then
      Without(ts, Index(ts, e.tid))
    else if e.PopCas? && PcOf(Next(s, e), e.tid).Popped? then ts + [e.tid]
    else ts
  }

  /** Nothing changes in the hands of the other threads when one thread moves and the heap stays. */
  lemma OthersInHand(s: State, e: Event, ts: seq<Tid>)
    requires Next(s, e).heap == s.heap && e.tid !in ts
    ensures InHand(Next(s, e), ts) == InHand(s, ts)
  {
    hide Next;
    forall i | 0 <= i < |ts| ensures ValueInHand(Next(s, e), ts[i]) == ValueInHand(s, ts[i]) {
      assert ts[i] in ts;
      OthersStay(s, e);
    }
  }

  lemma OutstandingSnoc(s: State, e: Event, ts: seq<Tid>)
    requires Outstanding(s, ts) && !PcOf(s, e.tid).Popped? && PcOf(Next(s, e), e.tid).Popped?
    ensures Outstanding(Next(s, e), ts + [e.tid]) && e.tid !in ts
  {
    OthersStay(s, e);
    hide Next;
    assert forall t :: t in ts + [e.tid] <==> t in ts || t == e.tid;
  }

  lemma PopOutput(cfg: Config, s: State, e: Event, ts: seq<Tid>)
    requires Enabled(cfg, s, e) && OutputInv(s, ts) && e.PopCas? && PcOf(Next(s, e), e.tid).Popped?
    ensures OutputInv(Next(s, e), ts + [e.tid])
  {
    hide Pops, InHand, Outstanding;
    OutstandingSnoc(s, e, ts);
    OthersInHand(s, e, ts);
    LogSnoc(s.log, Pop(PayloadAt(s, PcOf(s, e.tid).seen)));
    InHandSnoc(Next(s, e), ts, e.tid);
  }

  lemma InHandSnoc(s: State, ts: seq<Tid>, t: Tid)
    ensures InHand(s, ts + [t]) == InHand(s, ts) + [ValueInHand(s, t)]
  {
  }

  function Without(ts: seq<Tid>, i: nat): seq<Tid>
    requires i < |ts|
  {
    ts[..i] + ts[i + 1..]
  }

  lemma WithoutElements(ts: seq<Tid>, i: nat)
    requires i < |ts| && NoDup(ts)
    ensures NoDup(Without(ts, i)) && forall t :: t in Without(ts, i) <==> t in ts && t != ts[i]
  {
    assert ts == ts[..i] + [ts[i]] + ts[i + 1..];
  }

  lemma InHandWithout(s: State, ts: seq<Tid>, i: nat)
    requires i < |ts|
    ensures multiset(InHand(s, ts)) == multiset(InHand(s, Without(ts, i))) + multiset{ValueInHand(s, ts[i])}
  {
    var before, after := ts[..i], ts[i + 1..];
    assert InHand(s, ts) == InHand(s, before) + [ValueInHand(s, ts[i])] + InHand(s, after);
    assert InHand(s, Without(ts, i)) == InHand(s, before) + InHand(s, after);
  }

  lemma PrintOutput(cfg: Config, s: State, e: Event, ts: seq<Tid>)
    requires Enabled(cfg, s, e) && OutputInv(s, ts) && e.Print?
    ensures OutputInv(Next(s, e), NextOutstanding(s, e, ts))
  {
    hide Pops;
    var s', i := Next(s, e), Index(ts, e.tid);
    OthersStay(s, e);
    WithoutElements(ts, i);
    InHandWithout(s, ts, i);
    OthersInHand(s, e, Without(ts, i));
  }

  lemma OutputStep(cfg: Config, s: State, c: seq<Addr>, e: Event, ts: seq<Tid>)
    requires Inv(cfg, s, c) && Enabled(cfg, s, e) && OutputInv(s, ts)
    ensures OutputInv(Next(s, e), NextOutstanding(s, e, ts))
  {
    hide OutputInv, Inv;
    if e.PopCas? && PcOf(Next(s, e), e.tid).Popped? {
      PopOutput(cfg, s, e, ts);
    } else if e.Print? {
      PrintOutput(cfg, s, e, ts);
    } else {
      QuietOutput(cfg, s, c, e, ts);
    }
  }

  /** All other events leave the outstanding threads, their nodes and the popped values alone. */
  lemma QuietOutput(cfg: Config, s: State, c: seq<Addr>, e: Event, ts: seq<Tid>)
    requires Inv(cfg, s, c) && Enabled(cfg, s, e) && OutputInv(s, ts)
    requires !e.Print? && !(e.PopCas? && PcOf(Next(s, e), e.tid).Popped?)
    ensures OutputInv(Next(s, e), ts)
  {
    hide Pops, Inv;
    var s' := Next(s, e);
    OthersStay(s, e);
    assert Outstanding(s', ts);
    forall i | 0 <= i < |ts| ensures ValueInHand(s', ts[i]) == ValueInHand(s, ts[i]) {
      assert ts[i] in ts;
      HandsKeep(cfg, s, c, e, ts[i]);
    }
    assert InHand(s', ts) == InHand(s, ts);
    if s'.log != s.log {
      LogSnoc(s.log, s'.log[|s.log|]);
    }
  }

  lemma {:induction false} OutputRun(cfg: Config, s: State, c: seq<Addr>, ts: seq<Tid>, es: seq<Event>)
    returns (c': seq<Addr>, ts': seq<Tid>)
    requires Inv(cfg, s, c) && OutputInv(s, ts) && ValidRun(cfg, s, es)
    ensures Inv(cfg, Exec(s, es), c') && OutputInv(Exec(s, es), ts')
    decreases |es|
  {
    if es == [] {
      c', ts' := c, ts;
    } else {
      StepInv(cfg, s, c, es[0]);
      OutputStep(cfg, s, c, es[0], ts);
      c', ts' := OutputRun(cfg, Next(s, es[0]), NextChain(s, es[0], c), NextOutstanding(s, es[0], ts), es[1..]);
    }
  }

  /** Every value pushed is printed, in the hands of one thread that popped it, or on the stack. */
  ghost predicate AllAccounted(s: State, c: seq<Addr>, ts: seq<Tid>) {
    && StackOk(s, c) && Outstanding(s, ts)
    && multiset(Pushes(s.log)) == multiset(s.out) + multiset(InHand(s, ts)) + multiset(Values(s.heap, c))
  }

  lemma SomebodyPopped(s: State, ts: seq<Tid>)
    requires Outstanding(s, ts) && ts != []
    ensures exists t :: PcOf(s, t).Popped?
  {
    assert ts[0] in ts;
    assert PcOf(s, ts[0]).Popped?;
  }

  /** Nothing is lost, invented or printed twice, whatever the number of producers and consumers. */
  lemma ManyConsumersConserve(cfg: Config, es: seq<Event>)
    requires Safe(cfg) && ValidRun(cfg, INIT, es)
    ensures exists c, ts :: AllAccounted(Exec(INIT, es), c, ts)
    ensures (forall t :: !PcOf(Exec(INIT, es), t).Popped?) ==>
              multiset(Exec(INIT, es).out) == multiset(Pops(Exec(INIT, es).log))
  {
    InitInv(cfg);
    var c, ts := OutputRun(cfg, INIT, [], [], es);
    var s := Exec(INIT, es);
    ReplayConserves(s.log, Values(s.heap, c));
    assert AllAccounted(s, c, ts);
    if forall t :: !PcOf(s, t).Popped? {
      if ts != [] {
        SomebodyPopped(s, ts);
      }
    }
  }
}
