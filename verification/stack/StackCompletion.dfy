/** Whether main can come to its end: from every state of every run, if it pops no more than it
    pushes, and never otherwise. */
module StackCompletion {
  import opened StackMachine
  import opened StackSafety
  import opened StackTheorems
  import opened StackProgress
  import opened StackClient

  /** The loop counters are within bounds. */
  ghost predicate Pace(r: Roles, s: State) {
    && s.mallocs <= r.pushes && |s.out| <= r.pops
    && (Popping(PcOf(s, r.consumer)) || PcOf(s, r.consumer).Popped? ==> |s.out| < r.pops)
  }

  lemma PaceStep(r: Roles, s: State, e: Event)
    requires r.producer != r.consumer && Duties(r, s) && Pace(r, s) && Enabled(r.Cfg(), s, e) && ByMain(r, s, e)
    ensures Pace(r, Next(s, e))
  {
    DutiesStep(r, s, e);
    OthersStay(s, e);
  }

  lemma {:induction false} PaceRun(r: Roles, s: State, es: seq<Event>)
    requires r.producer != r.consumer && Duties(r, s) && Pace(r, s) && MainRun(r, s, es)
    ensures Pace(r, Exec(s, es))
    decreases |es|
  {
    if es != [] {
      PaceStep(r, s, es[0]);
      DutiesStep(r, s, es[0]);
      PaceRun(r, Next(s, es[0]), es[1..]);
    }
  }

  lemma {:induction false} FreshAddr(used: set<Addr>) returns (a: Addr)
    ensures a != NULL && forall x :: x in used ==> x < a
    decreases used
  {
    if used == {} {
      a := 1;
    } else {
      var x :| x in used;
      var b := FreshAddr(used - {x});
      a := if x < b then b else x + 1;
      assert forall y :: y in used ==> y == x || y in used - {x};
    }
  }

  /** Nothing is left to do for a thread that is idle and has made all its rounds. */
  ghost predicate ProducerDone(r: Roles, s: State) {
    PcOf(s, r.producer).Idle? && s.mallocs == r.pushes
  }

  function ProducerRank(r: Roles, s: State): int {
    10 * (r.pushes - s.mallocs) + PushSteps(s, PcOf(s, r.producer))
  }

  function ConsumerRank(r: Roles, s: State): int {
    var pc := PcOf(s, r.consumer);
    20 * (r.pops - |s.out|) + if pc.Printed? then 4 else PopSteps(s, pc)
  }

  /** The producer's next move, if it has one. */
  lemma ProducerMove(r: Roles, s: State) returns (e: Event)
    requires r.producer != r.consumer && Duties(r, s) && Pace(r, s) && !ProducerDone(r, s)
    ensures e.tid == r.producer && Enabled(r.Cfg(), s, e) && ByMain(r, s, e)
    ensures 0 <= ProducerRank(r, Next(s, e)) < ProducerRank(r, s)
  {
    var t := r.producer;
    match PcOf(s, t)
    case Filled(_) => e := LoadForPush(t);
    case PushLoaded(_, _) => e := Link(t);
    case PushLinked(_, _) => e := PushCas(t, false);
    case _ =>
      var a := FreshAddr(s.heap.Keys);
      e := Malloc(t, a, s.mallocs, NULL);
  }

  /** While the consumer still has values to print, one is on the stack or in its hands. */
  lemma StackNotEmpty(r: Roles, s: State, c: seq<Addr>)
    requires r.pops <= r.pushes && ClientInv(r, s, c) && ProducerDone(r, s)
    requires PcOf(s, r.consumer).Idle? && |s.out| < r.pops
    ensures s.top != NULL
  {
    LogsGiveOutput(r, s, c);
    assert InFlight(s, r.consumer) == BeingPushed(s, r.producer) == [];
    ConservedCounts(r.pushes, s.out, Values(s.heap, c));
  }

  /** The consumer's next move once the producer is done. */
  lemma ConsumerMove(r: Roles, s: State, c: seq<Addr>) returns (e: Event)
    requires r.producer != r.consumer && r.pops <= r.pushes && ClientInv(r, s, c) && Pace(r, s)
    requires ProducerDone(r, s) && !(PcOf(s, r.consumer).Idle? && |s.out| == r.pops)
    ensures Enabled(r.Cfg(), s, e) && ByMain(r, s, e)
    ensures ProducerDone(r, Next(s, e)) && 0 <= ConsumerRank(r, Next(s, e)) < ConsumerRank(r, s)
  {
    hide Replay, Linked, Values, StackOk, LogsOk, HeapOk;
    var t := r.consumer;
    match PcOf(s, t)
    case PopLoaded(_) => e := ReadPrev(t, NULL);
    case PopRead(_, _) => e := PopCas(t, false);
    case Popped(_) => e := Print(t);
    case Printed(_) => e := Free(t);
    case _ =>
      StackNotEmpty(r, s, c);
      e := LoadForPop(t);
  }

  ghost predicate CanMove(r: Roles, s: State, t: Tid) {
    exists e: Event :: e.tid == t && Enabled(r.Cfg(), s, e) && ByMain(r, s, e)
  }

  /** Neither thread of main ever waits for the other: before its last round is over it has a move,
      in every state of every run, and a push may get any address that is free. */
  lemma NeitherWaits(r: Roles, es: seq<Event>)
    requires r.producer != r.consumer && MainRun(r, INIT, es)
    ensures var s := Exec(INIT, es);
      && (CanMove(r, s, r.producer) <==> !ProducerDone(r, s))
      && (CanMove(r, s, r.consumer) <==> !(PcOf(s, r.consumer).Idle? && |s.out| == r.pops))
      && (PcOf(s, r.producer).Idle? && s.mallocs < r.pushes ==>
            forall a, junk :: a != NULL && a !in s.heap ==>
              Enabled(r.Cfg(), s, Malloc(r.producer, a, s.mallocs, junk)))
  {
    InitInv(r.Cfg());
    var c := MainRunInv(r, INIT, [], es);
    PaceRun(r, INIT, es);
    var s := Exec(INIT, es);
    hide Inv, LogsOk, HeapOk, MainRun, Exec;
    if !ProducerDone(r, s) {
      var e := ProducerMove(r, s);
    }
    if !(PcOf(s, r.consumer).Idle? && |s.out| == r.pops) {
      var t := r.consumer;
      var e := match PcOf(s, t)
        case PopLoaded(_) => ReadPrev(t, NULL)
        case PopRead(_, _) => PopCas(t, false)
        case Popped(_) => Print(t)
        case Printed(_) => Free(t)
        case _ => LoadForPop(t);
      assert e.tid == t && Enabled(r.Cfg(), s, e) && ByMain(r, s, e);
    }
  }

  /** Producer first, then consumer: a way to the end from any state of main. */
  lemma {:induction false} WayToEnd(r: Roles, s: State, c: seq<Addr>) returns (es: seq<Event>)
    requires r.producer != r.consumer && r.pops <= r.pushes && ClientInv(r, s, c) && Pace(r, s)
    ensures MainRun(r, s, es) && Joined(r, Exec(s, es))
    decreases if ProducerDone(r, s) then 0 else ProducerRank(r, s), ConsumerRank(r, s)
  {
    hide Inv, LogsOk, HeapOk, ProducerRank, ConsumerRank;
    if ProducerDone(r, s) && PcOf(s, r.consumer).Idle? && |s.out| == r.pops {
      es := [];
    } else {
      var e;
      if ProducerDone(r, s) {
        e := ConsumerMove(r, s, c);
      } else {
        e := ProducerMove(r, s);
      }
      ClientStep(r, s, c, e);
      PaceStep(r, s, e);
      var rest := WayToEnd(r, Next(s, e), NextChain(s, e, c));
      es := [e] + rest;
      assert es[1..] == rest;
    }
  }

  ghost predicate CanEndFrom(r: Roles, s: State) {
    exists es :: MainRun(r, s, es) && Joined(r, Exec(s, es))
  }

  /** In every state of every run, main can still reach its joins when it pops no more values than
      it pushes; no loop of either thread can get stuck. */
  lemma MainCanEnd(r: Roles, es: seq<Event>)
    requires r.producer != r.consumer && r.pops <= r.pushes && MainRun(r, INIT, es)
    ensures CanEndFrom(r, Exec(INIT, es))
  {
    InitInv(r.Cfg());
    var c := MainRunInv(r, INIT, [], es);
    PaceRun(r, INIT, es);
    hide MainRun, Exec;
    var rest := WayToEnd(r, Exec(INIT, es), c);
  }

  /** main can end at all exactly when the consumer asks for no more values than are pushed; else
      it waits for ever for a node. */
  lemma MainCanEndIff(r: Roles)
    requires r.producer != r.consumer
    ensures CanEndFrom(r, INIT) <==> r.pops <= r.pushes
  {
    if r.pops <= r.pushes {
      MainCanEnd(r, []);
    }
    if CanEndFrom(r, INIT) {
      var es :| MainRun(r, INIT, es) && Joined(r, Exec(INIT, es));
      var c := JoinedChain(r, es);
    }
  }
}
