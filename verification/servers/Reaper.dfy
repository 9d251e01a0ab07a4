/** tcp_server.c: reaping forked children although SIGCHLD is one bit that coalesces. */
module Reaper {

  type Pid = nat

  /** Looping: inside the while of the handler; Returning: waitpid has returned 0 or -1. */
  datatype Handler = Outside | Looping | Returning

  datatype State = State(
    running: set<Pid>, zombies: set<Pid>, pending: bool, handler: Handler, forks: nat, reaps: nat)

  const START: State := State({}, {}, false, Outside, 0, 0)

  /** Children exit at any time.  SIGCHLD is blocked while its handler runs, and main, which the
      handler interrupts, forks outside the handler only. */
  datatype Event =
    | Fork(pid: Pid)
    | Exit(pid: Pid)
    | Deliver
    | Reap(pid: Pid)      // waitpid returns a pid
    | NoneLeft            // waitpid returns 0 or -1
    | Return

  predicate Enabled(s: State, e: Event) {
    match e
    case Fork(p) => s.handler.Outside? && p !in s.running && p !in s.zombies
    case Exit(p) => p in s.running
    case Deliver => s.handler.Outside? && s.pending
    case Reap(p) => s.handler.Looping? && p in s.zombies
    case NoneLeft => s.handler.Looping? && s.zombies == {}
    case Return => s.handler.Returning?
  }

  function Next(s: State, e: Event): State {
    match e
    case Fork(p) => s.(running := s.running + {p}, forks := s.forks + 1)
    case Exit(p) => s.(running := s.running - {p}, zombies := s.zombies + {p}, pending := true)
    case Deliver => s.(pending := false, handler := Looping)
    case Reap(p) => s.(zombies := s.zombies - {p}, reaps := s.reaps + 1)
    case NoneLeft => s.(handler := Returning)
    case Return => s.(handler := Outside)
  }

  predicate ValidRun(s: State, es: seq<Event>)
    decreases |es|
  {
    es == [] || (Enabled(s, es[0]) && ValidRun(Next(s, es[0]), es[1..]))
  }

  function Exec(s: State, es: seq<Event>): State
    decreases |es|
  {
    if es == [] then s else Exec(Next(s, es[0]), es[1..])
  }

  ghost predicate Inv(s: State) {
    && s.running !! s.zombies
    && (s.zombies != {} ==> s.pending || s.handler.Looping?)
    && s.forks == |s.running| + |s.zombies| + s.reaps
  }

  lemma {:induction false} RunInv(s: State, es: seq<Event>)
    requires Inv(s) && ValidRun(s, es)
    ensures Inv(Exec(s, es))
    decreases |es|
  {
    if es != [] {
      var s' := Next(s, es[0]);
      match es[0] {
        case Exit(p) =>
          assert |s'.running| == |s.running| - 1 && |s'.zombies| == |s.zombies| + 1;
        case _ =>
      }
      RunInv(s', es[1..]);
    }
  }

  /** In every run of forks, exits and handler steps: a zombie exists only if SIGCHLD is pending
      or the handler has still to make its final empty check; so main code with nothing pending
      sees none, and every child forked is then running or has been reaped, once. */
  lemma ZombiesAreAnnounced(es: seq<Event>)
    requires ValidRun(START, es)
    ensures var s := Exec(START, es);
      && (s.zombies != {} ==> s.pending || s.handler.Looping?)
      && (s.handler.Outside? && !s.pending ==> s.zombies == {} && s.forks == |s.running| + s.reaps)
  {
    RunInv(START, es);
  }

  /** Pid by pid, over whole runs: each fork is a running child or one exit, and each exit is a
      zombie or one successful waitpid. */
  lemma {:induction false} EveryExitIsReaped(es: seq<Event>, p: Pid)
    requires ValidRun(START, es)
    ensures var s := Exec(START, es);
      && multiset(es)[Fork(p)] == multiset(es)[Exit(p)] + (if p in s.running then 1 else 0)
      && multiset(es)[Exit(p)] == multiset(es)[Reap(p)] + (if p in s.zombies then 1 else 0)
    decreases |es|
  {
    if es != [] {
      var init, e := es[..|es| - 1], es[|es| - 1];
      assert es == init + [e];
      RunSnoc(START, init, e);
      EveryExitIsReaped(init, p);
      RunInv(START, init);
    } else {
      assert multiset(es) == multiset{};
    }
  }

  /** Children may exit at any moment, inside the handler too: any of the running ones, in any
      number, with one pending signal for all of them. */
  lemma {:induction false} ExitsMerge(s: State, ps: seq<Pid>)
    requires (forall i :: 0 <= i < |ps| ==> ps[i] in s.running) && forall i, j :: 0 <= i < j < |ps| ==> ps[i] != ps[j]
    ensures var exits := Exits(ps);
      && ValidRun(s, exits)
      && Exec(s, exits) == s.(running := s.running - Elements(ps), zombies := s.zombies + Elements(ps),
                              pending := s.pending || ps != [])
    decreases |ps|
  {
    var exits := Exits(ps);
    if ps == [] {
      assert s.running - Elements(ps) == s.running && s.zombies + Elements(ps) == s.zombies;
    } else {
      assert exits[1..] == Exits(ps[1..]);
      assert Elements(ps) == {ps[0]} + Elements(ps[1..]);
      ExitsMerge(Next(s, Exit(ps[0])), ps[1..]);
    }
  }

  function Elements(ps: seq<Pid>): set<Pid> {
    set p | p in ps
  }

  function Exits(ps: seq<Pid>): (es: seq<Event>)
    ensures |es| == |ps| && forall i :: 0 <= i < |es| ==> es[i] == Exit(ps[i])
  {
    seq(|ps|, i requires 0 <= i < |ps| => Exit(ps[i]))
  }

  lemma RunCons(s: State, e: Event, rest: seq<Event>)
    ensures ValidRun(s, [e] + rest) == (Enabled(s, e) && ValidRun(Next(s, e), rest))
    ensures Exec(s, [e] + rest) == Exec(Next(s, e), rest)
  {
    assert ([e] + rest)[1..] == rest;
  }

  function Deliveries(es: seq<Event>): nat {
    if es == [] then 0 else (if es[0].Deliver? then 1 else 0) + Deliveries(es[1..])
  }

  /** From the loop of the handler: one waitpid per zombie, the empty check, the return. */
  lemma {:induction false} DrainLoop(s: State) returns (es: seq<Event>)
    requires s.handler.Looping?
    ensures ValidRun(s, es) && Deliveries(es) == 0 && |es| == |s.zombies| + 2
    ensures Exec(s, es) == s.(zombies := {}, handler := Outside, reaps := s.reaps + |s.zombies|)
    decreases |s.zombies|
  {
    if s.zombies == {} {
      var s1 := Next(s, NoneLeft);
      RunCons(s1, Return, []);
      RunCons(s, NoneLeft, [Return] + []);
      es := [NoneLeft] + ([Return] + []);
      assert es[1..] == [Return] && [Return][1..] == [] && Deliveries([Return]) == 0;
    } else {
      var p :| p in s.zombies;
      var rest := DrainLoop(Next(s, Reap(p)));
      RunCons(s, Reap(p), rest);
      es := [Reap(p)] + rest;
      assert es[1..] == rest;
    }
  }

  /** A delivery can always run to its end, in as many waitpid calls as there are zombies and one
      more. */
  lemma DeliveryCanEnd(s: State) returns (es: seq<Event>)
    requires s.handler.Outside? && s.pending
    ensures ValidRun(s, es) && Deliveries(es) == 1 && |es| == |s.zombies| + 3
    ensures Exec(s, es) == s.(zombies := {}, pending := false, reaps := s.reaps + |s.zombies|)
  {
    var rest := DrainLoop(Next(s, Deliver));
    RunCons(s, Deliver, rest);
    es := [Deliver] + rest;
    assert es[1..] == rest;
  }

  lemma {:induction false} RunSnoc(s: State, es: seq<Event>, e: Event)
    requires ValidRun(s, es + [e])
    ensures ValidRun(s, es) && Enabled(Exec(s, es), e) && Exec(s, es + [e]) == Next(Exec(s, es), e)
    decreases |es|
  {
    if es == [] {
      assert [e][1..] == [];
    } else {
      assert (es + [e])[1..] == es[1..] + [e];
      RunSnoc(Next(s, es[0]), es[1..], e);
    }
  }

  /** Within the handler, up to its empty check, a child that has already exited is reaped once if
      it is a zombie, and is no zombie afterwards. */
  lemma {:induction false} HandlerRun(s: State, es: seq<Event>)
    requires !s.handler.Outside? && s.running !! s.zombies && ValidRun(s, es) && Return !in es
    requires Exec(s, es).handler.Returning?
    ensures forall p :: p !in s.running ==>
              multiset(es)[Reap(p)] == if s.handler.Looping? && p in s.zombies then 1 else 0
    ensures forall p :: p !in s.running && (s.handler.Looping? || p !in s.zombies) ==> p !in Exec(s, es).zombies
    decreases |es|
  {
    if es != [] {
      var e, rest := es[0], es[1..];
      assert es == [e] + rest;
      assert e != Return;
      HandlerRun(Next(s, e), rest);
    }
  }

  /** However many exits were merged into the one pending bit, one delivery reaps them all: in every
      run of the server, between a delivery and the handler's return each zombie there was is reaped
      exactly once, and any zombie left over has a signal pending. */
  lemma OneDeliveryReapsAll(before: seq<Event>, during: seq<Event>)
    requires ValidRun(START, before) && Return !in during
    requires ValidRun(Exec(START, before), [Deliver] + during + [Return])
    ensures var s, s' := Exec(START, before), Exec(Exec(START, before), [Deliver] + during + [Return]);
      && (forall p :: p in s.zombies ==> multiset(during)[Reap(p)] == 1 && p !in s'.zombies)
      && (s'.zombies != {} ==> s'.pending)
  {
    RunInv(START, before);
    var s := Exec(START, before);
    RunSnoc(s, [Deliver] + during, Return);
    RunCons(s, Deliver, during);
    HandlerRun(Next(s, Deliver), during);
    RunInv(s, [Deliver] + during + [Return]);
  }

  /** Any number of children: all of them forked one after the other, all exited with one pending
      signal, and all reaped by its one delivery. */
  lemma ManyChildrenOneSignal(ps: seq<Pid>) returns (es: seq<Event>)
    requires ps != [] && forall i, j :: 0 <= i < j < |ps| ==> ps[i] != ps[j]
    ensures ValidRun(START, es) && Deliveries(es) == 1
    ensures Exec(START, es) == State({}, {}, false, Outside, |ps|, |ps|)
  {
    ForksAdd(START, ps);
    var s1 := Exec(START, Forks(ps));
    ExitsMerge(s1, ps);
    var s2 := Exec(s1, Exits(ps));
    var last := DeliveryCanEnd(s2);
    RunConcat(s1, Exits(ps), last);
    RunConcat(START, Forks(ps), Exits(ps) + last);
    es := Forks(ps) + (Exits(ps) + last);
    NoDeliveries(Exits(ps), last);
    NoDeliveries(Forks(ps), Exits(ps) + last);
    ElementsCount(ps);
    assert s2.zombies == Elements(ps) && s2.running == {};
  }

  function Forks(ps: seq<Pid>): (es: seq<Event>)
    ensures |es| == |ps| && forall i :: 0 <= i < |es| ==> es[i] == Fork(ps[i])
  {
    seq(|ps|, i requires 0 <= i < |ps| => Fork(ps[i]))
  }

  /** Outside the handler main can fork any number of new children. */
  lemma {:induction false} ForksAdd(s: State, ps: seq<Pid>)
    requires s.handler.Outside? && forall i :: 0 <= i < |ps| ==> ps[i] !in s.running && ps[i] !in s.zombies
    requires forall i, j :: 0 <= i < j < |ps| ==> ps[i] != ps[j]
    ensures ValidRun(s, Forks(ps))
    ensures Exec(s, Forks(ps)) == s.(running := s.running + Elements(ps), forks := s.forks + |ps|)
    decreases |ps|
  {
    if ps == [] {
      assert s.running + Elements(ps) == s.running;
    } else {
      assert Forks(ps)[1..] == Forks(ps[1..]);
      assert Elements(ps) == {ps[0]} + Elements(ps[1..]);
      ForksAdd(Next(s, Fork(ps[0])), ps[1..]);
    }
  }

  lemma {:induction false} RunConcat(s: State, xs: seq<Event>, ys: seq<Event>)
    requires ValidRun(s, xs) && ValidRun(Exec(s, xs), ys)
    ensures ValidRun(s, xs + ys) && Exec(s, xs + ys) == Exec(Exec(s, xs), ys)
    decreases |xs|
  {
    if xs == [] {
      assert xs + ys == ys;
    } else {
      assert (xs + ys)[1..] == xs[1..] + ys;
      RunConcat(Next(s, xs[0]), xs[1..], ys);
    }
  }

  lemma {:induction false} NoDeliveries(xs: seq<Event>, ys: seq<Event>)
    requires forall i :: 0 <= i < |xs| ==> !xs[i].Deliver?
    ensures Deliveries(xs + ys) == Deliveries(ys)
    decreases |xs|
  {
    if xs == [] {
      assert xs + ys == ys;
    } else {
      assert (xs + ys)[1..] == xs[1..] + ys;
      NoDeliveries(xs[1..], ys);
    }
  }

  lemma {:induction false} ElementsCount(ps: seq<Pid>)
    requires forall i, j :: 0 <= i < j < |ps| ==> ps[i] != ps[j]
    ensures |Elements(ps)| == |ps|
    decreases |ps|
  {
    if ps != [] {
      assert Elements(ps) == {ps[0]} + Elements(ps[1..]);
      ElementsCount(ps[1..]);
    }
  }

  // ----- the handler as code -----

  datatype Waited = Child(pid: Pid) | NoChild

  /** The kernel's view of the server's children. */
  class ProcessTable {
    var running: set<Pid>
    var zombies: set<Pid>
    var reaped: seq<Pid>
    var pending: bool

    constructor ()
      ensures running == {} && zombies == {} && reaped == [] && !pending
    {
      running, zombies, reaped, pending := {}, {}, [], false;
    }

    /** The running children among `who` exit; their SIGCHLDs merge into one pending bit. */
    method ExitAll(who: set<Pid>)
      modifies this
      ensures running == old(running) - who && zombies == old(zombies) + (old(running) * who)
      ensures reaped == old(reaped) && pending == (old(pending) || old(running) * who != {})
    {
      var gone := running * who;
      running := running - who;
      zombies := zombies + gone;
      pending := pending || gone != {};
    }

    /** waitpid(-1, NULL, WNOHANG): reaps some zombie, if there is one. */
    method Waitpid() returns (r: Waited)
      modifies this`zombies, this`reaped
      ensures old(zombies) == {} ==> r == NoChild && zombies == {} && reaped == old(reaped)
      ensures old(zombies) != {} ==> r.Child? && r.pid in old(zombies)
      ensures r.Child? ==> zombies == old(zombies) - {r.pid} && reaped == old(reaped) + [r.pid]
    {
      if zombies == {} {
        return NoChild;
      }
      var p :| p in zombies;
      zombies := zombies - {p};
      reaped := reaped + [p];
      return Child(p);
    }

    /** One turn of the handler's loop: some children exit, then one waitpid. */
    method Round(who: set<Pid>, ghost entry: set<Pid>, ghost got: seq<Pid>) returns (ghost got': seq<Pid>, found: bool)
      requires Accounted(running, zombies, entry, got)
      modifies this
      ensures Accounted(running, zombies, entry, got')
      ensures found ==> |got'| == |got| + 1 && got' == got + [got'[|got|]] && reaped == old(reaped) + [got'[|got|]]
      ensures !found ==> got' == got && reaped == old(reaped) && zombies == {}
      ensures forall p :: p in old(zombies) ==> p in zombies || p in got'
      ensures |running| + |zombies| == |old(running)| + |old(zombies)| - (if found then 1 else 0)
    {
      AccountExit(running, zombies, entry, got, who);
      hide Accounted;
      ExitAll(who);
      ghost var before := zombies;
      var r := Waitpid();
      found := r.Child?;
      got' := got;
      if r.Child? {
        AccountReap(running, before, entry, got, r.pid);
        got' := got + [r.pid];
      }
    }

    /** The signal handler, entered with the bit just cleared.  `exits(k)` is the adversary: who
        exits before the k-th waitpid.  The loop ends, every zombie there was on entry has been
        reaped, nobody is reaped twice, and a child that exits meanwhile is reaped too or leaves
        the signal pending. */
    method SigchldHandler(exits: nat -> set<Pid>) returns (ghost got: seq<Pid>, calls: nat)
      requires running !! zombies && !pending
      modifies this
      ensures reaped == old(reaped) + got && calls == |got| + 1
      ensures Accounted(running, zombies, old(running + zombies), got)
      ensures forall p :: p in old(zombies) ==> p in got
      ensures zombies != {} ==> pending
    {
      got, calls := [], 0;
      var found := true;
      ghost var entry := running + zombies;
      while found
        invariant reaped == old(reaped) + got && calls == |got| + (if found then 0 else 1)
        invariant Accounted(running, zombies, entry, got)
        invariant forall p :: p in old(zombies) ==> p in zombies || p in got
        invariant !found ==> zombies == {}
        decreases |running| + |zombies|, found
      {
        got, found := Round(exits(calls), entry, got);
        calls := calls + 1;
      }
      // between the empty check and the return more children may exit
      ExitAll(exits(calls));
    }
  }

  /** Each child there was on entry is running, a zombie, or among the pids reaped since, and
      nobody was reaped twice. */
  ghost predicate Accounted(running: set<Pid>, zombies: set<Pid>, entry: set<Pid>, got: seq<Pid>) {
    && running !! zombies
    && (forall p :: p in entry <==> p in running || p in zombies || p in got)
    && (forall p :: p in got ==> p !in running && p !in zombies)
    && (forall i, j :: 0 <= i < j < |got| ==> got[i] != got[j])
  }

  lemma AccountExit(running: set<Pid>, zombies: set<Pid>, entry: set<Pid>, got: seq<Pid>, who: set<Pid>)
    requires Accounted(running, zombies, entry, got)
    ensures Accounted(running - who, zombies + running * who, entry, got)
    ensures |running - who| + |zombies + running * who| == |running| + |zombies|
  {
    assert running == (running - who) + (running * who);
  }

  lemma AccountReap(running: set<Pid>, zombies: set<Pid>, entry: set<Pid>, got: seq<Pid>, p: Pid)
    requires Accounted(running, zombies, entry, got) && p in zombies
    ensures Accounted(running, zombies - {p}, entry, got + [p]) && |zombies - {p}| == |zombies| - 1
  {
    assert forall x :: x in got + [p] <==> x in got || x == p;
  }
}
