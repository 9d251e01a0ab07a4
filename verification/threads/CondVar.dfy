/** condvar.c: n workers count themselves under a mutex and signal; main waits for the count.
    Wakeups may be spurious, and any thread may be delayed between any two steps. */
module CondVar {

  datatype Worker =
    | NotCreated
    | Working        // created, its work loop not over, mutex not yet taken
    | Locked         // holds the mutex
    | Counted        // done++ executed
    | Signalled      // pthread_cond_signal executed
    | Finished       // mutex released

  datatype Main =
    | Creating       // creating threads, then taking the mutex
    | Checking       // holds the mutex, about to evaluate done < NUMTHREADS
    | Waiting        // blocked in pthread_cond_wait, mutex released
    | Woken          // unblocked, must retake the mutex before the call returns
    | Leaving        // out of the loop, mutex held
    | Exited         // mutex released

  datatype Mutex = Free | HeldByMain | HeldBy(id: nat)

  datatype State = State(main: Main, created: nat, workers: seq<Worker>, mutex: Mutex, done: nat)

  datatype Event =
    | Create
    | MainLock
    | Test           // the loop condition; entering the wait releases the mutex in the same step
    | Spurious
    | Relock
    | MainUnlock
    | Lock(id: nat)
    | Count(id: nat)
    | Signal(id: nat)
    | Unlock(id: nat)

  function Start(n: nat): State {
    State(Creating, 0, seq(n, i => NotCreated), Free, 0)
  }

  predicate Enabled(s: State, e: Event) {
    match e
    case Create => s.main.Creating? && s.created < |s.workers|
    case MainLock => s.main.Creating? && s.created >= |s.workers| && s.mutex.Free?
    case Test => s.main.Checking?
    case Spurious => s.main.Waiting?
    case Relock => s.main.Woken? && s.mutex.Free?
    case MainUnlock => s.main.Leaving?
    case Lock(i) => i < |s.workers| && s.workers[i].Working? && s.mutex.Free?
    case Count(i) => i < |s.workers| && s.workers[i].Locked?
    case Signal(i) => i < |s.workers| && s.workers[i].Counted?
    case Unlock(i) => i < |s.workers| && s.workers[i].Signalled?
  }

  function Next(s: State, e: Event): State
    requires Enabled(s, e)
  {
    match e
    case Create => s.(created := s.created + 1, workers := s.workers[s.created := Working])
    case MainLock => s.(main := Checking, mutex := HeldByMain)
    case Test =>
      if s.done < |s.workers| then s.(main := Waiting, mutex := Free) else s.(main := Leaving)
    case Spurious => s.(main := Woken)
    case Relock => s.(main := Checking, mutex := HeldByMain)
    case MainUnlock => s.(main := Exited, mutex := Free)
    case Lock(i) => s.(workers := s.workers[i := Locked], mutex := HeldBy(i))
    case Count(i) => s.(workers := s.workers[i := Counted], done := s.done + 1)
    case Signal(i) =>
      s.(workers := s.workers[i := Signalled], main := if s.main.Waiting? then Woken else s.main)
    case Unlock(i) => s.(workers := s.workers[i := Finished], mutex := Free)
  }

  predicate ValidRun(s: State, es: seq<Event>)
    decreases |es|
  {
    es == [] || (Enabled(s, es[0]) && ValidRun(Next(s, es[0]), es[1..]))
  }

  function Exec(s: State, es: seq<Event>): State
    requires ValidRun(s, es)
    decreases |es|
  {
    if es == [] then s else Exec(Next(s, es[0]), es[1..])
  }

  ghost predicate Final(s: State) {
    s.main.Exited? && forall i :: 0 <= i < |s.workers| ==> s.workers[i].Finished?
  }

  predicate HasCounted(w: Worker) {
    w.Counted? || w.Signalled? || w.Finished?
  }

  predicate HasMutex(w: Worker) {
    w.Locked? || w.Counted? || w.Signalled?
  }

  function CountDone(ws: seq<Worker>): nat {
    if ws == [] then 0 else (if HasCounted(ws[0]) then 1 else 0) + CountDone(ws[1..])
  }

  lemma {:induction false} CountUpdate(ws: seq<Worker>, i: nat, w: Worker)
    requires i < |ws|
    ensures CountDone(ws[i := w]) ==
            CountDone(ws) - (if HasCounted(ws[i]) then 1 else 0) + (if HasCounted(w) then 1 else 0)
    decreases |ws|
  {
    if i == 0 {
      assert ws[i := w][1..] == ws[1..];
    } else {
      assert ws[i := w][1..] == ws[1..][i - 1 := w];
      CountUpdate(ws[1..], i - 1, w);
    }
  }

  lemma {:induction false} CountFull(ws: seq<Worker>)
    ensures CountDone(ws) <= |ws|
    ensures CountDone(ws) == |ws| <==> forall i :: 0 <= i < |ws| ==> HasCounted(ws[i])
    decreases |ws|
  {
    if ws != [] {
      CountFull(ws[1..]);
      assert ws == [ws[0]] + ws[1..];
    }
  }

  lemma {:induction false} CountNone(ws: seq<Worker>)
    requires forall i :: 0 <= i < |ws| ==> !HasCounted(ws[i])
    ensures CountDone(ws) == 0
    decreases |ws|
  {
    if ws != [] {
      CountNone(ws[1..]);
    }
  }

  // ----- what every run keeps -----

  ghost predicate Inv(s: State) {
    && s.done == CountDone(s.workers)
    && s.created <= |s.workers|
    && (forall i :: 0 <= i < |s.workers| ==> (s.workers[i].NotCreated? <==> i >= s.created))
    && (!s.main.Creating? ==> s.created == |s.workers|)
    // the mutex excludes
    && (forall i :: 0 <= i < |s.workers| ==> (HasMutex(s.workers[i]) <==> s.mutex == HeldBy(i)))
    && (s.mutex.HeldBy? ==> s.mutex.id < |s.workers|)
    && (s.mutex.HeldByMain? <==> s.main.Checking? || s.main.Leaving?)
    // no lost wakeup: if main sleeps on a complete count, a signal is still to come
    && (s.main.Waiting? && s.done >= |s.workers| ==> s.mutex.HeldBy? && s.workers[s.mutex.id].Counted?)
    && (s.main.Leaving? || s.main.Exited? ==> s.done >= |s.workers|)
    && (s.main.Exited? ==> s.mutex.Free?)
  }

  lemma StartInv(n: nat)
    ensures Inv(Start(n))
  {
    CountNone(Start(n).workers);
  }

  /** Main alone moves: the workers and their count stay. */
  lemma MainInv(s: State, e: Event)
    requires Inv(s) && Enabled(s, e) && (e.MainLock? || e.Test? || e.Spurious? || e.Relock? || e.MainUnlock?)
    ensures Inv(Next(s, e)) && |Next(s, e).workers| == |s.workers|
  {
    hide CountDone;
    CountFull(s.workers);
  }

  lemma CreateInv(s: State, e: Event)
    requires Inv(s) && Enabled(s, e) && e.Create?
    ensures Inv(Next(s, e)) && |Next(s, e).workers| == |s.workers|
  {
    hide CountDone;
    CountUpdate(s.workers, s.created, Working);
  }

  lemma LockInv(s: State, e: Event)
    requires Inv(s) && Enabled(s, e) && e.Lock?
    ensures Inv(Next(s, e)) && |Next(s, e).workers| == |s.workers|
  {
    hide CountDone;
    CountFull(s.workers);
    CountUpdate(s.workers, e.id, Locked);
  }

  lemma CountInv(s: State, e: Event)
    requires Inv(s) && Enabled(s, e) && e.Count?
    ensures Inv(Next(s, e)) && |Next(s, e).workers| == |s.workers|
  {
    hide CountDone;
    CountUpdate(s.workers, e.id, Counted);
    CountFull(Next(s, e).workers);
  }

  lemma SignalInv(s: State, e: Event)
    requires Inv(s) && Enabled(s, e) && e.Signal?
    ensures Inv(Next(s, e)) && |Next(s, e).workers| == |s.workers|
  {
    hide CountDone;
    CountUpdate(s.workers, e.id, Signalled);
  }

  lemma UnlockInv(s: State, e: Event)
    requires Inv(s) && Enabled(s, e) && e.Unlock?
    ensures Inv(Next(s, e)) && |Next(s, e).workers| == |s.workers|
  {
    hide CountDone;
    CountUpdate(s.workers, e.id, Finished);
  }

  lemma StepInv(s: State, e: Event)
    requires Inv(s) && Enabled(s, e)
    ensures Inv(Next(s, e)) && |Next(s, e).workers| == |s.workers|
  {
    hide Inv;
    match e
    case Create => CreateInv(s, e);
    case Lock(_) => LockInv(s, e);
    case Count(_) => CountInv(s, e);
    case Signal(_) => SignalInv(s, e);
    case Unlock(_) => UnlockInv(s, e);
    case _ => MainInv(s, e);
  }

  lemma {:induction false} RunInv(s: State, es: seq<Event>)
    requires Inv(s) && ValidRun(s, es)
    ensures Inv(Exec(s, es)) && |Exec(s, es).workers| == |s.workers|
    decreases |es|
  {
    if es != [] {
      StepInv(s, es[0]);
      RunInv(Next(s, es[0]), es[1..]);
    }
  }

  /** In every run, once main is out of its loop the count is exactly n and every worker has
      counted, signalled and released the mutex. */
  lemma LeavesOnlyWhenAllDone(n: nat, es: seq<Event>)
    requires ValidRun(Start(n), es)
    requires var s := Exec(Start(n), es); s.main.Leaving? || s.main.Exited?
    ensures var s := Exec(Start(n), es);
      s.done == n == |s.workers| && forall i :: 0 <= i < n ==> s.workers[i].Finished?
  {
    StartInv(n);
    RunInv(Start(n), es);
    var s := Exec(Start(n), es);
    CountFull(s.workers);
    forall i | 0 <= i < n ensures s.workers[i].Finished? {
      assert HasCounted(s.workers[i]);
    }
  }

  /** No wakeup is lost: from every reachable state that is not final some thread can move, and
      not merely by waking spuriously. */
  lemma NeverStuck(n: nat, es: seq<Event>) returns (e: Event)
    requires ValidRun(Start(n), es) && !Final(Exec(Start(n), es))
    ensures Enabled(Exec(Start(n), es), e) && !e.Spurious?
  {
    StartInv(n);
    RunInv(Start(n), es);
    var s := Exec(Start(n), es);
    CountFull(s.workers);
    e := Mover(s);
  }

  lemma Mover(s: State) returns (e: Event)
    requires Inv(s) && !Final(s)
    ensures Enabled(s, e) && !e.Spurious?
  {
    CountFull(s.workers);
    if s.mutex.HeldBy? {
      var i := s.mutex.id;
      assert HasMutex(s.workers[i]);
      e := if s.workers[i].Locked? then Count(i) else if s.workers[i].Counted? then Signal(i) else Unlock(i);
    } else if s.mutex.HeldByMain? {
      e := if s.main.Checking? then Test else MainUnlock;
    } else if s.main.Creating? {
      e := if s.created < |s.workers| then Create else MainLock;
    } else if s.main.Woken? {
      e := Relock;
    } else {
      var i :| 0 <= i < |s.workers| && !s.workers[i].Finished? && !HasCounted(s.workers[i]);
      assert !HasMutex(s.workers[i]);
      e := Lock(i);
    }
  }

  /** A worker waits for nothing but the mutex; main waits for the mutex, or sleeps, and then it may
      at any time wake up spuriously. */
  lemma BlockedOnlyBy(n: nat, es: seq<Event>, i: nat)
    requires ValidRun(Start(n), es) && i < n
    ensures var s := Exec(Start(n), es);
      && |s.workers| == n
      && ((exists e :: OfWorker(e, i) && Enabled(s, e)) <==>
            HasMutex(s.workers[i]) || (s.workers[i].Working? && s.mutex.Free?))
      && ((exists e :: OfMain(e) && !e.Spurious? && Enabled(s, e)) <==>
            !s.main.Waiting? && !s.main.Exited?
            && (s.main.Woken? || (s.main.Creating? && s.created == n) ==> s.mutex.Free?))
      && (Enabled(s, Spurious) <==> s.main.Waiting?)
  {
    StartInv(n);
    RunInv(Start(n), es);
    var s := Exec(Start(n), es);
    var w := s.workers[i];
    if HasMutex(w) || (w.Working? && s.mutex.Free?) {
      var e := if w.Working? then Lock(i) else if w.Locked? then Count(i)
               else if w.Counted? then Signal(i) else Unlock(i);
      assert OfWorker(e, i) && Enabled(s, e);
    }
    if !s.main.Waiting? && !s.main.Exited?
       && (s.main.Woken? || (s.main.Creating? && s.created == n) ==> s.mutex.Free?) {
      var e := if s.main.Woken? then Relock else if s.main.Checking? then Test
               else if s.main.Leaving? then MainUnlock else if s.created < n then Create else MainLock;
      assert OfMain(e) && !e.Spurious? && Enabled(s, e);
    }
  }

  predicate OfWorker(e: Event, i: nat) {
    e == Lock(i) || e == Count(i) || e == Signal(i) || e == Unlock(i)
  }

  predicate OfMain(e: Event) {
    !(e.Lock? || e.Count? || e.Signal? || e.Unlock?)
  }

  // ----- a bound on the length of runs -----

  function WorkerRank(w: Worker): nat {
    match w
    case NotCreated => 7
    case Working => 6
    case Locked => 5
    case Counted => 4
    case Signalled => 1
    case Finished => 0
  }

  function MainRank(m: Main): nat {
    match m
    case Creating => 3
    case Woken => 3
    case Checking => 2
    case Waiting => 1
    case Leaving => 1
    case Exited => 0
  }

  function Ranks(ws: seq<Worker>): nat {
    if ws == [] then 0 else WorkerRank(ws[0]) + Ranks(ws[1..])
  }

  lemma {:induction false} RanksUpdate(ws: seq<Worker>, i: nat, w: Worker)
    requires i < |ws|
    ensures Ranks(ws[i := w]) == Ranks(ws) - WorkerRank(ws[i]) + WorkerRank(w)
    decreases |ws|
  {
    if i == 0 {
      assert ws[i := w][1..] == ws[1..];
    } else {
      assert ws[i := w][1..] == ws[1..][i - 1 := w];
      RanksUpdate(ws[1..], i - 1, w);
    }
  }

  lemma {:induction false} RanksStart(ws: seq<Worker>)
    requires forall i :: 0 <= i < |ws| ==> ws[i].NotCreated?
    ensures Ranks(ws) == 7 * |ws|
    decreases |ws|
  {
    if ws != [] {
      RanksStart(ws[1..]);
    }
  }

  function SpuriousWakeups(es: seq<Event>): nat {
    if es == [] then 0 else (if es[0].Spurious? then 1 else 0) + SpuriousWakeups(es[1..])
  }

  lemma StepRank(s: State, e: Event)
    requires Inv(s) && Enabled(s, e)
    ensures Ranks(Next(s, e).workers) + MainRank(Next(s, e).main)
         <= Ranks(s.workers) + MainRank(s.main) - 1 + (if e.Spurious? then 3 else 0)
  {
    hide Ranks;
    match e
    case Create => RanksUpdate(s.workers, s.created, Working);
    case Lock(i) => RanksUpdate(s.workers, i, Locked);
    case Count(i) => RanksUpdate(s.workers, i, Counted);
    case Signal(i) => RanksUpdate(s.workers, i, Signalled);
    case Unlock(i) => RanksUpdate(s.workers, i, Finished);
    case _ =>
  }

  lemma {:induction false} RunLength(s: State, es: seq<Event>)
    requires Inv(s) && ValidRun(s, es)
    ensures |es| <= Ranks(s.workers) + MainRank(s.main) + 3 * SpuriousWakeups(es)
    decreases |es|
  {
    if es != [] {
      StepInv(s, es[0]);
      StepRank(s, es[0]);
      RunLength(Next(s, es[0]), es[1..]);
    }
  }

  /** Every run terminates unless woken spuriously for ever: a run with b spurious wakeups has at
      most 7n + 3 + 3b steps, and where it cannot go on it is final. */
  lemma Terminates(n: nat, es: seq<Event>)
    requires ValidRun(Start(n), es)
    ensures |es| <= 7 * n + 3 + 3 * SpuriousWakeups(es)
    ensures (forall e :: Enabled(Exec(Start(n), es), e) ==> e.Spurious?) ==> Final(Exec(Start(n), es))
  {
    StartInv(n);
    RanksStart(Start(n).workers);
    RunLength(Start(n), es);
    if !Final(Exec(Start(n), es)) {
      var e := NeverStuck(n, es);
    }
  }

  /** From every reachable state the program can still end, with no spurious wakeup to help. */
  lemma {:induction false} WayToEnd(s: State) returns (es: seq<Event>)
    requires Inv(s)
    ensures ValidRun(s, es) && Final(Exec(s, es)) && SpuriousWakeups(es) == 0
    decreases Ranks(s.workers) + MainRank(s.main)
  {
    hide Inv, Ranks, MainRank, Final;
    if Final(s) {
      es := [];
    } else {
      var e := Mover(s);
      StepInv(s, e);
      StepRank(s, e);
      var rest := WayToEnd(Next(s, e));
      es := [e] + rest;
      assert es[1..] == rest;
    }
  }

  lemma CanEnd(n: nat, es: seq<Event>)
    requires ValidRun(Start(n), es)
    ensures exists rest :: ValidRun(Exec(Start(n), es), rest) && Final(Exec(Exec(Start(n), es), rest))
                        && SpuriousWakeups(rest) == 0
  {
    StartInv(n);
    RunInv(Start(n), es);
    var rest := WayToEnd(Exec(Start(n), es));
  }
}
