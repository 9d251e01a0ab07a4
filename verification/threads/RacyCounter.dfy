/** no-sync.c one level down: each increment is a load followed by a store, interleaved freely
    (sequential consistency).  n threads make k increments each. */
module RacyCounter {

  datatype Pc = Ready | Loaded(value: int)
  datatype Thread = Thread(done: nat, pc: Pc)
  datatype State = State(counter: int, threads: seq<Thread>)
  datatype Event = Load(tid: nat) | Store(tid: nat)

  function Start(n: nat): State {
    State(0, seq(n, i => Thread(0, Ready)))
  }

  predicate Enabled(k: nat, s: State, e: Event) {
    && e.tid < |s.threads|
    && var t := s.threads[e.tid];
       match e
       case Load(_) => t.pc.Ready? && t.done < k
       case Store(_) => t.pc.Loaded?
  }

  function Next(s: State, e: Event): State
    requires e.tid < |s.threads|
  {
    var t := s.threads[e.tid];
    match e
    case Load(i) => s.(threads := s.threads[i := t.(pc := Loaded(s.counter))])
    case Store(i) =>
      if t.pc.Loaded? then State(t.pc.value + 1, s.threads[i := Thread(t.done + 1, Ready)]) else s
  }

  predicate ValidRun(k: nat, s: State, es: seq<Event>)
    decreases |es|
  {
    es == [] || (Enabled(k, s, es[0]) && ValidRun(k, Next(s, es[0]), es[1..]))
  }

  function Exec(k: nat, s: State, es: seq<Event>): State
    requires ValidRun(k, s, es)
    decreases |es|
  {
    if es == [] then s else Exec(k, Next(s, es[0]), es[1..])
  }

  /** All loops have ended, so every join in main returns. */
  predicate Complete(k: nat, s: State) {
    forall i :: 0 <= i < |s.threads| ==> s.threads[i] == Thread(k, Ready)
  }

  /** Some interleaving makes main print v. */
  ghost predicate Possible(n: nat, k: nat, v: int) {
    exists es :: ValidRun(k, Start(n), es) && Complete(k, Exec(k, Start(n), es))
              && Exec(k, Start(n), es).counter == v
  }

  /** Increments finished by all threads together. */
  function Finished(ts: seq<Thread>): nat {
    if ts == [] then 0 else ts[0].done + Finished(ts[1..])
  }

  lemma {:induction false} FinishedUpdate(ts: seq<Thread>, i: nat, t: Thread)
    requires i < |ts|
    ensures Finished(ts[i := t]) == Finished(ts) - ts[i].done + t.done
    decreases |ts|
  {
    if i == 0 {
      assert ts[i := t][1..] == ts[1..];
    } else {
      assert ts[i := t][1..] == ts[1..][i - 1 := t];
      FinishedUpdate(ts[1..], i - 1, t);
    }
  }

  lemma {:induction false} FinishedTotal(ts: seq<Thread>, k: nat)
    requires forall i :: 0 <= i < |ts| ==> ts[i].done == k
    ensures Finished(ts) == |ts| * k
    decreases |ts|
  {
    if ts != [] {
      FinishedTotal(ts[1..], k);
      assert |ts| * k == k + (|ts| - 1) * k;
    }
  }

  lemma {:induction false} FinishedAtLeast(ts: seq<Thread>, i: nat)
    requires i < |ts|
    ensures Finished(ts) >= ts[i].done
    decreases |ts|
  {
    if i > 0 {
      FinishedAtLeast(ts[1..], i - 1);
    }
  }

  // ----- bounds that hold in every state of every run -----

  ghost predicate ThreadOk(k: nat, s: State, t: Thread) {
    && t.done <= k
    && (t.pc.Loaded? ==>
          && t.done < k
          && 0 <= t.pc.value <= Finished(s.threads)
          // a thread that has stored before loads at least 1
          && (t.done >= 1 ==> t.pc.value >= 1)
          && (|s.threads| == 1 ==> t.pc.value == s.counter))
  }

  ghost predicate Inv(k: nat, s: State) {
    && 0 <= s.counter <= Finished(s.threads)
    && (Finished(s.threads) >= 1 ==> s.counter >= 1)
    && (|s.threads| == 1 ==> s.counter == s.threads[0].done)
    && forall i :: 0 <= i < |s.threads| ==> ThreadOk(k, s, s.threads[i])
  }

  lemma StepInv(k: nat, s: State, e: Event)
    requires Inv(k, s) && Enabled(k, s, e)
    ensures Inv(k, Next(s, e))
    ensures e.Store? && s.threads[e.tid].done >= 1 ==> Next(s, e).counter >= 2
  {
    hide Finished;
    var t, t' := s.threads[e.tid], Next(s, e).threads[e.tid];
    assert ThreadOk(k, s, t);
    FinishedUpdate(s.threads, e.tid, t');
    FinishedAtLeast(s.threads, e.tid);
  }

  lemma {:induction false} RunInv(k: nat, s: State, es: seq<Event>)
    requires Inv(k, s) && ValidRun(k, s, es)
    ensures Inv(k, Exec(k, s, es)) && |Exec(k, s, es).threads| == |s.threads|
    decreases |es|
  {
    if es != [] {
      StepInv(k, s, es[0]);
      RunInv(k, Next(s, es[0]), es[1..]);
    }
  }

  /** The last step of a complete run is a store; with k >= 2 its thread had stored before its
      last load, so it loaded at least 1 and stores at least 2. */
  lemma {:induction false} LastStore(k: nat, s: State, es: seq<Event>)
    requires k >= 2 && Inv(k, s) && ValidRun(k, s, es) && es != [] && Complete(k, Exec(k, s, es))
    ensures Exec(k, s, es).counter >= 2
    decreases |es|
  {
    StepInv(k, s, es[0]);
    if |es| == 1 {
      assert es[1..] == [];
      var s' := Next(s, es[0]);
      assert Exec(k, s, es) == Exec(k, s', []) == s';
      assert es[0].tid < |s'.threads| && s'.threads[es[0].tid] == Thread(k, Ready);
    } else {
      LastStore(k, Next(s, es[0]), es[1..]);
    }
  }

  /** A thread is never blocked before its k increments are done, so a run that cannot go on is
      complete. */
  lemma NeverStuck(n: nat, k: nat, es: seq<Event>, i: nat)
    requires ValidRun(k, Start(n), es) && i < n
    ensures var s := Exec(k, Start(n), es);
      |s.threads| == n && (Enabled(k, s, Load(i)) || Enabled(k, s, Store(i)) <==> s.threads[i] != Thread(k, Ready))
  {
    StartInv(n, k);
    RunInv(k, Start(n), es);
    assert ThreadOk(k, Exec(k, Start(n), es), Exec(k, Start(n), es).threads[i]);
  }

  /** The least value main can print. */
  function Least(n: nat, k: nat): nat {
    if n == 1 then k else if k == 1 then 1 else 2
  }

  lemma StartInv(n: nat, k: nat)
    ensures Inv(k, Start(n)) && Finished(Start(n).threads) == 0
  {
    FinishedTotal(Start(n).threads, 0);
  }

  lemma Bounds(n: nat, k: nat, v: int)
    requires n >= 1 && k >= 1 && Possible(n, k, v)
    ensures Least(n, k) <= v <= n * k
  {
    var s := Start(n);
    var es :| ValidRun(k, s, es) && Complete(k, Exec(k, s, es)) && Exec(k, s, es).counter == v;
    StartInv(n, k);
    RunInv(k, s, es);
    var s' := Exec(k, s, es);
    FinishedTotal(s'.threads, k);
    assert s'.threads[0] == Thread(k, Ready);
    assert n * k >= k;
    if k >= 2 {
      assert es != [] by { assert s.threads[0].done == 0; }
      LastStore(k, s, es);
    }
  }

  // ----- runs that attain every value in between -----

  lemma {:induction false} Concat(k: nat, s: State, xs: seq<Event>, ys: seq<Event>)
    requires ValidRun(k, s, xs) && ValidRun(k, Exec(k, s, xs), ys)
    ensures ValidRun(k, s, xs + ys) && Exec(k, s, xs + ys) == Exec(k, Exec(k, s, xs), ys)
    decreases |xs|
  {
    if xs == [] {
      assert xs + ys == ys;
    } else {
      Concat(k, Next(s, xs[0]), xs[1..], ys);
      assert (xs + ys)[1..] == xs[1..] + ys;
    }
  }

  /** Extends the run xs by one event. */
  lemma Then(k: nat, s: State, xs: seq<Event>, e: Event)
    requires ValidRun(k, s, xs) && Enabled(k, Exec(k, s, xs), e)
    ensures ValidRun(k, s, xs + [e]) && Exec(k, s, xs + [e]) == Next(Exec(k, s, xs), e)
  {
    Concat(k, s, xs, [e]);
  }

  /** Extends the run xs by j uninterrupted increments of thread i. */
  lemma {:induction false} Solo(k: nat, s: State, xs: seq<Event>, i: nat, j: nat) returns (ys: seq<Event>)
    requires ValidRun(k, s, xs)
    requires var m := Exec(k, s, xs); i < |m.threads| && m.threads[i].pc.Ready? && m.threads[i].done + j <= k
    ensures ValidRun(k, s, ys)
    ensures var m := Exec(k, s, xs);
      Exec(k, s, ys) == State(m.counter + j, m.threads[i := Thread(m.threads[i].done + j, Ready)])
    decreases j
  {
    if j == 0 {
      ys := xs;
      assert Exec(k, s, xs).threads == Exec(k, s, xs).threads[i := Exec(k, s, xs).threads[i]];
    } else {
      Then(k, s, xs, Load(i));
      Then(k, s, xs + [Load(i)], Store(i));
      ys := Solo(k, s, xs + [Load(i)] + [Store(i)], i, j - 1);
    }
  }

  /** Increments the threads from lo on still have to make. */
  function Left(k: nat, ts: seq<Thread>, lo: nat): int
    decreases |ts| - lo
  {
    if lo >= |ts| then 0 else (k - ts[lo].done) + Left(k, ts, lo + 1)
  }

  lemma {:induction false} LeftFrame(k: nat, ts: seq<Thread>, us: seq<Thread>, lo: nat)
    requires |ts| == |us| && forall i :: lo <= i < |ts| ==> ts[i] == us[i]
    ensures Left(k, ts, lo) == Left(k, us, lo)
    decreases |ts| - lo
  {
    if lo < |ts| {
      LeftFrame(k, ts, us, lo + 1);
    }
  }

  lemma {:induction false} LeftFresh(k: nat, ts: seq<Thread>, lo: nat)
    requires lo <= |ts| && forall i :: lo <= i < |ts| ==> ts[i].done == 0
    ensures Left(k, ts, lo) == (|ts| - lo) * k
    decreases |ts| - lo
  {
    if lo < |ts| {
      LeftFresh(k, ts, lo + 1);
      assert (|ts| - lo) * k == k + (|ts| - (lo + 1)) * k;
    }
  }

  lemma {:induction false} LeftZero(k: nat, ts: seq<Thread>, lo: nat)
    requires Left(k, ts, lo) == 0 && forall i :: lo <= i < |ts| ==> ts[i].done <= k
    ensures forall i :: lo <= i < |ts| ==> ts[i].done == k
    decreases |ts| - lo
  {
    if lo < |ts| {
      LeftNonNegative(k, ts, lo + 1);
      LeftZero(k, ts, lo + 1);
    }
  }

  lemma {:induction false} LeftNonNegative(k: nat, ts: seq<Thread>, lo: nat)
    requires forall i :: lo <= i < |ts| ==> ts[i].done <= k
    ensures Left(k, ts, lo) >= 0
    decreases |ts| - lo
  {
    if lo < |ts| {
      LeftNonNegative(k, ts, lo + 1);
    }
  }

  ghost predicate Idle(k: nat, ts: seq<Thread>, lo: nat) {
    forall i :: lo <= i < |ts| ==> ts[i].pc.Ready? && ts[i].done <= k
  }

  /** Extends the run xs by r uninterrupted increments of the threads from lo on. */
  lemma {:induction false} Work(k: nat, s: State, xs: seq<Event>, lo: nat, r: nat) returns (ys: seq<Event>)
    requires ValidRun(k, s, xs)
    requires var m := Exec(k, s, xs); lo <= |m.threads| && Idle(k, m.threads, lo) && r <= Left(k, m.threads, lo)
    ensures ValidRun(k, s, ys)
    ensures var m, m' := Exec(k, s, xs), Exec(k, s, ys);
      && m'.counter == m.counter + r && |m'.threads| == |m.threads|
      && (forall i :: 0 <= i < lo ==> m'.threads[i] == m.threads[i])
      && Idle(k, m'.threads, lo) && Left(k, m'.threads, lo) == Left(k, m.threads, lo) - r
    decreases |Exec(k, s, xs).threads| - lo
  {
    var m := Exec(k, s, xs);
    if lo == |m.threads| {
      ys := xs;
    } else {
      var j := if k - m.threads[lo].done <= r then k - m.threads[lo].done else r;
      var zs := Solo(k, s, xs, lo, j);
      LeftFrame(k, m.threads, Exec(k, s, zs).threads, lo + 1);
      LeftNonNegative(k, m.threads, lo + 1);
      ys := Work(k, s, zs, lo + 1, r - j);
    }
  }

  /** Thread 0 loads 0 and sleeps while the others make r of their increments; its store wipes
      those out. */
  lemma WipeOut(n: nat, k: nat, r: nat) returns (es: seq<Event>)
    requires n >= 1 && k >= 1 && r <= Left(k, Start(n).threads, 1)
    ensures ValidRun(k, Start(n), es)
    ensures var m := Exec(k, Start(n), es);
      && |m.threads| == n && m.counter == 1 && m.threads[0] == Thread(1, Ready)
      && Idle(k, m.threads, 1) && Left(k, m.threads, 1) == Left(k, Start(n).threads, 1) - r
  {
    hide Left;
    var s := Start(n);
    Then(k, s, [], Load(0));
    es := [] + [Load(0)];
    LeftFrame(k, s.threads, Exec(k, s, es).threads, 1);
    es := Work(k, s, es, 1, r);
    var before := Exec(k, s, es).threads;
    Then(k, s, es, Store(0));
    es := es + [Store(0)];
    LeftFrame(k, before, Exec(k, s, es).threads, 1);
  }

  /** Everything after the wiped-out increments runs undisturbed. */
  lemma LoseSome(n: nat, k: nat, r: nat) returns (es: seq<Event>)
    requires n >= 1 && k >= 1 && r <= Left(k, Start(n).threads, 1)
    ensures ValidRun(k, Start(n), es) && Complete(k, Exec(k, Start(n), es))
    ensures Exec(k, Start(n), es).counter == k + Left(k, Start(n).threads, 1) - r
  {
    hide Left;
    var s := Start(n);
    es := WipeOut(n, k, r);
    var before := Exec(k, s, es).threads;
    es := Solo(k, s, es, 0, k - 1);
    LeftFrame(k, before, Exec(k, s, es).threads, 1);
    es := Work(k, s, es, 1, Left(k, s.threads, 1) - r);
    LeftZero(k, Exec(k, s, es).threads, 1);
  }

  /** Thread 0 loads 0; everybody else finishes, thread 1 all but its last increment; thread 0
      stores 1. */
  lemma AlmostAll(n: nat, k: nat) returns (es: seq<Event>)
    requires n >= 2 && k >= 2
    ensures ValidRun(k, Start(n), es)
    ensures var m := Exec(k, Start(n), es);
      && |m.threads| == n && m.counter == 1
      && m.threads[0] == Thread(1, Ready) && m.threads[1] == Thread(k - 1, Ready)
      && forall i :: 2 <= i < n ==> m.threads[i] == Thread(k, Ready)
  {
    hide Left;
    var s := Start(n);
    Then(k, s, [], Load(0));
    es := [] + [Load(0)];
    LeftNonNegative(k, Exec(k, s, es).threads, 2);
    es := Work(k, s, es, 2, Left(k, Exec(k, s, es).threads, 2));
    LeftZero(k, Exec(k, s, es).threads, 2);
    es := Solo(k, s, es, 1, k - 1);
    Then(k, s, es, Store(0));
    es := es + [Store(0)];
  }

  /** Then thread 1 loads 1; thread 0 makes j more increments; thread 1 stores 2; thread 0 makes
      the rest. */
  lemma LoseMost(n: nat, k: nat, j: nat) returns (es: seq<Event>)
    requires n >= 2 && k >= 2 && j <= k - 1
    ensures ValidRun(k, Start(n), es) && Complete(k, Exec(k, Start(n), es))
    ensures Exec(k, Start(n), es).counter == 2 + (k - 1 - j)
  {
    var s := Start(n);
    es := AlmostAll(n, k);
    Then(k, s, es, Load(1));
    es := es + [Load(1)];
    es := Solo(k, s, es, 0, j);
    Then(k, s, es, Store(1));
    es := es + [Store(1)];
    es := Solo(k, s, es, 0, k - 1 - j);
  }

  /** Exactly the values from Least(n, k) to n * k can be printed: with two or more threads and
      two or more increments each, every value from 2 up, and nothing else. */
  lemma PossibleIff(n: nat, k: nat, v: int)
    requires n >= 1 && k >= 1
    ensures Possible(n, k, v) <==> Least(n, k) <= v <= n * k
  {
    if Possible(n, k, v) {
      Bounds(n, k, v);
    } else if Least(n, k) <= v <= n * k {
      var es: seq<Event>;
      if v >= k {
        LeftFresh(k, Start(n).threads, 1);
        assert n * k == k + (n - 1) * k;
        es := LoseSome(n, k, n * k - v);
      } else {
        es := LoseMost(n, k, k + 1 - v);
      }
    }
  }
}
