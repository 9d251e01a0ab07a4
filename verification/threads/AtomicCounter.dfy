/** no-sync-fix.c: the increment of an _Atomic int is one step. */
module AtomicCounter {
  import R = RacyCounter

  /** The threads' numbers of finished increments, and the shared counter. */
  datatype State = State(counter: int, done: seq<nat>)

  function Start(n: nat): State {
    State(0, seq(n, i => 0))
  }

  predicate Enabled(k: nat, s: State, i: nat) {
    i < |s.done| && s.done[i] < k
  }

  function Next(s: State, i: nat): State
    requires i < |s.done|
  {
    State(s.counter + 1, s.done[i := s.done[i] + 1])
  }

  predicate ValidRun(k: nat, s: State, es: seq<nat>)
    decreases |es|
  {
    es == [] || (Enabled(k, s, es[0]) && ValidRun(k, Next(s, es[0]), es[1..]))
  }

  function Exec(k: nat, s: State, es: seq<nat>): State
    requires ValidRun(k, s, es)
    decreases |es|
  {
    if es == [] then s else Exec(k, Next(s, es[0]), es[1..])
  }

  predicate Complete(k: nat, s: State) {
    forall i :: 0 <= i < |s.done| ==> s.done[i] == k
  }

  function Sum(done: seq<nat>): nat {
    if done == [] then 0 else done[0] + Sum(done[1..])
  }

  lemma {:induction false} SumUpdate(done: seq<nat>, i: nat, v: nat)
    requires i < |done|
    ensures Sum(done[i := v]) == Sum(done) - done[i] + v
    decreases |done|
  {
    if i == 0 {
      assert done[i := v][1..] == done[1..];
    } else {
      assert done[i := v][1..] == done[1..][i - 1 := v];
      SumUpdate(done[1..], i - 1, v);
    }
  }

  lemma {:induction false} SumTotal(done: seq<nat>, k: nat)
    requires forall i :: 0 <= i < |done| ==> done[i] == k
    ensures Sum(done) == |done| * k
    decreases |done|
  {
    if done != [] {
      SumTotal(done[1..], k);
      assert |done| * k == k + (|done| - 1) * k;
    }
  }

  /** No increment is ever lost. */
  lemma {:induction false} CountsIncrements(k: nat, s: State, es: seq<nat>)
    requires ValidRun(k, s, es) && s.counter == Sum(s.done)
    ensures var s' := Exec(k, s, es); s'.counter == Sum(s'.done) && |s'.done| == |s.done|
    decreases |es|
  {
    if es != [] {
      SumUpdate(s.done, es[0], s.done[es[0]] + 1);
      CountsIncrements(k, Next(s, es[0]), es[1..]);
    }
  }

  /** Every complete run prints n * k, whatever the interleaving. */
  lemma AlwaysTotal(n: nat, k: nat, es: seq<nat>)
    requires ValidRun(k, Start(n), es) && Complete(k, Exec(k, Start(n), es))
    ensures Exec(k, Start(n), es).counter == n * k
  {
    SumTotal(Start(n).done, 0);
    CountsIncrements(k, Start(n), es);
    SumTotal(Exec(k, Start(n), es).done, k);
  }

  /** Each thread's own loop is all that can stop it: until its k increments are done it can move,
      and so a run that cannot go on is complete. */
  lemma {:induction false} OnlyDoneThreadsStop(n: nat, k: nat, s: State, es: seq<nat>)
    requires |s.done| == n && (forall i :: 0 <= i < n ==> s.done[i] <= k) && ValidRun(k, s, es)
    ensures var s' := Exec(k, s, es);
      && |s'.done| == n
      && (forall i :: 0 <= i < n ==> s'.done[i] <= k && (Enabled(k, s', i) <==> s'.done[i] != k))
      && ((forall i :: !Enabled(k, s', i)) ==> Complete(k, s'))
    decreases |es|
  {
    if es != [] {
      OnlyDoneThreadsStop(n, k, Next(s, es[0]), es[1..]);
    }
  }

  /** Every run of n threads can be continued to a complete one, and a complete one has n * k
      increments. */
  lemma {:induction false} Completion(k: nat, s: State) returns (es: seq<nat>)
    requires forall i :: 0 <= i < |s.done| ==> s.done[i] <= k
    ensures ValidRun(k, s, es) && Complete(k, Exec(k, s, es)) && |es| == |s.done| * k - Sum(s.done)
    decreases |s.done| * k - Sum(s.done)
  {
    SumAtMost(s.done, k);
    if i :| 0 <= i < |s.done| && s.done[i] != k {
      SumUpdate(s.done, i, s.done[i] + 1);
      SumAtMost(Next(s, i).done, k);
      var rest := Completion(k, Next(s, i));
      es := [i] + rest;
      assert es[1..] == rest;
    } else {
      es := [];
      SumTotal(s.done, k);
    }
  }

  lemma {:induction false} SumAtMost(done: seq<nat>, k: nat)
    requires forall i :: 0 <= i < |done| ==> done[i] <= k
    ensures Sum(done) <= |done| * k
    decreases |done|
  {
    if done != [] {
      SumAtMost(done[1..], k);
      assert |done| * k == k + (|done| - 1) * k;
    }
  }

  // ----- the fix keeps exactly the uninterrupted runs of the racy program -----

  function Expand(es: seq<nat>): seq<R.Event> {
    if es == [] then [] else [R.Load(es[0]), R.Store(es[0])] + Expand(es[1..])
  }

  function Racy(s: State): R.State {
    R.State(s.counter, seq(|s.done|, i requires 0 <= i < |s.done| => R.Thread(s.done[i], R.Ready)))
  }

  /** Doing each atomic increment as an adjacent load and store is a run of no-sync.c with the
      same result. */
  lemma {:induction false} ExpandIsRacyRun(k: nat, s: State, es: seq<nat>)
    requires ValidRun(k, s, es)
    ensures R.ValidRun(k, Racy(s), Expand(es)) && R.Exec(k, Racy(s), Expand(es)) == Racy(Exec(k, s, es))
    decreases |es|
  {
    if es != [] {
      var i := es[0];
      var r := Racy(s);
      var pair := [R.Load(i), R.Store(i)];
      var r1 := R.Next(r, pair[0]);
      assert R.Next(r1, pair[1]) == Racy(Next(s, i));
      assert pair[1..] == [R.Store(i)] && pair[1..][1..] == [];
      assert R.ValidRun(k, r1, pair[1..]) && R.Exec(k, r1, pair[1..]) == R.Next(r1, pair[1]);
      ExpandIsRacyRun(k, Next(s, i), es[1..]);
      R.Concat(k, r, pair, Expand(es[1..]));
    }
  }
}
