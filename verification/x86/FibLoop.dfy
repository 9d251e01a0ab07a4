/** fib-loop/fib.s, and its agreement with the recursive routine. */
module FibLoop {
  import opened ByteMemory
  import opened Machine
  import opened Frames
  import opened Steps
  import FibRec

  const LOOP: nat := 2
  const EXIT: nat := 9

  const CODE: seq<Instr> := [
    MovImm(RAX, 0),
    MovImm(R8, 1),
    CmpImm(RDI, 0),
    Jle(EXIT),
    Dec(RDI),
    Mov(R9, RAX),
    Mov(RAX, R8),
    Add(R8, R9),
    Jmp(LOOP),
    Ret]

  function Value(n: int): nat {
    if n <= 0 then 0 else FibRec.Fib(n)
  }

  ghost predicate Entered(p: Program, s: State) {
    && p.Valid() && p.code == CODE && s.pc == At(0)
    && s.regs.rsp + 8 <= W64 && Mapped(s.mem, s.regs.rsp, s.regs.rsp + 8)
  }

  /** Returned with the result in rax; memory is not written at all, and of the registers only
      rax, rdi, rsp and the scratch registers r8 and r9 differ. */
  ghost predicate ReturnedFrom(p: Program, s: State, s': State) {
    && s'.pc == Resolve(p, Word(s.mem, s.regs.rsp))
    && s'.mem == s.mem
    && s'.regs == s.regs.(rax := Wrap64(Value(Signed64(s.regs.rdi))), rsp := Wrap64(s.regs.rsp + 8),
         rdi := s'.regs.rdi, r8 := s'.regs.r8, r9 := s'.regs.r9)
  }

  /** At .loop: rax and r8 hold two consecutive Fibonacci numbers, wrapped. */
  ghost predicate AtLoop(p: Program, s: State, i: nat) {
    && p.Valid() && p.code == CODE && s.pc == At(LOOP)
    && s.regs.rax == Wrap64(FibRec.Fib(i)) && s.regs.r8 == Wrap64(FibRec.Fib(i + 1))
  }

  lemma FibNext(i: nat)
    ensures FibRec.Fib(i + 2) == FibRec.Fib(i + 1) + FibRec.Fib(i)
  {
  }

  /** dec rdi; mov r9, rax; mov rax, r8; add r8, r9; jmp .loop */
  lemma Body(p: Program, s: State)
    requires p.Valid() && p.code == CODE && s.pc == At(4)
    ensures var r, s' := s.regs, Run(p, s, 5);
      s' == State(r.(rdi := Wrap64(r.rdi - 1), r9 := r.rax, rax := r.r8, r8 := Wrap64(r.r8 + r.rax)),
                  s'.flags, s.mem, At(LOOP))
  {
    hide Step, Flags64, Wrap64;
    DecStep(p, s, 4, RDI);
    var s1 := Step(p, s);
    MovStep(p, s1, 5, R9, RAX);
    var s2 := Step(p, s1);
    MovStep(p, s2, 6, RAX, R8);
    var s3 := Step(p, s2);
    AddStep(p, s3, 7, R8, R9);
    var s4 := Step(p, s3);
    JumpStep(p, s4, 8, Jmp(LOOP));
    var s5 := Step(p, s4);
    assert Run(p, s, 5) == Run(p, s1, 4) == Run(p, s2, 3) == Run(p, s3, 2) == Run(p, s4, 1) == Run(p, s5, 0);
  }

  lemma Iteration(p: Program, s: State, i: nat)
    requires AtLoop(p, s, i) && Signed64(s.regs.rdi) > 0
    ensures var s' := Run(p, s, 7);
      && AtLoop(p, s', i + 1) && s'.mem == s.mem
      && s'.regs == s.regs.(rdi := s.regs.rdi - 1, rax := s'.regs.rax, r8 := s'.regs.r8, r9 := s'.regs.r9)
  {
    hide Step, Flags64, Wrap64, Signed64, FibRec.Fib;
    DecOfPositive(s.regs.rdi, 0);
    CmpImmStep(p, s, 2, RDI, 0);
    var s1 := Step(p, s);
    JumpStep(p, s1, 3, Jle(EXIT));
    var s2 := Step(p, s1);
    assert Run(p, s, 7) == Run(p, s1, 6) == Run(p, s2, 5);
    Body(p, s2);
    WrapSum(FibRec.Fib(i + 1), FibRec.Fib(i));
    FibNext(i);
  }

  lemma Leave(p: Program, s: State, i: nat)
    requires AtLoop(p, s, i) && Signed64(s.regs.rdi) <= 0
    requires s.regs.rsp + 8 <= W64 && Mapped(s.mem, s.regs.rsp, s.regs.rsp + 8)
    ensures var s' := Run(p, s, 3);
      s' == State(s.regs.(rsp := Wrap64(s.regs.rsp + 8)), s'.flags, s.mem, Resolve(p, Word(s.mem, s.regs.rsp)))
  {
    hide Load, MappedBytes, Resolve, Word, Step, Flags64, Signed64;
    SignedFlags(Signed64(s.regs.rdi)) by { SignedRange(s.regs.rdi); }
    CmpImmStep(p, s, 2, RDI, 0);
    var s1 := Step(p, s);
    JumpStep(p, s1, 3, Jle(EXIT));
    var s2 := Step(p, s1);
    RetStep(p, s2, EXIT);
    assert Run(p, s, 3) == Run(p, s1, 2) == Run(p, s2, 1) == Run(p, Step(p, s2), 0);
  }

  lemma {:induction false} Loop(p: Program, s: State, i: nat, m: nat) returns (k: nat)
    requires AtLoop(p, s, i) && m == (if Signed64(s.regs.rdi) > 0 then Signed64(s.regs.rdi) else 0)
    requires s.regs.rsp + 8 <= W64 && Mapped(s.mem, s.regs.rsp, s.regs.rsp + 8)
    ensures var s' := Run(p, s, k);
      && s'.pc == Resolve(p, Word(s.mem, s.regs.rsp)) && s'.mem == s.mem
      && s'.regs == s.regs.(rax := Wrap64(FibRec.Fib(i + m)), rsp := Wrap64(s.regs.rsp + 8),
           rdi := s'.regs.rdi, r8 := s'.regs.r8, r9 := s'.regs.r9)
    decreases m
  {
    hide Load, MappedBytes, Resolve, Word, Step, Run, FibRec.Fib;
    if m == 0 {
      Leave(p, s, i);
      k := 3;
    } else {
      Iteration(p, s, i);
      var j := Loop(p, Run(p, s, 7), i + 1, m - 1);
      RunSplit(p, s, 7, j);
      k := 7 + j;
    }
  }

  lemma CallReturns(p: Program, s: State) returns (k: nat)
    requires Entered(p, s)
    ensures ReturnedFrom(p, s, Run(p, s, k))
  {
    hide Load, MappedBytes, Resolve, Word, Step;
    MovImmStep(p, s, 0, RAX, 0);
    var s1 := Step(p, s);
    MovImmStep(p, s1, 1, R8, 1);
    var s2 := Step(p, s1);
    assert Run(p, s, 2) == Run(p, s1, 1) == Run(p, s2, 0);
    var n := Signed64(s.regs.rdi);
    var j := Loop(p, s2, 0, if n > 0 then n else 0);
    RunSplit(p, s, 2, j);
    k := 2 + j;
  }

  /** For every signed 64-bit n the loop terminates with rax = F(n) mod 2^64, 0 for n <= 0,
      using no stack beyond the return address. */
  lemma Correct(p: Program, s: State)
    requires Entered(p, s)
    ensures exists k: nat :: ReturnedFrom(p, s, Run(p, s, k))
  {
    var k := CallReturns(p, s);
  }

  /** The two programs agree up to a shift of the index: the recursive routine on n + 1 returns
      what the loop returns on n, for every n below 2^63 - 1. */
  lemma AgreesWithRecursive(p: Program, s: State, q: Program, t: State)
    requires Entered(p, s) && FibRec.Entered(q, t) && FibRec.Room(t)
    requires Signed64(t.regs.rdi) == Signed64(s.regs.rdi) + 1
    ensures exists j: nat, k: nat ::
              && ReturnedFrom(p, s, Run(p, s, j)) && FibRec.ReturnedFrom(q, t, Run(q, t, k))
              && Run(p, s, j).regs.rax == Run(q, t, k).regs.rax
  {
    var j := CallReturns(p, s);
    var k := FibRec.CallReturns(q, t);
    assert Value(Signed64(s.regs.rdi)) == FibRec.Value(Signed64(t.regs.rdi));
    assert Run(p, s, j).regs.rax == Run(q, t, k).regs.rax;
  }
}
