/** fib-rec/fib.s: the doubly recursive routine, with its frames on a real stack. */
module FibRec {
  import opened ByteMemory
  import opened Machine
  import opened Frames
  import opened Steps

  const RETURN: nat := 14
  const RETURN1: nat := 17

  const CODE: seq<Instr> := [
    Push(R12),
    Push(R13),
    MovImm(RAX, 0),
    CmpImm(RDI, 2),
    Jl(RETURN),
    Je(RETURN1),
    Dec(RDI),
    Mov(R12, RDI),
    Call(0),
    Mov(R13, RAX),
    Mov(RDI, R12),
    Dec(RDI),
    Call(0),
    Add(RAX, R13),
    Pop(R13),
    Pop(R12),
    Ret,
    Pop(R13),
    Pop(R12),
    MovImm(RAX, 1),
    Ret]

  /** F(0) = 0, F(1) = 1, F(k) = F(k-1) + F(k-2). */
  function Fib(k: nat): nat {
    if k < 2 then k else Fib(k - 1) + Fib(k - 2)
  }

  /** What the routine computes, before wrapping: F(n - 1), and 0 for n <= 1. */
  function Value(n: int): nat {
    if n <= 1 then 0 else Fib(n - 1)
  }

  /** Bytes of stack used below the return address. */
  function Depth(n: int): nat {
    16 + 24 * (if n <= 2 then 0 else n - 2)
  }

  ghost predicate Entered(p: Program, s: State) {
    && p.Valid() && p.code == CODE && s.pc == At(0)
    && s.regs.rsp + 8 <= W64
    && Mapped(s.mem, s.regs.rsp, s.regs.rsp + 8)
  }

  /** Enough stack: everything below rsp that the call will use is mapped. */
  ghost predicate Room(s: State) {
    var n := Signed64(s.regs.rdi);
    Depth(n) <= s.regs.rsp && Mapped(s.mem, s.regs.rsp - Depth(n), s.regs.rsp)
  }

  /** push r12; push r13; mov rax, 0; cmp rdi, 2 */
  lemma Prologue(p: Program, s: State) returns (s': State)
    requires Entered(p, s) && 16 <= s.regs.rsp && Mapped(s.mem, s.regs.rsp - 16, s.regs.rsp)
    ensures s' == Run(p, s, 4)
    ensures var sp := s.regs.rsp;
      && s' == State(s.regs.(rsp := sp - 16, rax := 0), Flags64(Signed64(s.regs.rdi) - 2), s'.mem, At(4))
      && SameOutside(s.mem, s'.mem, sp - 16, sp)
      && Word(s'.mem, sp - 8) == s.regs.r12 && Word(s'.mem, sp - 16) == s.regs.r13
  {
    hide Load, Store, MappedBytes, AddrOf, Step, PushValue, Flags64, Signed64, Word;
    PushStep(p, s, 0, R12);
    var s1 := Step(p, s);
    PushSlot(s, s.regs.r12, At(1));
    PushStep(p, s1, 1, R13);
    var s2 := Step(p, s1);
    PushSlot(s1, s.regs.r13, At(2));
    WordFrame(s1.mem, s2.mem, s.regs.rsp - 16, s.regs.rsp - 8, s.regs.rsp - 8);
    MovImmStep(p, s2, 2, RAX, 0);
    var s3 := Step(p, s2);
    CmpImmStep(p, s3, 3, RDI, 2);
    s' := Step(p, s3);
    assert Run(p, s, 4) == Run(p, s1, 3) == Run(p, s2, 2) == Run(p, s3, 1) == Run(p, s', 0);
  }

  /** jl, je not taken; dec rdi; mov r12, rdi */
  lemma ToCall(p: Program, s: State) returns (s': State)
    requires p.Valid() && p.code == CODE && s.pc == At(4)
    requires s.flags == Flags64(Signed64(s.regs.rdi) - 2) && Signed64(s.regs.rdi) > 2
    ensures s' == Run(p, s, 4)
    ensures var m := s.regs.rdi - 1; s' == State(s.regs.(rdi := m, r12 := m), s'.flags, s.mem, At(8))
  {
    hide Step, Flags64, Signed64, Wrap64;
    DecOfPositive(s.regs.rdi, 2);
    JumpStep(p, s, 4, Jl(RETURN));
    var s1 := Step(p, s);
    JumpStep(p, s1, 5, Je(RETURN1));
    var s2 := Step(p, s1);
    DecStep(p, s2, 6, RDI);
    var s3 := Step(p, s2);
    MovStep(p, s3, 7, R12, RDI);
    s' := Step(p, s3);
    assert Run(p, s, 4) == Run(p, s1, 3) == Run(p, s2, 2) == Run(p, s3, 1) == Run(p, s', 0);
  }

  /** jl, je not taken; dec rdi; mov r12, rdi; call fib */
  lemma Descend(p: Program, s: State) returns (s': State)
    requires p.Valid() && p.code == CODE && s.pc == At(4)
    requires s.flags == Flags64(Signed64(s.regs.rdi) - 2) && Signed64(s.regs.rdi) > 2
    requires 8 <= s.regs.rsp && Mapped(s.mem, s.regs.rsp - 8, s.regs.rsp)
    ensures s' == Run(p, s, 5)
    ensures var sp, m := s.regs.rsp, s.regs.rdi - 1;
      && s' == State(s.regs.(rsp := sp - 8, rdi := m, r12 := m), s'.flags, s'.mem, At(0))
      && SameOutside(s.mem, s'.mem, sp - 8, sp)
      && Word(s'.mem, sp - 8) == AddrOf(p, 9)
  {
    hide AddrOf, Step, PushValue, Flags64, Signed64, Word;
    var s4 := ToCall(p, s);
    CallStep(p, s4, 8, 0);
    s' := Step(p, s4);
    PushSlot(s4, AddrOf(p, 9), At(0));
    RunSplit(p, s, 4, 1);
    assert Run(p, s4, 1) == Run(p, s', 0);
  }

  /** mov r13, rax; mov rdi, r12; dec rdi; call fib */
  lemma Second(p: Program, s: State) returns (s': State)
    requires p.Valid() && p.code == CODE && s.pc == At(9) && s.regs.r12 > 0
    requires 8 <= s.regs.rsp && Mapped(s.mem, s.regs.rsp - 8, s.regs.rsp)
    ensures s' == Run(p, s, 4)
    ensures var sp := s.regs.rsp;
      && s' == State(s.regs.(rsp := sp - 8, rdi := s.regs.r12 - 1, r13 := s.regs.rax), s'.flags, s'.mem, At(0))
      && SameOutside(s.mem, s'.mem, sp - 8, sp)
      && Word(s'.mem, sp - 8) == AddrOf(p, 13)
  {
    hide Load, Store, MappedBytes, AddrOf, Step, PushValue, Flags64, Word;
    MovStep(p, s, 9, R13, RAX);
    var s1 := Step(p, s);
    MovStep(p, s1, 10, RDI, R12);
    var s2 := Step(p, s1);
    DecStep(p, s2, 11, RDI);
    var s3 := Step(p, s2);
    CallStep(p, s3, 12, 0);
    s' := Step(p, s3);
    PushSlot(s3, AddrOf(p, 13), At(0));
    assert Run(p, s, 4) == Run(p, s1, 3) == Run(p, s2, 2) == Run(p, s3, 1) == Run(p, s', 0);
  }

  /** The common exit: pop r13; pop r12; ret */
  lemma Epilogue(p: Program, s: State)
    requires p.Valid() && p.code == CODE && s.pc == At(RETURN)
    requires s.regs.rsp + 24 <= W64 && Mapped(s.mem, s.regs.rsp, s.regs.rsp + 24)
    ensures var sp, s' := s.regs.rsp, Run(p, s, 3);
      && s' == State(s.regs.(rsp := Wrap64(sp + 24), r13 := Word(s.mem, sp), r12 := Word(s.mem, sp + 8)),
           s'.flags, s.mem, Resolve(p, Word(s.mem, sp + 16)))
  {
    hide Load, MappedBytes, Resolve, Word, Step;
    PopStep(p, s, 14, R13);
    var s1 := Step(p, s);
    PopStep(p, s1, 15, R12);
    var s2 := Step(p, s1);
    RetStep(p, s2, 16);
    var s3 := Step(p, s2);
    assert Run(p, s, 3) == Run(p, s1, 2) == Run(p, s2, 1) == Run(p, s3, 0);
  }

  /** add rax, r13, then the common exit */
  lemma AddAndExit(p: Program, s: State)
    requires p.Valid() && p.code == CODE && s.pc == At(13)
    requires s.regs.rsp + 24 <= W64 && Mapped(s.mem, s.regs.rsp, s.regs.rsp + 24)
    ensures var sp, s' := s.regs.rsp, Run(p, s, 4);
      && s' == State(s.regs.(rsp := Wrap64(sp + 24), r13 := Word(s.mem, sp), r12 := Word(s.mem, sp + 8),
           rax := Wrap64(s.regs.rax + s.regs.r13)), s'.flags, s.mem, Resolve(p, Word(s.mem, sp + 16)))
  {
    hide Load, MappedBytes, Resolve, Word, Step;
    AddStep(p, s, 13, RAX, R13);
    var s1 := Step(p, s);
    Epilogue(p, s1);
    assert Run(p, s, 4) == Run(p, s1, 3);
  }

  /** pop r13; pop r12; mov rax, 1; ret */
  lemma Epilogue1(p: Program, s: State)
    requires p.Valid() && p.code == CODE && s.pc == At(RETURN1)
    requires s.regs.rsp + 24 <= W64 && Mapped(s.mem, s.regs.rsp, s.regs.rsp + 24)
    ensures var sp, s' := s.regs.rsp, Run(p, s, 4);
      && s' == State(s.regs.(rsp := Wrap64(sp + 24), r13 := Word(s.mem, sp), r12 := Word(s.mem, sp + 8), rax := 1),
           s'.flags, s.mem, Resolve(p, Word(s.mem, sp + 16)))
  {
    hide Load, MappedBytes, Resolve, Word, Step;
    PopStep(p, s, 17, R13);
    var s1 := Step(p, s);
    PopStep(p, s1, 18, R12);
    var s2 := Step(p, s1);
    MovImmStep(p, s2, 19, RAX, 1);
    var s3 := Step(p, s2);
    RetStep(p, s3, 20);
    var s4 := Step(p, s3);
    assert Run(p, s, 4) == Run(p, s1, 3) == Run(p, s2, 2) == Run(p, s3, 1) == Run(p, s4, 0);
  }

  /** s' is s returned to its caller: the result in rax, rsp popped, every other register except
      rdi as before, and memory changed within Depth(n) bytes below the entry rsp only. */
  ghost predicate ReturnedFrom(p: Program, s: State, s': State) {
    var sp, n := s.regs.rsp, Signed64(s.regs.rdi);
    && s'.pc == Resolve(p, Word(s.mem, sp))
    && s'.regs == s.regs.(rax := Wrap64(Value(n)), rsp := Wrap64(sp + 8), rdi := s'.regs.rdi)
    && SameOutside(s.mem, s'.mem, sp - Depth(n), sp)
  }

  /** jl and je after the prologue, for n <= 2. */
  lemma BaseBranch(p: Program, s: State) returns (k: nat)
    requires p.Valid() && p.code == CODE && s.pc == At(4)
    requires s.flags == Flags64(Signed64(s.regs.rdi) - 2) && Signed64(s.regs.rdi) <= 2
    ensures Run(p, s, k) == s.(pc := At(if Signed64(s.regs.rdi) < 2 then RETURN else RETURN1))
  {
    hide Step, Flags64, Signed64;
    SignedFlags(Signed64(s.regs.rdi) - 2) by { SignedRange(s.regs.rdi); }
    JumpStep(p, s, 4, Jl(RETURN));
    var s1 := Step(p, s);
    if Signed64(s.regs.rdi) < 2 {
      k := 1;
      assert Run(p, s, 1) == Run(p, s1, 0);
    } else {
      JumpStep(p, s1, 5, Je(RETURN1));
      assert Run(p, s, 2) == Run(p, s1, 1) == Run(p, Step(p, s1), 0);
      k := 2;
    }
  }

  lemma Base(p: Program, s: State) returns (k: nat)
    requires Entered(p, s) && Room(s) && Signed64(s.regs.rdi) <= 2
    ensures ReturnedFrom(p, s, Run(p, s, k))
  {
    hide Load, Resolve, Word, Step, Run;
    var sp, n := s.regs.rsp, Signed64(s.regs.rdi);
    var s1 := Prologue(p, s);
    WordFrame(s.mem, s1.mem, sp - 16, sp, sp);
    var j := BaseBranch(p, s1);
    RunSplit(p, s, 4, j);
    var s2 := Run(p, s1, j);
    SameTrans(s.mem, s1.mem, s1.mem, sp - 16, sp, sp, sp);
    if n < 2 {
      Epilogue(p, s2);
      RunSplit(p, s, 4 + j, 3);
      k := 4 + j + 3;
    } else {
      Epilogue1(p, s2);
      RunSplit(p, s, 4 + j, 4);
      k := 4 + j + 4;
    }
  }

  lemma ValueStep(n: int)
    requires n > 2
    ensures Value(n) == Value(n - 1) + Value(n - 2)
  {
  }

  /** From the entry to the entry of the first inner call. */
  lemma ToFirst(p: Program, s: State) returns (s2: State)
    requires Entered(p, s) && Signed64(s.regs.rdi) > 2
    requires Depth(Signed64(s.regs.rdi)) <= s.regs.rsp && Mapped(s.mem, s.regs.rsp - 24, s.regs.rsp)
    ensures s2 == Run(p, s, 9) && Entered(p, s2) && (Room(s2) <==> Room(s))
    ensures var sp, m := s.regs.rsp, s.regs.rdi - 1;
      && s2.regs == s.regs.(rax := 0, rsp := sp - 24, rdi := m, r12 := m)
      && SameOutside(s.mem, s2.mem, sp - 24, sp)
      && Word(s2.mem, sp - 8) == s.regs.r12 && Word(s2.mem, sp - 16) == s.regs.r13
      && Word(s2.mem, sp - 24) == AddrOf(p, 9)
  {
    hide Load, Store, MappedBytes, Pow256, Resolve, AddrOf, Step, Word, Run;
    var sp := s.regs.rsp;
    var s1 := Prologue(p, s);
    s2 := Descend(p, s1);
    RunSplit(p, s, 4, 5);
    WordFrame(s1.mem, s2.mem, sp - 24, sp - 16, sp - 8);
    WordFrame(s1.mem, s2.mem, sp - 24, sp - 16, sp - 16);
    SameTrans(s.mem, s1.mem, s2.mem, sp - 16, sp, sp - 24, sp - 16);
    SameTrans(s2.mem, s1.mem, s.mem, sp - 24, sp - 16, sp - 16, sp);
  }

  /** From the return of the first inner call to the entry of the second. */
  lemma ToSecond(p: Program, s2: State, s3: State) returns (s4: State)
    requires Entered(p, s2) && Room(s2) && Signed64(s2.regs.rdi) > 1 && s2.regs.r12 == s2.regs.rdi
    requires s2.regs.rsp + 32 <= W64 && Mapped(s2.mem, s2.regs.rsp, s2.regs.rsp + 32)
    requires ReturnedFrom(p, s2, s3) && Word(s2.mem, s2.regs.rsp) == AddrOf(p, 9)
    ensures s4 == Run(p, s3, 4) && Entered(p, s4) && Room(s4)
    ensures var sp, n := s2.regs.rsp, Signed64(s2.regs.rdi);
      && s4.regs == s2.regs.(rax := Wrap64(Value(n)), rdi := s2.regs.rdi - 1, r13 := Wrap64(Value(n)))
      && SameOutside(s2.mem, s4.mem, sp - Depth(n), sp + 8)
      && Word(s4.mem, sp) == AddrOf(p, 13)
  {
    hide Load, Store, MappedBytes, Pow256, Resolve, AddrOf, Step, Word, Run, Value;
    var sp, n := s2.regs.rsp, Signed64(s2.regs.rdi);
    ResolveBack(p, 9);
    SameTrans(s2.mem, s2.mem, s3.mem, sp, sp, sp - Depth(n), sp);
    s4 := Second(p, s3);
    SameTrans(s2.mem, s3.mem, s4.mem, sp - Depth(n), sp, sp, sp + 8);
  }

  /** From the return of the second inner call to the caller. */
  lemma ToCaller(p: Program, s4: State, s5: State)
    requires Entered(p, s4) && s4.regs.rsp + 32 <= W64 && Mapped(s4.mem, s4.regs.rsp, s4.regs.rsp + 32)
    requires ReturnedFrom(p, s4, s5) && Word(s4.mem, s4.regs.rsp) == AddrOf(p, 13)
    ensures var sp, n, s' := s4.regs.rsp, Signed64(s4.regs.rdi), Run(p, s5, 4);
      && s'.regs == s4.regs.(rsp := Wrap64(sp + 32), r13 := Word(s4.mem, sp + 8), r12 := Word(s4.mem, sp + 16),
           rax := Wrap64(Wrap64(Value(n)) + s4.regs.r13), rdi := s'.regs.rdi)
      && s'.mem == s5.mem && s'.pc == Resolve(p, Word(s4.mem, sp + 24))
  {
    hide Load, Store, MappedBytes, Pow256, Resolve, AddrOf, Step, Word, Run, Value;
    var sp, n := s4.regs.rsp, Signed64(s4.regs.rdi);
    ResolveBack(p, 13);
    SameTrans(s4.mem, s4.mem, s5.mem, sp, sp, sp - Depth(n), sp);
    WordFrame(s4.mem, s5.mem, sp - Depth(n), sp, sp + 8);
    WordFrame(s4.mem, s5.mem, sp - Depth(n), sp, sp + 16);
    WordFrame(s4.mem, s5.mem, sp - Depth(n), sp, sp + 24);
    AddAndExit(p, s5);
  }

  /** To the first call, through it, to the second, through it, and to the caller. */
  lemma InPieces(p: Program, s: State, i: nat, j: nat)
    ensures Run(p, s, 17 + i + j) == Run(p, Run(p, Run(p, Run(p, Run(p, s, 9), i), 4), j), 4)
  {
    hide Run;
    RunSplit(p, s, 9, i);
    RunSplit(p, s, 9 + i, 4);
    RunSplit(p, s, 13 + i, j);
    RunSplit(p, s, 13 + i + j, 4);
  }

  /** By recursion on n: k instructions take a call to its return. */
  lemma {:induction false} CallReturns(p: Program, s: State) returns (k: nat)
    requires Entered(p, s) && Room(s)
    ensures ReturnedFrom(p, s, Run(p, s, k))
    decreases Depth(Signed64(s.regs.rdi)), Signed64(s.regs.rdi)
  {
    hide Load, Store, MappedBytes, Pow256, Resolve, AddrOf, Step, Word, Run, Value, SameOutside, Wrap64;
    var sp, n := s.regs.rsp, Signed64(s.regs.rdi);
    if n <= 2 {
      k := Base(p, s);
    } else {
      var s2 := ToFirst(p, s);
      SameTrans(s.mem, s.mem, s2.mem, sp, sp, sp - 24, sp);
      var i := CallReturns(p, s2);
      var s3 := Run(p, s2, i);
      assert Mapped(s.mem, sp - 24, sp + 8);
      var s4 := ToSecond(p, s2, s3);
      var j := CallReturns(p, s4);
      var s5 := Run(p, s4, j);
      SameTrans(s2.mem, s2.mem, s4.mem, sp, sp, sp - 24 - Depth(n - 1), sp - 16);
      ToCaller(p, s4, s5);
      InPieces(p, s, i, j);
      k := 17 + i + j;
      Assembled(p, s, s2, s4, s5, Run(p, s5, 4));
    }
  }

  /** The pieces put together. */
  lemma Assembled(p: Program, s: State, s2: State, s4: State, s5: State, s': State)
    requires Entered(p, s) && Room(s) && Signed64(s.regs.rdi) > 2
    requires var sp, m := s.regs.rsp, s.regs.rdi - 1;
      && s2.regs == s.regs.(rax := 0, rsp := sp - 24, rdi := m, r12 := m)
      && SameOutside(s.mem, s2.mem, sp - 24, sp)
      && Word(s2.mem, sp - 8) == s.regs.r12 && Word(s2.mem, sp - 16) == s.regs.r13
      && s4.regs == s2.regs.(rax := Wrap64(Value(m)), rdi := m - 1, r13 := Wrap64(Value(m)))
      && SameOutside(s2.mem, s4.mem, sp - 24 - Depth(m), sp - 16)
      && SameOutside(s4.mem, s5.mem, sp - 24 - Depth(m - 1), sp - 24)
      && s'.regs == s4.regs.(rsp := Wrap64(sp + 8), r13 := Word(s4.mem, sp - 16), r12 := Word(s4.mem, sp - 8),
           rax := Wrap64(Wrap64(Value(m - 1)) + s4.regs.r13), rdi := s'.regs.rdi)
      && s'.mem == s5.mem && s'.pc == Resolve(p, Word(s4.mem, sp))
    ensures ReturnedFrom(p, s, s')
  {
    hide Load, Store, MappedBytes, Pow256, Resolve, AddrOf, Step, Word, Run, Value;
    var sp, n := s.regs.rsp, s.regs.rdi;
    ValueStep(n);
    WrapSum(Value(n - 1), Value(n - 2));
    WordFrame(s2.mem, s4.mem, sp - 24 - Depth(n - 1), sp - 16, sp - 8);
    WordFrame(s2.mem, s4.mem, sp - 24 - Depth(n - 1), sp - 16, sp - 16);
    WordFrame(s2.mem, s4.mem, sp - 24 - Depth(n - 1), sp - 16, sp);
    WordFrame(s.mem, s2.mem, sp - 24, sp, sp);
    SameTrans(s.mem, s2.mem, s4.mem, sp - 24, sp, sp - 24 - Depth(n - 1), sp - 16);
    SameTrans(s.mem, s4.mem, s5.mem, sp - Depth(n), sp, sp - 24 - Depth(n - 2), sp - 24);
  }

  /** For every signed 64-bit n and enough stack, fib returns to its caller with
      rax = F(n - 1) mod 2^64, whatever the stack, the registers and the code layout are. */
  lemma Correct(p: Program, s: State)
    requires Entered(p, s) && Room(s)
    ensures exists k: nat :: ReturnedFrom(p, s, Run(p, s, k))
  {
    var k := CallReturns(p, s);
  }

  // ----- the stack bound is exact -----

  lemma PrologueFaults(p: Program, s: State)
    requires Entered(p, s) && 16 <= s.regs.rsp && !Mapped(s.mem, s.regs.rsp - 16, s.regs.rsp)
    ensures Run(p, s, 2).pc == Fault
  {
    hide Load, Store, MappedBytes, Step, PushValue, Word;
    PushStep(p, s, 0, R12);
    var s1 := Step(p, s);
    assert Run(p, s, 2) == Run(p, s1, 1) == Run(p, Step(p, s1), 0);
    if Mapped(s.mem, s.regs.rsp - 8, s.regs.rsp) {
      PushSlot(s, s.regs.r12, At(1));
      PushStep(p, s1, 1, R13);
      PushFaults(s1, s.regs.r13, At(2));
    } else {
      PushFaults(s, s.regs.r12, At(1));
      Stopped(p, s1, 1);
    }
  }

  lemma DescendFaults(p: Program, s: State)
    requires p.Valid() && p.code == CODE && s.pc == At(4)
    requires s.flags == Flags64(Signed64(s.regs.rdi) - 2) && Signed64(s.regs.rdi) > 2
    requires 8 <= s.regs.rsp && !Mapped(s.mem, s.regs.rsp - 8, s.regs.rsp)
    ensures Run(p, s, 5).pc == Fault
  {
    hide AddrOf, Step, PushValue, Flags64, Signed64;
    var s4 := ToCall(p, s);
    CallStep(p, s4, 8, 0);
    PushFaults(s4, AddrOf(p, 9), At(0));
    RunSplit(p, s, 4, 1);
    assert Run(p, s4, 1) == Run(p, Step(p, s4), 0);
  }

  /** One unmapped byte among the Depth(n) bytes below rsp, and the routine faults. */
  lemma {:induction false} FaultsWithoutRoom(p: Program, s: State) returns (k: nat)
    requires Entered(p, s) && Depth(Signed64(s.regs.rdi)) <= s.regs.rsp && !Room(s)
    ensures Run(p, s, k).pc == Fault
    decreases Depth(Signed64(s.regs.rdi))
  {
    hide Load, Store, MappedBytes, AddrOf, Step, Run, Word, Resolve;
    var sp, n := s.regs.rsp, Signed64(s.regs.rdi);
    if !Mapped(s.mem, sp - 16, sp) {
      PrologueFaults(p, s);
      k := 2;
    } else if !Mapped(s.mem, sp - 24, sp) {
      var s1 := Prologue(p, s);
      SameTrans(s1.mem, s1.mem, s.mem, sp, sp, sp - 16, sp);
      DescendFaults(p, s1);
      RunSplit(p, s, 4, 5);
      k := 9;
    } else {
      var s2 := ToFirst(p, s);
      var j := FaultsWithoutRoom(p, s2);
      RunSplit(p, s, 9, j);
      k := 9 + j;
    }
  }

  lemma {:induction false} Stopped(p: Program, s: State, k: nat)
    requires !s.pc.At?
    ensures Run(p, s, k) == s
    decreases k
  {
    if k != 0 {
      Stopped(p, s, k - 1);
    }
  }

  /** However long the machine runs, a state outside the program is the one after the call. */
  lemma OnlyReturn(p: Program, s: State, j: nat, k: nat)
    requires !Run(p, s, j).pc.At? && !Run(p, s, k).pc.At?
    ensures Run(p, s, k) == Run(p, s, j)
  {
    hide Step, Run;
    RunSplit(p, s, j, k);
    RunSplit(p, s, k, j);
    Stopped(p, Run(p, s, j), k);
    Stopped(p, Run(p, s, k), j);
  }

  ghost predicate Leaves(p: Program, s: State) {
    exists k: nat :: Run(p, s, k).pc.Returned?
  }

  /** Called from outside the program, fib returns if and only if all of the Depth(n) bytes below
      the return address are mapped. */
  lemma ReturnsIffRoom(p: Program, s: State)
    requires Entered(p, s) && Depth(Signed64(s.regs.rdi)) <= s.regs.rsp
    requires Resolve(p, Word(s.mem, s.regs.rsp)).Returned?
    ensures Leaves(p, s) <==> Room(s)
  {
    hide Load, Store, MappedBytes, AddrOf, Step, Run, Word, Resolve;
    if Room(s) {
      var j := CallReturns(p, s);
    } else {
      var j := FaultsWithoutRoom(p, s);
      if Leaves(p, s) {
        var k: nat :| Run(p, s, k).pc.Returned?;
        OnlyReturn(p, s, j, k);
      }
    }
  }
}
