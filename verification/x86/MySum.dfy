/** memory/sum.s: the alternating sum whose loop head has no comparison of its own. */
module MySum {
  import opened ByteMemory
  import opened Machine
  import opened Frames
  import opened Steps

  const START: nat := 2
  const RETURN_EAX: nat := 11

  const CODE: seq<Instr> := [
    Mov32Imm(RAX, 0),
    Cmp32Imm(RDI, 0),
    Jle(RETURN_EAX),
    Add32Mem(RAX, RSI),
    AddImm(RSI, 4),
    Dec32(RDI),
    Jle(RETURN_EAX),
    Sub32Mem(RAX, RSI),
    AddImm(RSI, 4),
    Dec32(RDI),
    Jmp(START),
    Ret]

  /** The i-th int32 of the array at a. */
  function Cell(m: Memory, a: int, i: int): int {
    Signed32(Wrap32(Load(m, a + 4 * i, 4)))
  }

  /** x[0] - x[1] + x[2] - ... over n cells, over the integers. */
  function Alternating(m: Memory, a: int, n: int): int
    decreases n
  {
    if n <= 0 then 0 else Cell(m, a, 0) - Alternating(m, a + 4, n - 1)
  }

  /** The same sum with an explicit sign for each index. */
  function SignedSum(m: Memory, a: int, n: int): int
    decreases n
  {
    if n <= 0 then 0
    else SignedSum(m, a, n - 1) + (if n % 2 == 1 then Cell(m, a, n - 1) else -Cell(m, a, n - 1))
  }

  lemma {:induction false} SignedSumFromFront(m: Memory, a: int, n: int)
    requires n > 0
    ensures SignedSum(m, a, n) == Cell(m, a, 0) - SignedSum(m, a + 4, n - 1)
    decreases n
  {
    hide Load, Signed32, Wrap32;
    if n > 1 {
      assert a + 4 + 4 * (n - 2) == a + 4 * (n - 1);
      SignedSumFromFront(m, a, n - 1);
      assert Cell(m, a + 4, n - 2) == Cell(m, a, n - 1);
    }
  }

  lemma {:induction false} AlternatingIsSignedSum(m: Memory, a: int, n: int)
    ensures Alternating(m, a, n) == SignedSum(m, a, n)
    decreases n
  {
    hide Cell;
    if n > 0 {
      AlternatingIsSignedSum(m, a + 4, n - 1);
      SignedSumFromFront(m, a, n);
    }
  }

  /** Loaded and about to run, with the n cells of the array and the return address mapped; the
      theorems need no other byte of memory, so no other byte is read. */
  ghost predicate Entered(p: Program, s: State) {
    var n := Signed32(s.regs.rdi);
    && p.Valid() && p.code == CODE && s.pc == At(0)
    && s.regs.rsp + 8 <= W64 && Mapped(s.mem, s.regs.rsp, s.regs.rsp + 8)
    && ArrayMapped(s, n)
  }

  ghost predicate ArrayMapped(s: State, n: int) {
    s.regs.rsi + 4 * n <= W64 && Mapped(s.mem, s.regs.rsi, s.regs.rsi + 4 * n)
  }

  /** At start_loop the flags are those of comparing the current edi with 0, although the
      comparison was made by the cmp before the loop or by the dec at its end. */
  ghost predicate AtStart(p: Program, s: State) {
    && p.Valid() && p.code == CODE && s.pc == At(START)
    && (LessEq(s.flags) <==> Signed32(s.regs.rdi) <= 0)
    && s.regs.rax < W32
  }

  lemma SignedFlags32(exact: int)
    requires -W32 / 2 <= exact < W32 / 2
    ensures LessEq(Flags32(exact)) <==> exact <= 0
  {
  }

  lemma Signed32Range(x: U64)
    ensures -W32 / 2 <= Signed32(x) < W32 / 2
  {
  }

  lemma DecOfPositive(x: U64)
    requires Signed32(x) > 0
    ensures Signed32(Wrap32(x - 1)) == Signed32(x) - 1
  {
  }

  lemma CellLoads(s: State)
    requires ArrayMapped(s, 1)
    ensures MappedBytes(s.mem, s.regs.rsi, 4)
    ensures Wrap32(Load(s.mem, s.regs.rsi, 4)) == Wrap32(Cell(s.mem, s.regs.rsi, 0))
  {
    MappedBytesIff(s.mem, s.regs.rsi, 4);
    hide Load;
  }

  lemma WrapAdd(x: int, y: int)
    ensures Wrap32(Wrap32(x) + y) == Wrap32(x + y)
  {
  }

  lemma WrapSub(x: int, y: int)
    ensures Wrap32(x - Wrap32(y)) == Wrap32(x - y)
  {
  }

  lemma AddWraps(x: int, y: int, z: int)
    requires Wrap32(y) == Wrap32(z)
    ensures Wrap32(x + y) == Wrap32(x + z) && Wrap32(x - y) == Wrap32(x - z)
  {
    hide Wrap32;
    WrapAdd(y, x);
    WrapAdd(z, x);
    WrapSub(x, y);
    WrapSub(x, z);
  }

  /** The cell at rsi added to or subtracted from eax. */
  lemma MemOp(p: Program, s: State, i: nat)
    requires p.Valid() && p.code == CODE && (i == 3 || i == 7) && s.pc == At(i) && ArrayMapped(s, 1)
    ensures var x, s' := Cell(s.mem, s.regs.rsi, 0), Step(p, s);
      s' == State(s.regs.(rax := Wrap32(if i == 3 then s.regs.rax + x else s.regs.rax - x)), s'.flags, s.mem, At(i + 1))
  {
    hide Load, MappedBytes, Cell, Wrap32, Step;
    CellLoads(s);
    AddWraps(s.regs.rax, Load(s.mem, s.regs.rsi, 4), Cell(s.mem, s.regs.rsi, 0));
    if i == 3 {
      Add32MemStep(p, s, i, RAX, RSI);
    } else {
      Sub32MemStep(p, s, i, RAX, RSI);
    }
  }

  /** One cell used up, rsi moved on, edi decremented: instructions i to i + 2. */
  lemma OneCell(p: Program, s: State, i: nat)
    requires p.Valid() && p.code == CODE && (i == 3 || i == 7) && s.pc == At(i)
    requires Signed32(s.regs.rdi) > 0 && ArrayMapped(s, Signed32(s.regs.rdi))
    ensures var s', n, x := Run(p, s, 3), Signed32(s.regs.rdi), Cell(s.mem, s.regs.rsi, 0);
      && s' == State(s.regs.(rax := Wrap32(if i == 3 then s.regs.rax + x else s.regs.rax - x), rdi := s'.regs.rdi,
                     rsi := Wrap64(s.regs.rsi + 4)), s'.flags, s.mem, At(i + 3))
      && Signed32(s'.regs.rdi) == n - 1 && (LessEq(s'.flags) <==> n - 1 <= 0)
  {
    hide Cell, Flags64, Flags32, Signed32, Wrap32, Wrap64, Step, LessEq;
    DecOfPositive(s.regs.rdi);
    Signed32Range(s.regs.rdi);
    SignedFlags32(Signed32(s.regs.rdi) - 1);
    MemOp(p, s, i);
    var s1 := Step(p, s);
    AddImmStep(p, s1, i + 1, RSI, 4);
    var s2 := Step(p, s1);
    Dec32Step(p, s2, i + 2, RDI);
    var s3 := Step(p, s2);
    assert Run(p, s, 3) == Run(p, s1, 2) == Run(p, s2, 1) == Run(p, s3, 0);
  }

  /** add, add, dec: one cell with a plus sign; then jle looks at dec's flags. */
  lemma PlusCell(p: Program, s: State)
    requires AtStart(p, s) && Signed32(s.regs.rdi) > 0 && ArrayMapped(s, Signed32(s.regs.rdi))
    ensures var s', n := Run(p, s, 4), Signed32(s.regs.rdi);
      && s' == State(s.regs.(rax := Wrap32(s.regs.rax + Cell(s.mem, s.regs.rsi, 0)), rdi := s'.regs.rdi,
                     rsi := Wrap64(s.regs.rsi + 4)), s'.flags, s.mem, At(6))
      && Signed32(s'.regs.rdi) == n - 1 && (LessEq(s'.flags) <==> n - 1 <= 0)
  {
    hide Cell, Signed32, Wrap32, Wrap64, Step, LessEq;
    JumpStep(p, s, 2, Jle(RETURN_EAX));
    OneCell(p, Step(p, s), 3);
    assert Run(p, s, 4) == Run(p, Step(p, s), 3);
  }

  /** jle not taken; sub, add, dec, jmp: one cell with a minus sign, back to start_loop. */
  lemma MinusCell(p: Program, s: State)
    requires p.Valid() && p.code == CODE && s.pc == At(6) && s.regs.rax < W32
    requires Signed32(s.regs.rdi) > 0 && !LessEq(s.flags) && ArrayMapped(s, Signed32(s.regs.rdi))
    ensures var s', n := Run(p, s, 5), Signed32(s.regs.rdi);
      && s' == State(s.regs.(rax := Wrap32(s.regs.rax - Cell(s.mem, s.regs.rsi, 0)), rdi := s'.regs.rdi,
                     rsi := Wrap64(s.regs.rsi + 4)), s'.flags, s.mem, At(START))
      && Signed32(s'.regs.rdi) == n - 1 && AtStart(p, s')
  {
    hide Cell, Signed32, Wrap32, Wrap64, Step, LessEq;
    JumpStep(p, s, 6, Jle(RETURN_EAX));
    var s1 := Step(p, s);
    OneCell(p, s1, 7);
    var s4 := Run(p, s1, 3);
    JumpStep(p, s4, 10, Jmp(START));
    RunSplit(p, s1, 3, 1);
    assert Run(p, s4, 1) == Run(p, Step(p, s4), 0);
  }

  /** jle taken at i = 2 or i = 6, then ret. */
  lemma Leave(p: Program, s: State, i: nat)
    requires p.Valid() && p.code == CODE && (i == START || i == 6) && s.pc == At(i) && LessEq(s.flags)
    requires s.regs.rsp + 8 <= W64 && Mapped(s.mem, s.regs.rsp, s.regs.rsp + 8)
    ensures Run(p, s, 2) ==
            s.(regs := s.regs.(rsp := Wrap64(s.regs.rsp + 8)), pc := Resolve(p, Word(s.mem, s.regs.rsp)))
  {
    hide Load, MappedBytes, Resolve, Word, Step;
    JumpStep(p, s, i, Jle(RETURN_EAX));
    var s1 := Step(p, s);
    RetStep(p, s1, RETURN_EAX);
    assert Run(p, s, 2) == Run(p, s1, 1) == Run(p, Step(p, s1), 0);
  }

  /** Memory is not written; eax is the sum mod 2^32; only eax, rsi, edi and rsp change. */
  ghost predicate ReturnedFrom(p: Program, s: State, s': State, total: int) {
    && s'.pc == Resolve(p, Word(s.mem, s.regs.rsp))
    && s'.mem == s.mem
    && s'.regs == s.regs.(rax := Wrap32(total), rsp := Wrap64(s.regs.rsp + 8),
                          rdi := s'.regs.rdi, rsi := s'.regs.rsi)
  }

  lemma {:induction false} Loop(p: Program, s: State) returns (k: nat)
    requires AtStart(p, s) && ArrayMapped(s, Signed32(s.regs.rdi))
    requires s.regs.rsp + 8 <= W64 && Mapped(s.mem, s.regs.rsp, s.regs.rsp + 8)
    ensures ReturnedFrom(p, s, Run(p, s, k), s.regs.rax + Alternating(s.mem, s.regs.rsi, Signed32(s.regs.rdi)))
    decreases Signed32(s.regs.rdi)
  {
    hide Load, MappedBytes, Cell, Signed32, Resolve, Word, Step, Run;
    var n := Signed32(s.regs.rdi);
    if n <= 0 {
      Leave(p, s, START);
      k := 2;
    } else {
      PlusCell(p, s);
      var s1 := Run(p, s, 4);
      if n == 1 {
        Leave(p, s1, 6);
        RunSplit(p, s, 4, 2);
        k := 6;
      } else {
        MinusCell(p, s1);
        RunSplit(p, s, 4, 5);
        var s2 := Run(p, s1, 5);
        var j := Loop(p, s2);
        RunSplit(p, s, 9, j);
        k := 9 + j;
        TwoCells(s.regs.rax, s.mem, s.regs.rsi, n);
      }
    }
  }

  lemma TwoCells(acc: int, m: Memory, a: int, n: int)
    requires n >= 2
    ensures var x, y, rest := Cell(m, a, 0), Cell(m, a + 4, 0), Alternating(m, a + 8, n - 2);
      Wrap32(Wrap32(Wrap32(acc + x) - y) + rest) == Wrap32(acc + Alternating(m, a, n))
  {
    hide Cell;
    var x, y, rest := Cell(m, a, 0), Cell(m, a + 4, 0), Alternating(m, a + 8, n - 2);
    assert Alternating(m, a + 4, n - 1) == y - rest;
    WrapChain(acc, x, y, rest);
  }

  lemma WrapChain(acc: int, x: int, y: int, rest: int)
    ensures Wrap32(Wrap32(Wrap32(acc + x) - y) + rest) == Wrap32(acc + (x - (y - rest)))
  {
    hide Wrap32;
    WrapAdd(acc + x, -y);
    WrapAdd(acc + x - y, rest);
  }

  lemma CallReturns(p: Program, s: State) returns (k: nat)
    requires Entered(p, s)
    ensures ReturnedFrom(p, s, Run(p, s, k), SignedSum(s.mem, s.regs.rsi, Signed32(s.regs.rdi)))
  {
    hide Load, MappedBytes, Cell, Signed32, Flags32, Resolve, Word, Step;
    Signed32Range(s.regs.rdi);
    SignedFlags32(Signed32(s.regs.rdi));
    Mov32ImmStep(p, s, 0, RAX, 0);
    var s1 := Step(p, s);
    Cmp32ImmStep(p, s1, 1, RDI, 0);
    var s2 := Step(p, s1);
    assert Run(p, s, 2) == Run(p, s1, 1) == Run(p, s2, 0);
    var j := Loop(p, s2);
    RunSplit(p, s, 2, j);
    k := 2 + j;
    AlternatingIsSignedSum(s.mem, s.regs.rsi, Signed32(s.regs.rdi));
  }

  /** my_sum returns the alternating sum of the n cells mod 2^32, 0 for n <= 0, for every int32 n. */
  lemma Correct(p: Program, s: State)
    requires Entered(p, s)
    ensures exists k: nat ::
              ReturnedFrom(p, s, Run(p, s, k), SignedSum(s.mem, s.regs.rsi, Signed32(s.regs.rdi)))
  {
    var k := CallReturns(p, s);
  }

  /** s with nothing mapped but the return address and the n cells of the array. */
  ghost function OnlyCells(s: State): State {
    var n := Signed32(s.regs.rdi);
    var sp, x := s.regs.rsp, s.regs.rsi;
    s.(mem := map a | a in s.mem && (sp <= a < sp + 8 || x <= a < x + 4 * n) :: s.mem[a])
  }

  lemma {:induction false} SumFrame(m: Memory, m': Memory, a: int, n: int)
    requires forall x :: a <= x < a + 4 * n ==> (x in m <==> x in m') && (x in m && x in m' ==> m[x] == m'[x])
    ensures SignedSum(m, a, n) == SignedSum(m', a, n)
    decreases n
  {
    hide Load, Signed32, Wrap32;
    if n > 0 {
      LoadFrame(m, m', a + 4 * (n - 1), 4);
      SumFrame(m, m', a, n - 1);
    }
  }

  /** Only those n cells are read: with every other byte unmapped the routine still does not fault
      and returns the same sum to the same place. */
  lemma ReadsOnlyTheCells(p: Program, s: State)
    requires Entered(p, s)
    ensures Word(OnlyCells(s).mem, s.regs.rsp) == Word(s.mem, s.regs.rsp)
    ensures exists k: nat ::
              ReturnedFrom(p, OnlyCells(s), Run(p, OnlyCells(s), k),
                           SignedSum(s.mem, s.regs.rsi, Signed32(s.regs.rdi)))
  {
    var t := OnlyCells(s);
    assert Entered(p, t);
    var k := CallReturns(p, t);
    SumFrame(s.mem, t.mem, s.regs.rsi, Signed32(s.regs.rdi));
    LoadFrame(s.mem, t.mem, s.regs.rsp, 8);
  }
}
