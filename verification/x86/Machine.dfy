/** The part of x86-64 the three routines use: the sixteen registers, the flags the conditional
    jumps read, a byte-addressed memory and a program counter.  Every register operation wraps. */
module Machine {
  import opened ByteMemory

  const W32: int := 0x1_0000_0000
  const W64: int := 0x1_0000_0000_0000_0000

  type U64 = x: int | 0 <= x < W64

  datatype Reg = RAX | RBX | RCX | RDX | RSI | RDI | RBP | RSP
               | R8 | R9 | R10 | R11 | R12 | R13 | R14 | R15

  datatype Regs = Regs(
    rax: U64, rbx: U64, rcx: U64, rdx: U64, rsi: U64, rdi: U64, rbp: U64, rsp: U64,
    r8: U64, r9: U64, r10: U64, r11: U64, r12: U64, r13: U64, r14: U64, r15: U64)

  /** zf: result zero; sf: result negative; of: signed overflow. */
  datatype Flags = Flags(zf: bool, sf: bool, of: bool)

  /** At(i): about to execute instruction i; Returned(a): control left for address a. */
  datatype Pc = At(i: nat) | Returned(addr: U64) | Fault

  datatype Instr =
    | MovImm(dst: Reg, imm: int)
    | Mov32Imm(dst: Reg, imm: int)
    | Mov(dst: Reg, src: Reg)
    | Add(dst: Reg, src: Reg)
    | AddImm(dst: Reg, imm: int)
    | Add32Mem(dst: Reg, base: Reg)
    | Sub32Mem(dst: Reg, base: Reg)
    | Dec(dst: Reg)
    | Dec32(dst: Reg)
    | CmpImm(dst: Reg, imm: int)
    | Cmp32Imm(dst: Reg, imm: int)
    | Push(src: Reg)
    | Pop(dst: Reg)
    | Jmp(target: nat)
    | Jl(target: nat)
    | Je(target: nat)
    | Jle(target: nat)
    | Call(target: nat)
    | Ret

  /** `loc[i]` is the address where instruction i is loaded; any injective layout will do. */
  datatype Program = Program(code: seq<Instr>, loc: seq<U64>) {
    ghost predicate Valid() {
      |loc| == |code| && forall i, j :: 0 <= i < j < |loc| ==> loc[i] != loc[j]
    }
  }

  datatype State = State(regs: Regs, flags: Flags, mem: Memory, pc: Pc)

  function Wrap64(x: int): U64 {
    x % W64
  }

  function Wrap32(x: int): (r: U64)
    ensures r < W32
  {
    x % W32
  }

  function Signed64(x: U64): int {
    if x < W64 / 2 then x else x - W64
  }

  /** The low half of a register, as a signed number. */
  function Signed32(x: U64): int {
    var low := x % W32;
    if low < W32 / 2 then low else low - W32
  }

  function Get(r: Regs, n: Reg): U64 {
    match n
    case RAX => r.rax case RBX => r.rbx case RCX => r.rcx case RDX => r.rdx
    case RSI => r.rsi case RDI => r.rdi case RBP => r.rbp case RSP => r.rsp
    case R8 => r.r8 case R9 => r.r9 case R10 => r.r10 case R11 => r.r11
    case R12 => r.r12 case R13 => r.r13 case R14 => r.r14 case R15 => r.r15
  }

  function Set(r: Regs, n: Reg, v: U64): Regs {
    match n
    case RAX => r.(rax := v) case RBX => r.(rbx := v) case RCX => r.(rcx := v) case RDX => r.(rdx := v)
    case RSI => r.(rsi := v) case RDI => r.(rdi := v) case RBP => r.(rbp := v) case RSP => r.(rsp := v)
    case R8 => r.(r8 := v) case R9 => r.(r9 := v) case R10 => r.(r10 := v) case R11 => r.(r11 := v)
    case R12 => r.(r12 := v) case R13 => r.(r13 := v) case R14 => r.(r14 := v) case R15 => r.(r15 := v)
  }

  /** The flags of a signed operation whose exact result is `exact`. */
  function Flags64(exact: int): Flags {
    var r := Wrap64(exact);
    Flags(r == 0, Signed64(r) < 0, exact != Signed64(r))
  }

  function Flags32(exact: int): Flags {
    var r := Wrap32(exact);
    Flags(r == 0, Signed32(r) < 0, exact != Signed32(r))
  }

  predicate Less(f: Flags) { f.sf != f.of }

  predicate LessEq(f: Flags) { f.zf || f.sf != f.of }

  function FindLoc(loc: seq<U64>, a: U64, i: nat): Pc
    decreases |loc| - i
  {
    if i >= |loc| then Returned(a) else if loc[i] == a then At(i) else FindLoc(loc, a, i + 1)
  }

  /** Where control goes when it jumps to address a. */
  function Resolve(p: Program, a: U64): Pc {
    FindLoc(p.loc, a, 0)
  }

  function AddrOf(p: Program, i: nat): U64 {
    if i < |p.loc| then p.loc[i] else 0
  }

  function Advance(s: State, regs: Regs, i: nat): State {
    s.(regs := regs, pc := At(i + 1))
  }

  /** Pushes v and continues at pc; a fault if the slot is not mapped. */
  function PushValue(s: State, v: U64, pc: Pc): State {
    var sp := Wrap64(s.regs.rsp - 8);
    if MappedBytes(s.mem, sp, 8) then
      s.(regs := s.regs.(rsp := sp), mem := Store(s.mem, sp, 8, v), pc := pc)
    else s.(pc := Fault)
  }

  function Top(s: State): U64 {
    Wrap64(Load(s.mem, s.regs.rsp, 8))
  }

  function Step(p: Program, s: State): State {
    if !s.pc.At? || s.pc.i >= |p.code| then s
    else
      var i, r := s.pc.i, s.regs;
      match p.code[i]
      case MovImm(d, imm) => Advance(s, Set(r, d, Wrap64(imm)), i)
      case Mov32Imm(d, imm) => Advance(s, Set(r, d, Wrap32(imm)), i)
      case Mov(d, x) => Advance(s, Set(r, d, Get(r, x)), i)
      case Add(d, x) =>
        Advance(s.(flags := Flags64(Signed64(Get(r, d)) + Signed64(Get(r, x)))),
                Set(r, d, Wrap64(Get(r, d) + Get(r, x))), i)
      case AddImm(d, imm) =>
        Advance(s.(flags := Flags64(Signed64(Get(r, d)) + imm)), Set(r, d, Wrap64(Get(r, d) + imm)), i)
      case Add32Mem(d, b) =>
        if !MappedBytes(s.mem, Get(r, b), 4) then s.(pc := Fault) else
        var x := Load(s.mem, Get(r, b), 4);
        Advance(s.(flags := Flags32(Signed32(Get(r, d)) + Signed32(Wrap32(x)))),
                Set(r, d, Wrap32(Get(r, d) + x)), i)
      case Sub32Mem(d, b) =>
        if !MappedBytes(s.mem, Get(r, b), 4) then s.(pc := Fault) else
        var x := Load(s.mem, Get(r, b), 4);
        Advance(s.(flags := Flags32(Signed32(Get(r, d)) - Signed32(Wrap32(x)))),
                Set(r, d, Wrap32(Get(r, d) - x)), i)
      case Dec(d) =>
        Advance(s.(flags := Flags64(Signed64(Get(r, d)) - 1)), Set(r, d, Wrap64(Get(r, d) - 1)), i)
      case Dec32(d) =>
        Advance(s.(flags := Flags32(Signed32(Get(r, d)) - 1)), Set(r, d, Wrap32(Get(r, d) - 1)), i)
      case CmpImm(d, imm) => Advance(s.(flags := Flags64(Signed64(Get(r, d)) - imm)), r, i)
      case Cmp32Imm(d, imm) => Advance(s.(flags := Flags32(Signed32(Get(r, d)) - imm)), r, i)
      case Push(x) => PushValue(s, Get(r, x), At(i + 1))
      case Pop(d) =>
        if !MappedBytes(s.mem, r.rsp, 8) then s.(pc := Fault) else
        Advance(s, Set(r.(rsp := Wrap64(r.rsp + 8)), d, Top(s)), i)
      case Jmp(t) => s.(pc := At(t))
      case Jl(t) => s.(pc := if Less(s.flags) then At(t) else At(i + 1))
      case Je(t) => s.(pc := if s.flags.zf then At(t) else At(i + 1))
      case Jle(t) => s.(pc := if LessEq(s.flags) then At(t) else At(i + 1))
      case Call(t) => PushValue(s, AddrOf(p, i + 1), At(t))
      case Ret =>
        if !MappedBytes(s.mem, r.rsp, 8) then s.(pc := Fault) else
        s.(regs := r.(rsp := Wrap64(r.rsp + 8)), pc := Resolve(p, Top(s)))
  }

  function Run(p: Program, s: State, k: nat): State
    decreases k
  {
    if k == 0 then s else Run(p, Step(p, s), k - 1)
  }

  lemma {:induction false} RunSplit(p: Program, s: State, j: nat, k: nat)
    ensures Run(p, s, j + k) == Run(p, Run(p, s, j), k)
    decreases j
  {
    if j != 0 {
      RunSplit(p, Step(p, s), j - 1, k);
    }
  }

  lemma {:induction false} FindLocAt(loc: seq<U64>, i: nat, j: nat)
    requires j <= i < |loc| && forall x, y :: 0 <= x < y < |loc| ==> loc[x] != loc[y]
    ensures FindLoc(loc, loc[i], j) == At(i)
    decreases i - j
  {
    if j < i {
      FindLocAt(loc, i, j + 1);
    }
  }

  /** Returning to the address call pushed resumes after the call. */
  lemma ResolveBack(p: Program, i: nat)
    requires p.Valid() && i < |p.code|
    ensures Resolve(p, AddrOf(p, i)) == At(i)
  {
    FindLocAt(p.loc, i, 0);
  }

  /** After a comparison, or after any operation that did not overflow, the signed jumps read the
      sign of the exact result. */
  lemma SignedFlags(exact: int)
    requires -W64 < exact < W64
    ensures Less(Flags64(exact)) <==> exact < 0
    ensures LessEq(Flags64(exact)) <==> exact <= 0
    ensures Flags64(exact).zf <==> exact == 0
  {
  }

  lemma SignedRange(x: U64)
    ensures -W64 / 2 <= Signed64(x) < W64 / 2
  {
  }

  /** x greater than a small k: dec does not wrap, and a comparison with k says so. */
  lemma DecOfPositive(x: U64, k: nat)
    requires k < W32 && Signed64(x) > k
    ensures Wrap64(x - 1) == x - 1
    ensures var f := Flags64(Signed64(x) - k); !Less(f) && !f.zf && !LessEq(f)
  {
    SignedFlags(Signed64(x) - k);
  }
}
