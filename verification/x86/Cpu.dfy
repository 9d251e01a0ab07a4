/** The machine as an object whose registers, flags, memory and program counter are updated in
    place, and the three routines called on it. */
module CpuModel {
  import opened ByteMemory
  import opened Machine
  import opened Frames
  import FibRec
  import FibLoop
  import MySum

  class Cpu {
    const program: Program
    var regs: Regs
    var flags: Flags
    var mem: Memory
    var pc: Pc

    constructor (program: Program, s: State)
      ensures this.program == program && Snapshot() == s
    {
      this.program := program;
      regs, flags, mem, pc := s.regs, s.flags, s.mem, s.pc;
    }

    function Snapshot(): State
      reads this
    {
      State(regs, flags, mem, pc)
    }

    method PushWord(v: U64, next: Pc)
      modifies this
      ensures Snapshot() == PushValue(old(Snapshot()), v, next)
    {
      var sp := Wrap64(regs.rsp - 8);
      if !MappedBytes(mem, sp, 8) {
        pc := Fault;
        return;
      }
      regs := regs.(rsp := sp);
      mem := Store(mem, sp, 8, v);
      pc := next;
    }

    /** Puts a result into a register and moves on. */
    method Finish(d: Reg, v: U64, f: Flags)
      requires pc.At?
      modifies this
      ensures Snapshot() == Advance(old(Snapshot()).(flags := f), Set(old(regs), d, v), old(pc).i)
    {
      regs := Set(regs, d, v);
      flags := f;
      pc := At(pc.i + 1);
    }

    /** Executes one instruction in place. */
    method Tick()
      requires pc.At? && pc.i < |program.code|
      modifies this
      ensures Snapshot() == Step(program, old(Snapshot()))
    {
      hide Get, Set, Load, Store, MappedBytes, Resolve, AddrOf, PushValue;
      hide Flags64, Flags32, Less, LessEq, Wrap64, Wrap32, Signed64, Signed32;
      var i := pc.i;
      match program.code[i] {
        case MovImm(d, imm) => Finish(d, Wrap64(imm), flags);
        case Mov32Imm(d, imm) => Finish(d, Wrap32(imm), flags);
        case Mov(d, x) => Finish(d, Get(regs, x), flags);
        case Add(d, x) =>
          var a: int, b: int := Get(regs, d), Get(regs, x);
          Finish(d, Wrap64(a + b), Flags64(Signed64(a) + Signed64(b)));
        case AddImm(d, imm) =>
          var a: int := Get(regs, d);
          Finish(d, Wrap64(a + imm), Flags64(Signed64(a) + imm));
        case Add32Mem(d, b) =>
          var addr := Get(regs, b);
          if !MappedBytes(mem, addr, 4) {
            pc := Fault;
          } else {
            var a: int, x: int := Get(regs, d), Load(mem, addr, 4);
            Finish(d, Wrap32(a + x), Flags32(Signed32(a) + Signed32(Wrap32(x))));
          }
        case Sub32Mem(d, b) =>
          var addr := Get(regs, b);
          if !MappedBytes(mem, addr, 4) {
            pc := Fault;
          } else {
            var a: int, x: int := Get(regs, d), Load(mem, addr, 4);
            Finish(d, Wrap32(a - x), Flags32(Signed32(a) - Signed32(Wrap32(x))));
          }
        case Dec(d) =>
          var a: int := Get(regs, d);
          Finish(d, Wrap64(a - 1), Flags64(Signed64(a) - 1));
        case Dec32(d) =>
          var a: int := Get(regs, d);
          Finish(d, Wrap32(a - 1), Flags32(Signed32(a) - 1));
        case CmpImm(d, imm) =>
          flags := Flags64(Signed64(Get(regs, d)) - imm);
          pc := At(i + 1);
        case Cmp32Imm(d, imm) =>
          flags := Flags32(Signed32(Get(regs, d)) - imm);
          pc := At(i + 1);
        case Push(x) => PushWord(Get(regs, x), At(i + 1));
        case Pop(d) =>
          if !MappedBytes(mem, regs.rsp, 8) {
            pc := Fault;
          } else {
            var v := Wrap64(Load(mem, regs.rsp, 8));
            regs := regs.(rsp := Wrap64(regs.rsp + 8));
            Finish(d, v, flags);
          }
        case Jmp(t) => pc := At(t);
        case Jl(t) => pc := if Less(flags) then At(t) else At(i + 1);
        case Je(t) => pc := if flags.zf then At(t) else At(i + 1);
        case Jle(t) => pc := if LessEq(flags) then At(t) else At(i + 1);
        case Call(t) => PushWord(AddrOf(program, i + 1), At(t));
        case Ret =>
          if !MappedBytes(mem, regs.rsp, 8) {
            pc := Fault;
          } else {
            pc := Resolve(program, Wrap64(Load(mem, regs.rsp, 8)));
            regs := regs.(rsp := Wrap64(regs.rsp + 8));
          }
      }
    }

    /** Runs until control leaves the program or faults; k bounds the number of instructions. */
    method Execute(ghost k: nat)
      requires !Run(program, Snapshot(), k).pc.At?
      modifies this
      ensures Snapshot() == Run(program, old(Snapshot()), k)
    {
      ghost var left := k;
      while pc.At?
        invariant Run(program, Snapshot(), left) == Run(program, old(Snapshot()), k)
        decreases left
      {
        StuckOutside(program, Snapshot(), left);
        Tick();
        left := left - 1;
      }
      FibRec.Stopped(program, Snapshot(), left);
    }

    /** Calling recursive fib from outside the program. */
    method CallFibRec()
      requires FibRec.Entered(program, Snapshot()) && FibRec.Room(Snapshot())
      requires Resolve(program, Word(mem, regs.rsp)).Returned?
      modifies this
      ensures FibRec.ReturnedFrom(program, old(Snapshot()), Snapshot())
    {
      ghost var k := FibRec.CallReturns(program, Snapshot());
      Execute(k);
    }

    method CallFibLoop()
      requires FibLoop.Entered(program, Snapshot())
      requires Resolve(program, Word(mem, regs.rsp)).Returned?
      modifies this
      ensures FibLoop.ReturnedFrom(program, old(Snapshot()), Snapshot())
    {
      ghost var k := FibLoop.CallReturns(program, Snapshot());
      Execute(k);
    }

    method CallMySum()
      requires MySum.Entered(program, Snapshot())
      requires Resolve(program, Word(mem, regs.rsp)).Returned?
      modifies this
      ensures MySum.ReturnedFrom(program, old(Snapshot()), Snapshot(),
                MySum.SignedSum(old(mem), old(regs).rsi, Signed32(old(regs).rdi)))
    {
      ghost var k := MySum.CallReturns(program, Snapshot());
      Execute(k);
    }
  }

  /** A program counter past the end never moves, so a run that ends is not there. */
  lemma {:induction false} StuckOutside(p: Program, s: State, k: nat)
    requires s.pc.At? && !Run(p, s, k).pc.At?
    ensures k > 0 && s.pc.i < |p.code|
    decreases k
  {
    if s.pc.i >= |p.code| {
      if k > 0 {
        StuckOutside(p, s, k - 1);
      }
    }
  }
}
