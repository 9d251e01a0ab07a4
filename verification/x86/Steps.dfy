/** What one instruction does, one lemma per instruction: the block proofs of the three routines
    chain these instead of unfolding Step. */
module Steps {
  import opened ByteMemory
  import opened Machine
  import opened Frames

  ghost predicate Runs(p: Program, s: State, i: nat, instr: Instr) {
    s.pc == At(i) && i < |p.code| && p.code[i] == instr
  }

  lemma MovImmStep(p: Program, s: State, i: nat, d: Reg, imm: int)
    requires Runs(p, s, i, MovImm(d, imm))
    ensures Step(p, s) == Advance(s, Set(s.regs, d, Wrap64(imm)), i)
  {
    hide Set, Wrap64;
  }

  lemma Mov32ImmStep(p: Program, s: State, i: nat, d: Reg, imm: int)
    requires Runs(p, s, i, Mov32Imm(d, imm))
    ensures Step(p, s) == Advance(s, Set(s.regs, d, Wrap32(imm)), i)
  {
    hide Set, Wrap32;
  }

  lemma MovStep(p: Program, s: State, i: nat, d: Reg, x: Reg)
    requires Runs(p, s, i, Mov(d, x))
    ensures Step(p, s) == Advance(s, Set(s.regs, d, Get(s.regs, x)), i)
  {
    hide Get, Set;
  }

  lemma AddStep(p: Program, s: State, i: nat, d: Reg, x: Reg)
    requires Runs(p, s, i, Add(d, x))
    ensures Step(p, s) ==
      Advance(s.(flags := Step(p, s).flags), Set(s.regs, d, Wrap64(Get(s.regs, d) + Get(s.regs, x))), i)
  {
    hide Get, Set, Wrap64, Flags64, Signed64;
  }

  lemma AddImmStep(p: Program, s: State, i: nat, d: Reg, imm: int)
    requires Runs(p, s, i, AddImm(d, imm))
    ensures Step(p, s) == Advance(s.(flags := Step(p, s).flags), Set(s.regs, d, Wrap64(Get(s.regs, d) + imm)), i)
  {
    hide Get, Set, Wrap64, Flags64, Signed64;
  }

  lemma DecStep(p: Program, s: State, i: nat, d: Reg)
    requires Runs(p, s, i, Dec(d))
    ensures Step(p, s) == Advance(s.(flags := Step(p, s).flags), Set(s.regs, d, Wrap64(Get(s.regs, d) - 1)), i)
  {
    hide Get, Set, Wrap64, Flags64, Signed64;
  }

  lemma Dec32Step(p: Program, s: State, i: nat, d: Reg)
    requires Runs(p, s, i, Dec32(d))
    ensures Step(p, s) == Advance(s.(flags := Flags32(Signed32(Get(s.regs, d)) - 1)),
                                  Set(s.regs, d, Wrap32(Get(s.regs, d) - 1)), i)
  {
    hide Get, Set, Wrap32, Flags32, Signed32;
  }

  lemma CmpImmStep(p: Program, s: State, i: nat, d: Reg, imm: int)
    requires Runs(p, s, i, CmpImm(d, imm))
    ensures Step(p, s) == Advance(s.(flags := Flags64(Signed64(Get(s.regs, d)) - imm)), s.regs, i)
  {
    hide Get, Flags64, Signed64;
  }

  lemma Cmp32ImmStep(p: Program, s: State, i: nat, d: Reg, imm: int)
    requires Runs(p, s, i, Cmp32Imm(d, imm))
    ensures Step(p, s) == Advance(s.(flags := Flags32(Signed32(Get(s.regs, d)) - imm)), s.regs, i)
  {
    hide Get, Flags32, Signed32;
  }

  lemma Add32MemStep(p: Program, s: State, i: nat, d: Reg, b: Reg)
    requires Runs(p, s, i, Add32Mem(d, b)) && MappedBytes(s.mem, Get(s.regs, b), 4)
    ensures Step(p, s) ==
      Advance(s.(flags := Step(p, s).flags), Set(s.regs, d, Wrap32(Get(s.regs, d) + Load(s.mem, Get(s.regs, b), 4))), i)
  {
    hide Get, Set, Wrap32, Flags32, Signed32, Load, MappedBytes;
  }

  lemma Sub32MemStep(p: Program, s: State, i: nat, d: Reg, b: Reg)
    requires Runs(p, s, i, Sub32Mem(d, b)) && MappedBytes(s.mem, Get(s.regs, b), 4)
    ensures Step(p, s) ==
      Advance(s.(flags := Step(p, s).flags), Set(s.regs, d, Wrap32(Get(s.regs, d) - Load(s.mem, Get(s.regs, b), 4))), i)
  {
    hide Get, Set, Wrap32, Flags32, Signed32, Load, MappedBytes;
  }

  lemma JumpStep(p: Program, s: State, i: nat, instr: Instr)
    requires Runs(p, s, i, instr) && (instr.Jmp? || instr.Jl? || instr.Je? || instr.Jle?)
    ensures var f := s.flags;
      var taken := instr.Jmp? || (instr.Jl? && Less(f)) || (instr.Je? && f.zf) || (instr.Jle? && LessEq(f));
      Step(p, s) == s.(pc := if taken then At(instr.target) else At(i + 1))
  {
    hide Less, LessEq;
  }

  lemma PushStep(p: Program, s: State, i: nat, x: Reg)
    requires Runs(p, s, i, Push(x))
    ensures Step(p, s) == PushValue(s, Get(s.regs, x), At(i + 1))
  {
    hide Get, PushValue;
  }

  lemma CallStep(p: Program, s: State, i: nat, t: nat)
    requires Runs(p, s, i, Call(t))
    ensures Step(p, s) == PushValue(s, AddrOf(p, i + 1), At(t))
  {
    hide AddrOf, PushValue;
  }

  lemma PopStep(p: Program, s: State, i: nat, d: Reg)
    requires Runs(p, s, i, Pop(d))
    requires s.regs.rsp + 8 <= W64 && Mapped(s.mem, s.regs.rsp, s.regs.rsp + 8)
    ensures Step(p, s) == Advance(s, Set(s.regs.(rsp := Wrap64(s.regs.rsp + 8)), d, Word(s.mem, s.regs.rsp)), i)
  {
    hide Load, Set, MappedBytes, Wrap64;
    SlotMapped(s.mem, s.regs.rsp);
  }

  lemma RetStep(p: Program, s: State, i: nat)
    requires Runs(p, s, i, Ret)
    requires s.regs.rsp + 8 <= W64 && Mapped(s.mem, s.regs.rsp, s.regs.rsp + 8)
    ensures Step(p, s) == s.(regs := s.regs.(rsp := Wrap64(s.regs.rsp + 8)), pc := Resolve(p, Word(s.mem, s.regs.rsp)))
  {
    hide Load, Resolve, MappedBytes, Wrap64;
    SlotMapped(s.mem, s.regs.rsp);
  }
}
