/** Eight-byte stack slots: what push, pop, call and ret do to memory. */
module Frames {
  import opened ByteMemory
  import opened Machine

  function Word(m: Memory, a: int): U64 {
    Wrap64(Load(m, a, 8))
  }

  /** m' has the domain of m and differs from it on [lo, hi) at most. */
  ghost predicate SameOutside(m: Memory, m': Memory, lo: int, hi: int) {
    forall x :: (x in m <==> x in m') && (x in m && !(lo <= x < hi) ==> m'[x] == m[x])
  }

  lemma WordFrame(m: Memory, m': Memory, lo: int, hi: int, a: int)
    requires SameOutside(m, m', lo, hi) && (a + 8 <= lo || hi <= a)
    ensures Word(m', a) == Word(m, a)
  {
    LoadFrame(m, m', a, 8);
  }

  lemma SameTrans(a: Memory, b: Memory, c: Memory, lo: int, hi: int, lo': int, hi': int)
    requires SameOutside(a, b, lo, hi) && SameOutside(b, c, lo', hi')
    ensures forall l, h :: l <= lo && l <= lo' && hi <= h && hi' <= h ==> SameOutside(a, c, l, h)
    ensures forall l, h :: Mapped(a, l, h) ==> Mapped(b, l, h) && Mapped(c, l, h)
  {
  }

  lemma Pow256Of8()
    ensures Pow256(8) == W64
  {
    assert Pow256(4) == W32;
  }

  lemma PushSlot(s: State, v: U64, pc: Pc)
    requires 8 <= s.regs.rsp && Mapped(s.mem, s.regs.rsp - 8, s.regs.rsp)
    ensures var sp, s' := s.regs.rsp - 8, PushValue(s, v, pc);
      && s' == s.(regs := s.regs.(rsp := sp), mem := s'.mem, pc := pc)
      && SameOutside(s.mem, s'.mem, sp, sp + 8)
      && Word(s'.mem, sp) == v
  {
    hide Load, Store, MappedBytes, Pow256;
    var sp := s.regs.rsp - 8;
    MappedBytesIff(s.mem, sp, 8);
    StoreFrame(s.mem, sp, 8, v);
    Pow256Of8();
    LoadStore(s.mem, sp, 8, v);
  }

  lemma PushFaults(s: State, v: U64, pc: Pc)
    requires 8 <= s.regs.rsp && !Mapped(s.mem, s.regs.rsp - 8, s.regs.rsp)
    ensures PushValue(s, v, pc).pc == Fault
  {
    MappedBytesIff(s.mem, s.regs.rsp - 8, 8);
  }

  lemma SlotMapped(m: Memory, a: int)
    requires Mapped(m, a, a + 8)
    ensures MappedBytes(m, a, 8)
  {
    MappedBytesIff(m, a, 8);
  }

  lemma WrapSum(a: int, b: int)
    ensures Wrap64(Wrap64(a) + Wrap64(b)) == Wrap64(a + b)
  {
  }
}
