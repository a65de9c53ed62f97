/** The instruction set as its manual lists it, opcode by opcode and pin by pin, held against the
    clocked unit. */
module OcdManual {
  import opened Words
  import opened Wrappers
  import opened OcdIsa
  import opened OcdFsm
  import opened OcdRefinement

  // ----- The manual -----

  /** The signals an instruction waits for are there. */
  predicate Ready(op: Byte, b: Bus) {
    && (op == 0x42 ==> !b.adsN)
    && (op == 0x48 ==> !b.adsN && !b.lockN)
    && (op == 0x49 ==> !b.adsN && !b.mio)
    && (op == 0x46 ==> b.hlda)
    && op != 0x00
  }

  /** What an instruction writes into its destination register: an immediate, a register, the data
      bus, the address bus, W/R#, D/C#, M/IO#, or zero. */
  function Loaded(hw: Design, op: Byte, imm: Word, source: Word, b: Bus): Option<Word> {
    if op == 0x20 then Some(imm)
    else if op == 0x21 then Some(source)
    else if op == 0x24 then Some(b.din)
    else if op == 0x22 then Some(AddressLow(hw, b.a))
    else if op == 0x23 then Some(AddressHigh(hw, b.a))
    else if op == 0x25 then Some(if b.wr then 1 else 0)
    else if op == 0x26 then Some(if b.dc then 1 else 0)
    else if op == 0x27 then Some(if b.mio then 1 else 0)
    else if op == 0x29 then Some(0)
    else None
  }

  /** The pins, one by one: those of the buses, */
  predicate BusPins(op: Byte, source: Word, p: Pins, q: Pins) {
    && q.en == (op in {0x02, 0x42, 0x48, 0x49} || (p.en && op != 0x03))
    && q.dout == (if op == 0x34 then source else p.dout)
    && q.readyN == (op in {0x42, 0x48, 0x49} || (p.readyN && op !in {0x34, 0x43}))
    && q.hold == (op == 0x46 || (p.hold && op !in {0x34, 0x40, 0x42, 0x43, 0x48}))
  }

  /** and those of the CPU. */
  predicate CpuPins(op: Byte, p: Pins, q: Pins) {
    && q.intr == (op == 0x44 || (p.intr && op != 0x40))
    && q.nmi == (op == 0x45 || (p.nmi && op !in {0x40, 0x42, 0x48, 0x49}))
    && q.reset == (op == 0x41 || (p.reset && op != 0x40))
  }

  function Compared(op: Byte, cmpr: Word, source: Word): Word {
    if op == 0x28 then source else if op == 0x60 then (if source == cmpr then 1 else 0) else cmpr
  }

  /** BA, BEQ on a set compare register, BNE on a clear one. */
  function NextAddress(op: Byte, w: Word, cmpr: Word, pc: Byte): Byte {
    if op == 0x70 || (op == 0x71 && cmpr != 0) || (op == 0x73 && cmpr == 0) then w % 0x100
    else (pc + if op == 0x20 then 2 else 1) % 0x100
  }

  // ----- The interpreter -----

  lemma WaitsAsListed(w: Word, imm: Word, b: Bus)
    ensures Blocked(Decode(w, imm), b) <==> !Ready(w / 0x100, b)
  {
  }

  lemma LoadsAsListed(hw: Design, m: Machine, w: Word, imm: Word, b: Bus)
    requires m.Sized()
    ensures var x := Loaded(hw, w / 0x100, imm, m.regs[w / 0x10 % 0x10], b);
      NewRegs(hw, m, Decode(w, imm), b) == if x.Some? then m.regs[w % 0x10 := x.value] else m.regs
  {
    hide AddressLow, AddressHigh;
  }

  lemma BusPinsAsListed(m: Machine, w: Word, imm: Word)
    requires m.Sized()
    ensures BusPins(w / 0x100, m.regs[w / 0x10 % 0x10], m.pins, NewPins(m, Decode(w, imm)))
  {
  }

  lemma CpuPinsAsListed(m: Machine, w: Word, imm: Word)
    requires m.Sized()
    ensures CpuPins(w / 0x100, m.pins, NewPins(m, Decode(w, imm)))
  {
  }

  lemma ComparesAsListed(m: Machine, w: Word, imm: Word)
    requires m.Sized()
    ensures NewCmpr(m, Decode(w, imm)) == Compared(w / 0x100, m.cmpr, m.regs[w / 0x10 % 0x10])
  {
  }

  lemma JumpsAsListed(x: Isa)
    requires x.Sized()
    ensures x.NextPc() == NextAddress(x.prog[x.pc] / 0x100, x.prog[x.pc], x.m.cmpr, x.pc)
  {
  }

  // ----- The clocked unit -----

  /** The unit at the end of an instruction: register `i` is memory word 100h + i. */
  predicate AsListed(hw: Design, s: System, t: System, w: Word, imm: Word, b: Bus)
    requires s.Sized() && t.Sized()
  {
    var op, d, source := w / 0x100, w % 0x10, s.mem[0x100 + w / 0x10 % 0x10];
    var x := Loaded(hw, op, imm, source, b);
    && t.mem[0x100..0x110] == (if x.Some? then s.mem[0x100..0x110][d := x.value] else s.mem[0x100..0x110])
    && BusPins(op, source, s.core.pins, t.core.pins) && CpuPins(op, s.core.pins, t.core.pins)
    && t.core.cmpr == Compared(op, s.core.cmpr, source)
    && t.core.pc == NextAddress(op, w, s.core.cmpr, s.core.pc)
  }

  /** The word the memory shows after `pc`; behind the last program word lies register 0. */
  function NextWord(s: System): Word
    requires s.Sized()
  {
    s.mem[s.core.pc + 1]
  }

  lemma {:induction false} CommitsAt(op: Op, es: seq<Edge>, i: nat, k: nat)
    requires i <= k < |es| && !Blocked(op, es[k].bus) && forall j :: i <= j < k ==> Blocked(op, es[j].bus)
    ensures FirstClear(op, es, i) == k
    decreases k - i
  {
    if i < k {
      CommitsAt(op, es, i + 1, k);
    }
  }

  /** From any instruction boundary: the instruction waits while the signals it is listed to wait
      for are missing; three clocks after the one that finds them the unit is at a boundary again
      and has done what is listed for its opcode, and nothing else. */
  lemma ManualExact(hw: Design, s: System, es: seq<Edge>, k: nat)
    requires Boundary(s) && 2 <= k && |es| == k + 3
    requires var op := s.mem[s.core.pc] / 0x100;
      Ready(op, es[k].bus) && forall j :: 2 <= j < k ==> !Ready(op, es[j].bus)
    ensures var t := Run(hw, s, es);
      Boundary(t) && AsListed(hw, s, t, s.mem[s.core.pc], NextWord(s), es[k].bus)
  {
    hide Run, Effect, Decode, NewRegs, NewPins, NewCmpr, Blocked, Ready, Loaded, BusPins, CpuPins, Compared,
         NextAddress, Isa.NextPc, FirstClear;
    var x, w, imm, b := Abs(s), s.mem[s.core.pc], NextWord(s), es[k].bus;
    CurrentIs(s);
    forall j | 2 <= j <= k
      ensures Blocked(x.Current(), es[j].bus) <==> !Ready(w / 0x100, es[j].bus)
    {
      WaitsAsListed(w, imm, es[j].bus);
    }
    CommitsAt(x.Current(), es, 2, k);
    InstructionRefines(hw, s, es, k);
    LoadsAsListed(hw, x.m, w, imm, b);
    BusPinsAsListed(x.m, w, imm);
    CpuPinsAsListed(x.m, w, imm);
    ComparesAsListed(x.m, w, imm);
    JumpsAsListed(x);
    EffectIs(hw, x.m, x.Current(), b);
  }

  lemma CurrentIs(s: System)
    requires s.Sized()
    ensures Abs(s).Current() == Decode(s.mem[s.core.pc], NextWord(s))
    ensures Abs(s).prog[s.core.pc] == s.mem[s.core.pc]
  {
    hide Decode;
  }

  lemma EffectIs(hw: Design, m: Machine, op: Op, b: Bus)
    requires m.Sized()
    ensures Effect(hw, m, op, b) == Machine(NewRegs(hw, m, op, b), NewCmpr(m, op), NewPins(m, op))
  {
    hide NewRegs, NewCmpr, NewPins;
  }
}
