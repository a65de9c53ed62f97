/** The On-Chip Debug unit as a clocked machine beside its synchronous memory. */
module OcdFsm {
  import opened Words
  import opened OcdIsa

  datatype Phase = Fetch | Load | Exec | Store | StoreFetch

  const REG_OFFSET := 0x100

  type MemAddress = x: int | 0 <= x < 512

  /** The unit's registers. */
  datatype Core = Core(
    phase: Phase, pc: Byte, nextPc: Byte, instr: Word, cmpr: Word,
    memAddress: MemAddress, memWrite: bool, memWriteData: Word,
    stop: bool, pins: Pins)

  /** The unit, its memory, and the memory's output register. */
  datatype System = System(core: Core, mem: seq<Word>, readData: Word) {
    predicate Sized() {
      |mem| == 512
    }
  }

  /** What the surroundings choose at one clock edge: the 386 signals, and the value the
      memory shows after a write cycle, which its port leaves open. */
  datatype Edge = Edge(bus: Bus, stale: Word)

  /** Decode wires that name several opcodes at once. */
  predicate MemLoad(op: Byte) {
    op == LDI || op == MOV || op == LDCMP || op == CMP || op == STD
  }

  predicate MemStore(op: Byte) {
    || op == LDI || op == MOV || op == LDD || op == LDAL || op == LDAH
    || op == LDWR || op == LDDC || op == LDMIO || op == CLR
  }

  predicate ExecWait(op: Byte, b: Bus) {
    || (op == WAITADS && b.adsN)
    || (op == WAITLOCK && (b.adsN || b.lockN))
    || (op == WAITIO && (b.adsN || b.mio))
    || (op == HOLD && !b.hlda)
    || op == EXIT
  }

  /** The source multiplexer: at most one gate is open for any opcode. */
  function Source(v: Design, op: Byte, readData: Word, b: Bus): Word {
    if MemLoad(op) then readData
    else if op == LDD then b.din
    else if op == LDAL then AddressLow(v, b.a)
    else if op == LDAH then AddressHigh(v, b.a)
    else if op == LDWR then Bit(b.wr)
    else if op == LDDC then Bit(b.dc)
    else if op == LDMIO then Bit(b.mio)
    else 0
  }

  function ResetCore(c: Core): Core {
    c.(stop := false, phase := Store, pc := 0xFF, nextPc := 0, memAddress := 0, memWrite := false, instr := 0)
  }

  function FetchCore(c: Core, readData: Word): Core {
    c.(nextPc := (c.pc + 1) % 0x100,
       instr := readData,
       memAddress := if OpcodeOf(readData) == LDI then c.pc + 1 else REG_OFFSET + SourceOf(readData),
       phase := Load)
  }

  function ExecPins(op: Byte, p: Pins, source: Word): Pins {
    if op == ATTACH then p.(en := true)
    else if op == DETACH then p.(en := false)
    else if op == START then p.(reset := false, nmi := false, intr := false, hold := false)
    else if op == RESET then p.(reset := true)
    else if op == READY || op == WAITADS || op == WAITLOCK then p.(readyN := false, hold := false)
    else if op == STD then p.(readyN := false, hold := false, dout := source)
    else if op == INT then p.(intr := true)
    else if op == NMI then p.(nmi := true)
    else if op == HOLD then p.(hold := true)
    else p
  }

  function StorePins(op: Byte, p: Pins): Pins {
    if op == WAITADS || op == WAITLOCK || op == WAITIO then p.(readyN := true, nmi := false, en := true) else p
  }

  function ExecCmpr(op: Byte, cmpr: Word, source: Word): Word {
    if op == LDCMP then source else if op == CMP then Bit(source == cmpr) else cmpr
  }

  predicate Branches(op: Byte, cmpr: Word) {
    (op == BEQ && cmpr != 0) || (op == BNE && cmpr == 0) || op == BA
  }

  /** Leaving EXEC, or staying in it for another clock. */
  function ExecEnd(c: Core, source: Word, b: Bus): Core {
    var op := OpcodeOf(c.instr);
    if ExecWait(op, b) then c.(phase := Exec)
    else c.(phase := Store, memAddress := REG_OFFSET + DestOf(c.instr), memWriteData := source,
            memWrite := c.memWrite || MemStore(op))
  }

  function ExecCore(v: Design, c: Core, readData: Word, b: Bus): Core {
    var op := OpcodeOf(c.instr);
    var source := Source(v, op, readData, b);
    var c' := c.(
      pins := ExecPins(op, c.pins, source),
      stop := c.stop || op == EXIT,
      cmpr := ExecCmpr(op, c.cmpr, source),
      nextPc := if Branches(op, c.cmpr) then c.instr % 0x100 else c.nextPc);
    ExecEnd(c', source, b)
  }

  function StoreCore(c: Core): Core {
    var op := OpcodeOf(c.instr);
    var target := (c.nextPc + (if op == LDI then 1 else 0)) % 0x100;
    c.(pins := StorePins(op, c.pins),
       memWrite := false, phase := StoreFetch, pc := target, memAddress := target)
  }

  function NextCore(v: Design, s: System, b: Bus): Core {
    match s.core.phase
    case Fetch => FetchCore(s.core, s.readData)
    case Load => s.core.(phase := Exec)
    case Exec => ExecCore(v, s.core, s.readData, b)
    case Store => StoreCore(s.core)
    case StoreFetch => s.core.(phase := Fetch)
  }

  /** One rising clock edge with `rst` low: the memory latches the address and data the
      unit drove before the edge, while the unit reads the memory's previous output. */
  function Tick(v: Design, s: System, e: Edge): (r: System)
    requires s.Sized()
    ensures r.Sized()
  {
    System(
      NextCore(v, s, e.bus),
      if s.core.memWrite then s.mem[s.core.memAddress := s.core.memWriteData] else s.mem,
      if s.core.memWrite then e.stale else s.mem[s.core.memAddress])
  }

  /** A rising `rst`. It acts on the unit at once, so no write is pending afterwards. */
  function Rst(s: System, stale: Word): System {
    s.(core := ResetCore(s.core), readData := stale)
  }

  function Run(v: Design, s: System, es: seq<Edge>): (r: System)
    requires s.Sized()
    ensures r.Sized()
    decreases |es|
  {
    if es == [] then s else Run(v, Tick(v, s, es[0]), es[1..])
  }

  lemma {:induction false} RunSplit(v: Design, s: System, es: seq<Edge>, k: nat)
    requires s.Sized() && k <= |es|
    ensures Run(v, s, es) == Run(v, Run(v, s, es[..k]), es[k..])
    decreases k
  {
    if k == 0 {
      assert es[k..] == es;
    } else {
      RunSplit(v, Tick(v, s, es[0]), es[1..], k - 1);
      assert es[..k][1..] == es[1..][..k - 1];
      assert es[k..] == es[1..][k - 1..];
    }
  }

  lemma RunFew(v: Design, s: System, e0: Edge, e1: Edge, e2: Edge)
    requires s.Sized()
    ensures Run(v, s, [e0]) == Tick(v, s, e0)
    ensures Run(v, s, [e0, e1]) == Tick(v, Tick(v, s, e0), e1)
    ensures Run(v, s, [e0, e1, e2]) == Tick(v, Tick(v, Tick(v, s, e0), e1), e2)
  {
    hide Tick;
    assert [e0, e1, e2][1..] == [e1, e2] && [e1, e2][1..] == [e2] && [e0, e1][1..] == [e1];
    assert forall t: System, e: Edge {:trigger Run(v, t, [e])} :: t.Sized() ==> Run(v, t, [e]) == Tick(v, t, e);
    assert Run(v, Tick(v, s, e0), [e1, e2]) == Run(v, Tick(v, Tick(v, s, e0), e1), [e2]);
  }
}
