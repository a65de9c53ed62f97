/** What one instruction of the On-Chip Debug unit does between two instruction
    boundaries, free of clocks and of the memory pipeline. */
module OcdIsa {
  import opened Words

  /** One sample of the 386 signals the unit reads. A trailing N marks an active-low pin. */
  datatype Bus = Bus(adsN: bool, lockN: bool, a: Address, din: Word, hlda: bool, wr: bool, dc: bool, mio: bool)

  /** The 386 signals the unit drives. */
  datatype Pins = Pins(en: bool, dout: Word, readyN: bool, hold: bool, intr: bool, nmi: bool, reset: bool)

  /** Everything an instruction can change apart from the program counter. */
  datatype Machine = Machine(regs: seq<Word>, cmpr: Word, pins: Pins) {
    predicate Sized() {
      |regs| == 16
    }
  }

  /** A decoded instruction. `Undefined` opcodes raise no control wire and act as NOP. */
  datatype Op =
    | Attach | Detach | Exit
    | Ldi(d: Nibble, imm: Word) | Mov(d: Nibble, s: Nibble) | Ldcmp(s: Nibble)
    | Ldd(d: Nibble) | Ldal(d: Nibble) | Ldah(d: Nibble)
    | Ldwr(d: Nibble) | Lddc(d: Nibble) | Ldmio(d: Nibble)
    | Clr(d: Nibble) | Std(s: Nibble)
    | Start | Reset | Waitads | Waitlock | Waitio | Ready | Hold | Int | Nmi
    | Cmp(s: Nibble) | Beq(t: Byte) | Bne(t: Byte) | Ba(t: Byte)
    | Nop | Undefined(opcode: Byte)

  const ATTACH := 0x02
  const DETACH := 0x03
  const EXIT := 0x00
  const LDI := 0x20
  const MOV := 0x21
  const LDAL := 0x22
  const LDAH := 0x23
  const LDD := 0x24
  const LDWR := 0x25
  const LDDC := 0x26
  const LDMIO := 0x27
  const LDCMP := 0x28
  const CLR := 0x29
  const STD := 0x34
  const START := 0x40
  const RESET := 0x41
  const WAITADS := 0x42
  const READY := 0x43
  const INT := 0x44
  const NMI := 0x45
  const HOLD := 0x46
  const WAITLOCK := 0x48
  const WAITIO := 0x49
  const CMP := 0x60
  const BA := 0x70
  const BEQ := 0x71
  const BNE := 0x73
  const NOP := 0xFF

  function OpcodeOf(w: Word): Byte {
    w / 0x100
  }

  function SourceOf(w: Word): Nibble {
    w / 0x10 % 0x10
  }

  function DestOf(w: Word): Nibble {
    w % 0x10
  }

  /** `imm` is the word after `w`, which only LDI uses. */
  function Decode(w: Word, imm: Word): Op {
    DecodeFields(OpcodeOf(w), SourceOf(w), DestOf(w), w % 0x100, imm)
  }

  function DecodeFields(op: Byte, s: Nibble, d: Nibble, t: Byte, imm: Word): Op {
    if op == ATTACH then Attach
    else if op == DETACH then Detach
    else if op == EXIT then Exit
    else if op == LDI then Ldi(d, imm)
    else if op == MOV then Mov(d, s)
    else if op == LDAL then Ldal(d)
    else if op == LDAH then Ldah(d)
    else if op == LDD then Ldd(d)
    else if op == LDWR then Ldwr(d)
    else if op == LDDC then Lddc(d)
    else if op == LDMIO then Ldmio(d)
    else if op == LDCMP then Ldcmp(s)
    else if op == CLR then Clr(d)
    else if op == STD then Std(s)
    else if op == START then Start
    else if op == RESET then Reset
    else if op == WAITADS then Waitads
    else if op == READY then Ready
    else if op == INT then Int
    else if op == NMI then Nmi
    else if op == HOLD then Hold
    else if op == WAITLOCK then Waitlock
    else if op == WAITIO then Waitio
    else if op == CMP then Cmp(s)
    else if op == BA then Ba(t)
    else if op == BEQ then Beq(t)
    else if op == BNE then Bne(t)
    else if op == NOP then Nop
    else Undefined(op)
  }

  /** LDAL: documented as A[15:0]; the source text also merges A[23:16] into it. */
  function AddressLow(v: Design, a: Address): Word {
    if v.Intended? then a % 0x1_0000 else Or(a % 0x1_0000, a / 0x1_0000) % 0x1_0000
  }

  /** LDAH: documented as A[23:16]; no gate of the source text selects it, so it reads 0. */
  function AddressHigh(v: Design, a: Address): Word {
    if v.Intended? then a / 0x1_0000 else 0
  }

  /** The signals an instruction waits for; EXIT waits for ever. */
  predicate Blocked(op: Op, b: Bus) {
    match op
    case Waitads => b.adsN
    case Waitlock => b.adsN || b.lockN
    case Waitio => b.adsN || b.mio
    case Hold => !b.hlda
    case Exit => true
    case _ => false
  }

  function NewRegs(v: Design, m: Machine, op: Op, b: Bus): (r: seq<Word>)
    requires m.Sized()
    ensures |r| == 16
  {
    match op
    case Ldi(d, imm) => m.regs[d := imm]
    case Mov(d, s) => m.regs[d := m.regs[s]]
    case Ldd(d) => m.regs[d := b.din]
    case Ldal(d) => m.regs[d := AddressLow(v, b.a)]
    case Ldah(d) => m.regs[d := AddressHigh(v, b.a)]
    case Ldwr(d) => m.regs[d := Bit(b.wr)]
    case Lddc(d) => m.regs[d := Bit(b.dc)]
    case Ldmio(d) => m.regs[d := Bit(b.mio)]
    case Clr(d) => m.regs[d := 0]
    case _ => m.regs
  }

  function NewCmpr(m: Machine, op: Op): Word
    requires m.Sized()
  {
    match op
    case Ldcmp(s) => m.regs[s]
    case Cmp(s) => Bit(m.regs[s] == m.cmpr)
    case _ => m.cmpr
  }

  function NewPins(m: Machine, op: Op): Pins
    requires m.Sized()
  {
    match op
    case Attach => m.pins.(en := true)
    case Detach => m.pins.(en := false)
    case Std(s) => m.pins.(dout := m.regs[s], readyN := false, hold := false)
    case Start => m.pins.(reset := false, nmi := false, intr := false, hold := false)
    case Reset => m.pins.(reset := true)
    case Ready => m.pins.(readyN := false, hold := false)
    case Int => m.pins.(intr := true)
    case Nmi => m.pins.(nmi := true)
    case Hold => m.pins.(hold := true)
    case Waitads => m.pins.(readyN := true, hold := false, nmi := false, en := true)
    case Waitlock => m.pins.(readyN := true, hold := false, nmi := false, en := true)
    case Waitio => m.pins.(readyN := true, nmi := false, en := true)
    case _ => m.pins
  }

  /** The net effect of `op`, committed under bus sample `b`. */
  function Effect(v: Design, m: Machine, op: Op, b: Bus): (r: Machine)
    requires m.Sized()
    ensures r.Sized()
  {
    Machine(NewRegs(v, m, op, b), NewCmpr(m, op), NewPins(m, op))
  }

  /** Whether `op` leaves the straight line, and where to. */
  predicate Jumps(m: Machine, op: Op) {
    op.Ba? || (op.Beq? && m.cmpr != 0) || (op.Bne? && m.cmpr == 0)
  }

  function Length(op: Op): nat {
    if op.Ldi? then 2 else 1
  }

  /** The programmer's view: program counter, 256 program words, and the machine. */
  datatype Isa = Isa(pc: Byte, prog: seq<Word>, m: Machine) {
    predicate Sized() {
      |prog| == 256 && m.Sized()
    }

    /** The instruction at `pc`. The word after address 255 is register 0, because the
        immediate is fetched at `pc + 1` in the 512-word memory without wrapping. */
    function Current(): Op
      requires Sized()
    {
      Decode(prog[pc], if pc < 255 then prog[pc + 1] else m.regs[0])
    }

    function NextPc(): Byte
      requires Sized()
    {
      if Jumps(m, Current()) then Current().t else (pc + Length(Current())) % 0x100
    }

    /** One whole instruction, committed under sample `b`. */
    function Step(v: Design, b: Bus): (r: Isa)
      requires Sized()
      ensures r.Sized() && r.prog == prog
    {
      Isa(NextPc(), prog, Effect(v, m, Current(), b))
    }
  }
}
