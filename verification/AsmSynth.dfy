/** Pass 2: encoding into program memory. */
module AsmSynth {
  import opened Words
  import opened Wrappers
  import opened AsmAst
  import opened AsmAnalysis

  // ----- The assembler's own table of opcodes -----

  const OCD_CTL := 0x20 * 0
  const LD_ST := 0x20 * 1
  const CPU_CTL := 0x20 * 2
  const FLOW_CTL := 0x20 * 3
  const MISC := 0x20 * 7

  const OP_ATTACH: Byte := OCD_CTL + 0x02
  const OP_DETACH: Byte := OCD_CTL + 0x03
  const OP_EXIT: Byte := OCD_CTL + 0x00

  const OP_LDI: Byte := LD_ST + 0x00
  const OP_MOV: Byte := LD_ST + 0x01
  const OP_LDD: Byte := LD_ST + 0x04
  const OP_LDAL: Byte := LD_ST + 0x02
  const OP_LDAH: Byte := LD_ST + 0x03
  const OP_LDWR: Byte := LD_ST + 0x05
  const OP_LDDC: Byte := LD_ST + 0x06
  const OP_LDMIO: Byte := LD_ST + 0x07
  const OP_LDCMP: Byte := LD_ST + 0x08
  const OP_CLR: Byte := LD_ST + 0x09
  const OP_STD: Byte := LD_ST + 0x14

  const OP_START: Byte := CPU_CTL + 0x00
  const OP_RESET: Byte := CPU_CTL + 0x01
  const OP_WAITADS: Byte := CPU_CTL + 0x02
  const OP_WAITLOCK: Byte := CPU_CTL + 0x08
  const OP_WAITIO: Byte := CPU_CTL + 0x09
  const OP_READY: Byte := CPU_CTL + 0x03
  const OP_INT: Byte := CPU_CTL + 0x04
  const OP_NMI: Byte := CPU_CTL + 0x05
  const OP_HOLD: Byte := CPU_CTL + 0x06

  const OP_CMP: Byte := FLOW_CTL + 0x00
  const OP_BA: Byte := FLOW_CTL + 0x10
  const OP_BEQ: Byte := FLOW_CTL + 0x11
  const OP_BNE: Byte := FLOW_CTL + 0x13

  const OP_NOP: Byte := MISC + 0x1F

  function Opcode(i: Byte, d: int, s: int): int {
    i * 0x100 + s % 0x10 * 0x10 + d % 0x10
  }

  function OpcodeAddr(i: Byte, addr: int): int {
    i * 0x100 + addr % 0x100
  }

  function GetAddr(labels: map<string, int>, o: Operand): Result<int> {
    match o
    case Num(i) => Success(i)
    case Id(n) => if n in labels then Success(labels[n]) else Failure("label not defined")
    case NoOp => Failure("get_addr: NoOp")
  }

  /** BNE: the source text encodes it with the opcode of BEQ. */
  function BneOpcode(v: Design): Byte {
    if v.Intended? then OP_BNE else OP_BEQ
  }

  function Branch(labels: map<string, int>, opcode: Byte, target: Operand): Result<int> {
    var a :- GetAddr(labels, target);
    Success(OpcodeAddr(opcode, a))
  }

  predicate IsBranch(op: Operation) {
    op.Ba? || op.Beq? || op.Bne?
  }

  /** Opcode, destination and source of an operation that is no branch. */
  function Fields(op: Operation): (Byte, int, int)
    requires op != Ud && !IsBranch(op)
  {
    match op
    case Attach => (OP_ATTACH, 0, 0)
    case Detach => (OP_DETACH, 0, 0)
    case Exit => (OP_EXIT, 0, 0)
    case Ldi(d, _) => (OP_LDI, d, 0)
    case Mov(d, s) => (OP_MOV, d, s)
    case Ldcmp(d) => (OP_LDCMP, 0, d)
    case Ldd(d) => (OP_LDD, d, 0)
    case Ldal(d) => (OP_LDAL, d, 0)
    case Ldah(d) => (OP_LDAH, d, 0)
    case Ldwr(d) => (OP_LDWR, d, 0)
    case Lddc(d) => (OP_LDDC, d, 0)
    case Ldmio(d) => (OP_LDMIO, d, 0)
    case Clr(d) => (OP_CLR, d, 0)
    case Std(d) => (OP_STD, 0, d)
    case Start => (OP_START, 0, 0)
    case Reset => (OP_RESET, 0, 0)
    case Waitads => (OP_WAITADS, 0, 0)
    case Waitlock => (OP_WAITLOCK, 0, 0)
    case Waitio => (OP_WAITIO, 0, 0)
    case Ready => (OP_READY, 0, 0)
    case Hold => (OP_HOLD, 0, 0)
    case Int => (OP_INT, 0, 0)
    case Nmi => (OP_NMI, 0, 0)
    case Cmp(d) => (OP_CMP, 0, d)
    case Nop => (OP_NOP, 0xFF, 0xFF)
  }

  /** The first word of an operation. */
  function Encode(v: Design, labels: map<string, int>, op: Operation, target: Operand): Result<int> {
    match op
    case Ud => Failure("Undefined instruction")
    case Ba => Branch(labels, OP_BA, target)
    case Beq => Branch(labels, OP_BEQ, target)
    case Bne => Branch(labels, BneOpcode(v), target)
    case _ =>
      var (i, d, s) := Fields(op);
      Success(Opcode(i, d, s))
  }

  /** An array store; out of bounds it raises. */
  function Put(mem: seq<int>, i: int, w: int): (r: Result<seq<int>>)
    ensures r.Success? ==> |r.value| == |mem|
  {
    if 0 <= i < |mem| then Success(mem[i := w]) else Failure("index out of bounds")
  }

  function SynthLine(v: Design, c: Context, line: Line, n: Note): (r: Result<Context>)
    ensures r.Success? ==> |r.value.progMem| == |c.progMem|
  {
    match if n.op.Ldi? then Put(c.progMem, n.offset + 1, n.op.s) else Success(c.progMem)
    case Failure(e) => Failure(e)
    case Success(mem) =>
      match Encode(v, c.labels, n.op, line.d)
      case Failure(e) => Failure(e)
      case Success(word) =>
        match Put(mem, n.offset, word)
        case Failure(e) => Failure(e)
        case Success(mem') => Success(c.(progMem := mem'))
  }

  function SynthLocal(v: Design, c: Context, st: Statement, n: Note): (r: Result<Context>)
    ensures r.Success? ==> |r.value.progMem| == |c.progMem|
  {
    if st.Instr? && n.op != Ud then SynthLine(v, c, st.line, n) else Success(c)
  }

  function SynthStatement(v: Design, c: Contexts, st: Statement, n: Note): (r: Result<Contexts>)
    requires c.Valid()
    ensures r.Success? ==> r.value.Valid()
  {
    if IsFunc(st) then
      if |st.args| == 1 && st.args[0].Id? && st.args[0].name in c.funcs
      then Success(c.(cur := c.funcs[st.args[0].name]))
      else Failure("synth func")
    else
      var ctxt :- SynthLocal(v, c.all[c.cur], st, n);
      Success(c.(all := c.all[c.cur := ctxt]))
  }

  function Synth(v: Design, c: Contexts, src: seq<Statement>, notes: seq<Note>): (r: Result<Contexts>)
    requires c.Valid() && |notes| == |src|
    ensures r.Success? ==> r.value.Valid()
  {
    if src == [] then Success(c)
    else
      var k := |src| - 1;
      var c1 :- Synth(v, c, src[..k], notes[..k]);
      SynthStatement(v, c1, src[k], notes[k])
  }
}
