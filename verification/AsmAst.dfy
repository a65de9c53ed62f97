/** The assembler's syntax tree, as the parser delivers it. */
module AsmAst {
  import opened Wrappers

  datatype Operand = Num(i: int) | Id(name: string) | NoOp

  datatype Operation =
    | Attach | Detach | Exit
    | Ldi(d: int, s: int) | Mov(d: int, s: int) | Ldcmp(d: int)
    | Ldd(d: int) | Ldal(d: int) | Ldah(d: int)
    | Ldwr(d: int) | Lddc(d: int) | Ldmio(d: int)
    | Clr(d: int) | Std(d: int)
    | Start | Reset | Waitads | Waitlock | Waitio | Ready | Hold | Int | Nmi
    | Cmp(d: int) | Beq | Bne | Ba
    | Nop | Ud

  /** A source line; an empty mnemonic is a line with at most a label. */
  datatype Line = Line(tag: Option<string>, mnem: string, d: Operand, s: Operand)

  datatype Statement = Instr(line: Line) | Directive(dir: string, args: seq<Operand>)

  /** How many program words an operation takes. */
  function Size(op: Operation): nat {
    match op
    case Ldi(_, _) => 2
    case Ud => 0
    case _ => 1
  }
}
