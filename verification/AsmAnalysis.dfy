/** Pass 1: operations, offsets and labels. */
module AsmAnalysis {
  import opened Wrappers
  import opened AsmAst

  /** One function's context. */
  datatype Context = Context(labels: map<string, int>, cursor: int, progMem: seq<int>)

  function EmptyContext(): (c: Context)
    ensures |c.progMem| == 256
  {
    Context(map[], 0, seq(256, _ => 0))
  }

  /** All contexts created so far; `funcs` and `cur` refer to them by position. */
  datatype Contexts = Contexts(consts: map<string, int>, all: seq<Context>, funcs: map<string, nat>, cur: nat) {
    predicate Valid() {
      && cur < |all|
      && (forall f :: f in funcs ==> funcs[f] < |all|)
      && (forall i :: 0 <= i < |all| ==> |all[i].progMem| == 256)
    }
  }

  /** Before anything is read: one context, for statements before the first function. */
  function FirstContexts(consts: map<string, int>): (c: Contexts)
    ensures c.Valid()
  {
    Contexts(consts, [EmptyContext()], map[], 0)
  }

  /** What pass 1 writes into a statement. */
  datatype Note = Note(op: Operation, offset: int)

  function GetOp(consts: map<string, int>, o: Operand): Result<int> {
    match o
    case Num(i) => Success(i)
    case Id(n) => if n in consts then Success(consts[n]) else Failure("constant not defined")
    case NoOp => Failure("getop")
  }

  function OneOp(consts: map<string, int>, o: Operand, f: int -> Operation): Result<Operation> {
    var d :- GetOp(consts, o);
    Success(f(d))
  }

  function TwoOps(consts: map<string, int>, d: Operand, s: Operand, f: (int, int) -> Operation): Result<Operation> {
    match (GetOp(consts, d), GetOp(consts, s))
    case (Success(dst), Success(src)) => Success(f(dst, src))
    case (_, Failure(e)) => Failure(e)
    case (Failure(e), Success(_)) => Failure(e)
  }

  /** The operation a line denotes under the constants known so far. */
  function OperationOf(consts: map<string, int>, l: Line): Result<Operation> {
    if l.mnem == "ATTACH" then Success(Attach)
    else if l.mnem == "DETACH" then Success(Detach)
    else if l.mnem == "EXIT" then Success(Exit)
    else if l.mnem == "LDI" then TwoOps(consts, l.d, l.s, (d, s) => Ldi(d, s))
    else if l.mnem == "MOV" then TwoOps(consts, l.d, l.s, (d, s) => Mov(d, s))
    else if l.mnem == "LDCMP" then OneOp(consts, l.d, d => Ldcmp(d))
    else if l.mnem == "CLR" then OneOp(consts, l.d, d => Clr(d))
    else if l.mnem == "LDD" then OneOp(consts, l.d, d => Ldd(d))
    else if l.mnem == "LDAL" then OneOp(consts, l.d, d => Ldal(d))
    else if l.mnem == "LDAH" then OneOp(consts, l.d, d => Ldah(d))
    else if l.mnem == "LDWR" then OneOp(consts, l.d, d => Ldwr(d))
    else if l.mnem == "LDDC" then OneOp(consts, l.d, d => Lddc(d))
    else if l.mnem == "LDMIO" then OneOp(consts, l.d, d => Ldmio(d))
    else if l.mnem == "STD" then OneOp(consts, l.d, d => Std(d))
    else if l.mnem == "START" then Success(Start)
    else if l.mnem == "RESET" then Success(Reset)
    else if l.mnem == "WAITADS" then Success(Waitads)
    else if l.mnem == "WAITLOCK" then Success(Waitlock)
    else if l.mnem == "WAITIO" then Success(Waitio)
    else if l.mnem == "READY" then Success(Ready)
    else if l.mnem == "HOLD" then Success(Hold)
    else if l.mnem == "INT" then Success(Int)
    else if l.mnem == "NMI" then Success(Nmi)
    else if l.mnem == "CMP" then OneOp(consts, l.d, d => Cmp(d))
    else if l.mnem == "BEQ" then Success(Beq)
    else if l.mnem == "BNE" then Success(Bne)
    else if l.mnem == "BA" then Success(Ba)
    else if l.mnem == "NOP" then Success(Nop)
    else if l.mnem == "" then Success(Ud)
    else Failure("Undefined instruction")
  }

  /** The part of the state a statement other than `.func` can change. */
  datatype Local = Local(consts: map<string, int>, ctxt: Context)

  function Place(c: Context, tag: Option<string>, op: Operation): Context {
    c.(cursor := c.cursor + Size(op),
       labels := if tag.Some? then c.labels[tag.value := c.cursor] else c.labels)
  }

  function AnalyseLine(l: Local, line: Line): Result<(Local, Note)> {
    var op :- OperationOf(l.consts, line);
    Success((l.(ctxt := Place(l.ctxt, line.tag, op)), Note(op, l.ctxt.cursor)))
  }

  function Define(consts: map<string, int>, args: seq<Operand>): Result<map<string, int>> {
    if |args| == 2 && args[0].Id? then
      var v :- GetOp(consts, args[1]);
      Success(consts[args[0].name := v])
    else Failure("Expected: .define [NAME] [VALUE]")
  }

  function Org(c: Context, args: seq<Operand>): Result<Context> {
    if |args| == 1 && args[0].Num? then Success(c.(cursor := args[0].i))
    else Failure("Expected: .org [INTEGER]")
  }

  predicate IsFunc(st: Statement) {
    st.Directive? && st.dir == ".func"
  }

  function AnalyseLocal(l: Local, st: Statement): (r: Result<(Local, Note)>)
    ensures r.Success? ==> r.value.0.ctxt.progMem == l.ctxt.progMem
  {
    match st
    case Instr(line) => AnalyseLine(l, line)
    case Directive(dir, args) =>
      if dir == ".define" then
        var consts :- Define(l.consts, args);
        Success((l.(consts := consts), Note(Ud, 0)))
      else if dir == ".org" then
        var c :- Org(l.ctxt, args);
        Success((l.(ctxt := c), Note(Ud, 0)))
      else Failure("Unimplemented directive")
  }

  function OpenFunc(c: Contexts, args: seq<Operand>): (r: Result<Contexts>)
    requires c.Valid()
    ensures r.Success? ==> r.value.Valid()
  {
    if |args| == 1 && args[0].Id? then
      Success(Contexts(c.consts, c.all + [EmptyContext()], c.funcs[args[0].name := |c.all|], |c.all|))
    else Failure("Expected: .func [NAME]")
  }

  function AnalyseStatement(c: Contexts, st: Statement): (r: Result<(Contexts, Note)>)
    requires c.Valid()
    ensures r.Success? ==> r.value.0.Valid()
  {
    if IsFunc(st) then
      var c' :- OpenFunc(c, st.args);
      Success((c', Note(Ud, 0)))
    else
      match AnalyseLocal(Local(c.consts, c.all[c.cur]), st)
      case Failure(e) => Failure(e)
      case Success((l, n)) => Success((Contexts(l.consts, c.all[c.cur := l.ctxt], c.funcs, c.cur), n))
  }

  function Analyse(c: Contexts, src: seq<Statement>): (r: Result<(Contexts, seq<Note>)>)
    requires c.Valid()
    ensures r.Success? ==> r.value.0.Valid() && |r.value.1| == |src|
  {
    if src == [] then Success((c, []))
    else
      match Analyse(c, src[..|src| - 1])
      case Failure(e) => Failure(e)
      case Success((c1, notes)) =>
        match AnalyseStatement(c1, src[|src| - 1])
        case Failure(e) => Failure(e)
        case Success((c2, n)) => Success((c2, notes + [n]))
  }
}
