/** Running a source function directly: statements in order, branches to labelled
    statements, no addresses and no encodings. */
module AsmSemantics {
  import opened Words
  import opened Wrappers
  import opened AsmAst
  import opened AsmMeaning
  import Isa = OcdIsa
  import Fsm = OcdFsm
  import Clocked = OcdRefinement
  import opened OcdEvents

  /** What the hardware should do for an operation: registers count modulo 16 and
      immediates modulo 2^16; `t` is the address a branch would take. */
  function Lower(op: Operation, t: Byte): Isa.Op
    requires op != Ud
  {
    match op
    case Attach => Isa.Attach
    case Detach => Isa.Detach
    case Exit => Isa.Exit
    case Ldi(d, s) => Isa.Ldi(d % 0x10, s % 0x1_0000)
    case Mov(d, s) => Isa.Mov(d % 0x10, s % 0x10)
    case Ldcmp(d) => Isa.Ldcmp(d % 0x10)
    case Ldd(d) => Isa.Ldd(d % 0x10)
    case Ldal(d) => Isa.Ldal(d % 0x10)
    case Ldah(d) => Isa.Ldah(d % 0x10)
    case Ldwr(d) => Isa.Ldwr(d % 0x10)
    case Lddc(d) => Isa.Lddc(d % 0x10)
    case Ldmio(d) => Isa.Ldmio(d % 0x10)
    case Clr(d) => Isa.Clr(d % 0x10)
    case Std(d) => Isa.Std(d % 0x10)
    case Start => Isa.Start
    case Reset => Isa.Reset
    case Waitads => Isa.Waitads
    case Waitlock => Isa.Waitlock
    case Waitio => Isa.Waitio
    case Ready => Isa.Ready
    case Hold => Isa.Hold
    case Int => Isa.Int
    case Nmi => Isa.Nmi
    case Cmp(d) => Isa.Cmp(d % 0x10)
    case Beq => Isa.Beq(t)
    case Bne => Isa.Bne(t)
    case Ba => Isa.Ba(t)
    case Nop => Isa.Nop
  }

  /** The first statement from `i` on that has an operation. */
  function NextReal(items: seq<Item>, i: nat): (j: nat)
    requires i <= |items|
    ensures i <= j <= |items|
    ensures j < |items| ==> items[j].op != Ud
    ensures forall k :: i <= k < j ==> items[k].op == Ud
    decreases |items| - i
  {
    if i == |items| || items[i].op != Ud then i else NextReal(items, i + 1)
  }

  /** The last statement carrying label `l`, which is the one a branch to `l` means. */
  function LastTagged(items: seq<Item>, l: string): (r: Option<nat>)
    ensures r.Some? ==> r.value < |items| && items[r.value].tag == Some(l)
    ensures forall j :: (if r.Some? then r.value < j < |items| else 0 <= j < |items|) ==> items[j].tag != Some(l)
  {
    if items == [] then None
    else if items[|items| - 1].tag == Some(l) then Some(|items| - 1)
    else LastTagged(items[..|items| - 1], l)
  }

  /** The operation that `o` words precede. */
  function RealAt(items: seq<Item>, o: nat, i: nat): (r: Option<nat>)
    requires i <= |items|
    ensures r.Some? ==> i <= r.value < |items| && items[r.value].op != Ud && Offset(items[..r.value]) == o
    decreases |items| - i
  {
    if i == |items| then None
    else if items[i].op != Ud && Offset(items[..i]) == o then Some(i)
    else RealAt(items, o, i + 1)
  }

  /** Where a branch goes: to a labelled statement, or to the operation at a word number. */
  function Destination(items: seq<Item>, target: Operand): (r: Option<nat>)
    ensures r.Some? ==> r.value < |items|
  {
    match target
    case Id(l) => LastTagged(items, l)
    case Num(k) => RealAt(items, k % 0x100, 0)
    case NoOp => None
  }

  /** About to run statement `i`, or out of the function: past its last operation, or at a
      word number that starts no operation. */
  datatype Place = At(i: nat) | Lost

  /** How far a run over a clocked trace gets: the place and the machine, the words it put
      on or took from the data bus on the way, and the edges it leaves unfinished. */
  datatype Running = Running(place: Place, m: Isa.Machine, events: seq<Event>, rest: seq<Fsm.Edge>)

  function Settle(items: seq<Item>, i: nat): (p: Place)
    requires i <= |items|
    ensures p.At? ==> p.i < |items| && items[p.i].op != Ud && p.i == NextReal(items, i)
  {
    if NextReal(items, i) < |items| then At(NextReal(items, i)) else Lost
  }

  /** Where control goes after the operation of statement `i`. */
  function After(items: seq<Item>, i: nat, m: Isa.Machine): (p: Place)
    requires i < |items| && items[i].op != Ud
    ensures p.At? ==> p.i < |items| && items[p.i].op != Ud
  {
    if Isa.Jumps(m, Lower(items[i].op, 0)) then
      match Destination(items, items[i].target)
      case None => Lost
      case Some(j) => Settle(items, j)
    else Settle(items, i + 1)
  }

  function SourceRun(hw: Design, items: seq<Item>, i: nat, m: Isa.Machine, es: seq<Fsm.Edge>): (r: Running)
    requires i < |items| && items[i].op != Ud && m.Sized()
    ensures r.place.At? ==> r.place.i < |items| && items[r.place.i].op != Ud && r.m.Sized()
    ensures |r.rest| <= |es|
    decreases |es|
  {
    var op := Lower(items[i].op, 0);
    if |es| < 2 then Running(At(i), m, [], es)
    else
      var k := Clocked.FirstClear(op, es, 2);
      if k + 3 > |es| then Running(At(i), m, [], es)
      else
        match After(items, i, m)
        case Lost => Running(Lost, m, [], es)
        case At(j) =>
          var r := SourceRun(hw, items, j, Isa.Effect(hw, m, op, es[k].bus), es[k + 3..]);
          r.(events := OpEvents(m, op, es[k].bus) + r.events)
  }
}
