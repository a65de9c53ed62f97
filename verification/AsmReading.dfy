/** What the lines of a source say, told by position: mnemonics, operands and constants. */
module AsmReading {
  import opened Wrappers
  import opened AsmAst
  import opened AsmAnalysis
  import opened AsmAny

  // ----- Lines -----

  function Mnemonic(op: Operation): string {
    match op
    case Attach => "ATTACH"
    case Detach => "DETACH"
    case Exit => "EXIT"
    case Ldi(_, _) => "LDI"
    case Mov(_, _) => "MOV"
    case Ldcmp(_) => "LDCMP"
    case Ldd(_) => "LDD"
    case Ldal(_) => "LDAL"
    case Ldah(_) => "LDAH"
    case Ldwr(_) => "LDWR"
    case Lddc(_) => "LDDC"
    case Ldmio(_) => "LDMIO"
    case Clr(_) => "CLR"
    case Std(_) => "STD"
    case Start => "START"
    case Reset => "RESET"
    case Waitads => "WAITADS"
    case Waitlock => "WAITLOCK"
    case Waitio => "WAITIO"
    case Ready => "READY"
    case Hold => "HOLD"
    case Int => "INT"
    case Nmi => "NMI"
    case Cmp(_) => "CMP"
    case Beq => "BEQ"
    case Bne => "BNE"
    case Ba => "BA"
    case Nop => "NOP"
    case Ud => ""
  }

  /** The operands an operation is made of, destination first. A branch target is a label, not an
      operand. */
  function Operands(op: Operation): (Option<int>, Option<int>) {
    match op
    case Ldi(d, s) => (Some(d), Some(s))
    case Mov(d, s) => (Some(d), Some(s))
    case Ldcmp(d) => (Some(d), None)
    case Ldd(d) => (Some(d), None)
    case Ldal(d) => (Some(d), None)
    case Ldah(d) => (Some(d), None)
    case Ldwr(d) => (Some(d), None)
    case Lddc(d) => (Some(d), None)
    case Ldmio(d) => (Some(d), None)
    case Clr(d) => (Some(d), None)
    case Std(d) => (Some(d), None)
    case Cmp(d) => (Some(d), None)
    case _ => (None, None)
  }

  /** The operand is what the operation is made of, if it is made of one there. */
  predicate Gives(consts: map<string, int>, o: Operand, v: Option<int>) {
    v.Some? ==> GetOp(consts, o) == Success(v.value)
  }

  /** The line says `op`: its mnemonic is the operation's and its operands give the operation's. */
  predicate SaysOp(consts: map<string, int>, l: Line, op: Operation) {
    l.mnem == Mnemonic(op) && Gives(consts, l.d, Operands(op).0) && Gives(consts, l.s, Operands(op).1)
  }

  // The mnemonics, in groups.

  predicate TakesTwo(m: string) {
    m == "LDI" || m == "MOV"
  }

  predicate LoadsBus(m: string) {
    m == "LDD" || m == "LDAL" || m == "LDAH" || m == "LDWR" || m == "LDDC" || m == "LDMIO"
  }

  predicate UsesRegister(m: string) {
    m == "LDCMP" || m == "CLR" || m == "STD" || m == "CMP"
  }

  predicate Waits(m: string) {
    m == "WAITADS" || m == "WAITLOCK" || m == "WAITIO"
  }

  predicate Signals(m: string) {
    m == "START" || m == "RESET" || m == "READY"
  }

  predicate Requests(m: string) {
    m == "HOLD" || m == "INT" || m == "NMI"
  }

  predicate Branches(m: string) {
    m == "BEQ" || m == "BNE" || m == "BA"
  }

  predicate Controls(m: string) {
    m == "ATTACH" || m == "DETACH" || m == "EXIT"
  }

  predicate Nothing(m: string) {
    m == "NOP" || m == ""
  }

  lemma ReadsTakesTwo(consts: map<string, int>, l: Line)
    requires TakesTwo(l.mnem)
    ensures OperationOf(consts, l).Success? ==> SaysOp(consts, l, OperationOf(consts, l).value)
  {
    hide GetOp;
  }

  lemma ReadsLoadsBus(consts: map<string, int>, l: Line)
    requires LoadsBus(l.mnem)
    ensures OperationOf(consts, l).Success? ==> SaysOp(consts, l, OperationOf(consts, l).value)
  {
    hide GetOp;
  }

  lemma ReadsUsesRegister(consts: map<string, int>, l: Line)
    requires UsesRegister(l.mnem)
    ensures OperationOf(consts, l).Success? ==> SaysOp(consts, l, OperationOf(consts, l).value)
  {
    hide GetOp;
  }

  lemma ReadsWaits(consts: map<string, int>, l: Line)
    requires Waits(l.mnem)
    ensures OperationOf(consts, l).Success? ==> SaysOp(consts, l, OperationOf(consts, l).value)
  {
    hide GetOp;
  }

  lemma ReadsSignals(consts: map<string, int>, l: Line)
    requires Signals(l.mnem)
    ensures OperationOf(consts, l).Success? ==> SaysOp(consts, l, OperationOf(consts, l).value)
  {
    hide GetOp;
  }

  lemma ReadsRequests(consts: map<string, int>, l: Line)
    requires Requests(l.mnem)
    ensures OperationOf(consts, l).Success? ==> SaysOp(consts, l, OperationOf(consts, l).value)
  {
    hide GetOp;
  }

  lemma ReadsBranches(consts: map<string, int>, l: Line)
    requires Branches(l.mnem)
    ensures OperationOf(consts, l).Success? ==> SaysOp(consts, l, OperationOf(consts, l).value)
  {
    hide GetOp;
  }

  lemma ReadsControls(consts: map<string, int>, l: Line)
    requires Controls(l.mnem)
    ensures OperationOf(consts, l).Success? ==> SaysOp(consts, l, OperationOf(consts, l).value)
  {
    hide GetOp;
  }

  lemma ReadsNothing(consts: map<string, int>, l: Line)
    requires Nothing(l.mnem)
    ensures OperationOf(consts, l).Success? ==> SaysOp(consts, l, OperationOf(consts, l).value)
  {
    hide GetOp;
  }

  lemma ReadsUnknown(consts: map<string, int>, l: Line)
    requires !TakesTwo(l.mnem) && !LoadsBus(l.mnem) && !UsesRegister(l.mnem) && !Waits(l.mnem) && !Signals(l.mnem)
    requires !Requests(l.mnem) && !Branches(l.mnem) && !Controls(l.mnem) && !Nothing(l.mnem)
    ensures OperationOf(consts, l).Failure?
  {
  }

  /** A line that is read says what it is read as. */
  lemma ReadSaid(consts: map<string, int>, l: Line)
    ensures OperationOf(consts, l).Success? ==> SaysOp(consts, l, OperationOf(consts, l).value)
  {
    hide OperationOf, SaysOp, TakesTwo, LoadsBus, UsesRegister, Waits, Signals, Requests, Branches, Controls, Nothing;
    if TakesTwo(l.mnem) {
      ReadsTakesTwo(consts, l);
    } else if LoadsBus(l.mnem) {
      ReadsLoadsBus(consts, l);
    } else if UsesRegister(l.mnem) {
      ReadsUsesRegister(consts, l);
    } else if Waits(l.mnem) {
      ReadsWaits(consts, l);
    } else if Signals(l.mnem) {
      ReadsSignals(consts, l);
    } else if Requests(l.mnem) {
      ReadsRequests(consts, l);
    } else if Branches(l.mnem) {
      ReadsBranches(consts, l);
    } else if Controls(l.mnem) {
      ReadsControls(consts, l);
    } else if Nothing(l.mnem) {
      ReadsNothing(consts, l);
    } else {
      ReadsUnknown(consts, l);
    }
  }

  // The other way round.

  lemma SaysTakesTwo(consts: map<string, int>, l: Line, op: Operation)
    requires SaysOp(consts, l, op) && TakesTwo(l.mnem)
    ensures OperationOf(consts, l) == Success(op)
  {
    hide GetOp;
  }

  lemma SaysLoadsBus(consts: map<string, int>, l: Line, op: Operation)
    requires SaysOp(consts, l, op) && LoadsBus(l.mnem)
    ensures OperationOf(consts, l) == Success(op)
  {
    hide GetOp;
  }

  lemma SaysUsesRegister(consts: map<string, int>, l: Line, op: Operation)
    requires SaysOp(consts, l, op) && UsesRegister(l.mnem)
    ensures OperationOf(consts, l) == Success(op)
  {
    hide GetOp;
  }

  lemma SaysWaits(consts: map<string, int>, l: Line, op: Operation)
    requires SaysOp(consts, l, op) && Waits(l.mnem)
    ensures OperationOf(consts, l) == Success(op)
  {
    hide GetOp;
  }

  lemma SaysSignals(consts: map<string, int>, l: Line, op: Operation)
    requires SaysOp(consts, l, op) && Signals(l.mnem)
    ensures OperationOf(consts, l) == Success(op)
  {
    hide GetOp;
  }

  lemma SaysRequests(consts: map<string, int>, l: Line, op: Operation)
    requires SaysOp(consts, l, op) && Requests(l.mnem)
    ensures OperationOf(consts, l) == Success(op)
  {
    hide GetOp;
  }

  lemma SaysBranches(consts: map<string, int>, l: Line, op: Operation)
    requires SaysOp(consts, l, op) && Branches(l.mnem)
    ensures OperationOf(consts, l) == Success(op)
  {
    hide GetOp;
  }

  lemma SaysControls(consts: map<string, int>, l: Line, op: Operation)
    requires SaysOp(consts, l, op) && Controls(l.mnem)
    ensures OperationOf(consts, l) == Success(op)
  {
    hide GetOp;
  }

  lemma SaysNothing(consts: map<string, int>, l: Line, op: Operation)
    requires SaysOp(consts, l, op) && Nothing(l.mnem)
    ensures OperationOf(consts, l) == Success(op)
  {
    hide GetOp;
  }

  lemma MnemonicsKnown(op: Operation)
    ensures var m := Mnemonic(op);
      || TakesTwo(m) || LoadsBus(m) || UsesRegister(m) || Waits(m) || Signals(m) || Requests(m)
      || Branches(m) || Controls(m) || Nothing(m)
  {
  }

  /** A line is read as an operation if and only if it says that operation. */
  lemma OperationExact(consts: map<string, int>, l: Line, op: Operation)
    ensures OperationOf(consts, l) == Success(op) <==> SaysOp(consts, l, op)
  {
    ReadSaid(consts, l);
    if SaysOp(consts, l, op) {
      MnemonicsKnown(op);
      MnemonicOf(consts, l, op);
      hide OperationOf, SaysOp, TakesTwo, LoadsBus, UsesRegister, Waits, Signals, Requests, Branches, Controls, Nothing;
      if TakesTwo(l.mnem) {
        SaysTakesTwo(consts, l, op);
      } else if LoadsBus(l.mnem) {
        SaysLoadsBus(consts, l, op);
      } else if UsesRegister(l.mnem) {
        SaysUsesRegister(consts, l, op);
      } else if Waits(l.mnem) {
        SaysWaits(consts, l, op);
      } else if Signals(l.mnem) {
        SaysSignals(consts, l, op);
      } else if Requests(l.mnem) {
        SaysRequests(consts, l, op);
      } else if Branches(l.mnem) {
        SaysBranches(consts, l, op);
      } else if Controls(l.mnem) {
        SaysControls(consts, l, op);
      } else if Nothing(l.mnem) {
        SaysNothing(consts, l, op);
      }
    }
  }

  lemma MnemonicOf(consts: map<string, int>, l: Line, op: Operation)
    requires SaysOp(consts, l, op)
    ensures l.mnem == Mnemonic(op)
  {
  }

  // ----- Constants, by position -----

  /** The statement defines the constant. */
  predicate Defines(st: Statement, x: string) {
    st.Directive? && st.dir == ".define" && |st.args| == 2 && st.args[0] == Id(x)
  }

  /** The last statement before position `n` that defines the constant. */
  function LastDefine(src: seq<Statement>, n: nat, x: string): (j: Option<nat>)
    requires n <= |src|
    ensures j.Some? ==> j.value < n && Defines(src[j.value], x)
    ensures j.Some? ==> forall i :: j.value < i < n ==> !Defines(src[i], x)
    ensures j.None? ==> forall i :: 0 <= i < n ==> !Defines(src[i], x)
  {
    if n == 0 then None else if Defines(src[n - 1], x) then Some(n - 1) else LastDefine(src, n - 1, x)
  }

  /** What an operand stands for at position `n`: a number for itself, a constant for what the
      last definition before gave it, or for what it was at the start. */
  function Stands(consts: map<string, int>, src: seq<Statement>, n: nat, o: Operand): Option<int>
    requires n <= |src|
    decreases n
  {
    match o
    case Num(i) => Some(i)
    case NoOp => None
    case Id(x) =>
      match LastDefine(src, n, x)
      case Some(j) => Stands(consts, src, j, src[j].args[1])
      case None => if x in consts then Some(consts[x]) else None
  }

  /** Operands are read as what they stand for. */
  ghost predicate Agrees(now: map<string, int>, consts: map<string, int>, src: seq<Statement>, n: nat)
    requires n <= |src|
  {
    && (forall x :: x in now <==> Stands(consts, src, n, Id(x)).Some?)
    && (forall x :: x in now ==> Stands(consts, src, n, Id(x)) == Some(now[x]))
  }

  lemma AgreesOn(now: map<string, int>, consts: map<string, int>, src: seq<Statement>, n: nat, o: Operand)
    requires n <= |src| && Agrees(now, consts, src, n)
    ensures GetOp(now, o).Success? <==> Stands(consts, src, n, o).Some?
    ensures GetOp(now, o).Success? ==> Stands(consts, src, n, o) == Some(GetOp(now, o).value)
  {
    if o.Id? {
      assert o.name in now <==> Stands(consts, src, n, Id(o.name)).Some?;
    }
  }

  /** A statement that defines nothing leaves what constants stand for. */
  lemma StandsOn(consts: map<string, int>, src: seq<Statement>, n: nat, x: string)
    requires n < |src|
    ensures Stands(consts, src, n + 1, Id(x)) ==
            if Defines(src[n], x) then Stands(consts, src, n, src[n].args[1]) else Stands(consts, src, n, Id(x))
  {
  }

  lemma AgreesNext(now: map<string, int>, next: map<string, int>, consts: map<string, int>, src: seq<Statement>, n: nat)
    requires n < |src| && Agrees(now, consts, src, n)
    requires ReadStatement(now, src[n]).Success? && ReadStatement(now, src[n]).value.0 == next
    ensures Agrees(next, consts, src, n + 1)
  {
    hide OperationOf, Stands;
    var st := src[n];
    forall x
      ensures x in next <==> Stands(consts, src, n + 1, Id(x)).Some?
      ensures x in next ==> Stands(consts, src, n + 1, Id(x)) == Some(next[x])
    {
      StandsOn(consts, src, n, x);
      if Defines(st, x) {
        AgreesOn(now, consts, src, n, st.args[1]);
      } else {
        assert x in next <==> x in now;
        assert x in now <==> Stands(consts, src, n, Id(x)).Some?;
      }
    }
  }

  lemma AgreesFirst(consts: map<string, int>, src: seq<Statement>)
    ensures Agrees(consts, consts, src, 0)
  {
  }

  // ----- Whole sources -----

  /** The line, at its position, says `op`. */
  predicate SaysAt(consts: map<string, int>, src: seq<Statement>, n: nat, op: Operation)
    requires n < |src| && src[n].Instr?
  {
    var l := src[n].line;
    && l.mnem == Mnemonic(op)
    && (Operands(op).0.Some? ==> Stands(consts, src, n, l.d) == Operands(op).0)
    && (Operands(op).1.Some? ==> Stands(consts, src, n, l.s) == Operands(op).1)
  }

  /** The statement makes sense where it stands. */
  ghost predicate Sensible(consts: map<string, int>, src: seq<Statement>, n: nat)
    requires n < |src|
  {
    var st := src[n];
    if st.Instr? then exists op :: SaysAt(consts, src, n, op)
    else if st.dir == ".define" then
      |st.args| == 2 && st.args[0].Id? && Stands(consts, src, n, st.args[1]).Some?
    else Moves(st) || Opens(st)
  }

  lemma SaysAtNow(now: map<string, int>, consts: map<string, int>, src: seq<Statement>, n: nat, op: Operation)
    requires n < |src| && src[n].Instr? && Agrees(now, consts, src, n)
    ensures SaysOp(now, src[n].line, op) <==> SaysAt(consts, src, n, op)
  {
    hide Mnemonic, Stands, Agrees, Operands;
    AgreesOn(now, consts, src, n, src[n].line.d);
    AgreesOn(now, consts, src, n, src[n].line.s);
  }

  lemma StatementExact(now: map<string, int>, consts: map<string, int>, src: seq<Statement>, n: nat)
    requires n < |src| && Agrees(now, consts, src, n)
    ensures ReadStatement(now, src[n]).Success? <==> Sensible(consts, src, n)
    ensures src[n].Instr? && Sensible(consts, src, n) ==> SaysAt(consts, src, n, ReadStatement(now, src[n]).value.1)
  {
    hide OperationOf, Stands, Agrees, SaysOp, SaysAt;
    var st := src[n];
    if st.Instr? {
      forall op
        ensures OperationOf(now, st.line) == Success(op) <==> SaysAt(consts, src, n, op)
      {
        OperationExact(now, st.line, op);
        SaysAtNow(now, consts, src, n, op);
      }
      if OperationOf(now, st.line).Success? {
        assert SaysAt(consts, src, n, OperationOf(now, st.line).value);
      }
    } else if st.dir == ".define" && |st.args| == 2 {
      AgreesOn(now, consts, src, n, st.args[1]);
    }
  }

  lemma {:induction false} ReadAgrees(consts: map<string, int>, src: seq<Statement>, n: nat)
    requires n <= |src|
    ensures Read(consts, src[..n]).Success? <==> forall j :: 0 <= j < n ==> Sensible(consts, src, j)
    ensures Read(consts, src[..n]).Success? ==>
              && Agrees(Read(consts, src[..n]).value.0, consts, src, n)
              && forall j :: 0 <= j < n && src[j].Instr? ==>
                   SaysAt(consts, src, j, Read(consts, src[..n]).value.1[j])
    decreases n
  {
    hide ReadStatement, Agrees, SaysAt, Sensible;
    if n == 0 {
      AgreesFirst(consts, src);
      assert src[..0] == [];
    } else {
      var m := n - 1;
      assert src[..n][..m] == src[..m];
      ReadAgrees(consts, src, m);
      if Read(consts, src[..m]).Success? {
        var now := Read(consts, src[..m]).value.0;
        StatementExact(now, consts, src, m);
        if ReadStatement(now, src[m]).Success? {
          AgreesNext(now, ReadStatement(now, src[m]).value.0, consts, src, m);
        }
      }
    }
  }

  /** A source can be read if and only if every statement makes sense where it stands; each line
      is then read as the one operation it says, a constant standing for the value of its last
      definition before, or for what it was at the start. */
  lemma ReadExactly(consts: map<string, int>, src: seq<Statement>)
    ensures Read(consts, src).Success? <==> forall j :: 0 <= j < |src| ==> Sensible(consts, src, j)
    ensures Read(consts, src).Success? ==>
              && (forall j :: 0 <= j < |src| && src[j].Instr? ==>
                   SaysAt(consts, src, j, Read(consts, src).value.1[j]))
              && (forall j :: 0 <= j < |src| && src[j].Instr? ==>
                   forall op :: SaysAt(consts, src, j, op) ==> op == Read(consts, src).value.1[j])
  {
    hide SaysAt, Sensible, Read;
    ReadAgrees(consts, src, |src|);
    assert src[..|src|] == src;
    forall j, op | 0 <= j < |src| && src[j].Instr? && SaysAt(consts, src, j, op) && Read(consts, src).Success?
      ensures op == Read(consts, src).value.1[j]
    {
      SaidOnce(consts, src, j, op, Read(consts, src).value.1[j]);
    }
  }

  lemma SaidOnce(consts: map<string, int>, src: seq<Statement>, n: nat, a: Operation, b: Operation)
    requires n < |src| && src[n].Instr? && SaysAt(consts, src, n, a) && SaysAt(consts, src, n, b)
    ensures a == b
  {
    hide Stands;
    SameMnemonic(a, b);
  }

  lemma SameMnemonic(a: Operation, b: Operation)
    requires Mnemonic(a) == Mnemonic(b) && Operands(a) == Operands(b)
    ensures a == b
  {
  }
}
