/** From assembly text to clock edges. */
module EndToEnd {
  import opened Words
  import opened AsmAst
  import opened AsmSynth
  import opened AsmMeaning
  import opened AsmAny
  import opened AsmIntact
  import opened AsmSemantics
  import Isa = OcdIsa
  import Fsm = OcdFsm
  import Clocked = OcdRefinement
  import opened OcdEvents

  /** The image occupies the first program words. */
  predicate Loaded(prog: seq<Word>, image: seq<int>) {
    && |image| <= |prog| == 256
    && forall i :: 0 <= i < |image| ==> prog[i] == image[i] % 0x1_0000
  }

  /** Whether encodings mean what they say: as written, BNE is encoded as BEQ. */
  predicate Faithful(v: Design, items: seq<Item>) {
    v.Intended? || forall i :: 0 <= i < |items| ==> items[i].op != Bne
  }

  function TargetByte(labels: map<string, int>, target: Operand): Byte {
    match GetAddr(labels, target)
    case Success(a) => a % 0x100
    case Failure(_) => 0
  }

  lemma OpcodeFields(i: Byte, d: int, s: int)
    ensures var w := Opcode(i, d, s);
      0 <= w < 0x1_0000 && Isa.OpcodeOf(w) == i && Isa.SourceOf(w) == s % 0x10 && Isa.DestOf(w) == d % 0x10
  {
  }

  lemma OpcodeAddrFields(i: Byte, a: int)
    ensures var w := OpcodeAddr(i, a);
      0 <= w < 0x1_0000 && Isa.OpcodeOf(w) == i && w % 0x100 == a % 0x100
  {
  }

  lemma FieldsDecode(op: Operation, t: Byte, t': Byte, imm: Word)
    requires op != Ud && !IsBranch(op) && (op.Ldi? ==> imm == op.s % 0x1_0000)
    ensures var (i, d, s) := Fields(op);
      Isa.DecodeFields(i, s % 0x10, d % 0x10, t, imm) == Lower(op, t')
  {
  }

  /** Decoding an encoded operation gives the operation back, registers modulo 16 and
      immediates modulo 2^16; only BNE, as written, comes back as another. */
  lemma DecodeEncode(v: Design, labels: map<string, int>, op: Operation, target: Operand, imm: Word)
    requires Encode(v, labels, op, target).Success? && (op.Ldi? ==> imm == op.s % 0x1_0000)
    ensures var w, back := Encode(v, labels, op, target).value, Lower(op, TargetByte(labels, target));
      && 0 <= w < 0x1_0000
      && (Isa.Decode(w, imm) == back <==> v.Intended? || op != Bne)
  {
    hide Opcode, OpcodeAddr, Isa.OpcodeOf, Isa.SourceOf, Isa.DestOf, Fields;
    if IsBranch(op) {
      OpcodeAddrFields(Isa.BA, GetAddr(labels, target).value);
      OpcodeAddrFields(Isa.BEQ, GetAddr(labels, target).value);
      OpcodeAddrFields(Isa.BNE, GetAddr(labels, target).value);
    } else {
      hide Isa.DecodeFields, Lower;
      var (i, d, s) := Fields(op);
      OpcodeFields(i, d, s);
      FieldsDecode(op, Encode(v, labels, op, target).value % 0x100, TargetByte(labels, target), imm);
    }
  }

  // ----- The loaded image against the source -----

  /** At a real statement's offset the unit decodes that statement's operation. */
  lemma CurrentIsStatement(v: Design, items: seq<Item>, x: Isa.Isa, i: nat)
    requires x.Sized() && i < |items| && items[i].op != Ud && Faithful(v, items)
    requires Image(v, Labels(items), items).Success? && Loaded(x.prog, Image(v, Labels(items), items).value)
    requires x.pc == Offset(items[..i])
    ensures x.Current() == Lower(items[i].op, TargetByte(Labels(items), items[i].target))
  {
    hide Isa.Decode, Lower, Encode, Labels;
    var labels := Labels(items);
    CodeAtOffset(v, labels, items, i);
    var ws, code := Image(v, labels, items).value, Code(v, labels, items[i]).value;
    assert ws[x.pc] == ws[x.pc..x.pc + |code|][0];
    var imm: Word := if x.pc < 255 then x.prog[x.pc + 1] else x.m.regs[0];
    if items[i].op.Ldi? {
      assert ws[x.pc + 1] == ws[x.pc..x.pc + |code|][1];
    }
    DecodeEncode(v, labels, items[i].op, items[i].target, imm);
  }

  /** Nothing but empty statements separates a statement from the next real one. */
  lemma {:induction false} OffsetOfNextReal(items: seq<Item>, i: nat)
    requires i <= |items|
    ensures Offset(items[..NextReal(items, i)]) == Offset(items[..i])
    decreases |items| - i
  {
    if i < |items| && items[i].op == Ud {
      OffsetStep(items, i);
      OffsetOfNextReal(items, i + 1);
    }
  }

  /** Every real statement of a function that fits starts inside program memory, and the
      address a branch encodes is its destination's offset. */
  lemma BranchLands(v: Design, items: seq<Item>, target: Operand)
    requires Fits(Image(v, Labels(items), items))
    requires Destination(items, target).Some? && Settle(items, Destination(items, target).value).At?
    ensures var j := Settle(items, Destination(items, target).value).i;
      TargetByte(Labels(items), target) == Offset(items[..j])
  {
    hide Labels, Image, Offset;
    var d := Destination(items, target).value;
    var j := Settle(items, d).i;
    OffsetOfNextReal(items, d);
    RealFits(v, items, j);
    TargetIsDestination(items, target);
  }

  /** A branch target is the offset of the statement it goes to. */
  lemma TargetIsDestination(items: seq<Item>, target: Operand)
    requires Destination(items, target).Some?
    ensures TargetByte(Labels(items), target) == Offset(items[..Destination(items, target).value]) % 0x100
  {
    hide Labels, Offset;
    if target.Id? {
      LabelIsLastOffset(items, target.name);
    }
  }

  lemma RealFits(v: Design, items: seq<Item>, j: nat)
    requires j < |items| && items[j].op != Ud && Fits(Image(v, Labels(items), items))
    ensures Offset(items[..j]) + Size(items[j].op) <= 256
  {
    OffsetStep(items, j);
    OffsetMonotone(items, j + 1, |items|);
    assert items[..|items|] == items;
  }

  // ----- Simulation -----

  /** The unit is about to run statement `i` of the loaded function. */
  predicate Follows(v: Design, items: seq<Item>, x: Isa.Isa, i: nat, m: Isa.Machine) {
    && x.Sized() && x.m == m
    && i < |items| && items[i].op != Ud && x.pc == Offset(items[..i])
    && Fits(Image(v, Labels(items), items)) && Loaded(x.prog, Image(v, Labels(items), items).value)
  }

  /** The address a branch carries matters to nothing but the program counter. */
  lemma TargetIsInert(hw: Design, m: Isa.Machine, op: Operation, t: Byte, b: Isa.Bus)
    requires op != Ud && m.Sized()
    ensures Isa.Effect(hw, m, Lower(op, t), b) == Isa.Effect(hw, m, Lower(op, 0), b)
    ensures Isa.Jumps(m, Lower(op, t)) <==> Isa.Jumps(m, Lower(op, 0))
    ensures Isa.Blocked(Lower(op, t), b) <==> Isa.Blocked(Lower(op, 0), b)
    ensures Isa.Length(Lower(op, t)) == Size(op)
    ensures Isa.Jumps(m, Lower(op, t)) ==> Lower(op, t).t == t
    ensures OpEvents(m, Lower(op, t), b) == OpEvents(m, Lower(op, 0), b)
  {
    if IsBranch(op) {
      BranchInert(hw, m, op, t, b);
      BranchInert(hw, m, op, 0, b);
    } else {
      assert Lower(op, t) == Lower(op, 0);
      LowerLength(op, t);
      NoJump(m, op, t);
    }
  }

  lemma BranchInert(hw: Design, m: Isa.Machine, op: Operation, t: Byte, b: Isa.Bus)
    requires IsBranch(op) && m.Sized()
    ensures Isa.Effect(hw, m, Lower(op, t), b) == m && !Isa.Blocked(Lower(op, t), b)
    ensures OpEvents(m, Lower(op, t), b) == []
    ensures Isa.Length(Lower(op, t)) == 1 && Lower(op, t).t == t
    ensures Isa.Jumps(m, Lower(op, t)) <==> op.Ba? || (op.Beq? && m.cmpr != 0) || (op.Bne? && m.cmpr == 0)
  {
  }

  lemma LowerLength(op: Operation, t: Byte)
    requires op != Ud
    ensures Isa.Length(Lower(op, t)) == Size(op)
  {
  }

  lemma NoJump(m: Isa.Machine, op: Operation, t: Byte)
    requires op != Ud && !IsBranch(op) && m.Sized()
    ensures !Isa.Jumps(m, Lower(op, t))
  {
  }

  lemma {:induction false} SameCommit(op: Operation, t: Byte, m: Isa.Machine, es: seq<Fsm.Edge>, i: nat)
    requires op != Ud && m.Sized() && i <= |es|
    ensures Clocked.FirstClear(Lower(op, t), es, i) == Clocked.FirstClear(Lower(op, 0), es, i)
    decreases |es| - i
  {
    hide Lower, Isa.Blocked;
    if i < |es| {
      TargetIsInert(Intended, m, op, t, es[i].bus);
      SameCommit(op, t, m, es, i + 1);
    }
  }

  /** One instruction of the unit is one statement of the source. */
  lemma StatementStep(v: Design, hw: Design, items: seq<Item>, x: Isa.Isa, i: nat, m: Isa.Machine, b: Isa.Bus)
    requires Follows(v, items, x, i, m) && Faithful(v, items) && After(items, i, m).At?
    ensures Follows(v, items, x.Step(hw, b), After(items, i, m).i, Isa.Effect(hw, m, Lower(items[i].op, 0), b))
  {
    hide Lower, Isa.Effect, Isa.Jumps, Isa.Decode, Labels, Image, Isa.Length, Faithful;
    var t, j := TargetByte(Labels(items), items[i].target), After(items, i, m).i;
    CurrentIsStatement(v, items, x, i);
    TargetIsInert(hw, m, items[i].op, t, b);
    RealFits(v, items, i);
    RealFits(v, items, j);
    if Isa.Jumps(m, Lower(items[i].op, 0)) {
      BranchLands(v, items, items[i].target);
    } else {
      OffsetStep(items, i);
      OffsetOfNextReal(items, i + 1);
    }
  }

  /** Whether the operation completes within the trace. */
  predicate Completes(op: Isa.Op, es: seq<Fsm.Edge>) {
    |es| >= 2 && Clocked.FirstClear(op, es, 2) + 3 <= |es|
  }

  lemma SourceRunUnfolds(hw: Design, items: seq<Item>, i: nat, m: Isa.Machine, es: seq<Fsm.Edge>)
    requires i < |items| && items[i].op != Ud && m.Sized()
    ensures var op, r := Lower(items[i].op, 0), SourceRun(hw, items, i, m, es);
      && (!Completes(op, es) ==> r == Running(At(i), m, [], es))
      && (Completes(op, es) && After(items, i, m).Lost? ==> r.place.Lost?)
      && (Completes(op, es) && After(items, i, m).At? ==>
            var k := Clocked.FirstClear(op, es, 2);
            var q := SourceRun(hw, items, After(items, i, m).i, Isa.Effect(hw, m, op, es[k].bus), es[k + 3..]);
            r == q.(events := OpEvents(m, op, es[k].bus) + q.events))
  {
    hide Lower, Isa.Effect, After, Isa.Blocked, Clocked.FirstClear, OpEvents, Settle;
  }

  /** The unit, run over a clocked trace, does what the source says: it is before the same
      statement with the same registers, compare register and pins, it has moved the same
      words over the data bus, and it is as far into the statement. */
  lemma {:induction false} SourceSimulation(v: Design, hw: Design, items: seq<Item>, x: Isa.Isa, i: nat, m: Isa.Machine,
                                            es: seq<Fsm.Edge>)
    requires Follows(v, items, x, i, m) && Faithful(v, items)
    ensures var r, p := SourceRun(hw, items, i, m, es), Clocked.IsaRun(hw, x, es);
      r.place.At? ==> p.rest == r.rest && Follows(v, items, p.x, r.place.i, r.m) && IsaEvents(hw, x, es) == r.events
    decreases |es|
  {
    hide Lower, Isa.Effect, Isa.Decode, After, Faithful, Labels, Image, Isa.Blocked, Clocked.IsaRun, SourceRun,
         IsaEvents, OpEvents;
    var op, t := items[i].op, TargetByte(Labels(items), items[i].target);
    CurrentIsStatement(v, items, x, i);
    IsaEventsUnfold(hw, x, es);
    SourceRunUnfolds(hw, items, i, m, es);
    if |es| >= 2 {
      SameCommit(op, t, m, es, 2);
      if Completes(x.Current(), es) && After(items, i, m).At? {
        var k := Clocked.FirstClear(x.Current(), es, 2);
        var b, rest := es[k].bus, es[k + 3..];
        TargetIsInert(hw, m, op, t, b);
        StatementStep(v, hw, items, x, i, m, b);
        SourceSimulation(v, hw, items, x.Step(hw, b), After(items, i, m).i, Isa.Effect(hw, m, Lower(op, 0), b), rest);
      }
    }
  }

  // ----- Header tables and loading -----

  /** A table of the generated header, one line of two bytes for each word, low byte first. */
  type Table = seq<(Byte, Byte)>

  /** A function's table: each word split into two bytes, each converted to uint8_t. */
  function Emit(image: seq<int>): (table: Table)
    ensures |table| == |image|
  {
    seq(|image|, i requires 0 <= i < |image| => (image[i] % 0x100, image[i] / 0x100 % 0x100))
  }

  /** Copying a table to the start of the shared memory. */
  function Copy(mem: seq<Word>, table: Table): (r: seq<Word>)
    requires |mem| == 512 && |table| <= 512
    ensures |r| == 512
  {
    seq(512, i requires 0 <= i < 512 => if i < |table| then Join(table[i].0, table[i].1) else mem[i])
  }

  /** Launching a routine: hold the unit in reset, copy, release. Nothing happens if the
      table is larger than the memory. */
  function Launch(s: Fsm.System, table: Table, stale: Word): (r: Fsm.System)
    requires s.Sized()
    ensures r.Sized()
  {
    if 2 * |table| > 1024 then s
    else
      var held := Fsm.Rst(s, stale);
      held.(mem := Copy(held.mem, table))
  }

  function MachineOf(s: Fsm.System): (m: Isa.Machine)
    requires s.Sized()
    ensures m.Sized()
  {
    Isa.Machine(s.mem[256..272], s.core.cmpr, s.core.pins)
  }

  /** Two edges after a launch the unit is at an instruction boundary, at address 0. */
  lemma LaunchReachesBoundary(hw: Design, before: Fsm.System, table: Table, stale: Word, e0: Fsm.Edge, e1: Fsm.Edge)
    requires before.Sized() && |table| <= 256
    ensures var s := Launch(before, table, stale);
      var t := Fsm.Run(hw, s, [e0, e1]);
      && Clocked.Boundary(t) && Clocked.Abs(t) == Isa.Isa(0, s.mem[..256], MachineOf(s))
      && MachineOf(s) == MachineOf(before) && s.core.phase == Fsm.Store
  {
    var s := Launch(before, table, stale);
    assert MachineOf(s).regs == MachineOf(before).regs;
    Fsm.RunFew(hw, s, e0, e1, e1);
  }

  lemma JoinSplit(w: int)
    ensures Join(w % 0x100, w / 0x100 % 0x100) == w % 0x1_0000
  {
  }

  lemma LaunchLoads(before: Fsm.System, image: seq<int>, stale: Word)
    requires before.Sized() && |image| <= 256
    ensures Loaded(Launch(before, Emit(image), stale).mem[..256], image)
  {
    hide Join;
    var mem := Launch(before, Emit(image), stale).mem;
    forall i | 0 <= i < |image|
      ensures mem[..256][i] == image[i] % 0x1_0000
    {
      JoinSplit(image[i]);
    }
  }

  lemma ExitStaysExit(op: Operation, t: Byte)
    requires op != Ud
    ensures Lower(op, t).Exit? <==> op.Exit?
  {
  }

  /** The source-level account `r` of a clocked run is right about the unit's state after
      `es`: the last boundary passed and the data moved until then, whether the unit is at a
      boundary, whether it has stopped, and that stopping changes nothing more. */
  predicate Accounts(hw: Design, items: seq<Item>, s: Fsm.System, es: seq<Fsm.Edge>, r: Running)
    requires s.Sized() && |r.rest| <= |es|
    requires r.place.At? ==> r.place.i < |items| && items[r.place.i].op != Ud
  {
    r.place.At? ==>
      var t, now := Fsm.Run(hw, s, es[..|es| - |r.rest|]), Fsm.Run(hw, s, es);
      && Clocked.Boundary(t) && MachineOf(t) == r.m && t.core.pc == Offset(items[..r.place.i])
      && Observed(hw, s, es[..|es| - |r.rest|]) == r.events
      && (now.core.phase == Fsm.Fetch <==> r.rest == [])
      && (now.core.stop <==> items[r.place.i].op.Exit? && |r.rest| >= 3)
      && (now.core.stop ==> MachineOf(now) == r.m && Observed(hw, s, es) == r.events)
  }

  /** From a boundary before statement `i`. */
  lemma BoundaryAccounts(v: Design, hw: Design, items: seq<Item>, t: Fsm.System, i: nat, es: seq<Fsm.Edge>)
    requires t.Sized() && Clocked.Boundary(t)
    requires Follows(v, items, Clocked.Abs(t), i, MachineOf(t)) && Faithful(v, items)
    ensures Accounts(hw, items, t, es, SourceRun(hw, items, i, MachineOf(t), es))
  {
    hide Labels, Image, Fsm.Run, Clocked.IsaRun, SourceRun, Faithful, Lower, Isa.Decode, Clocked.PhaseWithin,
         Clocked.Boundary, Observed, IsaEvents;
    SourceSimulation(v, hw, items, Clocked.Abs(t), i, MachineOf(t), es);
    Clocked.RunObserved(hw, t, es);
    EventsRefine(hw, t, es);
    var r, p := SourceRun(hw, items, i, MachineOf(t), es), Clocked.IsaRun(hw, Clocked.Abs(t), es);
    if r.place.At? {
      CurrentIsStatement(v, items, p.x, r.place.i);
      ExitStaysExit(items[r.place.i].op, TargetByte(Labels(items), items[r.place.i].target));
      if items[r.place.i].op.Exit? && |r.rest| >= 3 {
        var n := |es| - |r.rest|;
        ExitKeepsEverything(hw, Fsm.Run(hw, t, es[..n]), r.rest);
        Fsm.RunSplit(hw, t, es, n);
        ObservedSplit(hw, t, es, n);
      }
    }
  }

  lemma AccountsLater(hw: Design, items: seq<Item>, s: Fsm.System, es: seq<Fsm.Edge>, n: nat, r: Running)
    requires s.Sized() && n <= |es| && |r.rest| <= |es| - n
    requires r.place.At? ==> r.place.i < |items| && items[r.place.i].op != Ud
    requires Accounts(hw, items, Fsm.Run(hw, s, es[..n]), es[n..], r) && Observed(hw, s, es[..n]) == []
    ensures Accounts(hw, items, s, es, r)
  {
    hide Fsm.Run, Clocked.Boundary, Offset, Observed;
    Clocked.RunChain(hw, s, es, n, |es| - |r.rest|);
    ObservedChain(hw, s, es, n, |es| - |r.rest|);
    ObservedSplit(hw, s, es, n);
  }

  lemma LaunchedFunction(v: Design, hw: Design, items: seq<Item>, before: Fsm.System, stale: Word, es: seq<Fsm.Edge>)
    requires before.Sized() && |es| >= 2
    requires Fits(Image(v, Labels(items), items)) && Faithful(v, items) && Settle(items, 0).At?
    ensures var s := Launch(before, Emit(Image(v, Labels(items), items).value), stale);
      Accounts(hw, items, s, es, SourceRun(hw, items, Settle(items, 0).i, MachineOf(before), es[2..]))
  {
    hide Labels, Image, Launch, Fsm.Run, Clocked.Boundary, SourceRun, Faithful, Emit, Accounts, Observed;
    var image, i := Image(v, Labels(items), items).value, Settle(items, 0).i;
    var s := Launch(before, Emit(image), stale);
    var t := Fsm.Run(hw, s, es[..2]);
    assert es[..2] == [es[0], es[1]];
    LaunchReachesBoundary(hw, before, Emit(image), stale, es[0], es[1]);
    LaunchLoads(before, image, stale);
    OffsetOfNextReal(items, 0);
    assert items[..0] == [];
    BoundaryAccounts(v, hw, items, t, i, es[2..]);
    QuietPhases(hw, s, es[0], es[1]);
    AccountsLater(hw, items, s, es, 2, SourceRun(hw, items, i, MachineOf(before), es[2..]));
  }

  /** From assembly text to clock edges. Take any file the assembler accepts, and any function in
      it that moves no cursor and whose name is not used again: launch its table, and for every
      trace of 386 signals the run of its own source accounts for the unit. */
  lemma EndToEnd(v: Design, hw: Design, consts: map<string, int>, src: seq<Statement>, s: nat, e: nat, f: string,
                 before: Fsm.System, stale: Word, es: seq<Fsm.Edge>)
    requires FunctionAt(src, s, e, f) && s <= e <= |src| && Header(v, consts, src).Success?
    requires before.Sized() && |es| >= 2
    requires var items := BodyItems(consts, src, s, e); Faithful(v, items) && Settle(items, 0).At?
    ensures var items, tables := BodyItems(consts, src, s, e), Header(v, consts, src).value;
      exists k :: 0 <= k < |tables| && tables[k].0 == f
        && Accounts(hw, items, Launch(before, Emit(tables[k].1), stale), es,
                    SourceRun(hw, items, Settle(items, 0).i, MachineOf(before), es[2..]))
  {
    hide Header, SourceRun, Labels, Image, Launch, Accounts, Faithful, Emit, FunctionAt, BodyItems, Opened, Read, Items;
    Intact(v, consts, src, s, e, f);
    var items, tables, k := BodyItems(consts, src, s, e), Header(v, consts, src).value, Opened(src[..s]) - 1;
    LaunchedFunction(v, hw, items, before, stale, es);
    assert tables[k].0 == f;
  }
}
