/** Launching the shipped routines on the clocked unit, up to the clock at which it stops. */
module OcdLaunch {
  import opened Words
  import opened Wrappers
  import opened AsmAst
  import opened AsmMeaning
  import opened AsmSemantics
  import opened EndToEnd
  import opened StraightLine
  import opened OcdEvents
  import opened OcdStretches
  import opened OcdRoutines
  import opened OcdBreak
  import opened OcdRegisters
  import opened OcdTables
  import opened OcdBreakTables
  import Isa = OcdIsa
  import Fsm = OcdFsm

  /** The edges after the two that bring the unit to the routine's first instruction. */
  function Tail(es: seq<Fsm.Edge>): seq<Fsm.Edge> {
    if |es| < 2 then [] else es[2..]
  }

  lemma NotStoppedAtOnce(hw: Design, before: Fsm.System, table: Table, stale: Word, es: seq<Fsm.Edge>)
    requires before.Sized() && |table| <= 256 && |es| < 2
    ensures !Fsm.Run(hw, Launch(before, table, stale), es).core.stop
  {
    var s := Launch(before, table, stale);
    if |es| == 1 {
      assert es == [es[0]];
      Fsm.RunFew(hw, s, es[0], es[0], es[0]);
    }
  }

  lemma RoutineImage(ops: seq<Operation>)
    requires Branchless(ops)
    ensures Branchless(ops + [Exit])
    ensures Image(Intended, Labels(Routine(ops)), Routine(ops)) == Success(WordsOf(ops + [Exit]))
  {
    BranchlessParts(ops, [Exit]);
    LinesImage(Intended, Labels(Routine(ops)), ops + [Exit]);
  }

  /** When a routine without branches has stopped, each of its operations has been committed
      exactly once, in order, under some bus sample, whatever the waits; and nothing else
      has happened to the registers, the pins and the buses. */
  lemma RoutineStops(hw: Design, ops: seq<Operation>, before: Fsm.System, stale: Word, es: seq<Fsm.Edge>)
    requires RunsOn(ops) && before.Sized()
    requires Branchless(ops + [Exit]) && |TableOf(ops + [Exit])| <= 256
    ensures var s, bs := Launch(before, TableOf(ops + [Exit]), stale), Commits(ops, Tail(es));
      Fsm.Run(hw, s, es).core.stop ==>
        |bs| == |ops| && (MachineOf(Fsm.Run(hw, s, es)), Observed(hw, s, es)) == Fold(hw, ops, MachineOf(before), bs)
  {
    hide TableOf, Fsm.Run, Observed, Fold, Commits, SourceRun, Image, Labels, Launch, WordsOf;
    var items, table, bs := Routine(ops), TableOf(ops + [Exit]), Commits(ops, Tail(es));
    var s := Launch(before, table, stale);
    if |es| < 2 {
      NotStoppedAtOnce(hw, before, table, stale, es);
    } else if Fsm.Run(hw, s, es).core.stop {
      RoutineImage(ops);
      RoutineTable(ops);
      assert Settle(items, 0) == At(0);
      LaunchedFunction(Intended, hw, items, before, stale, es);
      StretchToExit(hw, items, 0, ops, MachineOf(before), es[2..]);
      var r := SourceRun(hw, items, 0, MachineOf(before), es[2..]);
      OnlyLastExits(ops, r.place.i);
      assert ops[..|ops|] == ops;
    }
  }

  /** At every instruction boundary of such a routine, a first part of its operations has been
      committed, and the program counter tells which. */
  lemma RoutineAtBoundary(hw: Design, ops: seq<Operation>, before: Fsm.System, stale: Word, es: seq<Fsm.Edge>)
    requires RunsOn(ops) && before.Sized() && |es| >= 2
    requires Branchless(ops + [Exit]) && |TableOf(ops + [Exit])| <= 256
    ensures var s, bs := Launch(before, TableOf(ops + [Exit]), stale), Commits(ops, Tail(es));
      Fsm.Run(hw, s, es).core.phase == Fsm.Fetch ==>
        && Fsm.Run(hw, s, es).core.pc == Offset(Routine(ops)[..|bs|])
        && (MachineOf(Fsm.Run(hw, s, es)), Observed(hw, s, es)) == Fold(hw, ops[..|bs|], MachineOf(before), bs)
  {
    hide TableOf, Fsm.Run, Observed, Fold, Commits, SourceRun, Image, Labels, Launch, WordsOf, Offset;
    var items, s := Routine(ops), Launch(before, TableOf(ops + [Exit]), stale);
    if Fsm.Run(hw, s, es).core.phase == Fsm.Fetch {
      RoutineImage(ops);
      RoutineTable(ops);
      assert Settle(items, 0) == At(0);
      LaunchedFunction(Intended, hw, items, before, stale, es);
      StretchToExit(hw, items, 0, ops, MachineOf(before), es[2..]);
      assert es[..|es|] == es;
    }
  }

  lemma RoutineTable(ops: seq<Operation>)
    requires Branchless(ops) && Branchless(ops + [Exit])
    ensures TableOf(ops + [Exit]) == Emit(WordsOf(ops + [Exit])) && |TableOf(ops + [Exit])| == |WordsOf(ops + [Exit])|
  {
  }

  /** EXIT appears nowhere but at the end. */
  predicate RunsOn(ops: seq<Operation>) {
    ops != [] && Branchless(ops) && Exit !in ops
  }

  lemma OnlyLastExits(ops: seq<Operation>, i: nat)
    requires RunsOn(ops) && i <= |ops|
    ensures Routine(ops)[i].op.Exit? <==> i == |ops|
  {
  }

  lemma QuietRunsOn(ops: seq<Operation>)
    requires ops != [] && Branchless(ops) && Quiet(ops)
    ensures RunsOn(ops)
  {
  }

  lemma RunsOnParts(a: seq<Operation>, b: seq<Operation>)
    requires RunsOn(a) && RunsOn(b)
    ensures RunsOn(a + b)
  {
  }

  lemma RoutinesRunOn()
    ensures RunsOn(StartOps()) && RunsOn(WriteIoOps()) && RunsOn(ReadIoOps()) && RunsOn(ResetOps())
    ensures RunsOn(GetRegsOps()) && RunsOn(SetRegOps()) && RunsOn(ContOps())
  {
    hide Captures, Puts, PutsThenWait;
    QuietRunsOn(Puts(CONT_REGS));
    RunsOnParts(Puts(CONT_REGS), WatchIo());
    RunsOnParts(ContLoad(), Puts(CONT_REGS) + WatchIo());
    QuietRunsOn(Puts(SET_REGS));
    RunsOnParts(Puts(SET_REGS), [Hold]);
    RunsOnParts([Ldi(4, 0x9090)], Puts(SET_REGS) + [Hold]);
    QuietRunsOn(PutsThenWait(PUSHA_REGS));
    RunsOnParts(GetRegsLoad(), PutsThenWait(PUSHA_REGS));
    RunsOnParts(AllCaptures(), [Hold]);
    RunsOnParts(GetRegsFeed(), GetRegsTake());
  }

  // ----- Break -----

  /** The first branch of the break routine as it ends up in program memory. */
  function FirstBranch(code: Design): Operation {
    if code.Intended? then Bne else Beq
  }

  /** The break routine's table: shipped, or as an assembler that encodes BNE would emit it. */
  function BreakTable(code: Design): Table {
    if code.Intended? then BreakTableWith(0x73) else BREAK_TABLE
  }

  lemma BreakTableAssembled(code: Design)
    ensures AssembledBreak(code, Bne) == BreakTable(code) == AssembledBreak(Intended, FirstBranch(code))
    ensures |BreakTable(code)| == 77
  {
    hide AssembledBreak, BreakTableWith;
    BreakIsAssembled(Intended);
    if code.Intended? {
      BreakAssembles(Intended, Bne);
      assert AssembledBreak(Intended, Bne) == BreakTableWith(0x73) by {
        BreakOpened();
      }
    }
    BreakLength();
  }

  lemma BreakOpened()
    ensures AssembledBreak(Intended, Bne) == BreakTableWith(0x73)
  {
    hide BreakTableWith, Image, Labels, BreakItems;
    BreakAssembles(Intended, Bne);
  }

  lemma BreakLength()
    ensures |BREAK_TABLE| == 77 && |BreakTableWith(0x73)| == 77
  {
  }

  lemma BreakFaithful(code: Design)
    ensures Faithful(Intended, BreakItems(FirstBranch(code))) && Settle(BreakItems(FirstBranch(code)), 0) == At(0)
  {
    hide BreakItems;
    BreakEntry(FirstBranch(code));
  }

  lemma BreakPartsRunOn()
    ensures Exit !in Entry() && Exit !in ProtectedOps() && Exit !in RealOps()
  {
    hide Captures, Drives;
  }

  /** Where the routine can stop. */
  lemma BreakExits(first: Operation, i: nat)
    requires (first == Bne || first == Beq) && i < 66
    ensures BreakItems(first)[i].op.Exit? <==> i == 56 || i == 65
  {
    hide BreakItems, Entry, ProtectedOps, RealOps;
    BreakPartsRunOn();
    BreakLayout(first);
    BreakHead(first);
    var items := BreakItems(first);
    if i < 7 {
      assert items[0 + i].op == Entry()[i];
    } else if PROTECTED_AT <= i < 56 {
      assert items[PROTECTED_AT + (i - PROTECTED_AT)].op == ProtectedOps()[i - PROTECTED_AT];
    } else if REAL_AT <= i < 65 {
      assert items[REAL_AT + (i - REAL_AT)].op == RealOps()[i - REAL_AT];
    }
  }

  /** When the break routine has stopped, on either assembler and either wiring of the
      address gates, it has noted two addresses; they decide whether R1 says real mode; and
      if it does not, R2..R6 are the five words sampled. */
  lemma BreakStops(hw: Design, code: Design, before: Fsm.System, stale: Word, es: seq<Fsm.Edge>)
    requires before.Sized()
    ensures var s := Launch(before, BreakTable(code), stale);
      var now, evs := Fsm.Run(hw, s, es), Observed(hw, s, es);
      now.core.stop ==>
        && Addresses(evs).Some?
        && var (low, high) := Addresses(evs).value;
           && (MachineOf(now).regs[1] == 0 <==> TakenForReal(hw, FirstBranch(code), low, high))
           && (MachineOf(now).regs[1] != 0 ==> SavedContext(MachineOf(now), evs))
  {
    hide Fsm.Run, Observed, SourceRun, Image, Labels, Launch, BreakItems, SavedContext, TakenForReal, Addresses,
         BreakTable;
    var first, items := FirstBranch(code), BreakItems(FirstBranch(code));
    var s := Launch(before, BreakTable(code), stale);
    BreakTableAssembled(code);
    if |es| < 2 {
      NotStoppedAtOnce(hw, before, BreakTable(code), stale, es);
    } else if Fsm.Run(hw, s, es).core.stop {
      BreakFaithful(code);
      BreakAssembles(Intended, first);
      LaunchedFunction(Intended, hw, items, before, stale, es[..]);
      BreakRuns(hw, first, MachineOf(before), es[2..]);
      var r := SourceRun(hw, items, 0, MachineOf(before), es[2..]);
      BreakExits(first, r.place.i);
      if r.place.i == 56 {
        SavedMeansR1(r);
      }
    }
  }

  lemma SavedMeansR1(r: Running)
    requires r.m.Sized() && SavedContext(r.m, r.events)
    ensures r.m.regs[1] == 1
  {
  }

  // ----- Which mode a break sees -----

  lemma OrWithZero(x: nat)
    ensures Or(x, 0) == x
  {
  }

  /** The address gates as written agree with their documentation exactly on addresses
      without a high byte. */
  lemma GatesAgree(a: Address)
    ensures (Isa.AddressLow(AsWritten, a), Isa.AddressHigh(AsWritten, a)) ==
            (Isa.AddressLow(Intended, a), Isa.AddressHigh(Intended, a))
            <==> a < 0x1_0000
  {
    OrWithZero(a % 0x1_0000);
  }

  /** With the gates as written no break is ever taken for real mode. */
  lemma AsWiredAlwaysProtected(first: Operation, low: Address, high: Address)
    ensures !TakenForReal(AsWritten, first, low, high)
  {
  }

  /** With gates and branch as documented, real mode is seen exactly when the low word is
      the vector offset and the high byte is not zero. */
  lemma IntendedDecision(low: Address, high: Address)
    ensures TakenForReal(Intended, Bne, low, high) <==> low % 0x1_0000 == 0x0008 && high / 0x1_0000 != 0
  {
  }

  /** A break notes one address twice. The documented decision, real mode for the vector fetch
      at 000008h and for nothing else, is taken by the routine, on either wiring and with
      either opcode of its first branch, exactly for these addresses; never for 000008h itself. */
  lemma JudgedRightExactly(hw: Design, first: Operation, a: Address)
    requires first == Bne || first == Beq
    ensures (TakenForReal(hw, first, a, a) <==> a == 0x00_0008) <==>
            if hw.AsWritten? then a != 0x00_0008
            else if first == Bne then a % 0x1_0000 != 0x0008
            else a != 0x00_0008 && (a < 0x1_0000 || a % 0x1_0000 == 0x0008)
  {
    OrWithZero(a % 0x1_0000);
  }
}
