/** What start and stop do to the CPU's pins. */
module SupervisorPins {
  import opened Words
  import opened AsmAst
  import opened AsmMeaning
  import opened AsmSemantics
  import opened AsmSynth
  import opened EndToEnd
  import opened StraightLine
  import opened OcdEvents
  import opened OcdStretches
  import opened OcdRoutines
  import opened OcdTables
  import opened OcdLaunch
  import opened Supervisor
  import opened SupervisorRuns
  import opened SupervisorContext
  import opened SupervisorIo
  import Isa = OcdIsa
  import Fsm = OcdFsm
  import Clocked = OcdRefinement

  // ----- Pins after operations that drive no data -----

  predicate DrivesNothing(ops: seq<Operation>) {
    Branchless(ops) && forall i :: 0 <= i < |ops| ==> !ops[i].Std?
  }

  predicate Plain(op: Operation) {
    op != Ud && !IsBranch(op) && !op.Std?
  }

  /** The pins after one operation; the registers do not matter. */
  function OpPins(op: Operation, p: Isa.Pins): Isa.Pins {
    Isa.NewPins(Isa.Machine(seq(16, _ => 0), 0, p), if Plain(op) then Lower(op, 0) else Isa.Nop)
  }

  function PinsAfter(ops: seq<Operation>, p: Isa.Pins): Isa.Pins
    requires DrivesNothing(ops)
  {
    if ops == [] then p else PinsAfter(ops[1..], OpPins(ops[0], p))
  }

  lemma OnePins(hw: Design, m: Isa.Machine, op: Operation, b: Isa.Bus)
    requires m.Sized() && Plain(op)
    ensures Isa.Effect(hw, m, Lower(op, 0), b).pins == OpPins(op, m.pins)
  {
  }

  lemma {:induction false} FoldPins(hw: Design, ops: seq<Operation>, m: Isa.Machine, bs: seq<Isa.Bus>)
    requires m.Sized() && DrivesNothing(ops) && |bs| == |ops|
    ensures Fold(hw, ops, m, bs).0.pins == PinsAfter(ops, m.pins)
    decreases |ops|
  {
    hide Isa.Effect, OpPins, Lower, OpEvents;
    if ops != [] {
      OnePins(hw, m, ops[0], bs[0]);
      FoldPins(hw, ops[1..], Isa.Effect(hw, m, Lower(ops[0], 0), bs[0]), bs[1..]);
    }
  }

  lemma PinsCons(op: Operation, rest: seq<Operation>, p: Isa.Pins)
    requires Plain(op) && DrivesNothing(rest)
    ensures DrivesNothing([op] + rest) && PinsAfter([op] + rest, p) == PinsAfter(rest, OpPins(op, p))
  {
    hide OpPins;
    assert ([op] + rest)[1..] == rest;
  }

  lemma PinsNil(p: Isa.Pins)
    ensures DrivesNothing([]) && PinsAfter([], p) == p
  {
  }

  /** What the operations of these routines do to the pins. */
  lemma PinsOfThese(p: Isa.Pins)
    ensures OpPins(Start, p) == p.(reset := false, nmi := false, intr := false, hold := false)
    ensures OpPins(Detach, p) == p.(en := false) && OpPins(Attach, p) == p.(en := true)
    ensures OpPins(Waitio, p) == p.(readyN := true, nmi := false, en := true)
    ensures OpPins(Ldal(1), p) == p && OpPins(Ldwr(2), p) == p && OpPins(Reset, p) == p.(reset := true)
  {
    hide OpPins;
    PinsOf(Start, p);
    PinsOf(Detach, p);
    PinsOf(Attach, p);
    PinsOf(Waitio, p);
    PinsOf(Ldal(1), p);
    PinsOf(Ldwr(2), p);
    PinsOf(Reset, p);
  }

  lemma PinsOf(op: Operation, p: Isa.Pins)
    ensures OpPins(op, p) ==
            match op
            case Start => p.(reset := false, nmi := false, intr := false, hold := false)
            case Reset => p.(reset := true)
            case Detach => p.(en := false)
            case Attach => p.(en := true)
            case Waitio => p.(readyN := true, nmi := false, en := true)
            case Ldal(_) => p
            case Ldwr(_) => p
            case _ => OpPins(op, p)
  {
  }

  lemma StartPins(p: Isa.Pins)
    ensures DrivesNothing(StartOps())
    ensures PinsAfter(StartOps(), p) ==
            p.(reset := false, nmi := false, intr := false, hold := false, readyN := true, en := true)
  {
    hide OpPins, PinsAfter, DrivesNothing;
    var p1 := OpPins(Start, p);
    var p2 := OpPins(Detach, p1);
    var p3 := OpPins(Waitio, p2);
    PinsOfThese(p);
    PinsOfThese(p1);
    PinsOfThese(p2);
    PinsOfThese(p3);
    PinsNil(p3);
    PinsCons(Ldwr(2), [], p3);
    PinsCons(Ldal(1), [Ldwr(2)] + [], p3);
    PinsCons(Waitio, [Ldal(1)] + ([Ldwr(2)] + []), p2);
    PinsCons(Detach, [Waitio] + ([Ldal(1)] + ([Ldwr(2)] + [])), p1);
    PinsCons(Start, [Detach] + ([Waitio] + ([Ldal(1)] + ([Ldwr(2)] + []))), p);
    assert StartOps() == [Start] + ([Detach] + ([Waitio] + ([Ldal(1)] + ([Ldwr(2)] + []))));
  }

  lemma ResetPins(p: Isa.Pins)
    ensures DrivesNothing(ResetOps()) && PinsAfter(ResetOps(), p) == p.(reset := true, en := true)
  {
    hide OpPins, PinsAfter, DrivesNothing;
    var p1 := OpPins(Reset, p);
    PinsOfThese(p);
    PinsOfThese(p1);
    PinsNil(OpPins(Attach, p1));
    PinsCons(Attach, [], p1);
    PinsCons(Reset, [Attach] + [], p);
    assert ResetOps() == [Reset] + ([Attach] + []);
  }

  /** Nothing but RESET raises the reset pin. */
  lemma {:induction false} ResetStaysLow(ops: seq<Operation>, p: Isa.Pins)
    requires DrivesNothing(ops) && Reset !in ops && !p.reset
    ensures !PinsAfter(ops, p).reset
    decreases |ops|
  {
    if ops != [] {
      OneStaysLow(ops[0], p);
      hide OpPins;
      ResetStaysLow(ops[1..], OpPins(ops[0], p));
    }
  }

  lemma OneStaysLow(op: Operation, p: Isa.Pins)
    requires Plain(op) && op != Reset && !p.reset
    ensures !OpPins(op, p).reset
  {
  }

  lemma StartPrefix(n: nat, p: Isa.Pins)
    requires 0 < n <= 5
    ensures DrivesNothing(StartOps()[..n]) && !PinsAfter(StartOps()[..n], p).reset
  {
    hide OpPins, PinsAfter;
    StartPins(p);
    var rest := StartOps()[1..n];
    assert StartOps()[..n] == [Start] + rest && forall i :: 0 <= i < n - 1 ==> rest[i] == StartOps()[i + 1];
    assert Reset !in rest;
    PinsOfThese(p);
    ResetStaysLow(rest, OpPins(Start, p));
    PinsCons(Start, rest, p);
  }

  // ----- Start -----

  /** The CPU is let go: once the unit has stopped, at the next I/O access, reset, NMI, INTR and
      HOLD are low, the unit holds the buses, and nothing was driven or sampled; and reset is low
      from the end of the first instruction on, with nothing driven until then. */
  predicate LetsGo(hw: Design, before: Isa.Pins, s: Fsm.System, es: seq<Fsm.Edge>)
    requires s.Sized()
  {
    var now, evs := Fsm.Run(hw, s, es), Observed(hw, s, es);
    && (now.core.stop ==>
          && !now.core.pins.reset && !now.core.pins.nmi && !now.core.pins.intr && !now.core.pins.hold
          && now.core.pins.en && now.core.pins.readyN && now.core.pins.dout == before.dout
          && Droves(evs) == [] && Samples(evs) == [])
    && (now.core.phase == Fsm.Fetch && |es| >= 2 ==>
          Droves(evs) == [] && (now.core.pc > 0 ==> !now.core.pins.reset))
  }

  lemma Unspoken(a: Address, wr: bool)
    ensures Droves([Addressed(a), Directed(wr)]) == [] && Samples([Addressed(a), Directed(wr)]) == []
  {
    NothingDriven(a, wr);
    assert [Addressed(a), Directed(wr)][1..] == [Directed(wr)] && [Directed(wr)][1..] == [];
    assert Samples([]) == [];
    assert Samples([Directed(wr)]) == [] + Samples([]);
  }

  lemma StartLetsGo(hw: Design, before: Fsm.System, stale: Word, es: seq<Fsm.Edge>)
    requires before.Sized()
    ensures LetsGo(hw, before.core.pins, Launch(before, START_TABLE, stale), es)
  {
    hide Launch, Fsm.Run, Observed, Fold, Commits, START_TABLE, TableOf, StartOps, Droves, Samples, PinsAfter, Offset,
         Isa.AddressLow;
    SmallTables();
    RoutinesRunOn();
    ShortTables();
    var s, m := Launch(before, START_TABLE, stale), MachineOf(before);
    var now, bs := Fsm.Run(hw, s, es), Commits(StartOps(), Tail(es));
    PinsOfMachine(now);
    PinsOfMachine(before);
    if now.core.stop {
      RoutineStops(hw, StartOps(), before, stale, es);
      StartFold(hw, m, bs);
      Unspoken(bs[3].a, bs[4].wr);
      StartPins(m.pins);
      FoldPins(hw, StartOps(), m, bs);
    }
    if now.core.phase == Fsm.Fetch && |es| >= 2 {
      RoutineAtBoundary(hw, StartOps(), before, stale, es);
      StartSilent(hw, m, bs);
      OffsetOfNothing(Routine(StartOps())[..|bs|]);
      if now.core.pc > 0 {
        StartPrefix(|bs|, m.pins);
        FoldPins(hw, StartOps()[..|bs|], m, bs);
      }
    }
  }

  lemma PinsOfMachine(s: Fsm.System)
    requires s.Sized()
    ensures MachineOf(s).pins == s.core.pins
  {
  }

  lemma OffsetOfNothing(items: seq<Item>)
    ensures items == [] ==> Offset(items) == 0
  {
  }

  lemma StartSilent(hw: Design, m: Isa.Machine, bs: seq<Isa.Bus>)
    requires m.Sized() && |bs| <= 5
    ensures Droves(Fold(hw, StartOps()[..|bs|], m, bs).1) == []
  {
    hide Fold, StartOps, Droves, Samples, Isa.AddressLow;
    var all := bs + seq(5 - |bs|, _ => Isa.Bus(true, true, 0, 0, false, false, false, false));
    assert all[..|bs|] == bs;
    StartFold(hw, m, all);
    FoldPrefix(hw, StartOps(), |bs|, m, all);
    Unspoken(all[3].a, all[4].wr);
    DrovesPrefix(Fold(hw, StartOps()[..|bs|], m, bs).1, Fold(hw, StartOps(), m, all).1);
  }

  /** A start from a stopped CPU, under every trace of 386 signals. */
  lemma StartReleases(hw: Design, sv: Sv, stale: Word, es: seq<Fsm.Edge>)
    requires sv.Sized() && sv.status == Stop
    ensures var o := SvStart(sv, stale);
      o.ret == 0 && o.sv.status == Status.Running && LetsGo(hw, sv.ocd.core.pins, o.sv.ocd, es)
  {
    hide Launch, START_TABLE, LetsGo;
    StartLetsGo(hw, sv.ocd, stale, es);
  }

  /** A continue after an I/O write lets the CPU go just so: nothing is driven. */
  lemma WriteContinues(hw: Design, sv: Sv, stale: Word, es: seq<Fsm.Edge>)
    requires sv.Sized() && sv.status == IoWr
    ensures var o := SvCont(sv, stale);
      o.ret == 0 && o.sv.status == Status.Running && LetsGo(hw, sv.ocd.core.pins, o.sv.ocd, es)
  {
    hide Launch, START_TABLE, LetsGo;
    StartLetsGo(hw, sv.ocd, stale, es);
  }

  // ----- Stop -----

  lemma ResetRuns(hw: Design, s: Fsm.System, env: Env)
    requires s.Sized() && RunAndWait(hw, s, RESET_TABLE, env).Some?
    ensures var now := RunAndWait(hw, s, RESET_TABLE, env).value;
      && now.core.pins == s.core.pins.(reset := true, en := true)
      && Heard(hw, s, RESET_TABLE, env) == [] && MachineOf(now).regs == MachineOf(s).regs
  {
    hide Launch, RunAndWait, Heard, WaitTime, Fsm.Run, Observed, RESET_TABLE, TableOf, ResetOps, MachineOf, Fold,
         Commits, PinsAfter;
    Waited(hw, s, RESET_TABLE, env);
    SmallTables();
    RoutinesRunOn();
    ShortReset();
    var es, m := env.es[..WaitTime(hw, Launch(s, RESET_TABLE, env.stale), env.es)], MachineOf(s);
    RoutineStops(hw, ResetOps(), s, env.stale, es);
    var bs := Commits(ResetOps(), Tail(es));
    ResetSilent(hw, m, bs);
    ResetPins(m.pins);
    FoldPins(hw, ResetOps(), m, bs);
    PinsOfMachine(s);
    PinsOfMachine(RunAndWait(hw, s, RESET_TABLE, env).value);
  }

  lemma ShortReset()
    ensures |RESET_TABLE| <= 256
  {
  }

  lemma ResetSilent(hw: Design, m: Isa.Machine, bs: seq<Isa.Bus>)
    requires m.Sized() && |bs| == 2
    ensures Fold(hw, ResetOps(), m, bs).1 == [] && Fold(hw, ResetOps(), m, bs).0.regs == m.regs
  {
    hide Fold;
    FoldConcat(hw, [Reset], [Attach], m, bs);
    FoldOne(hw, Reset, m, bs[..1]);
    FoldOne(hw, Attach, Fold(hw, [Reset], m, bs[..1]).0, bs[1..]);
    PinsOnly(hw, m, Reset, bs[0]);
    PinsOnly(hw, Fold(hw, [Reset], m, bs[..1]).0, Attach, bs[1]);
  }

  lemma PinsOnly(hw: Design, m: Isa.Machine, op: Operation, b: Isa.Bus)
    requires m.Sized() && (op == Reset || op == Attach)
    ensures Isa.Effect(hw, m, Lower(op, 0), b).regs == m.regs && OpEvents(m, Lower(op, 0), b) == []
  {
  }

  /** Whenever a stop returns, the CPU is held in reset with the unit on its buses; nothing was
      driven or sampled on the way, and no other pin and no register of the unit has changed. */
  lemma StopResets(hw: Design, sv: Sv, env: Env)
    requires sv.Sized() && SvStop(hw, sv, env).Some?
    ensures var o := SvStop(hw, sv, env).value;
      && o.ret == 0 && o.sv == sv.(status := Stop, ocd := o.sv.ocd)
      && o.sv.ocd.core.pins == sv.ocd.core.pins.(reset := true, en := true)
      && MachineOf(o.sv.ocd).regs == MachineOf(sv.ocd).regs
      && Heard(hw, sv.ocd, RESET_TABLE, env) == []
  {
    hide RunAndWait, Heard, RESET_TABLE, MachineOf;
    ResetRuns(hw, sv.ocd, env);
  }

  /** And power-on. */
  lemma InitResets(hw: Design, ocd: Fsm.System, led: Byte, regs: Regs, env: Env)
    requires ocd.Sized() && SvInit(hw, ocd, led, regs, env).Some?
    ensures var sv := SvInit(hw, ocd, led, regs, env).value;
      && sv.status == Stop && sv.iodata == 0 && sv.ioaddr == 0 && sv.led == led && sv.regs == regs
      && sv.ocd.core.pins == ocd.core.pins.(reset := true, en := true)
      && Heard(hw, ocd, RESET_TABLE, env) == []
  {
    hide RunAndWait, Heard, RESET_TABLE, MachineOf;
    ResetRuns(hw, ocd, env);
  }

  // ----- A stopped CPU is held in reset -----

  /** As documented of the state STOP: the reset signal is asserted. */
  predicate ResetHeld(sv: Sv) {
    sv.status == Stop ==> sv.ocd.core.pins.reset && sv.ocd.core.pins.en
  }

  lemma EventHoldsReset(hw: Design, code: Design, sv: Sv, ev: SupervisorRuns.Event)
    requires Quiescent(sv) && ResetHeld(sv) && React(hw, code, sv, ev).Some?
    ensures ResetHeld(React(hw, code, sv, ev).value)
  {
    hide Launch, RunAndWait, Fsm.Run, Heard, RESET_TABLE, MachineOf;
    if ev.CmdStop? {
      StopResets(hw, sv, ev.env);
    } else if ev.Clocks? && sv.status == Stop && ev.es != [] {
      Clocked.ExitIsAbsorbing(hw, sv.ocd, ev.es);
    } else if ev.Clocks? && sv.status == Stop {
      NoClocks(hw, sv.ocd);
    }
  }

  lemma NoClocks(hw: Design, s: Fsm.System)
    requires s.Sized()
    ensures Fsm.Run(hw, s, []) == s
  {
  }

  /** Over every run from power-on, the CPU of a supervisor that says it is stopped is held in
      reset. */
  lemma {:induction false} StoppedMeansReset(hw: Design, code: Design, sv: Sv, evs: seq<SupervisorRuns.Event>)
    requires sv.Sized() && Quiescent(sv) && ResetHeld(sv) && SupervisorRuns.Play(hw, code, sv, evs).Some?
    ensures ResetHeld(SupervisorRuns.Play(hw, code, sv, evs).value)
    decreases |evs|
  {
    hide React, ResetHeld, Quiescent;
    if evs != [] {
      var sv' := React(hw, code, sv, evs[0]).value;
      EventKeepsInvariant(hw, code, sv, evs[0]);
      EventHoldsReset(hw, code, sv, evs[0]);
      StoppedMeansReset(hw, code, sv', evs[1..]);
    }
  }
}
