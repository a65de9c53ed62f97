/** What the supervisor keeps of an interrupted CPU's context, and gives back to it. */
module SupervisorContext {
  import opened Words
  import opened EndToEnd
  import opened OcdEvents
  import opened OcdStretches
  import opened OcdRoutines
  import opened OcdBreak
  import opened OcdTables
  import opened OcdLaunch
  import opened Supervisor
  import opened SupervisorRuns
  import Isa = OcdIsa
  import Fsm = OcdFsm
  import AsmSemantics
  import AsmMeaning

  // ----- What happens on the buses while a routine is waited for -----

  /** The clocks a busy wait takes. */
  function WaitTime(hw: Design, s: Fsm.System, es: seq<Fsm.Edge>): (n: nat)
    requires s.Sized()
    ensures n <= |es|
    decreases |es|
  {
    if s.core.stop || es == [] then 0 else 1 + WaitTime(hw, Fsm.Tick(hw, s, es[0]), es[1..])
  }

  lemma {:induction false} WaitIsRun(hw: Design, s: Fsm.System, es: seq<Fsm.Edge>)
    requires s.Sized() && BusyWait(hw, s, es).Some?
    ensures BusyWait(hw, s, es).value == Fsm.Run(hw, s, es[..WaitTime(hw, s, es)])
    decreases |es|
  {
    hide Fsm.Tick;
    if !s.core.stop {
      WaitIsRun(hw, Fsm.Tick(hw, s, es[0]), es[1..]);
      var n := WaitTime(hw, s, es);
      assert es[..n][1..] == es[1..][..n - 1];
    }
  }

  /** The bus traffic of a routine waited for. */
  function Heard(hw: Design, s: Fsm.System, table: Table, env: Env): seq<OcdEvents.Event>
    requires s.Sized()
  {
    var t := Launch(s, table, env.stale);
    Observed(hw, t, env.es[..WaitTime(hw, t, env.es)])
  }

  lemma RegIsMachine(s: Fsm.System, id: Nibble)
    requires s.Sized()
    ensures GetReg(s, id) == MachineOf(s).regs[id]
  {
  }

  lemma DoubleParts(lo: Word, hi: Word)
    ensures Low(Double(lo, hi)) == lo && High(Double(lo, hi)) == hi
  {
  }

  // ----- Break -----

  /** The status and context after a break: the mode is decided by the addresses noted; in
      protected mode the CPU is fed an interrupt gate, a code segment and NOPs, and EFLAGS, CS and
      EIP are the five words sampled, in the order the CPU pushed them. */
  lemma BreakSaves(hw: Design, code: Design, sv: Sv, env: Env)
    requires sv.Sized() && sv.status == Running && SvBrk(hw, code, sv, env).Some?
    ensures var o, heard := SvBrk(hw, code, sv, env).value, Heard(hw, sv.ocd, BreakTable(code), env);
      && o.ret == 0 && Addresses(heard).Some?
      && var (low, high) := Addresses(heard).value;
         && o.sv.status == (if TakenForReal(hw, FirstBranch(code), low, high) then Brk16 else Brk32)
         && (o.sv.status == Brk32 ==>
              var ss := Samples(heard);
              && |ss| == 5 && o.sv.regs.eflags == Double(ss[0], ss[1])
              && o.sv.regs.cs == ss[2] && o.sv.regs.eip == Double(ss[3], ss[4])
              && Droves(heard)
                 == [0x8E00, 0x000D, 0x0000, 0x0008, 0x9A00, 0x00CF, 0xFFFF, 0x0000, 0x9090])
  {
    hide Launch, BreakTable, Fsm.Run, Observed, Samples, Droves, BusyWait, WaitTime, TakenForReal, Addresses, MachineOf,
         GetReg, Double;
    var s := Launch(sv.ocd, BreakTable(code), env.stale);
    var n := WaitTime(hw, s, env.es);
    WaitIsRun(hw, s, env.es);
    BreakStops(hw, code, sv.ocd, env.stale, env.es[..n]);
    var now := Fsm.Run(hw, s, env.es[..n]);
    forall id: Nibble ensures GetReg(now, id) == MachineOf(now).regs[id] { RegIsMachine(now, id); }
    if MachineOf(now).regs[1] != 0 {
      ContextSlots(MachineOf(now), Observed(hw, s, env.es[..n]));
    }
  }

  lemma ContextSlots(m: Isa.Machine, evs: seq<OcdEvents.Event>)
    requires m.Sized() && SavedContext(m, evs)
    ensures var ss := Samples(evs);
      |ss| == 5 && m.regs[2] == ss[0] && m.regs[3] == ss[1] && m.regs[4] == ss[2] && m.regs[5] == ss[3]
        && m.regs[6] == ss[4]
    ensures Droves(evs) == [0x8E00, 0x000D, 0x0000, 0x0008, 0x9A00, 0x00CF, 0xFFFF, 0x0000, 0x9090]
  {
    hide Samples, Droves;
    var ss := Samples(evs);
    forall i | 0 <= i < 5 ensures m.regs[2 + i] == ss[i] {
      assert m.regs[2..7][i] == ss[i];
    }
  }

  // ----- While the CPU is held -----

  /** Anything but a stop or a continue. */
  predicate Passive(ev: SupervisorRuns.Event) {
    !ev.CmdStop? && !ev.CmdCont?
  }

  /** What a continue needs. */
  predicate SameContext(a: Sv, b: Sv) {
    a.status == b.status == Brk32 && a.regs.eflags == b.regs.eflags && a.regs.cs == b.regs.cs
      && a.regs.eip == b.regs.eip
  }

  lemma PassiveKeeps(hw: Design, code: Design, sv: Sv, ev: SupervisorRuns.Event)
    requires sv.Sized() && sv.status == Brk32 && Passive(ev)
    ensures React(hw, code, sv, ev).Some? ==> SameContext(sv, React(hw, code, sv, ev).value)
  {
    hide RunAndWait, Launch, Fsm.Run;
  }

  /** Reading registers, status or I/O data, refused commands, polls and clocks leave the
      saved context of a break alone, however many there are. */
  lemma {:induction false} HeldContext(hw: Design, code: Design, sv: Sv, evs: seq<SupervisorRuns.Event>)
    requires sv.Sized() && sv.status == Brk32 && Play(hw, code, sv, evs).Some?
    requires forall k :: 0 <= k < |evs| ==> Passive(evs[k])
    ensures SameContext(sv, Play(hw, code, sv, evs).value)
    decreases |evs|
  {
    hide React;
    if evs != [] {
      PassiveKeeps(hw, code, sv, evs[0]);
      HeldContext(hw, code, React(hw, code, sv, evs[0]).value, evs[1..]);
    }
  }

  // ----- Continue -----

  /** At every instruction boundary of the continue routine it has driven a first part of
      its words. */
  lemma ContinueAtBoundary(hw: Design, before: Fsm.System, stale: Word, es: seq<Fsm.Edge>)
    requires before.Sized() && |es| >= 2
    requires Fsm.Run(hw, Launch(before, CONT_TABLE, stale), es).core.phase == Fsm.Fetch
    ensures Droves(Observed(hw, Launch(before, CONT_TABLE, stale), es)) <= ContWords(MachineOf(before).regs)
  {
    hide Launch, CONT_TABLE, Fsm.Run, Observed, Droves, ContWords, ContOps, MachineOf, TableOf, AsmSemantics.SourceRun,
         AsmMeaning.Image, AsmMeaning.Labels, WordsOf, Emit;
    var ops, items := ContOps(), Routine(ContOps());
    ContIsAssembled();
    RoutineImage(ops);
    RoutineTable(ops);
    ContTableLength();
    assert AsmSemantics.Settle(items, 0) == AsmSemantics.At(0);
    LaunchedFunction(Intended, hw, items, before, stale, es);
    ContinueDrives(hw, MachineOf(before), es[2..]);
    assert es[..|es|] == es;
  }

  /** It has driven all of them once the unit has stopped at the next I/O access, whose
      address is then in R1. */
  lemma ContinueAtStop(hw: Design, before: Fsm.System, stale: Word, es: seq<Fsm.Edge>)
    requires before.Sized()
    requires Fsm.Run(hw, Launch(before, CONT_TABLE, stale), es).core.stop
    ensures Droves(Observed(hw, Launch(before, CONT_TABLE, stale), es)) == ContWords(MachineOf(before).regs)
  {
    hide Launch, CONT_TABLE, Fsm.Run, Observed, Droves, ContWords, ContOps, Fold, MachineOf, TableOf, Commits, Driving,
         Isa.AddressLow;
    ContIsAssembled();
    RoutinesRunOn();
    ContTableLength();
    RoutineStops(hw, ContOps(), before, stale, es);
    var bs := Commits(ContOps(), Tail(es));
    ContFold(hw, MachineOf(before), bs);
    ContDroves(MachineOf(before).regs, bs[24].a, bs[25].wr);
  }

  lemma ContTableLength()
    ensures |CONT_TABLE| == 29
  {
  }

  lemma RestoredRegs(sv: Sv, s: Fsm.System)
    requires sv.Sized()
    requires s == SetReg32(SetReg(SetReg32(sv.ocd, 2, sv.regs.eflags), 4, sv.regs.cs), 5, sv.regs.eip)
    ensures ContWords(MachineOf(s).regs) ==
            [0x90CF, 0x9090, 0x9090, 0x9090, Low(sv.regs.eip), High(sv.regs.eip), sv.regs.cs, GetReg(sv.ocd, 0),
             Low(sv.regs.eflags), High(sv.regs.eflags)]
  {
    hide Low, High;
  }

  /** The words a continue gives the CPU: IRET, NOPs, then the context held. */
  lemma ContinueRestores(hw: Design, sv: Sv, stale: Word, es: seq<Fsm.Edge>)
    requires sv.Sized() && sv.status == Brk32
    ensures var o := SvCont(sv, stale);
      var now, evs := Fsm.Run(hw, o.sv.ocd, es), Observed(hw, o.sv.ocd, es);
      var words := [0x90CF, 0x9090, 0x9090, 0x9090, Low(sv.regs.eip), High(sv.regs.eip), sv.regs.cs, GetReg(sv.ocd, 0),
                    Low(sv.regs.eflags), High(sv.regs.eflags)];
      && o.ret == 0 && o.sv.status == Running
      && (now.core.phase == Fsm.Fetch && |es| >= 2 ==> Droves(evs) <= words)
      && (now.core.stop ==> Droves(evs) == words)
  {
    hide Launch, CONT_TABLE, Fsm.Run, Observed, Droves, ContWords, SetReg, SetReg32, Low, High, MachineOf;
    var s := SetReg32(SetReg(SetReg32(sv.ocd, 2, sv.regs.eflags), 4, sv.regs.cs), 5, sv.regs.eip);
    RestoredRegs(sv, s);
    var now := Fsm.Run(hw, Launch(s, CONT_TABLE, stale), es);
    if now.core.phase == Fsm.Fetch && |es| >= 2 { ContinueAtBoundary(hw, s, stale, es); }
    if now.core.stop { ContinueAtStop(hw, s, stale, es); }
  }

  /** Break, then anything that is neither a stop nor a continue, then continue: the CPU is
      given back EIP, CS and EFLAGS word for word as the break sampled them. */
  lemma BreakContinue(hw: Design, code: Design, sv: Sv, env: Env, evs: seq<SupervisorRuns.Event>, stale: Word,
                      es: seq<Fsm.Edge>)
    requires sv.Sized() && sv.status == Running
    requires SvBrk(hw, code, sv, env).Some? && SvBrk(hw, code, sv, env).value.sv.status == Brk32
    requires forall k :: 0 <= k < |evs| ==> Passive(evs[k])
    requires Play(hw, code, SvBrk(hw, code, sv, env).value.sv, evs).Some?
    ensures var ss := Samples(Heard(hw, sv.ocd, BreakTable(code), env));
      var held := Play(hw, code, SvBrk(hw, code, sv, env).value.sv, evs).value;
      var resumed := SvCont(held, stale);
      && |ss| == 5 && resumed.ret == 0 && resumed.sv.status == Running
      && (Fsm.Run(hw, resumed.sv.ocd, es).core.stop ==>
            Droves(Observed(hw, resumed.sv.ocd, es)) ==
              [0x90CF, 0x9090, 0x9090, 0x9090, ss[3], ss[4], ss[2], GetReg(held.ocd, 0), ss[0], ss[1]])
  {
    hide SvBrk, SvCont, Play, Samples, Heard, BreakTable, Fsm.Run, Observed, Droves, Addresses, TakenForReal, Low, High,
         Double, GetReg;
    BreakSaves(hw, code, sv, env);
    var o, ss := SvBrk(hw, code, sv, env).value, Samples(Heard(hw, sv.ocd, BreakTable(code), env));
    HeldContext(hw, code, o.sv, evs);
    ContinueRestores(hw, Play(hw, code, o.sv, evs).value, stale, es);
    DoubleParts(ss[0], ss[1]);
    DoubleParts(ss[3], ss[4]);
  }
}
