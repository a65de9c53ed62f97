/** What the supervisor reports of a held CPU's registers, and how it serves I/O accesses. */
module SupervisorIo {
  import opened Words
  import opened Wrappers
  import opened EndToEnd
  import opened OcdEvents
  import opened OcdStretches
  import opened OcdRoutines
  import opened OcdRegisters
  import opened OcdTables
  import opened OcdRegisterTables
  import opened OcdLaunch
  import opened Supervisor
  import opened SupervisorRuns
  import opened SupervisorContext
  import Isa = OcdIsa
  import Fsm = OcdFsm
  import Clocked = OcdRefinement

  lemma ShortTables()
    ensures |START_TABLE| <= 256 && |WRITE_IO_TABLE| <= 256 && |READ_IO_TABLE| <= 256
    ensures |SET_REG_TABLE| <= 256 && |GET_REGS_TABLE| <= 256
  {
  }

  lemma OneSampled(w: Word)
    ensures Samples([Sampled(w)]) == [w]
  {
    assert [Sampled(w)][1..] == [];
  }

  lemma OneDroven(w: Word, a: Address, wr: bool)
    ensures Droves([Drove(w), Addressed(a), Directed(wr)]) == [w]
  {
    DrivingOnly([w]);
    NothingDriven(a, wr);
    DrovesConcat([Drove(w)], [Addressed(a), Directed(wr)]);
    assert Driving([w]) == [Drove(w)] && [w] + [] == [w];
    assert [Drove(w), Addressed(a), Directed(wr)] == [Drove(w)] + [Addressed(a), Directed(wr)];
  }

  /** A routine waited for: what it heard and what it left. */
  lemma Waited(hw: Design, s: Fsm.System, table: Table, env: Env)
    requires s.Sized() && RunAndWait(hw, s, table, env).Some?
    ensures var t, es := Launch(s, table, env.stale), env.es[..WaitTime(hw, Launch(s, table, env.stale), env.es)];
      && RunAndWait(hw, s, table, env).value == Fsm.Run(hw, t, es) && Fsm.Run(hw, t, es).core.stop
      && Heard(hw, s, table, env) == Observed(hw, t, es)
  {
    hide Launch, BusyWait, WaitTime, Fsm.Run, Observed;
    WaitIsRun(hw, Launch(s, table, env.stale), env.es);
  }

  // ----- Registers -----

  /** PUSHA injected: R0..R15 are the sixteen words heard. */
  lemma PushedWords(hw: Design, s: Fsm.System, env: Env)
    requires s.Sized() && RunAndWait(hw, s, GET_REGS_TABLE, env).Some?
    ensures |Samples(Heard(hw, s, GET_REGS_TABLE, env))| == 16
    ensures MachineOf(RunAndWait(hw, s, GET_REGS_TABLE, env).value).regs == Samples(Heard(hw, s, GET_REGS_TABLE, env))
    ensures Droves(Heard(hw, s, GET_REGS_TABLE, env)) == [0x9060, 0x9090, 0x9090, 0x9090, 0x9090]
  {
    hide Launch, RunAndWait, Heard, WaitTime, Fsm.Run, Observed, GET_REGS_TABLE, TableOf, GetRegsOps, MachineOf, Fold,
         Commits, Samples, Droves;
    Waited(hw, s, GET_REGS_TABLE, env);
    GetRegsIsAssembled();
    RoutinesRunOn();
    ShortTables();
    var es := env.es[..WaitTime(hw, Launch(s, GET_REGS_TABLE, env.stale), env.es)];
    RoutineStops(hw, GetRegsOps(), s, env.stale, es);
    GetRegsFold(hw, MachineOf(s), Commits(GetRegsOps(), Tail(es)));
  }

  /** MOV injected: the words of R1..R3, then two pairs of NOPs. */
  lemma MovedWords(hw: Design, s: Fsm.System, env: Env)
    requires s.Sized() && RunAndWait(hw, s, SET_REG_TABLE, env).Some?
    ensures Droves(Heard(hw, s, SET_REG_TABLE, env)) == [GetReg(s, 1), GetReg(s, 2), GetReg(s, 3), 0x9090, 0x9090]
  {
    hide Launch, RunAndWait, Heard, WaitTime, Fsm.Run, Observed, SET_REG_TABLE, TableOf, SetRegOps, MachineOf, Fold,
         Commits, Droves, Driving, GetReg;
    Waited(hw, s, SET_REG_TABLE, env);
    SetRegIsAssembled();
    RoutinesRunOn();
    ShortTables();
    var es, m := env.es[..WaitTime(hw, Launch(s, SET_REG_TABLE, env.stale), env.es)], MachineOf(s);
    RoutineStops(hw, SetRegOps(), s, env.stale, es);
    SetRegFold(hw, m, Commits(SetRegOps(), Tail(es)));
    RegIsMachine(s, 1);
    RegIsMachine(s, 2);
    RegIsMachine(s, 3);
    DrivingOnly([m.regs[1], m.regs[2], m.regs[3], 0x9090, 0x9090]);
  }

  /** Two neighbouring words of the sixteen. */
  function Pushed(ss: seq<Word>, i: nat): DWord
    requires i + 1 < |ss|
  {
    var lo: int, hi: int := ss[i], ss[i + 1];
    lo + 0x1_0000 * hi
  }

  /** The stack pointer before an interrupt pushed three doublewords. */
  function Unpushed(esp: DWord): DWord {
    (esp + 12) % 0x1_0000_0000
  }

  lemma EspIs(ss: seq<Word>, i: nat)
    requires i + 1 < |ss|
    ensures EspRun(Pushed(ss, i)) == Unpushed(Pushed(ss, i)) && Pushed(ss, i) == Double(ss[i], ss[i + 1])
  {
  }

  /** The unit just before ESP is put back. */
  function BeforeRestore(ocd: Fsm.System, esp: DWord): (s: Fsm.System)
    requires ocd.Sized()
    ensures s.Sized()
  {
    SetReg32(SetReg(ocd, 1, MOV_ESP), 2, EspBrk(esp))
  }

  lemma PairsAreRegs(s: Fsm.System, ss: seq<Word>, i: nat)
    requires s.Sized() && MachineOf(s).regs == ss && i < 15
    ensures GetReg32(s, i) == Pushed(ss, i)
  {
    RegIsMachine(s, i);
    RegIsMachine(s, i + 1);
  }

  /** The instruction that puts ESP back carries ESP as it was pushed, since the +12 of the
      report is undone, even across the wrap at 4 GB. */
  lemma RestoreWords(ocd: Fsm.System, lo: Word, hi: Word)
    requires ocd.Sized()
    ensures var s := BeforeRestore(ocd, EspRun(Double(lo, hi)));
      GetReg(s, 1) == MOV_ESP && GetReg(s, 2) == lo && GetReg(s, 3) == hi
  {
    hide Low, High, Double;
    DoubleParts(lo, hi);
    assert EspBrk(EspRun(Double(lo, hi))) == Double(lo, hi) by { EspBack(Double(lo, hi)); }
  }

  lemma EspBack(x: DWord)
    ensures EspBrk(EspRun(x)) == x
  {
  }

  /** The CPU is fed PUSHA and NOPs; the registers reported are the words it then pushed, with ESP
      raised by the twelve bytes the break itself pushed; and it is given its ESP back exactly. */
  lemma RegsReported(hw: Design, sv: Sv, env: Env, env2: Env)
    requires sv.Sized() && sv.status == Brk32 && SvGetRegs(hw, sv, env, env2).Some?
    ensures var o, ss := SvGetRegs(hw, sv, env, env2).value, Samples(Heard(hw, sv.ocd, GET_REGS_TABLE, env));
      && o.ret == 0 && |ss| == 16
      && Droves(Heard(hw, sv.ocd, GET_REGS_TABLE, env)) == [0x9060, 0x9090, 0x9090, 0x9090, 0x9090]
      && o.sv.regs ==
         sv.regs.(edi := Pushed(ss, 0), esi := Pushed(ss, 2), ebp := Pushed(ss, 4), esp := Unpushed(Pushed(ss, 6)),
                  ebx := Pushed(ss, 8), edx := Pushed(ss, 10), ecx := Pushed(ss, 12), eax := Pushed(ss, 14))
      && Droves(Heard(hw, BeforeRestore(RunAndWait(hw, sv.ocd, GET_REGS_TABLE, env).value, o.sv.regs.esp),
                      SET_REG_TABLE, env2))
         == [0xBC90, ss[6], ss[7], 0x9090, 0x9090]
  {
    hide RunAndWait, Heard, GET_REGS_TABLE, SET_REG_TABLE, Samples, Droves, GetReg32, GetReg, MachineOf, EspRun, EspBrk,
         Unpushed, Pushed, Double, SetReg, SetReg32;
    PushedWords(hw, sv.ocd, env);
    var ocd, ss := RunAndWait(hw, sv.ocd, GET_REGS_TABLE, env).value, Samples(Heard(hw, sv.ocd, GET_REGS_TABLE, env));
    EspIs(ss, 6);
    PairsAreRegs(ocd, ss, 0);
    PairsAreRegs(ocd, ss, 2);
    PairsAreRegs(ocd, ss, 4);
    PairsAreRegs(ocd, ss, 6);
    PairsAreRegs(ocd, ss, 8);
    PairsAreRegs(ocd, ss, 10);
    PairsAreRegs(ocd, ss, 12);
    PairsAreRegs(ocd, ss, 14);
    RestoreWords(ocd, ss[6], ss[7]);
    MovedWords(hw, BeforeRestore(ocd, EspRun(Pushed(ss, 6))), env2);
  }

  // ----- I/O -----

  /** The access noted last: its address, and whether it is a write. */
  function LastAccess(evs: seq<OcdEvents.Event>): Option<(Address, bool)> {
    var n := |evs|;
    if n >= 2 && evs[n - 2].Addressed? && evs[n - 1].Directed? then Some((evs[n - 2].a, evs[n - 1].wr)) else None
  }

  /** The three routines after which the CPU runs until its next I/O access. */
  predicate Watches(table: Table) {
    table == START_TABLE || table == CONT_TABLE || table == WRITE_IO_TABLE
  }

  /** When the unit has stopped, the access noted last is in R1 and R2. */
  lemma NotesAddress(hw: Design, before: Fsm.System, table: Table, stale: Word, es: seq<Fsm.Edge>)
    requires before.Sized() && Watches(table) && Fsm.Run(hw, Launch(before, table, stale), es).core.stop
    ensures var s := Launch(before, table, stale);
      && LastAccess(Observed(hw, s, es)).Some?
      && var (a, wr) := LastAccess(Observed(hw, s, es)).value;
         GetReg(Fsm.Run(hw, s, es), 1) == Isa.AddressLow(hw, a) && GetReg(Fsm.Run(hw, s, es), 2) == Bit(wr)
  {
    hide Launch, Fsm.Run, Observed, START_TABLE, CONT_TABLE, WRITE_IO_TABLE, TableOf, StartOps, ContOps, WriteIoOps,
         MachineOf, Fold, Commits, Isa.AddressLow, Driving, ContWords, GetReg;
    SmallTables();
    ContIsAssembled();
    RoutinesRunOn();
    ShortTables();
    ContTableLength();
    var m := MachineOf(before);
    if table == START_TABLE {
      RoutineStops(hw, StartOps(), before, stale, es);
      StartFold(hw, m, Commits(StartOps(), Tail(es)));
    } else if table == CONT_TABLE {
      RoutineStops(hw, ContOps(), before, stale, es);
      ContFold(hw, m, Commits(ContOps(), Tail(es)));
    } else {
      RoutineStops(hw, WriteIoOps(), before, stale, es);
      WriteIoFold(hw, m, Commits(WriteIoOps(), Tail(es)));
    }
    RegIsMachine(Fsm.Run(hw, Launch(before, table, stale), es), 1);
    RegIsMachine(Fsm.Run(hw, Launch(before, table, stale), es), 2);
  }

  /** The word of an I/O write is the one word heard on the data bus. */
  lemma WriteHeard(hw: Design, s: Fsm.System, env: Env)
    requires s.Sized() && RunAndWait(hw, s, READ_IO_TABLE, env).Some?
    ensures Samples(Heard(hw, s, READ_IO_TABLE, env)) == [GetReg(RunAndWait(hw, s, READ_IO_TABLE, env).value, 3)]
  {
    hide Launch, RunAndWait, Heard, WaitTime, Fsm.Run, Observed, READ_IO_TABLE, TableOf, ReadIoOps, MachineOf, Fold,
         Commits, GetReg, Samples;
    Waited(hw, s, READ_IO_TABLE, env);
    SmallTables();
    RoutinesRunOn();
    ShortTables();
    var es := env.es[..WaitTime(hw, Launch(s, READ_IO_TABLE, env.stale), env.es)];
    RoutineStops(hw, ReadIoOps(), s, env.stale, es);
    ReadIoFold(hw, MachineOf(s), Commits(ReadIoOps(), Tail(es)));
    RegIsMachine(RunAndWait(hw, s, READ_IO_TABLE, env).value, 3);
    OneSampled(GetReg(RunAndWait(hw, s, READ_IO_TABLE, env).value, 3));
  }

  /** The word answered to an I/O read is the one word driven before the CPU goes on. */
  lemma ReadAnswered(hw: Design, before: Fsm.System, stale: Word, es: seq<Fsm.Edge>)
    requires before.Sized() && Fsm.Run(hw, Launch(before, WRITE_IO_TABLE, stale), es).core.stop
    ensures Droves(Observed(hw, Launch(before, WRITE_IO_TABLE, stale), es)) == [GetReg(before, 3)]
  {
    hide Launch, Fsm.Run, Observed, WRITE_IO_TABLE, TableOf, WriteIoOps, MachineOf, Fold, Commits, Isa.AddressLow,
         GetReg, Droves;
    SmallTables();
    RoutinesRunOn();
    ShortTables();
    RoutineStops(hw, WriteIoOps(), before, stale, es);
    WriteIoFold(hw, MachineOf(before), Commits(WriteIoOps(), Tail(es)));
    RegIsMachine(before, 3);
    var bs := Commits(WriteIoOps(), Tail(es));
    OneDroven(GetReg(before, 3), bs[3].a, bs[4].wr);
  }

  /** The main loop's turn after the CPU's next I/O access: the port reported is the one on
      the address bus, and W/R# tells a write from a read; a write is reported with the word
      heard, unless it goes to the LED, which takes it and lets the CPU go on; a read waits
      for the host, unless the LED answers it. */
  predicate Served(hw: Design, sv: Sv, access: (Address, bool), env: Env)
    requires sv.Sized() && SvIoBreak(hw, sv, env).Some?
  {
    var o := SvIoBreak(hw, sv, env).value;
    && o.ret == 0 && (access.0 < 0x1_0000 ==> o.sv.ioaddr == access.0)
    && if access.1
       then && Samples(Heard(hw, sv.ocd, READ_IO_TABLE, env)) == [o.sv.iodata]
            && (if o.sv.ioaddr == 0x10 then o.sv.status == Running && o.sv.led == o.sv.iodata % 0x100
                else o.sv.status == IoWr && o.sv.led == sv.led)
       else && o.sv.led == sv.led
            && (if o.sv.ioaddr == 0x10
                then o.sv.status == Running && o.sv.ocd == Launch(SetReg(sv.ocd, 3, sv.led), WRITE_IO_TABLE, env.stale)
                else o.sv.status == IoRd && o.sv.ocd == sv.ocd)
  }

  /** Whatever routine the CPU was set running with. */
  lemma AccessServed(hw: Design, sv: Sv, before: Fsm.System, table: Table, stale: Word, es: seq<Fsm.Edge>, env: Env)
    requires sv.Sized() && sv.status == Running && before.Sized() && Watches(table)
    requires sv.ocd == Fsm.Run(hw, Launch(before, table, stale), es) && sv.ocd.core.stop
    requires SvIoBreak(hw, sv, env).Some?
    ensures var access := LastAccess(Observed(hw, Launch(before, table, stale), es));
      access.Some? && Served(hw, sv, access.value, env)
  {
    hide Launch, RunAndWait, Fsm.Run, Observed, START_TABLE, CONT_TABLE, WRITE_IO_TABLE, READ_IO_TABLE, Isa.AddressLow,
         GetReg, SetReg, Heard, Samples, Watches, LastAccess;
    NotesAddress(hw, before, table, stale, es);
    var port := LastAccess(Observed(hw, Launch(before, table, stale), es)).value.0;
    PortInLowWord(hw, port);
    if GetReg(sv.ocd, 2) != 0 {
      WriteHeard(hw, sv.ocd, env);
    }
  }

  // ----- Every poll of every run -----

  /** The bus traffic since the CPU was last set running is `heard`. */
  ghost predicate Watching(hw: Design, sv: Sv, heard: seq<OcdEvents.Event>) {
    sv.Sized() && (sv.status == Running ==>
      exists before: Fsm.System, table: Table, stale: Word, es: seq<Fsm.Edge>
        {:trigger Fsm.Run(hw, Launch(before, table, stale), es)} ::
        && before.Sized() && Watches(table) && sv.ocd == Fsm.Run(hw, Launch(before, table, stale), es)
        && heard == Observed(hw, Launch(before, table, stale), es))
  }

  /** That traffic after one more event. */
  function StillHeard(hw: Design, sv: Sv, ev: SupervisorRuns.Event, heard: seq<OcdEvents.Event>): seq<OcdEvents.Event>
    requires sv.Sized()
  {
    if ev.Clocks? then heard + Observed(hw, sv.ocd, ev.es)
    else if sv.status == Running && !(ev.Poll? && sv.ocd.core.stop) then heard
    else []
  }

  function HeardSince(hw: Design, code: Design, sv: Sv, evs: seq<SupervisorRuns.Event>, heard: seq<OcdEvents.Event>)
    : seq<OcdEvents.Event>
    requires sv.Sized() && SupervisorRuns.Play(hw, code, sv, evs).Some?
    decreases |evs|
  {
    if evs == [] then heard
    else HeardSince(hw, code, React(hw, code, sv, evs[0]).value, evs[1..], StillHeard(hw, sv, evs[0], heard))
  }

  lemma JustLaunched(hw: Design, sv: Sv, before: Fsm.System, table: Table, stale: Word)
    requires before.Sized() && Watches(table) && sv.ocd == Launch(before, table, stale)
    ensures Watching(hw, sv, [])
  {
    hide Launch;
    var t := Launch(before, table, stale);
    assert Fsm.Run(hw, t, []) == t && Observed(hw, t, []) == [];
  }

  lemma StillWatching(hw: Design, sv: Sv, sv': Sv, es: seq<Fsm.Edge>, heard: seq<OcdEvents.Event>)
    requires Watching(hw, sv, heard) && sv' == sv.(ocd := Fsm.Run(hw, sv.ocd, es))
    ensures Watching(hw, sv', heard + Observed(hw, sv.ocd, es))
  {
    hide Launch, Watches, Fsm.Run, Observed;
    if sv.status == Running {
      var before: Fsm.System, table: Table, stale: Word, fs: seq<Fsm.Edge>
        {:trigger Fsm.Run(hw, Launch(before, table, stale), fs)} :|
        && before.Sized() && Watches(table) && sv.ocd == Fsm.Run(hw, Launch(before, table, stale), fs)
        && heard == Observed(hw, Launch(before, table, stale), fs);
      var t := Launch(before, table, stale);
      assert (fs + es)[..|fs|] == fs && (fs + es)[|fs|..] == es;
      Fsm.RunSplit(hw, t, fs + es, |fs|);
      ObservedSplit(hw, t, fs + es, |fs|);
      assert sv'.ocd == Fsm.Run(hw, Launch(before, table, stale), fs + es);
    }
  }

  lemma ContWatches(hw: Design, sv: Sv, stale: Word)
    requires sv.Sized() && (sv.status == Brk32 || sv.status == IoRd || sv.status == IoWr)
    ensures Watching(hw, SvCont(sv, stale).sv, [])
  {
    hide Launch, START_TABLE, CONT_TABLE, WRITE_IO_TABLE, Watching, SetReg, SetReg32;
    var o := SvCont(sv, stale).sv;
    match sv.status
    case Brk32 =>
      var s := SetReg32(SetReg(SetReg32(sv.ocd, 2, sv.regs.eflags), 4, sv.regs.cs), 5, sv.regs.eip);
      JustLaunched(hw, o, s, CONT_TABLE, stale);
    case IoRd => JustLaunched(hw, o, SetReg(sv.ocd, 3, sv.iodata), WRITE_IO_TABLE, stale);
    case IoWr => JustLaunched(hw, o, sv.ocd, START_TABLE, stale);
  }

  lemma PollWatches(hw: Design, sv: Sv, env: Env)
    requires sv.Sized() && sv.status == Running && SvIoBreak(hw, sv, env).Some?
    ensures Watching(hw, SvIoBreak(hw, sv, env).value.sv, [])
  {
    hide RunAndWait, SvCont, GetReg;
    var sv1 := sv.(ioaddr := GetReg(sv.ocd, 1));
    if GetReg(sv.ocd, 2) != 0 {
      var ocd := RunAndWait(hw, sv1.ocd, READ_IO_TABLE, env).value;
      var sv2 := sv1.(ocd := ocd, iodata := GetReg(ocd, 3), status := IoWr);
      ContWatches(hw, sv2.(led := sv2.iodata % 0x100), env.stale);
    } else {
      ContWatches(hw, sv1.(status := IoRd, iodata := sv.led), env.stale);
    }
  }

  lemma EventWatches(hw: Design, code: Design, sv: Sv, ev: SupervisorRuns.Event, heard: seq<OcdEvents.Event>)
    requires Watching(hw, sv, heard) && React(hw, code, sv, ev).Some?
    ensures Watching(hw, React(hw, code, sv, ev).value, StillHeard(hw, sv, ev, heard))
  {
    hide Launch, RunAndWait, SvCont, SvIoBreak, Fsm.Run, Observed, START_TABLE, CONT_TABLE, WRITE_IO_TABLE;
    if ev.Clocks? {
      hide Watching;
      StillWatching(hw, sv, React(hw, code, sv, ev).value, ev.es, heard);
    } else if ev.Poll? && sv.ocd.core.stop && sv.status == Running {
      PollWatches(hw, sv, ev.env);
    } else if ev.CmdStart? && sv.status == Stop {
      JustLaunched(hw, React(hw, code, sv, ev).value, sv.ocd, START_TABLE, ev.stale);
    } else if ev.CmdCont? && (sv.status == Brk32 || sv.status == IoRd || sv.status == IoWr) {
      ContWatches(hw, sv, ev.stale);
    } else {
      OtherEvents(hw, code, sv, ev);
    }
  }

  /** No other event sets the CPU running, and none touches the unit of one that is. */
  lemma OtherEvents(hw: Design, code: Design, sv: Sv, ev: SupervisorRuns.Event)
    requires sv.Sized() && React(hw, code, sv, ev).Some? && !ev.Clocks?
    requires !(ev.Poll? && sv.ocd.core.stop && sv.status == Running) && !(ev.CmdStart? && sv.status == Stop)
    requires !(ev.CmdCont? && (sv.status == Brk32 || sv.status == IoRd || sv.status == IoWr))
    ensures React(hw, code, sv, ev).value.status == Running ==>
              sv.status == Running && React(hw, code, sv, ev).value.ocd == sv.ocd
  {
    hide Launch, RunAndWait, GetReg;
  }

  lemma {:induction false} RunWatches(hw: Design, code: Design, sv: Sv, evs: seq<SupervisorRuns.Event>,
                                      heard: seq<OcdEvents.Event>)
    requires Watching(hw, sv, heard) && sv.Sized() && SupervisorRuns.Play(hw, code, sv, evs).Some?
    ensures Watching(hw, SupervisorRuns.Play(hw, code, sv, evs).value, HeardSince(hw, code, sv, evs, heard))
    decreases |evs|
  {
    hide React, Watching, StillHeard;
    if evs != [] {
      EventWatches(hw, code, sv, evs[0], heard);
      RunWatches(hw, code, React(hw, code, sv, evs[0]).value, evs[1..], StillHeard(hw, sv, evs[0], heard));
    }
  }

  /** In every run, from a CPU that is not running: when the main loop finds the unit of a
      running CPU stopped, the last access of the traffic since the CPU was set running is the
      one it serves. */
  lemma EveryAccessServed(hw: Design, code: Design, sv: Sv, evs: seq<SupervisorRuns.Event>, env: Env)
    requires sv.Sized() && sv.status != Running && SupervisorRuns.Play(hw, code, sv, evs).Some?
    requires var t := SupervisorRuns.Play(hw, code, sv, evs).value;
      t.status == Running && t.ocd.core.stop && SvIoBreak(hw, t, env).Some?
    ensures var t := SupervisorRuns.Play(hw, code, sv, evs).value;
      var access := LastAccess(HeardSince(hw, code, sv, evs, []));
      && access.Some? && Served(hw, t, access.value, env)
      && React(hw, code, t, Poll(env)) == Some(SvIoBreak(hw, t, env).value.sv)
  {
    hide SupervisorRuns.Play, HeardSince, Launch, Fsm.Run, Observed, SvIoBreak, LastAccess, Watches, Served;
    RunWatches(hw, code, sv, evs, []);
    var t, heard := SupervisorRuns.Play(hw, code, sv, evs).value, HeardSince(hw, code, sv, evs, []);
    var before: Fsm.System, table: Table, stale: Word, es: seq<Fsm.Edge>
      {:trigger Fsm.Run(hw, Launch(before, table, stale), es)} :|
      && before.Sized() && Watches(table) && t.ocd == Fsm.Run(hw, Launch(before, table, stale), es)
      && heard == Observed(hw, Launch(before, table, stale), es);
    AccessServed(hw, t, before, table, stale, es, env);
  }

  // ----- An access noted waits for its poll -----

  /** Nothing that would serve the access or give it up. */
  predicate Waits(ev: SupervisorRuns.Event) {
    !ev.Poll? && !ev.CmdBrk? && !ev.CmdStop?
  }

  /** A running CPU whose unit has noted an access and stopped. */
  ghost predicate Noted(hw: Design, sv: Sv, heard: seq<OcdEvents.Event>) {
    Watching(hw, sv, heard) && Quiescent(sv) && sv.status == Running && sv.ocd.core.stop
  }

  lemma HaltedStays(hw: Design, s: Fsm.System, es: seq<Fsm.Edge>)
    requires Clocked.Halted(s)
    ensures Fsm.Run(hw, s, es).mem == s.mem && Observed(hw, s, es) == []
  {
    HaltedIsSilent(hw, s, es);
    if es != [] {
      Clocked.ExitIsAbsorbing(hw, s, es);
    }
  }

  lemma StaysNoted(hw: Design, code: Design, sv: Sv, ev: SupervisorRuns.Event, heard: seq<OcdEvents.Event>)
    requires Noted(hw, sv, heard) && Waits(ev) && React(hw, code, sv, ev).Some?
    ensures Noted(hw, React(hw, code, sv, ev).value, heard) && React(hw, code, sv, ev).value.ocd.mem == sv.ocd.mem
  {
    hide Launch, RunAndWait, Fsm.Run, Observed, Watching;
    var sv' := React(hw, code, sv, ev).value;
    EventWatches(hw, code, sv, ev, heard);
    if ev.Clocks? {
      HaltedStays(hw, sv.ocd, ev.es);
      assert heard + [] == heard;
      RunKeepsUnit(hw, sv.ocd, ev.es);
    }
  }

  lemma {:induction false} NotedUntilServed(hw: Design, code: Design, sv: Sv, evs: seq<SupervisorRuns.Event>,
                                            heard: seq<OcdEvents.Event>)
    requires Noted(hw, sv, heard) && (forall k :: 0 <= k < |evs| ==> Waits(evs[k]))
    requires sv.Sized() && SupervisorRuns.Play(hw, code, sv, evs).Some?
    ensures var t := SupervisorRuns.Play(hw, code, sv, evs).value; Noted(hw, t, heard) && t.ocd.mem == sv.ocd.mem
    decreases |evs|
  {
    hide React, Noted;
    if evs != [] {
      StaysNoted(hw, code, sv, evs[0], heard);
      NotedUntilServed(hw, code, React(hw, code, sv, evs[0]).value, evs[1..], heard);
    }
  }

  /** Whatever commands and clocks come in between, BRK and STOP excepted, the next poll serves
      the access. */
  lemma NotedIsServed(hw: Design, code: Design, sv: Sv, evs: seq<SupervisorRuns.Event>, heard: seq<OcdEvents.Event>,
                      env: Env)
    requires Noted(hw, sv, heard) && (forall k :: 0 <= k < |evs| ==> Waits(evs[k]))
    requires sv.Sized() && SupervisorRuns.Play(hw, code, sv, evs).Some?
    requires SvIoBreak(hw, SupervisorRuns.Play(hw, code, sv, evs).value, env).Some?
    ensures var t, access := SupervisorRuns.Play(hw, code, sv, evs).value, LastAccess(heard);
      && t.status == Running && t.ocd.core.stop && t.ocd.mem == sv.ocd.mem
      && access.Some? && Served(hw, t, access.value, env)
      && React(hw, code, t, Poll(env)) == Some(SvIoBreak(hw, t, env).value.sv)
  {
    hide SupervisorRuns.Play, Launch, Fsm.Run, Observed, SvIoBreak, LastAccess, Watches, Served;
    NotedUntilServed(hw, code, sv, evs, heard);
    var t := SupervisorRuns.Play(hw, code, sv, evs).value;
    var before: Fsm.System, table: Table, stale: Word, es: seq<Fsm.Edge>
      {:trigger Fsm.Run(hw, Launch(before, table, stale), es)} :|
      && before.Sized() && Watches(table) && t.ocd == Fsm.Run(hw, Launch(before, table, stale), es)
      && heard == Observed(hw, Launch(before, table, stale), es);
    AccessServed(hw, t, before, table, stale, es, env);
  }

  /** A break before that poll drops the access: it leaves port, data and LED register as they
      were, polls do nothing until the CPU is set running again, and what is served then was
      noted after that. */
  lemma BreakDropsAccess(hw: Design, code: Design, sv: Sv, env: Env, evs: seq<SupervisorRuns.Event>, poll: Env)
    requires sv.Sized() && sv.status == Running && React(hw, code, sv, CmdBrk(env)).Some?
    ensures var held := React(hw, code, sv, CmdBrk(env)).value;
      && held.status != Running && held.ioaddr == sv.ioaddr && held.iodata == sv.iodata && held.led == sv.led
      && React(hw, code, held, Poll(poll)) == Some(held)
      && (SupervisorRuns.Play(hw, code, held, evs).Some? ==>
            var t := SupervisorRuns.Play(hw, code, held, evs).value;
            t.status == Running && t.ocd.core.stop && SvIoBreak(hw, t, poll).Some? ==>
              var access := LastAccess(HeardSince(hw, code, held, evs, []));
              access.Some? && Served(hw, t, access.value, poll))
  {
    var held := React(hw, code, sv, CmdBrk(env)).value;
    BreakHolds(hw, code, sv, env, poll);
    hide SupervisorRuns.React, SupervisorRuns.Play, HeardSince, SvIoBreak, LastAccess, Served;
    if SupervisorRuns.Play(hw, code, held, evs).Some? {
      var t := SupervisorRuns.Play(hw, code, held, evs).value;
      if t.status == Running && t.ocd.core.stop && SvIoBreak(hw, t, poll).Some? {
        EveryAccessServed(hw, code, held, evs, poll);
      }
    }
  }

  lemma BreakHolds(hw: Design, code: Design, sv: Sv, env: Env, poll: Env)
    requires sv.Sized() && sv.status == Running && React(hw, code, sv, CmdBrk(env)).Some?
    ensures var held := React(hw, code, sv, CmdBrk(env)).value;
      && held.status != Running && held.ioaddr == sv.ioaddr && held.iodata == sv.iodata && held.led == sv.led
      && React(hw, code, held, Poll(poll)) == Some(held)
  {
    hide Launch, RunAndWait;
  }

  lemma PortInLowWord(hw: Design, a: Address)
    ensures a < 0x1_0000 ==> Isa.AddressLow(hw, a) == a
  {
    OrWithZero(a % 0x1_0000);
  }

  /** Once the host has set the data of an I/O read, a continue drives exactly that word. */
  lemma HostAnswers(hw: Design, code: Design, sv: Sv, w: Word, stale: Word, es: seq<Fsm.Edge>)
    requires sv.Sized() && sv.status == IoRd
    ensures var o := SvCont(React(hw, code, sv, CmdSetIoData(w)).value, stale);
      && o.ret == 0 && o.sv.status == Running
      && (Fsm.Run(hw, o.sv.ocd, es).core.stop ==> Droves(Observed(hw, o.sv.ocd, es)) == [w])
  {
    hide Launch, Fsm.Run, Observed, WRITE_IO_TABLE, Droves;
    var s := SetReg(sv.ocd, 3, w);
    if Fsm.Run(hw, Launch(s, WRITE_IO_TABLE, stale), es).core.stop {
      ReadAnswered(hw, s, stale, es);
    }
  }

  /** A read of the LED port is answered with the LED register, whatever else happened. */
  lemma LedAnswers(hw: Design, sv: Sv, env: Env, es: seq<Fsm.Edge>)
    requires sv.Sized() && sv.status == Running && GetReg(sv.ocd, 1) == 0x10 && GetReg(sv.ocd, 2) == 0
    ensures SvIoBreak(hw, sv, env).Some?
    ensures var o := SvIoBreak(hw, sv, env).value;
      Fsm.Run(hw, o.sv.ocd, es).core.stop ==> Droves(Observed(hw, o.sv.ocd, es)) == [sv.led]
  {
    hide Launch, Fsm.Run, Observed, WRITE_IO_TABLE, Droves, RunAndWait;
    var s := SetReg(sv.ocd, 3, sv.led);
    assert SvIoBreak(hw, sv, env).value.sv.ocd == Launch(s, WRITE_IO_TABLE, env.stale);
    if Fsm.Run(hw, Launch(s, WRITE_IO_TABLE, env.stale), es).core.stop {
      ReadAnswered(hw, s, env.stale, es);
    }
  }

  /** The LED register holds the low byte of the last word written to its port: no event but
      the poll that serves such a write changes it. */
  lemma LedHolds(hw: Design, code: Design, sv: Sv, ev: SupervisorRuns.Event)
    requires sv.Sized() && React(hw, code, sv, ev).Some?
    ensures var sv' := React(hw, code, sv, ev).value;
      sv'.led != sv.led ==>
        && ev.Poll? && sv.status == Running && GetReg(sv.ocd, 1) == 0x10 && GetReg(sv.ocd, 2) != 0
        && [sv'.iodata] == Samples(Heard(hw, sv.ocd, READ_IO_TABLE, ev.env)) && sv'.led == sv'.iodata % 0x100
  {
    hide Launch, Fsm.Run, RunAndWait, Heard, Samples, GetReg, SetReg;
    if ev.Poll? && sv.status == Running && sv.ocd.core.stop && GetReg(sv.ocd, 2) != 0 {
      WriteHeard(hw, sv.ocd, ev.env);
    }
  }
}
