/** Every run of the supervisor: host commands and polls interleaved with clocks of the unit. */
module SupervisorRuns {
  import opened Words
  import opened Wrappers
  import opened EndToEnd
  import opened OcdTables
  import opened OcdRegisterTables
  import opened OcdLaunch
  import opened Supervisor
  import Fsm = OcdFsm
  import Clocked = OcdRefinement
  import OcdSafety

  datatype Event =
    | CmdStop(env: Env) | CmdBrk(env: Env) | CmdCont(stale: Word) | CmdStart(stale: Word)
    | CmdGetRegs(env: Env, env2: Env) | CmdSetIoData(w: Word)
    | CmdRead        // version, echo, status, I/O data, I/O address
    | Poll(env: Env) // the main loop's turn: serve an I/O access if the unit has stopped
    | Clocks(es: seq<Fsm.Edge>)

  /** The state after an event; `None` if a routine waited for never stops. */
  function React(hw: Design, code: Design, sv: Sv, ev: Event): (r: Option<Sv>)
    requires sv.Sized()
    ensures r.Some? ==> r.value.Sized()
  {
    match ev
    case CmdStop(env) => After(SvStop(hw, sv, env))
    case CmdBrk(env) => After(SvBrk(hw, code, sv, env))
    case CmdCont(stale) => Some(SvCont(sv, stale).sv)
    case CmdStart(stale) => Some(SvStart(sv, stale).sv)
    case CmdGetRegs(env, env2) =>
      (match SvGetRegs(hw, sv, env, env2)
       case None => None
       case Some(o) => Some(o.sv.(regs := o.sv.regs.(valid := o.ret))))
    case CmdSetIoData(w) => Some(sv.(iodata := w))
    case CmdRead => Some(sv)
    case Poll(env) => if sv.ocd.core.stop then After(SvIoBreak(hw, sv, env)) else Some(sv)
    case Clocks(es) => Some(sv.(ocd := Fsm.Run(hw, sv.ocd, es)))
  }

  function After(o: Option<Outcome>): Option<Sv> {
    match o
    case None => None
    case Some(x) => Some(x.sv)
  }

  function Play(hw: Design, code: Design, sv: Sv, evs: seq<Event>): (r: Option<Sv>)
    requires sv.Sized()
    ensures r.Some? ==> r.value.Sized()
    decreases |evs|
  {
    if evs == [] then Some(sv)
    else
      match React(hw, code, sv, evs[0])
      case None => None
      case Some(sv') => Play(hw, code, sv', evs[1..])
  }

  /** A stopped unit sits in EXIT, and a pending write happens in STORE only. */
  predicate UnitOk(s: Fsm.System) {
    OcdSafety.WriteDiscipline(s) && (s.core.stop ==> Clocked.Halted(s))
  }

  /** Whenever the CPU is not running, the unit has stopped. */
  predicate Quiescent(sv: Sv) {
    UnitOk(sv.ocd) && (sv.status != Running ==> sv.ocd.core.stop)
  }

  lemma TickKeepsUnit(hw: Design, s: Fsm.System, e: Fsm.Edge)
    requires UnitOk(s)
    ensures UnitOk(Fsm.Tick(hw, s, e)) && (s.core.stop ==> Fsm.Tick(hw, s, e).core.stop)
  {
  }

  lemma {:induction false} RunKeepsUnit(hw: Design, s: Fsm.System, es: seq<Fsm.Edge>)
    requires UnitOk(s)
    ensures UnitOk(Fsm.Run(hw, s, es)) && (s.core.stop ==> Fsm.Run(hw, s, es).core.stop)
    decreases |es|
  {
    hide Fsm.Tick;
    if es != [] {
      TickKeepsUnit(hw, s, es[0]);
      RunKeepsUnit(hw, Fsm.Tick(hw, s, es[0]), es[1..]);
    }
  }

  lemma LaunchKeepsUnit(s: Fsm.System, table: Table, stale: Word)
    requires UnitOk(s)
    ensures UnitOk(Launch(s, table, stale))
  {
  }

  lemma {:induction false} WaitKeepsUnit(hw: Design, s: Fsm.System, es: seq<Fsm.Edge>)
    requires UnitOk(s)
    ensures BusyWait(hw, s, es).Some? ==> UnitOk(BusyWait(hw, s, es).value)
    decreases |es|
  {
    hide Fsm.Tick;
    if !s.core.stop && es != [] {
      TickKeepsUnit(hw, s, es[0]);
      WaitKeepsUnit(hw, Fsm.Tick(hw, s, es[0]), es[1..]);
    }
  }

  lemma RoutineKeepsUnit(hw: Design, s: Fsm.System, table: Table, env: Env)
    requires UnitOk(s)
    ensures RunAndWait(hw, s, table, env).Some? ==> UnitOk(RunAndWait(hw, s, table, env).value)
  {
    LaunchKeepsUnit(s, table, env.stale);
    WaitKeepsUnit(hw, Launch(s, table, env.stale), env.es);
  }

  /** The status changes the protocol allows. Real-mode breaks end by a stop only. */
  predicate StatusEdge(ev: Event, from: Status, to: Status) {
    || from == to
    || (ev.CmdStop? && to == Stop)
    || (ev.CmdStart? && from == Stop && to == Running)
    || (ev.CmdBrk? && from == Running && (to == Brk16 || to == Brk32))
    || (ev.CmdCont? && (from == Brk32 || from == IoRd || from == IoWr) && to == Running)
    || (ev.Poll? && from == Running && (to == IoRd || to == IoWr))
  }

  lemma EventKeepsInvariant(hw: Design, code: Design, sv: Sv, ev: Event)
    requires Quiescent(sv)
    ensures React(hw, code, sv, ev).Some? ==>
              && Quiescent(React(hw, code, sv, ev).value)
              && StatusEdge(ev, sv.status, React(hw, code, sv, ev).value.status)
  {
    hide Launch, BusyWait, BreakTable;
    match ev
    case CmdStop(env) => RoutineKeepsUnit(hw, sv.ocd, RESET_TABLE, env);
    case CmdBrk(env) => RoutineKeepsUnit(hw, sv.ocd, BreakTable(code), env);
    case CmdCont(stale) => ContKeepsUnit(sv, stale);
    case CmdStart(stale) => LaunchKeepsUnit(sv.ocd, START_TABLE, stale);
    case CmdGetRegs(env, env2) => GetRegsKeepsUnit(hw, sv, env, env2);
    case CmdSetIoData(w) =>
    case CmdRead =>
    case Poll(env) => if sv.ocd.core.stop { IoBreakKeepsUnit(hw, sv, env); }
    case Clocks(es) => RunKeepsUnit(hw, sv.ocd, es);
  }

  lemma ContKeepsUnit(sv: Sv, stale: Word)
    requires Quiescent(sv)
    ensures UnitOk(SvCont(sv, stale).sv.ocd)
  {
    hide Launch;
    match sv.status
    case Brk32 =>
      var s := SetReg32(SetReg(SetReg32(sv.ocd, 2, sv.regs.eflags), 4, sv.regs.cs), 5, sv.regs.eip);
      LaunchKeepsUnit(s, CONT_TABLE, stale);
    case IoRd => LaunchKeepsUnit(SetReg(sv.ocd, 3, sv.iodata), WRITE_IO_TABLE, stale);
    case IoWr => LaunchKeepsUnit(sv.ocd, START_TABLE, stale);
    case _ =>
  }

  lemma GetRegsKeepsUnit(hw: Design, sv: Sv, env: Env, env2: Env)
    requires Quiescent(sv)
    ensures SvGetRegs(hw, sv, env, env2).Some? ==>
              && Quiescent(SvGetRegs(hw, sv, env, env2).value.sv)
              && SvGetRegs(hw, sv, env, env2).value.sv.status == sv.status
  {
    hide RunAndWait, GET_REGS_TABLE, SET_REG_TABLE;
    if sv.status == Brk32 {
      RoutineKeepsUnit(hw, sv.ocd, GET_REGS_TABLE, env);
      var r := RunAndWait(hw, sv.ocd, GET_REGS_TABLE, env);
      if r.Some? {
        var s := SetReg32(SetReg(r.value, 1, MOV_ESP), 2, EspBrk(WithPushed(sv.regs, r.value).esp));
        RoutineKeepsUnit(hw, s, SET_REG_TABLE, env2);
      }
    }
  }

  lemma IoBreakKeepsUnit(hw: Design, sv: Sv, env: Env)
    requires Quiescent(sv) && sv.ocd.core.stop
    ensures SvIoBreak(hw, sv, env).Some? ==>
              var sv' := SvIoBreak(hw, sv, env).value.sv;
              && Quiescent(sv')
              && (sv'.status != sv.status ==> sv.status == Running && (sv'.status == IoRd || sv'.status == IoWr))
  {
    hide RunAndWait, Launch;
    if sv.status == Running {
      var sv1 := sv.(ioaddr := GetReg(sv.ocd, 1));
      if GetReg(sv.ocd, 2) != 0 {
        RoutineKeepsUnit(hw, sv1.ocd, READ_IO_TABLE, env);
        var r := RunAndWait(hw, sv1.ocd, READ_IO_TABLE, env);
        if r.Some? {
          var sv2 := sv1.(ocd := r.value, iodata := GetReg(r.value, 3), status := IoWr);
          ContKeepsUnit(sv2.(led := sv2.iodata % 0x100), env.stale);
        }
      } else {
        ContKeepsUnit(sv1.(status := IoRd, iodata := sv.led), env.stale);
      }
    }
  }

  /** Event `k` of a run happens, and makes a status change the protocol allows. */
  predicate EdgeAllowed(hw: Design, code: Design, sv: Sv, evs: seq<Event>, k: nat)
    requires sv.Sized() && k < |evs|
  {
    var before, after := Play(hw, code, sv, evs[..k]), Play(hw, code, sv, evs[..k + 1]);
    before.Some? && after.Some? && StatusEdge(evs[k], before.value.status, after.value.status)
  }

  /** In every state any run reaches, a CPU that is not running has its unit stopped, and
      each event made a status change the protocol allows. */
  lemma {:induction false} RunInvariant(hw: Design, code: Design, sv: Sv, evs: seq<Event>)
    requires Quiescent(sv) && Play(hw, code, sv, evs).Some?
    ensures Quiescent(Play(hw, code, sv, evs).value)
    ensures forall k :: 0 <= k < |evs| ==> EdgeAllowed(hw, code, sv, evs, k)
    decreases |evs|
  {
    hide React;
    if evs != [] {
      var sv' := React(hw, code, sv, evs[0]).value;
      EventKeepsInvariant(hw, code, sv, evs[0]);
      RunInvariant(hw, code, sv', evs[1..]);
      forall k | 0 <= k < |evs|
        ensures EdgeAllowed(hw, code, sv, evs, k)
      {
        assert evs[..k + 1][1..] == evs[1..][..k];
        if k == 0 {
          assert evs[..0] == [] && evs[1..][..0] == [];
          assert Play(hw, code, sv, evs[..1]) == Play(hw, code, sv', []) == Some(sv');
        } else {
          assert EdgeAllowed(hw, code, sv', evs[1..], k - 1);
          assert evs[..k][1..] == evs[1..][..k - 1] && evs[k] == evs[1..][k - 1];
          assert Play(hw, code, sv, evs[..k]) == Play(hw, code, sv', evs[1..][..k - 1]);
          assert Play(hw, code, sv, evs[..k + 1]) == Play(hw, code, sv', evs[1..][..k]);
        }
      }
    }
  }

  /** Power-on establishes the invariant. */
  lemma InitQuiescent(hw: Design, ocd: Fsm.System, led: Byte, regs: Regs, env: Env)
    requires UnitOk(ocd)
    ensures SvInit(hw, ocd, led, regs, env).Some? ==>
              Quiescent(SvInit(hw, ocd, led, regs, env).value) && SvInit(hw, ocd, led, regs, env).value.status == Stop
  {
    RoutineKeepsUnit(hw, ocd, RESET_TABLE, env);
  }

  /** A command is refused exactly in the statuses it does not apply to, and a refused
      command changes neither the supervisor nor the unit. */
  lemma RefusalsChangeNothing(hw: Design, code: Design, sv: Sv, env: Env, env2: Env, stale: Word)
    requires sv.Sized()
    ensures (SvStart(sv, stale).ret == 1 <==> sv.status != Stop)
    ensures (SvStart(sv, stale).ret == 1 ==> SvStart(sv, stale).sv == sv)
    ensures SvCont(sv, stale).ret == 1 <==> sv.status == Stop || sv.status == Running || sv.status == Brk16
    ensures SvCont(sv, stale).ret == 1 ==> SvCont(sv, stale).sv == sv
    ensures sv.status != Running <==> SvBrk(hw, code, sv, env) == Some(Outcome(sv, 1))
    ensures sv.status != Brk32 <==> SvGetRegs(hw, sv, env, env2) == Some(Outcome(sv, 1))
    ensures sv.status != Running <==> SvIoBreak(hw, sv, env) == Some(Outcome(sv, 1))
  {
    hide RunAndWait, Launch;
  }

  /** As events: a refused command, and a poll while the unit runs, leaves supervisor and unit as
      they were, except that a refused GETREGS notes the refusal, and nothing else, in the
      register structure. */
  lemma RefusedEvents(hw: Design, code: Design, sv: Sv, env: Env, env2: Env, stale: Word)
    requires sv.Sized()
    ensures sv.status != Stop ==> React(hw, code, sv, CmdStart(stale)) == Some(sv)
    ensures sv.status == Stop || sv.status == Running || sv.status == Brk16 ==>
              React(hw, code, sv, CmdCont(stale)) == Some(sv)
    ensures sv.status != Running ==>
              React(hw, code, sv, CmdBrk(env)) == Some(sv) && React(hw, code, sv, Poll(env)) == Some(sv)
    ensures sv.status != Brk32 ==>
              React(hw, code, sv, CmdGetRegs(env, env2)) == Some(sv.(regs := sv.regs.(valid := 1)))
    ensures !sv.ocd.core.stop ==> React(hw, code, sv, Poll(env)) == Some(sv)
    ensures sv.status == Brk32 && React(hw, code, sv, CmdGetRegs(env, env2)).Some? ==>
              React(hw, code, sv, CmdGetRegs(env, env2)).value.regs.valid == 0
  {
    hide RunAndWait, Launch;
    RefusalsChangeNothing(hw, code, sv, env, env2, stale);
  }
}
