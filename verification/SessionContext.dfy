/** A library call is one callback between turns of the main loop, so what is proved of the
    supervisor's runs holds of whole debug sessions. */
module SessionContext {
  import opened Words
  import opened Wrappers
  import opened Supervisor
  import opened Proto
  import opened ProtoCommands
  import opened Session
  import opened SessionLockStep
  import opened OcdRegisterTables
  import opened OcdLaunch
  import opened OcdStretches
  import opened OcdEvents
  import opened EndToEnd
  import opened SupervisorContext
  import opened SupervisorIo
  import SupervisorRuns
  import Fsm = OcdFsm

  // ----- One call -----

  /** The clocks and polls among the steps of a schedule. */
  function Turns(sts: seq<Step>): seq<SupervisorRuns.Event> {
    if sts == [] then [] else (if sts[0].Turn? then [sts[0].ev] else []) + Turns(sts[1..])
  }

  /** The step is the one at which the handler runs a callback. */
  predicate Calls(s: State, st: Step) {
    st.Take? && s.down != [] && Judge(s.got + [s.down[0]]).Call?
  }

  /** How many steps come before the callback. */
  function CallAt(hw: Design, code: Design, s: State, sts: seq<Step>): (k: nat)
    requires Play(hw, code, s, sts).Some?
    ensures k <= |sts|
    decreases |sts|
  {
    if sts == [] || Calls(s, sts[0]) then 0 else 1 + CallAt(hw, code, Apply(hw, code, s, sts[0]), sts[1..])
  }

  /** A call is under way; its callback has not run yet. */
  predicate Waiting(s: State, req: Request) {
    Locked(s) && Roomy(req) && !s.host.Idle? && s.host.req == req && |s.served| == |s.returned|
  }

  /** The callback has run. */
  predicate Answered(s: State, req: Request, payload: seq<Byte>) {
    && Locked(s) && Roomy(req) && s.host.Receiving? && s.host.req == req
    && |s.served| == |s.returned| + 1 && s.served[|s.returned|].payload == payload
  }

  /** What a step that is no callback does to the supervisor. */
  predicate Quietly(hw: Design, code: Design, s: State, st: Step, t: State) {
    && s.sv.Sized() && t.served == s.served
    && if st.Turn? then SupervisorRuns.React(hw, code, s.sv, st.ev) == Some(t.sv) else t.sv == s.sv
  }

  lemma StepBefore(hw: Design, code: Design, s: State, st: Step, req: Request)
    requires Waiting(s, req) && Enabled(hw, code, s, st) && !Calls(s, st)
    ensures var t := Apply(hw, code, s, st); Waiting(t, req) && Quietly(hw, code, s, st, t) && t.returned == s.returned
  {
    hide Judge, Frame, Response, Receive, Callback, Missing, SupervisorRuns.React, Roomy;
    StepKeeps(hw, code, s, st);
    if st.Take? {
      TakeSees(s);
    } else if st.Read? && s.host.Syncing? {
      SyncRead(s, st.k);
    }
  }

  lemma SyncRead(s: State, k: nat)
    requires Locked(s) && s.host.Syncing? && k <= |s.up|
    ensures var heard := s.host.heard + s.up[..k]; |heard| >= 2 ==> heard[..2] == [SYN, ACK]
  {
    var heard := s.host.heard + s.up[..k];
    assert heard + s.up[k..] + s.emit == s.host.heard + s.up + s.emit;
  }

  lemma StepCalls(hw: Design, code: Design, s: State, st: Step, req: Request)
    requires Waiting(s, req) && Enabled(hw, code, s, st) && Calls(s, st)
    ensures Proper(req.cmd, req.args) && s.sv.Sized()
    ensures var t, r := Apply(hw, code, s, st), Callback(hw, code, s.sv, req.cmd, req.args, st.env, st.env2);
      && r.Some? && Answered(t, req, r.value.payload) && t.sv == r.value.sv && t.returned == s.returned
      && t.served == s.served + [Served(req.cmd, req.args, r.value.payload)]
  {
    hide Judge, Frame, Response, Receive, Callback, Missing, SupervisorRuns.React;
    StepKeeps(hw, code, s, st);
    TakeSees(s);
  }

  lemma StepAfter(hw: Design, code: Design, s: State, st: Step, req: Request, payload: seq<Byte>)
    requires Answered(s, req, payload) && Enabled(hw, code, s, st)
    ensures var t := Apply(hw, code, s, st);
      && Locked(t) && Quietly(hw, code, s, st, t)
      && if t.host.Idle? then t.returned == s.returned + [Returned(req, Received(payload))]
         else Answered(t, req, payload) && t.returned == s.returned
  {
    hide Judge, Frame, Response, Callback, Missing, SupervisorRuns.React;
    StepKeeps(hw, code, s, st);
    if st.Read? {
      hide Receive;
      var t := Apply(hw, code, s, st);
      if t.host.Idle? {
        RoomDecides(hw, code, s, st.k);
      }
    }
  }

  lemma StepIdle(hw: Design, code: Design, s: State, st: Step)
    requires Locked(s) && s.host.Idle? && Enabled(hw, code, s, st) && !st.Begin?
    ensures var t := Apply(hw, code, s, st);
      Locked(t) && t.host.Idle? && Quietly(hw, code, s, st, t) && t.returned == s.returned
  {
    hide SupervisorRuns.React, Judge, Callback;
    StepKeeps(hw, code, s, st);
  }

  predicate NoBegin(sts: seq<Step>) {
    forall i :: 0 <= i < |sts| ==> !sts[i].Begin?
  }

  /** Steps that are no callback are turns of the supervisor. */
  lemma QuietRun(hw: Design, code: Design, s: State, st: Step, t: State, rest: seq<SupervisorRuns.Event>, sv: Sv)
    requires Quietly(hw, code, s, st, t) && t.sv.Sized() && SupervisorRuns.Play(hw, code, t.sv, rest) == Some(sv)
    ensures SupervisorRuns.Play(hw, code, s.sv, (if st.Turn? then [st.ev] else []) + rest) == Some(sv)
  {
    hide SupervisorRuns.React;
    if st.Turn? {
      assert ([st.ev] + rest)[1..] == rest;
    } else {
      assert [] + rest == rest;
    }
  }

  lemma {:induction false} IdleRun(hw: Design, code: Design, s: State, sts: seq<Step>)
    requires Locked(s) && s.host.Idle? && NoBegin(sts) && Play(hw, code, s, sts).Some?
    ensures var t := Play(hw, code, s, sts).value;
      && Locked(t) && t.host.Idle? && t.returned == s.returned && t.served == s.served && s.sv.Sized()
      && SupervisorRuns.Play(hw, code, s.sv, Turns(sts)) == Some(t.sv)
    decreases |sts|
  {
    hide Locked, Enabled, Apply, Quietly;
    LockedSized(s);
    if sts != [] {
      var u := Apply(hw, code, s, sts[0]);
      StepIdle(hw, code, s, sts[0]);
      IdleRun(hw, code, u, sts[1..]);
      QuietRun(hw, code, s, sts[0], u, Turns(sts[1..]), Play(hw, code, s, sts).value.sv);
      QuietServed(hw, code, s, sts[0], u);
    }
  }

  lemma LockedSized(s: State)
    requires Locked(s)
    ensures s.sv.Sized()
  {
  }

  lemma QuietServed(hw: Design, code: Design, s: State, st: Step, t: State)
    requires Quietly(hw, code, s, st, t)
    ensures t.served == s.served
  {
  }

  /** After its callback, a call that returns returns the callback's payload. */
  lemma {:induction false} AnsweredRun(hw: Design, code: Design, s: State, req: Request, payload: seq<Byte>,
                                       sts: seq<Step>)
    requires Answered(s, req, payload) && s.sv.Sized() && NoBegin(sts)
    requires Play(hw, code, s, sts).Some? && Play(hw, code, s, sts).value.host.Idle?
    ensures var t := Play(hw, code, s, sts).value;
      && Locked(t) && t.returned == s.returned + [Returned(req, Received(payload))] && t.served == s.served
      && SupervisorRuns.Play(hw, code, s.sv, Turns(sts)) == Some(t.sv)
    decreases |sts|
  {
    hide Locked, Enabled, Apply, Quietly, Roomy;
    if sts != [] {
      var u := Apply(hw, code, s, sts[0]);
      StepAfter(hw, code, s, sts[0], req, payload);
      LockedSized(u);
      if u.host.Idle? {
        IdleRun(hw, code, u, sts[1..]);
      } else {
        AnsweredRun(hw, code, u, req, payload, sts[1..]);
      }
      QuietRun(hw, code, s, sts[0], u, Turns(sts[1..]), Play(hw, code, s, sts).value.sv);
      QuietServed(hw, code, s, sts[0], u);
    }
  }

  /** The account of one call made from state `s` by the schedule `sts`: the turns before the
      callback, the callback, the turns after it. */
  predicate CallAccount(hw: Design, code: Design, s: State, req: Request, sts: seq<Step>)
    requires s.sv.Sized() && Proper(req.cmd, req.args) && Play(hw, code, s, sts).Some?
  {
    var t, k := Play(hw, code, s, sts).value, CallAt(hw, code, s, sts);
    && k < |sts| && sts[k].Take?
    && var mid := SupervisorRuns.Play(hw, code, s.sv, Turns(sts[..k]));
       && mid.Some?
       && var r := Callback(hw, code, mid.value, req.cmd, req.args, sts[k].env, sts[k].env2);
          && r.Some? && r.value.sv.Sized()
          && SupervisorRuns.Play(hw, code, r.value.sv, Turns(sts[k + 1..])) == Some(t.sv)
          && t.returned == s.returned + [Returned(req, Received(r.value.payload))]
          && t.served == s.served + [Served(req.cmd, req.args, r.value.payload)]
  }

  lemma FirstAside(sts: seq<Step>, k: nat)
    requires k < |sts|
    ensures sts[..k + 1][0] == sts[0] && sts[..k + 1][1..] == sts[1..][..k]
    ensures k + 1 < |sts| ==> sts[k + 1 + 1..] == sts[1..][k + 1..]
  {
  }

  lemma {:induction false} WaitingRun(hw: Design, code: Design, s: State, req: Request, sts: seq<Step>)
    requires Waiting(s, req) && s.sv.Sized() && Proper(req.cmd, req.args) && NoBegin(sts)
    requires Play(hw, code, s, sts).Some? && Play(hw, code, s, sts).value.host.Idle?
    ensures Locked(Play(hw, code, s, sts).value) && CallAccount(hw, code, s, req, sts)
    decreases |sts|
  {
    hide Locked, Enabled, Apply, Quietly, Roomy, Calls, Callback, SupervisorRuns.React;
    var u := Apply(hw, code, s, sts[0]);
    if Calls(s, sts[0]) {
      StepCalls(hw, code, s, sts[0], req);
      LockedSized(u);
      AnsweredRun(hw, code, u, req, u.served[|s.returned|].payload, sts[1..]);
      CalledTake(s, sts[0]);
      assert sts[..0] == [] && Turns([]) == [];
    } else {
      StepBefore(hw, code, s, sts[0], req);
      LockedSized(u);
      WaitingRun(hw, code, u, req, sts[1..]);
      var k := CallAt(hw, code, u, sts[1..]);
      FirstAside(sts, k);
      QuietRun(hw, code, s, sts[0], u, Turns(sts[1..][..k]),
               SupervisorRuns.Play(hw, code, u.sv, Turns(sts[1..][..k])).value);
      QuietServed(hw, code, s, sts[0], u);
    }
  }

  lemma CalledTake(s: State, st: Step)
    requires Calls(s, st)
    ensures st.Take?
  {
  }

  /** A call between two idle moments, whatever the schedule: the supervisor takes some turns,
      runs the call's callback, takes some more turns; and the call returns exactly what the
      callback answered. */
  lemma OneCall(hw: Design, code: Design, s: State, req: Request, sts: seq<Step>)
    requires Locked(s) && s.host.Idle? && Roomy(req) && NoBegin(sts)
    requires Play(hw, code, Enter(s, req), sts).Some? && Play(hw, code, Enter(s, req), sts).value.host.Idle?
    ensures Proper(req.cmd, req.args) && s.sv.Sized()
    ensures Enter(s, req).sv == s.sv && Enter(s, req).returned == s.returned
    ensures Locked(Play(hw, code, Enter(s, req), sts).value) && CallAccount(hw, code, Enter(s, req), req, sts)
  {
    hide Play;
    BeginKeeps(s, req);
    WaitingRun(hw, code, Enter(s, req), req, sts);
  }

  // ----- What holds through a session -----

  /** A turn of the main loop: the unit is clocked or polled. */
  predicate IsTurn(ev: SupervisorRuns.Event) {
    ev.Clocks? || ev.Poll?
  }

  predicate AllTurns(evs: seq<SupervisorRuns.Event>) {
    forall i :: 0 <= i < |evs| ==> IsTurn(evs[i])
  }

  lemma {:induction false} OnlyTurns(hw: Design, code: Design, s: State, sts: seq<Step>)
    requires Play(hw, code, s, sts).Some?
    ensures AllTurns(Turns(sts))
    decreases |sts|
  {
    hide Apply, SupervisorRuns.React, Judge, Callback;
    if sts != [] {
      OnlyTurns(hw, code, Apply(hw, code, s, sts[0]), sts[1..]);
      var rest := Turns(sts[1..]);
      assert Turns(sts) == (if sts[0].Turn? then [sts[0].ev] else []) + rest;
    }
  }

  lemma {:induction false} PlayPrefix(hw: Design, code: Design, s: State, sts: seq<Step>, k: nat)
    requires k <= |sts| && Play(hw, code, s, sts).Some?
    ensures Play(hw, code, s, sts[..k]).Some? && Play(hw, code, Play(hw, code, s, sts[..k]).value, sts[k..]).Some?
    decreases k
  {
    hide Apply, Enabled;
    if k == 0 {
      assert sts[..0] == [] && sts[0..] == sts;
    } else {
      PlayPrefix(hw, code, Apply(hw, code, s, sts[0]), sts[1..], k - 1);
      assert sts[..k][1..] == sts[1..][..k - 1] && sts[k..] == sts[1..][k - 1..];
    }
  }

  /** The turns before and after a callback are turns of the main loop. */
  lemma TurnsAround(hw: Design, code: Design, s: State, sts: seq<Step>, k: nat)
    requires k < |sts| && Play(hw, code, s, sts).Some?
    ensures AllTurns(Turns(sts[..k]))
    ensures AllTurns(Turns(sts[k + 1..]))
  {
    hide Play, Turns, IsTurn;
    PlayPrefix(hw, code, s, sts, k);
    PlayPrefix(hw, code, s, sts, k + 1);
    OnlyTurns(hw, code, s, sts[..k]);
    OnlyTurns(hw, code, Play(hw, code, s, sts[..k + 1]).value, sts[k + 1..]);
  }

  /** Turns leave a held CPU's status alone. */
  lemma {:induction false} TurnsKeepStatus(hw: Design, code: Design, sv: Sv, evs: seq<SupervisorRuns.Event>)
    requires sv.Sized() && sv.status != Running && SupervisorRuns.Play(hw, code, sv, evs).Some?
    requires AllTurns(evs)
    ensures SupervisorRuns.Play(hw, code, sv, evs).value.status == sv.status
    decreases |evs|
  {
    if evs != [] {
      TurnKeepsStatus(hw, code, sv, evs[0]);
      hide SupervisorRuns.React;
      TurnsKeepStatus(hw, code, SupervisorRuns.React(hw, code, sv, evs[0]).value, evs[1..]);
    }
  }

  lemma TurnKeepsStatus(hw: Design, code: Design, sv: Sv, ev: SupervisorRuns.Event)
    requires sv.Sized() && sv.status != Running && IsTurn(ev) && SupervisorRuns.React(hw, code, sv, ev).Some?
    ensures SupervisorRuns.React(hw, code, sv, ev).value.status == sv.status
  {
    hide RunAndWait, Launch, Fsm.Run;
  }

  lemma TurnsKeepContext(hw: Design, code: Design, sv: Sv, evs: seq<SupervisorRuns.Event>)
    requires sv.Sized() && sv.status == Brk32 && SupervisorRuns.Play(hw, code, sv, evs).Some?
    requires AllTurns(evs)
    ensures SameContext(sv, SupervisorRuns.Play(hw, code, sv, evs).value)
  {
    hide SupervisorRuns.Play;
    HeldContext(hw, code, sv, evs);
  }

  // ----- Registers -----

  /** The registers of the sixteen words PUSHA pushes, with ESP as before the break. */
  predicate ShowsPushed(r: Regs, ss: seq<Word>) {
    && |ss| == 16 && r.valid == 0
    && r.edi == Pushed(ss, 0) && r.esi == Pushed(ss, 2) && r.ebp == Pushed(ss, 4) && r.esp == Unpushed(Pushed(ss, 6))
    && r.ebx == Pushed(ss, 8) && r.edx == Pushed(ss, 10) && r.ecx == Pushed(ss, 12) && r.eax == Pushed(ss, 14)
  }

  /** A call for the registers of a CPU held by a break returns 43 bytes, in which the host
      reads the registers that PUSHA pushed and the EIP, CS and EFLAGS of the break. */
  lemma GetRegsCall(hw: Design, code: Design, s: State, req: Request, sts: seq<Step>)
    requires Locked(s) && s.host.Idle? && Roomy(req) && req.cmd == GETREGS && NoBegin(sts)
    requires Play(hw, code, Enter(s, req), sts).Some? && Play(hw, code, Enter(s, req), sts).value.host.Idle?
    requires s.sv.status == Brk32
    ensures var u := Enter(s, req);
      var t, k := Play(hw, code, u, sts).value, CallAt(hw, code, u, sts);
      && k < |sts| && sts[k].Take? && |t.returned| == |s.returned| + 1
      && var answer, mid := t.returned[|s.returned|].answer, SupervisorRuns.Play(hw, code, s.sv, Turns(sts[..k]));
         && mid.Some? && answer.Received? && |answer.payload| == 43
         && var r := RegsFrom(answer.payload);
            && ShowsPushed(r, Samples(Heard(hw, mid.value.ocd, GET_REGS_TABLE, sts[k].env)))
            && r.eflags == s.sv.regs.eflags && r.cs == s.sv.regs.cs && r.eip == s.sv.regs.eip
  {
    hide Play, Locked, Enter, SupervisorRuns.Play, RegsFrom, RegsBytes, Samples, Heard, GET_REGS_TABLE, Roomy, NoBegin,
         CallAt;
    OneCall(hw, code, s, req, sts);
    var u := Enter(s, req);
    var k := CallAt(hw, code, u, sts);
    TurnsAround(hw, code, u, sts, k);
    var mid := SupervisorRuns.Play(hw, code, s.sv, Turns(sts[..k])).value;
    TurnsKeepContext(hw, code, s.sv, Turns(sts[..k]));
    GetRegsAnswer(hw, code, mid, req.args, sts[k].env, sts[k].env2);
  }

  lemma GetRegsAnswer(hw: Design, code: Design, sv: Sv, args: seq<Byte>, env: Env, env2: Env)
    requires sv.Sized() && sv.status == Brk32 && Proper(GETREGS, args)
    requires Callback(hw, code, sv, GETREGS, args, env, env2).Some?
    ensures var p := Callback(hw, code, sv, GETREGS, args, env, env2).value.payload;
      && |p| == 43
      && var r := RegsFrom(p);
         && ShowsPushed(r, Samples(Heard(hw, sv.ocd, GET_REGS_TABLE, env)))
         && r.eflags == sv.regs.eflags && r.cs == sv.regs.cs && r.eip == sv.regs.eip
  {
    hide SvGetRegs, SvBrk, SvCont, SvStop, SvStart, RegsFrom, RegsBytes, Samples, Heard, GET_REGS_TABLE, SET_REG_TABLE,
         Droves, BeforeRestore, RunAndWait;
    RegsReported(hw, sv, env, env2);
    var o := SvGetRegs(hw, sv, env, env2).value;
    RegsReadBack(o.sv.regs.(valid := o.ret));
  }

  // ----- Break, any other calls, continue -----

  /** A call that neither stops nor continues the CPU. */
  predicate Harmless(req: Request) {
    Roomy(req) && req.cmd != STOP && req.cmd != CONT
  }

  predicate AllHarmless(sts: seq<Step>) {
    forall i :: 0 <= i < |sts| && sts[i].Begin? ==> Harmless(sts[i].req)
  }

  lemma StepHolds(hw: Design, code: Design, s: State, st: Step)
    requires Locked(s) && Enabled(hw, code, s, st) && s.sv.status == Brk32
    requires (st.Begin? ==> Harmless(st.req)) && (!s.host.Idle? ==> Harmless(s.host.req))
    ensures var t := Apply(hw, code, s, st);
      && Locked(t) && (!t.host.Idle? ==> Harmless(t.host.req)) && s.sv.Sized() && SameContext(s.sv, t.sv)
  {
    hide Judge, Frame, Response, Receive, Callback, Missing, SupervisorRuns.React;
    StepKeeps(hw, code, s, st);
    if st.Turn? {
      PassiveKeeps(hw, code, s.sv, st.ev);
    } else if Calls(s, st) {
      TakeSees(s);
      var req := s.host.req;
      CallbackIsEvent(hw, code, s.sv, req.cmd, req.args, st.env, st.env2);
      PassiveKeeps(hw, code, s.sv, EventOf(req.cmd, req.args, st.env, st.env2));
    }
  }

  /** Whatever calls are made of a held CPU, none a stop or a continue, its context is kept. */
  lemma {:induction false} HeldSession(hw: Design, code: Design, s: State, sts: seq<Step>)
    requires Locked(s) && s.sv.status == Brk32 && (!s.host.Idle? ==> Harmless(s.host.req))
    requires AllHarmless(sts) && Play(hw, code, s, sts).Some?
    ensures Locked(Play(hw, code, s, sts).value) && s.sv.Sized() && SameContext(s.sv, Play(hw, code, s, sts).value.sv)
    decreases |sts|
  {
    hide Locked, Enabled, Apply, Harmless;
    LockedSized(s);
    if sts != [] {
      StepHolds(hw, code, s, sts[0]);
      assert AllHarmless(sts[1..]);
      HeldSession(hw, code, Apply(hw, code, s, sts[0]), sts[1..]);
    }
  }

  lemma BrkAnswer(hw: Design, code: Design, sv: Sv, args: seq<Byte>, env: Env, env2: Env)
    requires sv.Sized() && Proper(BRK, args) && Callback(hw, code, sv, BRK, args, env, env2).Some?
    requires Callback(hw, code, sv, BRK, args, env, env2).value.payload == [0]
    ensures var r := Callback(hw, code, sv, BRK, args, env, env2).value;
      && sv.status == Running && SvBrk(hw, code, sv, env) == Some(Outcome(r.sv, 0)) && r.sv.status != Running
  {
    hide RunAndWait, Launch;
  }

  lemma ContAnswer(hw: Design, code: Design, sv: Sv, args: seq<Byte>, env: Env, env2: Env)
    requires sv.Sized() && Proper(CONT, args)
    ensures Callback(hw, code, sv, CONT, args, env, env2) ==
            Some(Reply(SvCont(sv, env.stale).sv, [SvCont(sv, env.stale).ret]))
  {
    hide SvCont;
  }

  /** The words that give back a context: `ss` in the order the break sampled them. */
  function GivenBack(ss: seq<Word>, padding: Word): seq<Word>
    requires |ss| == 5
  {
    [0x90CF, 0x9090, 0x9090, 0x9090, ss[3], ss[4], ss[2], padding, ss[0], ss[1]]
  }

  /** After a call of break that answered 0 and left the CPU held, `sv` being the supervisor as
      its callback ran: the context held is the one the break sampled. */
  lemma HeldAfterBreak(hw: Design, code: Design, sv: Sv, args: seq<Byte>, env: Env, env2: Env,
                       turns: seq<SupervisorRuns.Event>, now: Sv)
    requires sv.Sized() && Proper(BRK, args) && Callback(hw, code, sv, BRK, args, env, env2).Some?
    requires var r := Callback(hw, code, sv, BRK, args, env, env2).value;
      r.payload == [0] && r.sv.Sized() && SupervisorRuns.Play(hw, code, r.sv, turns) == Some(now)
    requires AllTurns(turns) && now.status == Brk32
    ensures var ss := Samples(Heard(hw, sv.ocd, BreakTable(code), env));
      && |ss| == 5 && now.regs.eflags == Double(ss[0], ss[1]) && now.regs.cs == ss[2]
         && now.regs.eip == Double(ss[3], ss[4])
  {
    hide Callback, SvBrk, SupervisorRuns.Play, Samples, Heard, BreakTable, Double;
    var r := Callback(hw, code, sv, BRK, args, env, env2).value;
    BrkAnswer(hw, code, sv, args, env, env2);
    TurnsKeepStatus(hw, code, r.sv, turns);
    TurnsKeepContext(hw, code, r.sv, turns);
    BreakSaves(hw, code, sv, env);
  }

  /** What a continue drives for a context held. */
  lemma ContinueGivesBack(hw: Design, sv: Sv, stale: Word, ss: seq<Word>)
    requires sv.Sized() && sv.status == Brk32 && |ss| == 5
    requires sv.regs.eflags == Double(ss[0], ss[1]) && sv.regs.cs == ss[2] && sv.regs.eip == Double(ss[3], ss[4])
    ensures var o := SvCont(sv, stale);
      && o.ret == 0 && o.sv.Sized()
      && forall es :: Fsm.Run(hw, o.sv.ocd, es).core.stop ==>
           Droves(Observed(hw, o.sv.ocd, es)) == GivenBack(ss, GetReg(sv.ocd, 0))
  {
    hide SvCont, Fsm.Run, Observed, Droves, GetReg, Low, High, Double;
    DoubleParts(ss[0], ss[1]);
    DoubleParts(ss[3], ss[4]);
    ContinueRestores(hw, sv, stale, []);
    forall es | Fsm.Run(hw, SvCont(sv, stale).sv.ocd, es).core.stop
      ensures Droves(Observed(hw, SvCont(sv, stale).sv.ocd, es)) == GivenBack(ss, GetReg(sv.ocd, 0))
    {
      ContinueRestores(hw, sv, stale, es);
    }
  }

  /** The supervisor as the callback of a call runs. */
  function AtCallback(hw: Design, code: Design, s: State, sts: seq<Step>): Option<Sv>
    requires Play(hw, code, s, sts).Some? && s.sv.Sized()
  {
    SupervisorRuns.Play(hw, code, s.sv, Turns(sts[..CallAt(hw, code, s, sts)]))
  }

  /** A session of three parts, under any schedule: a call of break that answers 0 and holds the
      CPU in protected mode; any calls but stop and continue; a call of continue. The continue
      answers 0, and the CPU is given back, word for word, the context the break sampled. */
  lemma BreakCallsContinue(hw: Design, code: Design, s: State, brk: Request, sts1: seq<Step>, sts2: seq<Step>,
                           cont: Request, sts3: seq<Step>)
    requires Locked(s) && s.host.Idle? && Roomy(brk) && brk.cmd == BRK && NoBegin(sts1)
    requires Play(hw, code, Enter(s, brk), sts1).Some?
    requires var s1 := Play(hw, code, Enter(s, brk), sts1).value;
      && s1.host.Idle? && s1.sv.status == Brk32 && s1.returned == s.returned + [Returned(brk, Received([0]))]
      && AllHarmless(sts2) && Play(hw, code, s1, sts2).Some? && Roomy(cont) && cont.cmd == CONT && NoBegin(sts3)
      && var s2 := Play(hw, code, s1, sts2).value;
         && s2.host.Idle? && Play(hw, code, Enter(s2, cont), sts3).Some?
         && Play(hw, code, Enter(s2, cont), sts3).value.host.Idle?
    ensures var u1 := Enter(s, brk);
      var s1 := Play(hw, code, u1, sts1).value;
      var u3 := Enter(Play(hw, code, s1, sts2).value, cont);
      var k1, k3 := CallAt(hw, code, u1, sts1), CallAt(hw, code, u3, sts3);
      && k1 < |sts1| && sts1[k1].Take? && k3 < |sts3| && sts3[k3].Take? && u1.sv.Sized() && u3.sv.Sized()
      && var m1, m3 := AtCallback(hw, code, u1, sts1), AtCallback(hw, code, u3, sts3);
         && m1.Some? && m3.Some?
         && Play(hw, code, u3, sts3).value.returned == u3.returned + [Returned(cont, Received([0]))]
         && var ss := Samples(Heard(hw, m1.value.ocd, BreakTable(code), sts1[k1].env));
            var resumed := SvCont(m3.value, sts3[k3].env.stale).sv;
            && |ss| == 5 && resumed.Sized()
            && forall es :: Fsm.Run(hw, resumed.ocd, es).core.stop ==>
                 Droves(Observed(hw, resumed.ocd, es)) == GivenBack(ss, GetReg(m3.value.ocd, 0))
  {
    hide Play, Locked, SupervisorRuns.Play, Samples, Heard, BreakTable, Fsm.Run, Observed, Droves, GetReg, SvCont,
         Callback, GivenBack, Turns, NoBegin, AllHarmless, Roomy, CallAt;
    var u1 := Enter(s, brk);
    OneCall(hw, code, s, brk, sts1);
    var s1, k1 := Play(hw, code, u1, sts1).value, CallAt(hw, code, u1, sts1);
    TurnsAround(hw, code, u1, sts1, k1);
    var m1 := SupervisorRuns.Play(hw, code, s.sv, Turns(sts1[..k1])).value;
    assert s1.returned[|s.returned|] == Returned(brk, Received([0]));
    HeldAfterBreak(hw, code, m1, brk.args, sts1[k1].env, sts1[k1].env2, Turns(sts1[k1 + 1..]), s1.sv);
    HeldSession(hw, code, s1, sts2);
    var s2 := Play(hw, code, s1, sts2).value;
    var u3 := Enter(s2, cont);
    OneCall(hw, code, s2, cont, sts3);
    var k3 := CallAt(hw, code, u3, sts3);
    TurnsAround(hw, code, u3, sts3, k3);
    var m3 := SupervisorRuns.Play(hw, code, s2.sv, Turns(sts3[..k3])).value;
    TurnsKeepContext(hw, code, s2.sv, Turns(sts3[..k3]));
    ContAnswer(hw, code, m3, cont.args, sts3[k3].env, sts3[k3].env2);
    ContinueGivesBack(hw, m3, sts3[k3].env.stale, Samples(Heard(hw, m1.ocd, BreakTable(code), sts1[k1].env)));
  }
}
