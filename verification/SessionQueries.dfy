/** What the host learns from single calls: echo, version, status, I/O port and I/O data; and what
    calls of start and stop do to the CPU. */
module SessionQueries {
  import opened Words
  import opened Wrappers
  import opened Supervisor
  import opened Proto
  import opened ProtoCommands
  import opened Session
  import opened SessionLockStep
  import opened SessionContext
  import opened SupervisorContext
  import opened SupervisorIo
  import opened SupervisorPins
  import opened OcdTables
  import opened OcdStretches
  import SupervisorRuns
  import EndToEnd
  import OcdLaunch
  import Fsm = OcdFsm

  /** What the last call returned. */
  function Payload(before: State, after: State): seq<Byte> {
    if |after.returned| == |before.returned| + 1 && after.returned[|before.returned|].answer.Received?
    then after.returned[|before.returned|].answer.payload
    else []
  }

  /** The word of two bytes, low byte first. */
  function WordOf(p: seq<Byte>): int
    requires |p| == 2
  {
    var lo: int, hi: int := p[0], p[1];
    lo + 0x100 * hi
  }

  /** A call from an idle moment to the next. */
  predicate FullCall(hw: Design, code: Design, s: State, req: Request, sts: seq<Step>) {
    && Locked(s) && s.host.Idle? && Roomy(req) && NoBegin(sts)
    && Play(hw, code, Enter(s, req), sts).Some? && Play(hw, code, Enter(s, req), sts).value.host.Idle?
  }

  function After(hw: Design, code: Design, s: State, req: Request, sts: seq<Step>): State
    requires FullCall(hw, code, s, req, sts)
  {
    Play(hw, code, Enter(s, req), sts).value
  }

  /** The supervisor as the callback runs. */
  function AtCall(hw: Design, code: Design, s: State, req: Request, sts: seq<Step>): (sv: Sv)
    requires FullCall(hw, code, s, req, sts)
    ensures sv.Sized()
  {
    OneCall(hw, code, s, req, sts);
    AtCallback(hw, code, Enter(s, req), sts).value
  }

  /** A call returned what its callback answered, and the main loop took its turns around it. */
  ghost predicate Answer(hw: Design, code: Design, s: State, req: Request, sts: seq<Step>, r: Reply)
    requires FullCall(hw, code, s, req, sts)
  {
    var t := After(hw, code, s, req, sts);
    && Locked(t) && t.returned == s.returned + [Returned(req, Received(r.payload))] && Payload(s, t) == r.payload
    && r.sv.Sized()
    && exists before, after {:trigger AllTurns(before), AllTurns(after)} ::
         && AllTurns(before) && AllTurns(after) && s.sv.Sized()
         && SupervisorRuns.Play(hw, code, s.sv, before) == Some(AtCall(hw, code, s, req, sts))
         && SupervisorRuns.Play(hw, code, r.sv, after) == Some(t.sv)
  }

  lemma CallAnswers(hw: Design, code: Design, s: State, req: Request, sts: seq<Step>)
    returns (env: Env, env2: Env, r: Reply)
    requires FullCall(hw, code, s, req, sts)
    ensures Proper(req.cmd, req.args)
    ensures Callback(hw, code, AtCall(hw, code, s, req, sts), req.cmd, req.args, env, env2) == Some(r)
    ensures Answer(hw, code, s, req, sts, r)
  {
    hide Play, Locked, SupervisorRuns.Play, Callback, NoBegin, Roomy, CallAt;
    OneCall(hw, code, s, req, sts);
    var u := Enter(s, req);
    var k, t := CallAt(hw, code, u, sts), Play(hw, code, u, sts).value;
    env, env2 := sts[k].env, sts[k].env2;
    TurnsAround(hw, code, u, sts, k);
    r := Callback(hw, code, AtCall(hw, code, s, req, sts), req.cmd, req.args, env, env2).value;
    assert AllTurns(Turns(sts[..k])) && AllTurns(Turns(sts[k + 1..]));
  }

  // ----- Single calls -----

  /** The eleven commands, by the numbers both ends use: what a call returns, told of the
      supervisor as the callback runs. */
  lemma EchoCall(hw: Design, code: Design, s: State, x: Byte, room: nat, sts: seq<Step>)
    requires FullCall(hw, code, s, Request(2, [x], room), sts)
    ensures Payload(s, After(hw, code, s, Request(2, [x], room), sts)) == [x]
  {
    hide FullCall, After, AtCall, Answer, Payload;
    var env, env2, r := CallAnswers(hw, code, s, Request(2, [x], room), sts);
    AnswerIs(hw, code, s, Request(2, [x], room), sts, r);
  }

  lemma AnswerIs(hw: Design, code: Design, s: State, req: Request, sts: seq<Step>, r: Reply)
    requires FullCall(hw, code, s, req, sts) && Answer(hw, code, s, req, sts, r)
    ensures Payload(s, After(hw, code, s, req, sts)) == r.payload && Locked(After(hw, code, s, req, sts))
    ensures After(hw, code, s, req, sts).host.Idle?
  {
    hide Play, Locked;
  }

  lemma VersionCall(hw: Design, code: Design, s: State, req: Request, sts: seq<Step>)
    requires FullCall(hw, code, s, req, sts) && req.cmd == 1
    ensures var p, text := Payload(s, After(hw, code, s, req, sts)), "LSE-PC Supervisor v0.1";
      && |p| == |text| + 1 && p[|text|] == 0
      && forall i :: 0 <= i < |text| ==> p[i] == text[i] as int
  {
    hide FullCall, After, AtCall, Answer, Payload;
    var env, env2, r := CallAnswers(hw, code, s, req, sts);
    AnswerIs(hw, code, s, req, sts, r);
    VersionText();
  }

  lemma VersionText()
    ensures var text := "LSE-PC Supervisor v0.1";
      && |VERSION| == |text| + 1 && VERSION[|text|] == 0
      && forall i :: 0 <= i < |text| ==> VERSION[i] == text[i] as int
  {
    var text := "LSE-PC Supervisor v0.1";
    assert text[0] == 'L' && text[1] == 'S' && text[2] == 'E' && text[3] == '-' && text[4] == 'P' && text[5] == 'C';
  }

  lemma StatusCall(hw: Design, code: Design, s: State, req: Request, sts: seq<Step>)
    requires FullCall(hw, code, s, req, sts) && req.cmd == 7
    ensures var p, st := Payload(s, After(hw, code, s, req, sts)), AtCall(hw, code, s, req, sts).status;
      && (st == Stop <==> p == [0]) && (st == Running <==> p == [1]) && (st == Brk16 <==> p == [2])
      && (st == Brk32 <==> p == [3]) && (st == IoWr <==> p == [4]) && (st == IoRd <==> p == [5])
  {
    hide FullCall, After, AtCall, Answer, Payload;
    var env, env2, r := CallAnswers(hw, code, s, req, sts);
    AnswerIs(hw, code, s, req, sts, r);
  }

  lemma WordBytes(w: Word)
    ensures |Bytes16(w)| == 2 && WordOf(Bytes16(w)) == w
  {
  }

  lemma PortCall(hw: Design, code: Design, s: State, req: Request, sts: seq<Step>)
    requires FullCall(hw, code, s, req, sts) && req.cmd == 11
    ensures var p := Payload(s, After(hw, code, s, req, sts));
      |p| == 2 && WordOf(p) == AtCall(hw, code, s, req, sts).ioaddr
  {
    hide FullCall, After, AtCall, Answer, Payload, Bytes16, WordOf;
    var env, env2, r := CallAnswers(hw, code, s, req, sts);
    AnswerIs(hw, code, s, req, sts, r);
    WordBytes(AtCall(hw, code, s, req, sts).ioaddr);
  }

  lemma DataCall(hw: Design, code: Design, s: State, req: Request, sts: seq<Step>)
    requires FullCall(hw, code, s, req, sts) && req.cmd == 10
    ensures var p := Payload(s, After(hw, code, s, req, sts));
      |p| == 2 && WordOf(p) == AtCall(hw, code, s, req, sts).iodata
  {
    hide FullCall, After, AtCall, Answer, Payload, Bytes16, WordOf;
    var env, env2, r := CallAnswers(hw, code, s, req, sts);
    AnswerIs(hw, code, s, req, sts, r);
    WordBytes(AtCall(hw, code, s, req, sts).iodata);
  }

  // ----- While the CPU does not run -----

  /** What the host can ask about an access. */
  predicate SameIo(a: Sv, b: Sv) {
    a.status == b.status && a.ioaddr == b.ioaddr && a.iodata == b.iodata && a.led == b.led
  }

  lemma TurnKeepsIo(hw: Design, code: Design, sv: Sv, ev: SupervisorRuns.Event)
    requires sv.Sized() && sv.status != Running && IsTurn(ev) && SupervisorRuns.React(hw, code, sv, ev).Some?
    ensures SameIo(sv, SupervisorRuns.React(hw, code, sv, ev).value)
  {
    hide RunAndWait, Fsm.Run;
  }

  lemma {:induction false} TurnsKeepIo(hw: Design, code: Design, sv: Sv, evs: seq<SupervisorRuns.Event>)
    requires sv.Sized() && sv.status != Running && SupervisorRuns.Play(hw, code, sv, evs).Some? && AllTurns(evs)
    ensures SameIo(sv, SupervisorRuns.Play(hw, code, sv, evs).value)
    decreases |evs|
  {
    hide SupervisorRuns.React, IsTurn;
    if evs != [] {
      TurnKeepsIo(hw, code, sv, evs[0]);
      TurnsKeepIo(hw, code, SupervisorRuns.React(hw, code, sv, evs[0]).value, evs[1..]);
    }
  }

  /** Around a call made while the CPU does not run, nothing moves but what the callback does. */
  lemma HeldCall(hw: Design, code: Design, s: State, req: Request, sts: seq<Step>, r: Reply)
    requires FullCall(hw, code, s, req, sts) && Answer(hw, code, s, req, sts, r) && s.sv.status != Running
    ensures SameIo(s.sv, AtCall(hw, code, s, req, sts))
    ensures r.sv.status != Running ==> SameIo(r.sv, After(hw, code, s, req, sts).sv)
  {
    hide Play, Locked, SupervisorRuns.Play, AllTurns, AtCall, SameIo, FullCall, After;
    var before, after {:trigger AllTurns(before), AllTurns(after)} :| AllTurns(before) && AllTurns(after)
      && SupervisorRuns.Play(hw, code, s.sv, before) == Some(AtCall(hw, code, s, req, sts))
      && SupervisorRuns.Play(hw, code, r.sv, after) == Some(After(hw, code, s, req, sts).sv);
    TurnsKeepIo(hw, code, s.sv, before);
    if r.sv.status != Running {
      TurnsKeepIo(hw, code, r.sv, after);
    }
  }

  /** A query leaves the supervisor as it is. */
  lemma HeldQuery(hw: Design, code: Design, s: State, req: Request, sts: seq<Step>)
    requires FullCall(hw, code, s, req, sts) && s.sv.status != Running && req.cmd in {1, 2, 7, 10, 11}
    ensures SameIo(s.sv, AtCall(hw, code, s, req, sts)) && SameIo(s.sv, After(hw, code, s, req, sts).sv)
  {
    hide FullCall, After, AtCall, Answer, Payload;
    var env, env2, r := CallAnswers(hw, code, s, req, sts);
    HeldCall(hw, code, s, req, sts, r);
  }

  /** Data set for an I/O read is the data read back. */
  lemma SetThenGet(hw: Design, code: Design, s: State, lo: Byte, hi: Byte, room: nat, sts1: seq<Step>,
                   req: Request, sts2: seq<Step>)
    requires FullCall(hw, code, s, Request(9, [lo, hi], room), sts1) && s.sv.status != Running
    requires FullCall(hw, code, After(hw, code, s, Request(9, [lo, hi], room), sts1), req, sts2) && req.cmd == 10
    ensures var s1 := After(hw, code, s, Request(9, [lo, hi], room), sts1);
      && Payload(s, s1) == [lo, hi] && Payload(s1, After(hw, code, s1, req, sts2)) == [lo, hi]
  {
    hide FullCall, After, AtCall, Answer, Payload;
    var told := Request(9, [lo, hi], room);
    var env, env2, r := CallAnswers(hw, code, s, told, sts1);
    AnswerIs(hw, code, s, told, sts1, r);
    HeldCall(hw, code, s, told, sts1, r);
    SetCallback(hw, code, AtCall(hw, code, s, told, sts1), lo, hi, env, env2);
    var s1 := After(hw, code, s, told, sts1);
    DataCall(hw, code, s1, req, sts2);
    HeldQuery(hw, code, s1, req, sts2);
    var p := Payload(s1, After(hw, code, s1, req, sts2));
    TwoBytes(p, lo, hi);
  }

  lemma SetCallback(hw: Design, code: Design, sv: Sv, lo: Byte, hi: Byte, env: Env, env2: Env)
    requires sv.Sized()
    ensures Proper(9, [lo, hi])
    ensures var r := Callback(hw, code, sv, 9, [lo, hi], env, env2);
      && r.Some? && r.value.payload == [lo, hi]
      && r.value.sv.iodata == WordOf([lo, hi]) && r.value.sv.status == sv.status
  {
  }

  lemma TwoBytes(p: seq<Byte>, lo: Byte, hi: Byte)
    requires |p| == 2 && WordOf(p) == WordOf([lo, hi])
    ensures p == [lo, hi]
  {
  }

  // ----- The access the host is told of -----

  /** After the main loop has served an access of a running CPU and left it to the host, a call
      for the port returns the address noted on the bus, and a call for the data, if the access
      was a write, the word heard on the data bus. */
  lemma AccessReported(hw: Design, code: Design, sv: Sv, evs: seq<SupervisorRuns.Event>, poll: Env, s: State,
                       port: Request, sts1: seq<Step>, data: Request, sts2: seq<Step>)
    requires sv.Sized() && sv.status != Running && SupervisorRuns.Play(hw, code, sv, evs).Some?
    requires var t := SupervisorRuns.Play(hw, code, sv, evs).value;
      && t.status == Running && t.ocd.core.stop
      && SupervisorRuns.React(hw, code, t, SupervisorRuns.Poll(poll)) == Some(s.sv)
      && s.sv.status != Running
    requires FullCall(hw, code, s, port, sts1) && port.cmd == 11
    requires FullCall(hw, code, After(hw, code, s, port, sts1), data, sts2) && data.cmd == 10
    ensures var t := SupervisorRuns.Play(hw, code, sv, evs).value;
      var access := LastAccess(HeardSince(hw, code, sv, evs, []));
      var s1 := After(hw, code, s, port, sts1);
      var p, q := Payload(s, s1), Payload(s1, After(hw, code, s1, data, sts2));
      && access.Some? && |p| == 2 && |q| == 2
      && (access.value.0 < 0x1_0000 ==> WordOf(p) == access.value.0)
      && (access.value.1 ==> Samples(Heard(hw, t.ocd, READ_IO_TABLE, poll)) == [WordOf(q)])
  {
    hide FullCall, After, AtCall, Answer, Payload, SupervisorRuns.Play, HeardSince, LastAccess, Samples, Heard,
         READ_IO_TABLE, WordOf, SvIoBreak;
    var t := SupervisorRuns.Play(hw, code, sv, evs).value;
    EveryAccessServed(hw, code, sv, evs, poll);
    var s1 := After(hw, code, s, port, sts1);
    PortCall(hw, code, s, port, sts1);
    HeldQuery(hw, code, s, port, sts1);
    DataCall(hw, code, s1, data, sts2);
    HeldQuery(hw, code, s1, data, sts2);
  }

  // ----- What is refused -----

  /** The statuses a command does not apply to. */
  predicate Refused(cmd: Byte, status: Status) {
    || (cmd == 3 && status != Stop)
    || (cmd == 5 && status != Running)
    || (cmd == 6 && (status == Stop || status == Running || status == Brk16))
    || (cmd == 8 && status != Brk32)
  }

  /** The first byte a start, stop, break, continue or register call returns tells a refusal
      from success, and after a refusal the supervisor is as the call found it, up to the byte
      a refused register call notes. */
  lemma CallReports(hw: Design, code: Design, s: State, req: Request, sts: seq<Step>) returns (r: Reply)
    requires FullCall(hw, code, s, req, sts) && req.cmd in {3, 4, 5, 6, 8}
    ensures var p, sv := Payload(s, After(hw, code, s, req, sts)), AtCall(hw, code, s, req, sts);
      && |p| == (if req.cmd == 8 then 43 else 1) && p[0] == (if Refused(req.cmd, sv.status) then 1 else 0)
      && Answer(hw, code, s, req, sts, r)
      && (Refused(req.cmd, sv.status) ==> r.sv == if req.cmd == 8 then sv.(regs := sv.regs.(valid := 1)) else sv)
  {
    hide FullCall, After, AtCall, Answer, Payload;
    var env, env2;
    env, env2, r := CallAnswers(hw, code, s, req, sts);
    AnswerIs(hw, code, s, req, sts, r);
    CallbackReports(hw, code, AtCall(hw, code, s, req, sts), req, env, env2);
  }

  lemma CallbackReports(hw: Design, code: Design, sv: Sv, req: Request, env: Env, env2: Env)
    requires sv.Sized() && Proper(req.cmd, req.args) && req.cmd in {3, 4, 5, 6, 8}
    ensures var r := Callback(hw, code, sv, req.cmd, req.args, env, env2);
      r.Some? ==>
        && var p := r.value.payload;
        && |p| == (if req.cmd == 8 then 43 else 1) && p[0] == (if Refused(req.cmd, sv.status) then 1 else 0)
        && (Refused(req.cmd, sv.status) ==>
              r.value.sv == if req.cmd == 8 then sv.(regs := sv.regs.(valid := 1)) else sv)
  {
    hide RunAndWait, Bytes32, Bytes16, EndToEnd.Launch, OcdLaunch.BreakTable;
  }

  // ----- Calls of start and stop -----

  /** A call of stop returns 0 with the CPU held in reset. */
  lemma StopCall(hw: Design, code: Design, s: State, req: Request, sts: seq<Step>)
    requires FullCall(hw, code, s, req, sts) && req.cmd == 4
    ensures var t := After(hw, code, s, req, sts); Payload(s, t) == [0] && t.sv.status == Stop
  {
    hide FullCall, After, AtCall, Answer, Payload;
    var env, env2, r := CallAnswers(hw, code, s, req, sts);
    AnswerIs(hw, code, s, req, sts, r);
    StopCallback(hw, code, AtCall(hw, code, s, req, sts), req.args, env, env2);
    StoppedAfter(hw, code, s, req, sts, r);
  }

  lemma StopCallback(hw: Design, code: Design, sv: Sv, args: seq<Byte>, env: Env, env2: Env)
    requires sv.Sized() && Proper(4, args)
    ensures var r := Callback(hw, code, sv, 4, args, env, env2);
      r.Some? ==> r.value.payload == [0] && r.value.sv.status == Stop
  {
    hide RunAndWait;
  }

  lemma StoppedAfter(hw: Design, code: Design, s: State, req: Request, sts: seq<Step>, r: Reply)
    requires FullCall(hw, code, s, req, sts) && Answer(hw, code, s, req, sts, r) && r.sv.status != Running
    ensures After(hw, code, s, req, sts).sv.status == r.sv.status
  {
    hide Play, Locked, SupervisorRuns.Play, AllTurns, AtCall, FullCall, After;
    var after {:trigger AllTurns(after)} :| AllTurns(after)
      && SupervisorRuns.Play(hw, code, r.sv, after) == Some(After(hw, code, s, req, sts).sv);
    TurnsKeepIo(hw, code, r.sv, after);
  }

  /** A call of start for a stopped CPU returns 0 and lets it go. */
  lemma StartCall(hw: Design, code: Design, s: State, req: Request, sts: seq<Step>, es: seq<Fsm.Edge>)
    returns (r: Reply)
    requires FullCall(hw, code, s, req, sts) && req.cmd == 3 && s.sv.status == Stop
    ensures Payload(s, After(hw, code, s, req, sts)) == [0] && Answer(hw, code, s, req, sts, r)
    ensures LetsGo(hw, AtCall(hw, code, s, req, sts).ocd.core.pins, r.sv.ocd, es)
  {
    hide FullCall, After, AtCall, Answer, Payload, LetsGo;
    var env, env2;
    env, env2, r := CallAnswers(hw, code, s, req, sts);
    AnswerIs(hw, code, s, req, sts, r);
    HeldCall(hw, code, s, req, sts, r);
    StartCallback(hw, code, AtCall(hw, code, s, req, sts), req.args, env, env2, es);
  }

  lemma StartCallback(hw: Design, code: Design, sv: Sv, args: seq<Byte>, env: Env, env2: Env, es: seq<Fsm.Edge>)
    requires sv.Sized() && Proper(3, args) && sv.status == Stop
    ensures var r := Callback(hw, code, sv, 3, args, env, env2);
      r.Some? && r.value.payload == [0] && r.value.sv.Sized() && LetsGo(hw, sv.ocd.core.pins, r.value.sv.ocd, es)
  {
    hide SvStart, LetsGo;
    StartReleases(hw, sv, env.stale, es);
  }
}
