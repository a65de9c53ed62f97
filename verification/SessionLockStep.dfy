/** Library calls and callbacks stay in lock step, whatever the schedule. */
module SessionLockStep {
  import opened Words
  import opened Wrappers
  import opened Supervisor
  import opened Proto
  import opened ProtoCommands
  import opened Session
  import SupervisorRuns

  // ----- The receiver on an answer -----

  /** The receiver reads an answer to its end if the buffer is large enough, and otherwise
      gives up after the three bytes of the header. */
  lemma ReceivesAnswer(payload: seq<Byte>, heard: seq<Byte>, room: nat)
    requires |payload| < 0x100 && heard <= Response(payload)
    ensures |payload| <= room ==>
              Receive(heard, room) == if heard == Response(payload) then Some(Received(payload)) else None
    ensures |payload| > room ==> Receive(heard, room) == if |heard| >= 3 then Some(EMsgSize) else None
    ensures heard != Response(payload) ==> |heard| + Missing(heard) <= |Response(payload)|
    ensures |heard| < 3 ==> |heard| + Missing(heard) <= 3
  {
    var all := Response(payload);
    assert |all| == 4 + |payload| && all[3..3 + |payload|] == payload && all[3 + |payload|] == EOT;
    if |heard| == |all| {
      assert heard == all;
    }
  }

  // ----- One step -----

  lemma BeginKeeps(s: State, req: Request)
    requires Locked(s) && s.host.Idle? && Proper(req.cmd, req.args)
    ensures Locked(Enter(s, req))
  {
    assert [] + [SYN] == [SYN];
  }

  lemma EmitKeeps(hw: Design, code: Design, s: State)
    requires Locked(s) && s.emit != []
    ensures Locked(Apply(hw, code, s, Emit))
  {
    hide Response, Frame, Receive;
    var t := Apply(hw, code, s, Emit);
    if !s.host.Idle? {
      var heard := s.host.heard;
      assert heard + t.up + t.emit == heard + s.up + s.emit;
    }
  }

  lemma TurnKeeps(hw: Design, code: Design, s: State, ev: SupervisorRuns.Event)
    requires Locked(s) && Enabled(hw, code, s, Turn(ev))
    ensures Locked(Apply(hw, code, s, Turn(ev)))
  {
    hide SupervisorRuns.React, Response, Frame, Receive;
  }

  /** The handler, in lock step, sees a sync, or the frame of the call under way. */
  lemma TakeSees(s: State)
    requires Locked(s) && s.down != []
    ensures !s.host.Idle?
    ensures s.host.Syncing? ==> s.down == [SYN] && Judge(s.got + [s.down[0]]) == SynAck
    ensures s.host.Receiving? ==>
              var req := s.host.req;
              Judge(s.got + [s.down[0]]) == if |s.down| == 1 then Call(req.cmd, req.args) else More
  {
    hide Judge, Frame;
    if s.host.Syncing? {
      assert [] + [SYN] == [SYN];
      JustSyn();
    } else if s.host.Receiving? {
      var f, now := Frame(s.host.req.cmd, s.host.req.args), s.got + [s.down[0]];
      FrameIsCall(s.host.req.cmd, s.host.req.args, |now|);
      assert f[..|now|] == now;
    }
  }

  lemma JustSyn()
    ensures Judge([SYN]) == SynAck
  {
  }

  lemma TakeKeeps(hw: Design, code: Design, s: State, env: Env, env2: Env)
    requires Locked(s) && Enabled(hw, code, s, Take(env, env2))
    ensures Locked(Apply(hw, code, s, Take(env, env2)))
  {
    hide Judge, Frame, Response, Receive, Callback;
    TakeSees(s);
    var t := Apply(hw, code, s, Take(env, env2));
    if s.host.Syncing? {
      assert s.host.heard + t.up + t.emit == [SYN, ACK];
    } else if |s.down| > 1 {
      assert t.got + t.down == s.got + s.down;
    } else {
      var req := s.host.req;
      var reply := Callback(hw, code, s.sv, req.cmd, req.args, env, env2).value;
      CallbackSize(hw, code, s.sv, req.cmd, req.args, env, env2);
      CallbackIsEvent(hw, code, s.sv, req.cmd, req.args, env, env2);
      assert [] + [] + Response(reply.payload) == Response(reply.payload);
      assert forall i :: 0 <= i < |s.returned| ==> t.served[i] == s.served[i];
    }
  }

  /** Reading the acknowledgement of the sync. */
  lemma ReadSyncKeeps(hw: Design, code: Design, s: State, k: nat)
    requires Locked(s) && s.host.Syncing? && Enabled(hw, code, s, Read(k))
    ensures Locked(Apply(hw, code, s, Read(k)))
  {
    var t, heard := Apply(hw, code, s, Read(k)), s.host.heard + s.up[..k];
    assert heard + s.up[k..] + s.emit == s.host.heard + s.up + s.emit == [SYN, ACK];
    if |heard| == 2 {
      assert heard == [SYN, ACK] && t.emit == [] && t.up == [];
      assert heard[..2] == heard;
      assert [] + t.down == t.down && Frame(s.host.req.cmd, s.host.req.args) != [];
    }
  }

  /** Reading the answer: a call whose buffer is large enough returns the payload and leaves
      nothing on the line. */
  lemma ReadAnswerKeeps(hw: Design, code: Design, s: State, k: nat)
    requires Locked(s) && s.host.Receiving? && Enabled(hw, code, s, Read(k))
    requires ReplySize(s.host.req.cmd) <= s.host.req.room
    ensures Locked(Apply(hw, code, s, Read(k)))
  {
    hide Response, Receive, Frame, Missing;
    var t, heard := Apply(hw, code, s, Read(k)), s.host.heard + s.up[..k];
    var d := s.served[|s.returned|];
    var all := Response(d.payload);
    assert heard + s.up[k..] + s.emit == s.host.heard + s.up + s.emit == all;
    assert heard <= all && s.host.heard <= all;
    ReceivesAnswer(d.payload, heard, s.host.req.room);
    ReceivesAnswer(d.payload, s.host.heard, s.host.req.room);
    if heard == all {
      assert t.up == [] && t.emit == [];
      assert t.returned[|s.returned|] == Returned(s.host.req, Received(d.payload));
    }
  }

  /** Every step of either party, and every clock of the unit between them, keeps the two
      in lock step. */
  lemma StepKeeps(hw: Design, code: Design, s: State, st: Step)
    requires Locked(s) && Enabled(hw, code, s, st)
    requires st.Begin? ==> Roomy(st.req)
    requires !s.host.Idle? ==> Roomy(s.host.req)
    ensures var t := Apply(hw, code, s, st);
      Locked(t) && (!t.host.Idle? ==> Roomy(t.host.req))
  {
    hide Judge, Frame, Response, Receive, Callback, Missing, SupervisorRuns.React;
    match st
    case Begin(req) => BeginKeeps(s, req);
    case Read(k) =>
      if s.host.Syncing? {
        ReadSyncKeeps(hw, code, s, k);
      } else {
        ReadAnswerKeeps(hw, code, s, k);
      }
    case Take(env, env2) => TakeKeeps(hw, code, s, env, env2);
    case Emit => EmitKeeps(hw, code, s);
    case Turn(ev) => TurnKeeps(hw, code, s, ev);
  }

  // ----- Whole sessions -----

  /** The state after a schedule; `None` if it asks for a step that is not enabled. */
  function Play(hw: Design, code: Design, s: State, sts: seq<Step>): Option<State>
    decreases |sts|
  {
    if sts == [] then Some(s)
    else if !Enabled(hw, code, s, sts[0]) then None
    else Play(hw, code, Apply(hw, code, s, sts[0]), sts[1..])
  }

  predicate AllRoomy(sts: seq<Step>) {
    forall i :: 0 <= i < |sts| && sts[i].Begin? ==> Roomy(sts[i].req)
  }

  lemma {:induction false} PlayKeeps(hw: Design, code: Design, s: State, sts: seq<Step>)
    requires Locked(s) && AllRoomy(sts) && Play(hw, code, s, sts).Some?
    requires !s.host.Idle? ==> Roomy(s.host.req)
    ensures Locked(Play(hw, code, s, sts).value)
    decreases |sts|
  {
    hide Locked, Enabled, Apply, Roomy;
    if sts != [] {
      StepKeeps(hw, code, s, sts[0]);
      assert AllRoomy(sts[1..]);
      PlayKeeps(hw, code, Apply(hw, code, s, sts[0]), sts[1..]);
    }
  }

  /** A session at its start. */
  predicate Fresh(s: State) {
    s.sv.Sized() && Clean(s) && s.naks == 0 && s.served == [] && s.returned == []
  }

  /** For every sequence of library calls, every fragmentation and every interleaving: no
      NAK is ever sent; each call that has returned returned exactly the payload of its own
      callback, which ran once, in order; and between calls nothing is left on the line. */
  lemma LockStep(hw: Design, code: Design, s: State, sts: seq<Step>)
    requires Fresh(s) && AllRoomy(sts) && Play(hw, code, s, sts).Some?
    ensures var t := Play(hw, code, s, sts).value;
      && t.naks == 0
      && |t.returned| <= |t.served| <= |t.returned| + 1
      && (forall i :: 0 <= i < |t.returned| ==> Matched(t.returned[i], t.served[i]))
      && (t.host.Idle? ==> Clean(t) && |t.served| == |t.returned|)
  {
    hide Play;
    PlayKeeps(hw, code, s, sts);
  }

  // ----- Nobody waits for ever -----

  /** How far the call under way is from returning. */
  function Distance(s: State): nat {
    (if s.host.Syncing? then 4000 else 0) + 100 * |s.down| + 2 * |s.emit| + |s.up|
  }

  /** While a call is under way in lock step, some party can move, unless the supervisor is
      waiting for the unit. */
  lemma SomeoneMoves(hw: Design, code: Design, s: State, env: Env, env2: Env)
    requires Locked(s) && !s.host.Idle?
    ensures || Enabled(hw, code, s, Emit) || Enabled(hw, code, s, Read(1)) || Enabled(hw, code, s, Take(env, env2))
            || (s.host.Receiving? && |s.down| == 1
                && Callback(hw, code, s.sv, s.host.req.cmd, s.host.req.args, env, env2).None?)
  {
    hide Judge, Frame, Response, Callback, SupervisorRuns.React;
    if s.down != [] {
      TakeSees(s);
    } else if s.emit == [] {
      if s.host.Receiving? {
        var d := s.served[|s.returned|];
        if s.up == [] {
          assert s.host.heard + s.up + s.emit == s.host.heard;
          ReceivesAnswer(d.payload, s.host.heard, s.host.req.room);
          HeaderOnly(d.payload, s.host.heard, s.host.req.room);
        }
      }
    }
  }

  lemma HeaderOnly(payload: seq<Byte>, heard: seq<Byte>, room: nat)
    requires |payload| < 0x100 && heard == Response(payload)
    ensures Receive(heard, room).Some?
  {
    ReceivesAnswer(payload, heard, room);
    assert |Response(payload)| >= 3;
  }

  /** And every move brings the return of the call nearer. */
  lemma EveryMoveCounts(hw: Design, code: Design, s: State, st: Step)
    requires Locked(s) && Enabled(hw, code, s, st) && (st.Emit? || st.Read? || st.Take?)
    requires !s.host.Idle? ==> Roomy(s.host.req)
    ensures Distance(Apply(hw, code, s, st)) < Distance(s)
  {
    hide Judge, Receive, Callback, Missing, SupervisorRuns.React, Matches;
    match st
    case Emit =>
    case Read(k) =>
      if s.host.Syncing? {
        ReadSyncKeeps(hw, code, s, k);
        var heard := s.host.heard + s.up[..k];
        assert heard + s.up[k..] + s.emit == s.host.heard + s.up + s.emit == [SYN, ACK];
        if |heard| == 2 {
          assert heard == [SYN, ACK] && heard[..2] == heard;
        }
      }
    case Take(env, env2) =>
      TakeSees(s);
      if s.host.Receiving? && |s.down| == 1 {
        CallbackSize(hw, code, s.sv, s.host.req.cmd, s.host.req.args, env, env2);
      }
  }

  /** The moves of a schedule that are not clocks or polls. */
  function Moves(sts: seq<Step>): nat {
    if sts == [] then 0 else (if sts[0].Turn? then 0 else 1) + Moves(sts[1..])
  }

  /** A call returns after a bounded number of moves, however they are scheduled: at most
      `Distance` of them fit before the next call begins. */
  lemma {:induction false} CallsReturn(hw: Design, code: Design, s: State, sts: seq<Step>)
    requires Locked(s) && (!s.host.Idle? ==> Roomy(s.host.req)) && Play(hw, code, s, sts).Some?
    requires forall i :: 0 <= i < |sts| ==> !sts[i].Begin?
    ensures Moves(sts) + Distance(Play(hw, code, s, sts).value) <= Distance(s)
    decreases |sts|
  {
    hide Locked, Enabled, Apply, Roomy, Distance;
    if sts != [] {
      var t := Apply(hw, code, s, sts[0]);
      StepKeeps(hw, code, s, sts[0]);
      if sts[0].Turn? {
        TurnIsStill(hw, code, s, sts[0]);
      } else {
        EveryMoveCounts(hw, code, s, sts[0]);
      }
      CallsReturn(hw, code, t, sts[1..]);
    }
  }

  lemma TurnIsStill(hw: Design, code: Design, s: State, st: Step)
    requires Enabled(hw, code, s, st) && st.Turn?
    ensures Distance(Apply(hw, code, s, st)) == Distance(s)
  {
    hide SupervisorRuns.React;
  }

  // ----- Buffers too small -----

  /** A call returns by reading the end of its answer, or its header. It leaves the line
      clean if and only if its buffer is large enough; otherwise it reports -EMSGSIZE and
      the payload and EOT are still to come, which the next call will find. */
  lemma RoomDecides(hw: Design, code: Design, s: State, k: nat)
    requires Locked(s) && s.host.Receiving? && Enabled(hw, code, s, Read(k)) && Apply(hw, code, s, Read(k)).host.Idle?
    ensures var t, d := Apply(hw, code, s, Read(k)), s.served[|s.returned|];
      var answer := if ReplySize(s.host.req.cmd) <= s.host.req.room then Received(d.payload) else EMsgSize;
      && t.returned == s.returned + [Returned(s.host.req, answer)]
      && (Clean(t) <==> ReplySize(s.host.req.cmd) <= s.host.req.room)
      && (ReplySize(s.host.req.cmd) > s.host.req.room ==> t.up + t.emit == d.payload + [EOT])
  {
    hide Receive, Frame, Missing, Response, Matches;
    var t, heard := Apply(hw, code, s, Read(k)), s.host.heard + s.up[..k];
    var d := s.served[|s.returned|];
    var all := Response(d.payload);
    assert heard + s.up[k..] + s.emit == s.host.heard + s.up + s.emit == all;
    assert heard <= all && s.host.heard <= all;
    ReceivesAnswer(d.payload, heard, s.host.req.room);
    ReceivesAnswer(d.payload, s.host.heard, s.host.req.room);
    assert t.up + t.emit == all[|heard|..];
    AfterHeader(d.payload);
    if |d.payload| > s.host.req.room {
      assert |heard| == 3;
    }
  }

  lemma AfterHeader(payload: seq<Byte>)
    ensures |Response(payload)| == 4 + |payload| && Response(payload)[3..] == payload + [EOT]
  {
  }

  // ----- The session is a supervisor run -----

  /** What a step is to the supervisor: an event, or nothing. */
  lemma StepIsEvent(hw: Design, code: Design, s: State, st: Step)
    requires Enabled(hw, code, s, st)
    ensures Apply(hw, code, s, st).sv == s.sv
            || exists ev: SupervisorRuns.Event ::
                 SupervisorRuns.React(hw, code, s.sv, ev) == Some(Apply(hw, code, s, st).sv)
  {
    hide Judge, Receive, Callback, SupervisorRuns.React;
    match st
    case Take(env, env2) =>
      var v := Judge(s.got + [s.down[0]]);
      if v.Call? {
        CallbackIsEvent(hw, code, s.sv, v.cmd, v.args, env, env2);
      }
    case Turn(ev) =>
      assert SupervisorRuns.React(hw, code, s.sv, ev) == Some(Apply(hw, code, s, st).sv);
    case _ =>
  }

  /** Whatever arrives on the line and however the session is scheduled, a CPU that is not
      running has its unit stopped. */
  lemma {:induction false} SessionQuiescent(hw: Design, code: Design, s: State, sts: seq<Step>)
    requires SupervisorRuns.Quiescent(s.sv) && Play(hw, code, s, sts).Some?
    ensures SupervisorRuns.Quiescent(Play(hw, code, s, sts).value.sv)
    decreases |sts|
  {
    hide Enabled, Apply, SupervisorRuns.React;
    if sts != [] {
      var t := Apply(hw, code, s, sts[0]);
      StepIsEvent(hw, code, s, sts[0]);
      if t.sv != s.sv {
        var ev :| SupervisorRuns.React(hw, code, s.sv, ev) == Some(t.sv);
        SupervisorRuns.EventKeepsInvariant(hw, code, s.sv, ev);
      }
      SessionQuiescent(hw, code, t, sts[1..]);
    }
  }
}
