/** The debug session as two parties over two byte channels: library calls on the host, the
    command handler on the supervisor, with any interleaving and any fragmentation. */
module Session {
  import opened Words
  import opened Wrappers
  import opened Supervisor
  import opened Proto
  import opened ProtoCommands
  import HostWire
  import SupervisorRuns

  /** A library call: its command, its arguments, and the size of the caller's buffer. */
  datatype Request = Request(cmd: Byte, args: seq<Byte>, room: nat)

  /** What a call returns: the payload, or one of the error numbers. */
  datatype Answer = Received(payload: seq<Byte>) | ECanceled | EBadMsg | EMsgSize | ERemoteIo

  /** Where a call stands: it waits for SYN ACK, with `tries` syncs sent, or for the answer;
      `heard` is what it has read since. */
  datatype Host = Idle | Syncing(req: Request, tries: nat, heard: seq<Byte>) | Receiving(req: Request, heard: seq<Byte>)

  const SYNC_FAILS := 3
  const CMD_SIZE := 32

  /** What the receiver makes of the bytes it has read; `None` while it wants more. */
  function Receive(heard: seq<Byte>, room: nat): Option<Answer> {
    if heard == [] then None
    else if heard[0] == HostWire.NAK then Some(ECanceled)
    else if heard[0] != HostWire.ACK then Some(EBadMsg)
    else if |heard| < 3 then None
    else if heard[2] != HostWire.STX then Some(EBadMsg)
    else if heard[1] > room then Some(EMsgSize)
    else
      var n: nat := heard[1];
      if |heard| < 4 + n then None
      else if heard[3 + n] != HostWire.EOT then Some(EBadMsg)
      else Some(Received(heard[3..3 + n]))
  }

  /** How many bytes the receiver's current read still asks for. */
  function Missing(heard: seq<Byte>): nat {
    if heard == [] then 1
    else if |heard| < 3 then 3 - |heard|
    else
      var n: nat := heard[1];
      if |heard| < 3 + n then 3 + n - |heard| else 1
  }

  function Wanted(h: Host): nat {
    match h
    case Idle => 0
    case Syncing(_, _, heard) => if |heard| < 2 then 2 - |heard| else 0
    case Receiving(_, heard) => Missing(heard)
  }

  /** A callback run by the supervisor, and a call that has returned. */
  datatype Served = Served(cmd: Byte, args: seq<Byte>, payload: seq<Byte>)
  datatype Returned = Returned(req: Request, answer: Answer)

  /** `down` and `up` are the channels, `got` what the handler has read since it was entered,
      `emit` what it has still to write. */
  datatype State = State(host: Host, down: seq<Byte>, got: seq<Byte>, emit: seq<Byte>, up: seq<Byte>, sv: Sv,
                         naks: nat, served: seq<Served>, returned: seq<Returned>)

  datatype Step =
    | Begin(req: Request)          // a library call is entered
    | Read(k: nat)                 // the host's read returns `k` bytes
    | Take(env: Env, env2: Env)    // the handler reads a byte, and acts if that decides
    | Emit                         // the supervisor writes a byte
    | Turn(ev: SupervisorRuns.Event) // the unit is clocked, or the main loop polls it

  predicate Enabled(hw: Design, code: Design, s: State, st: Step)
  {
    s.sv.Sized() &&
    match st
    case Begin(_) => s.host.Idle?
    case Read(k) => 1 <= k <= |s.up| && k <= Wanted(s.host)
    case Take(env, env2) =>
      && s.emit == [] && s.down != []
      && var v := Judge(s.got + [s.down[0]]);
         v.Call? ==> Callback(hw, code, s.sv, v.cmd, v.args, env, env2).Some?
    case Emit => s.emit != []
    case Turn(ev) =>
      && (ev.Clocks? || (ev.Poll? && s.got == [] && s.emit == []))
      && SupervisorRuns.React(hw, code, s.sv, ev).Some?
  }

  /** Entering a call: a command too long for the frame buffer is refused at once. */
  function Enter(s: State, req: Request): State {
    if 5 + |req.args| > CMD_SIZE then s.(returned := s.returned + [Returned(req, EMsgSize)])
    else s.(host := Syncing(req, 1, []), down := s.down + [HostWire.SYN])
  }

  /** The host after `heard` has grown. */
  function Hear(s: State, heard: seq<Byte>): State
    requires !s.host.Idle?
  {
    match s.host
    case Syncing(req, tries, _) =>
      if |heard| < 2 then s.(host := Syncing(req, tries, heard))
      else if heard[..2] == [HostWire.SYN, HostWire.ACK] then
        s.(host := Receiving(req, []), down := s.down + Frame(req.cmd, req.args))
      else if tries < SYNC_FAILS then s.(host := Syncing(req, tries + 1, []), down := s.down + [HostWire.SYN])
      else s.(host := Idle, returned := s.returned + [Returned(req, ERemoteIo)])
    case Receiving(req, _) =>
      match Receive(heard, req.room)
      case None => s.(host := Receiving(req, heard))
      case Some(a) => s.(host := Idle, returned := s.returned + [Returned(req, a)])
  }

  /** The handler after reading a byte. */
  function Decide(hw: Design, code: Design, s: State, got: seq<Byte>, env: Env, env2: Env): State
    requires s.sv.Sized()
    requires Judge(got).Call? ==> Callback(hw, code, s.sv, Judge(got).cmd, Judge(got).args, env, env2).Some?
  {
    match Judge(got)
    case More => s.(got := got)
    case Nak => s.(got := [], emit := [NAK], naks := s.naks + 1)
    case SynAck => s.(got := [], emit := [SYN, ACK])
    case Call(cmd, args) =>
      var reply := Callback(hw, code, s.sv, cmd, args, env, env2).value;
      s.(got := [], emit := Response(reply.payload), sv := reply.sv,
         served := s.served + [Served(cmd, args, reply.payload)])
  }

  function Apply(hw: Design, code: Design, s: State, st: Step): State
    requires Enabled(hw, code, s, st)
  {
    match st
    case Begin(req) => Enter(s, req)
    case Read(k) => Hear(s.(up := s.up[k..]), s.host.heard + s.up[..k])
    case Take(env, env2) => Decide(hw, code, s.(down := s.down[1..]), s.got + [s.down[0]], env, env2)
    case Emit => s.(emit := s.emit[1..], up := s.up + [s.emit[0]])
    case Turn(ev) => s.(sv := SupervisorRuns.React(hw, code, s.sv, ev).value)
  }

  /** Nothing is under way and nothing is on the line. */
  predicate Clean(s: State) {
    s.host.Idle? && s.down == [] && s.got == [] && s.emit == [] && s.up == []
  }

  // ----- Lock step -----

  /** Every call returned the payload of its own callback. */
  predicate Matches(s: State) {
    && s.naks == 0 && |s.returned| <= |s.served| <= |s.returned| + 1
    && forall i :: 0 <= i < |s.returned| ==> Matched(s.returned[i], s.served[i])
  }

  predicate Matched(r: Returned, d: Served) {
    r.req.cmd == d.cmd && r.req.args == d.args && r.answer == Received(d.payload)
  }

  /** The sync is on its way down, or its acknowledgement on its way up. */
  predicate SyncLocked(s: State, heard: seq<Byte>) {
    && s.got == [] && |s.served| == |s.returned| && |heard| < 2
    && ((s.down == [SYN] && s.emit == [] && s.up == [] && heard == [])
        || (s.down == [] && heard + s.up + s.emit == [SYN, ACK]))
  }

  /** The frame is on its way down, or the answer to it on its way up. */
  predicate FrameLocked(s: State, req: Request) {
    && s.down != [] && s.got + s.down == Frame(req.cmd, req.args) && s.emit == [] && s.up == []
    && |s.served| == |s.returned|
  }

  predicate AnswerLocked(s: State, req: Request, heard: seq<Byte>) {
    && s.down == [] && s.got == [] && |s.served| == |s.returned| + 1
    && var d := s.served[|s.returned|];
       && d.cmd == req.cmd && d.args == req.args && |d.payload| == ReplySize(req.cmd)
       && (req.cmd == GETVERSION ==> d.payload == VERSION)
       && heard + s.up + s.emit == Response(d.payload)
  }

  predicate Locked(s: State) {
    && s.sv.Sized() && Matches(s)
    && match s.host
       case Idle => Clean(s) && |s.served| == |s.returned|
       case Syncing(req, tries, heard) => Proper(req.cmd, req.args) && tries == 1 && SyncLocked(s, heard)
       case Receiving(req, heard) =>
         && Proper(req.cmd, req.args) && Receive(heard, req.room).None?
         && ((FrameLocked(s, req) && heard == []) || AnswerLocked(s, req, heard))
  }

  /** A call for a command of the table, with a buffer its answer fits. */
  predicate Roomy(req: Request) {
    Proper(req.cmd, req.args) && ReplySize(req.cmd) <= req.room
  }
}
