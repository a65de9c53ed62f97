/** The command callbacks: what they do to the supervisor and what they answer. */
module ProtoCommands {
  import opened Words
  import opened Wrappers
  import opened Supervisor
  import opened Proto
  import SupervisorRuns

  /** "LSE-PC Supervisor v0.1" with its terminating NUL. */
  const VERSION: seq<Byte> := [0x4C, 0x53, 0x45, 0x2D, 0x50, 0x43, 0x20, 0x53, 0x75, 0x70, 0x65, 0x72, 0x76, 0x69, 0x73,
                               0x6F, 0x72,
                               0x20, 0x76, 0x30, 0x2E, 0x31, 0x00]

  function Bytes32(x: DWord): (b: seq<Byte>)
    ensures |b| == 4
  {
    Bytes16(Low(x)) + Bytes16(High(x))
  }

  function StatusByte(s: Status): Byte {
    match s
    case Stop => 0
    case Running => 1
    case Brk16 => 2
    case Brk32 => 3
    case IoWr => 4
    case IoRd => 5
  }

  /** The packed register structure. */
  function RegsBytes(r: Regs): (b: seq<Byte>)
    ensures |b| == 43
  {
    [r.valid] + Bytes32(r.eflags) + Bytes32(r.eip) + Bytes32(r.eax) + Bytes32(r.ecx) + Bytes32(r.edx) + Bytes32(r.ebx)
    + Bytes32(r.esp) + Bytes32(r.ebp) + Bytes32(r.esi) + Bytes32(r.edi) + Bytes16(r.cs)
  }

  datatype Reply = Reply(sv: Sv, payload: seq<Byte>)

  /** A command that answers with one return byte. */
  function Returns(o: Option<Outcome>): Option<Reply> {
    match o
    case None => None
    case Some(x) => Some(Reply(x.sv, [x.ret]))
  }

  /** `None` if the callback waits for a routine that never stops. */
  function Callback(hw: Design, code: Design, sv: Sv, cmd: Byte, args: seq<Byte>, env: Env, env2: Env): Option<Reply>
    requires sv.Sized() && Proper(cmd, args)
  {
    if cmd == GETVERSION then Some(Reply(sv, VERSION))
    else if cmd == ECHO then Some(Reply(sv, args))
    else if cmd == START then Returns(Some(SvStart(sv, env.stale)))
    else if cmd == STOP then Returns(SvStop(hw, sv, env))
    else if cmd == BRK then Returns(SvBrk(hw, code, sv, env))
    else if cmd == CONT then Returns(Some(SvCont(sv, env.stale)))
    else if cmd == GETSTATUS then Some(Reply(sv, [StatusByte(sv.status)]))
    else if cmd == GETREGS then
      match SvGetRegs(hw, sv, env, env2)
      case None => None
      case Some(o) =>
        var sv' := o.sv.(regs := o.sv.regs.(valid := o.ret));
        Some(Reply(sv', RegsBytes(sv'.regs)))
    else if cmd == SETIODATA then
      var sv' := sv.(iodata := Join(args[0], args[1]));
      Some(Reply(sv', Bytes16(sv'.iodata)))
    else if cmd == GETIODATA then Some(Reply(sv, Bytes16(sv.iodata)))
    else Some(Reply(sv, Bytes16(sv.ioaddr)))
  }

  /** The answer on the line. */
  function Response(payload: seq<Byte>): seq<Byte> {
    [ACK, |payload| % 0x100, STX] + payload + [EOT]
  }

  /** How many payload bytes a command is answered with. */
  function ReplySize(cmd: Byte): nat {
    if cmd == GETVERSION then 23
    else if cmd == GETREGS then 43
    else if cmd == SETIODATA || cmd == GETIODATA || cmd == GETIOADDR then 2
    else 1
  }

  lemma CallbackSize(hw: Design, code: Design, sv: Sv, cmd: Byte, args: seq<Byte>, env: Env, env2: Env)
    requires sv.Sized() && Proper(cmd, args)
    ensures var r := Callback(hw, code, sv, cmd, args, env, env2);
      r.Some? ==> |r.value.payload| == ReplySize(cmd) && (cmd == GETVERSION ==> r.value.payload == VERSION)
  {
    hide SvStop, SvBrk, SvGetRegs, SvStart, SvCont;
  }

  /** The event of a supervisor run that a command is. */
  function EventOf(cmd: Byte, args: seq<Byte>, env: Env, env2: Env): SupervisorRuns.Event
    requires Proper(cmd, args)
  {
    if cmd == START then SupervisorRuns.CmdStart(env.stale)
    else if cmd == STOP then SupervisorRuns.CmdStop(env)
    else if cmd == BRK then SupervisorRuns.CmdBrk(env)
    else if cmd == CONT then SupervisorRuns.CmdCont(env.stale)
    else if cmd == GETREGS then SupervisorRuns.CmdGetRegs(env, env2)
    else if cmd == SETIODATA then SupervisorRuns.CmdSetIoData(Join(args[0], args[1]))
    else SupervisorRuns.CmdRead
  }

  /** A callback is one event of a supervisor run, so what holds of every run holds under
      the protocol. */
  lemma CallbackIsEvent(hw: Design, code: Design, sv: Sv, cmd: Byte, args: seq<Byte>, env: Env, env2: Env)
    requires sv.Sized() && Proper(cmd, args)
    ensures var r, ev := Callback(hw, code, sv, cmd, args, env, env2), EventOf(cmd, args, env, env2);
      SupervisorRuns.React(hw, code, sv, ev) == (match r case None => None case Some(x) => Some(x.sv))
  {
    hide SvStop, SvBrk, SvGetRegs, SvStart, SvCont;
  }

  // ----- Reading the packed structure back -----

  function Word16(b: seq<Byte>, i: nat): Word
    requires i + 1 < |b|
  {
    Join(b[i], b[i + 1])
  }

  function Word32(b: seq<Byte>, i: nat): DWord
    requires i + 3 < |b|
  {
    var b0: int, b1: int, b2: int, b3: int := b[i], b[i + 1], b[i + 2], b[i + 3];
    b0 + 0x100 * b1 + 0x1_0000 * b2 + 0x100_0000 * b3
  }

  /** The host's structure over the bytes it received. */
  function RegsFrom(b: seq<Byte>): Regs
    requires |b| == 43
  {
    Regs(b[0], Word32(b, 1), Word32(b, 5), Word32(b, 9), Word32(b, 13), Word32(b, 17), Word32(b, 21), Word32(b, 25),
         Word32(b, 29),
         Word32(b, 33), Word32(b, 37), Word16(b, 41))
  }

  lemma Word16Back(before: seq<Byte>, w: Word, after: seq<Byte>)
    ensures Word16(before + Bytes16(w) + after, |before|) == w
  {
    assert w == w % 0x100 + 0x100 * (w / 0x100);
  }

  lemma Word32Is(b: seq<Byte>, i: nat)
    requires i + 3 < |b|
    ensures Word32(b, i) == Double(Word16(b, i), Word16(b, i + 2))
  {
  }

  lemma Word32Back(before: seq<Byte>, x: DWord, after: seq<Byte>)
    ensures Word32(before + Bytes32(x) + after, |before|) == x
  {
    hide Word16, Bytes16, Word32;
    Word32Is(before + Bytes32(x) + after, |before|);
    var lo, hi := Bytes16(Low(x)), Bytes16(High(x));
    Word16Back(before, Low(x), hi + after);
    Word16Back(before + lo, High(x), after);
    assert before + Bytes32(x) + after == before + lo + (hi + after);
    assert before + Bytes32(x) + after == (before + lo) + hi + after;
    assert x == Double(Low(x), High(x));
  }

  lemma Word32At(b: seq<Byte>, i: nat, x: DWord)
    requires i + 4 <= |b| && b[i..i + 4] == Bytes32(x)
    ensures Word32(b, i) == x
  {
    hide Word32;
    Word32Back(b[..i], x, b[i + 4..]);
    assert b == b[..i] + Bytes32(x) + b[i + 4..];
  }

  /** The host sees the registers the supervisor holds. */
  lemma RegsReadBack(r: Regs)
    ensures RegsFrom(RegsBytes(r)) == r
  {
    hide Word32, Word16, Bytes32, Bytes16;
    var b := RegsBytes(r);
    Word32At(b, 1, r.eflags);
    Word32At(b, 5, r.eip);
    Word32At(b, 9, r.eax);
    Word32At(b, 13, r.ecx);
    Word32At(b, 17, r.edx);
    Word32At(b, 21, r.ebx);
    Word32At(b, 25, r.esp);
    Word32At(b, 29, r.ebp);
    Word32At(b, 33, r.esi);
    Word32At(b, 37, r.edi);
    Word16Back(b[..41], r.cs, []);
    assert b == b[..41] + Bytes16(r.cs) + [];
  }
}
