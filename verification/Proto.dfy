/** The supervisor's side of the host protocol: which byte strings it takes for a command. */
module Proto {
  import opened Words
  import opened Wrappers
  import HostWire

  const SOH: Byte := 0x01
  const STX: Byte := 0x02
  const EOT: Byte := 0x04
  const ENQ: Byte := 0x05
  const ACK: Byte := 0x06
  const NAK: Byte := 0x15
  const SYN: Byte := 0x16

  const GETVERSION: Byte := 1
  const ECHO: Byte := 2
  const START: Byte := 3
  const STOP: Byte := 4
  const BRK: Byte := 5
  const CONT: Byte := 6
  const GETSTATUS: Byte := 7
  const GETREGS: Byte := 8
  const SETIODATA: Byte := 9
  const GETIODATA: Byte := 10
  const GETIOADDR: Byte := 11

  /** The command table: commands known, and how many argument bytes each takes. */
  predicate Known(cmd: Byte) {
    1 <= cmd <= 11
  }

  function ArgSize(cmd: Byte): nat {
    if cmd == ECHO then 1 else if cmd == SETIODATA then 2 else 0
  }

  /** The frame of a command, as the host builds it. */
  function Frame(cmd: Byte, args: seq<Byte>): seq<Byte> {
    [HostWire.ENQ, HostWire.SOH, cmd, HostWire.STX] + args + [HostWire.EOT]
  }

  /** A frame for a command of the table, with the arguments that command takes. */
  predicate Proper(cmd: Byte, args: seq<Byte>) {
    Known(cmd) && |args| == ArgSize(cmd)
  }

  /** What the handler makes of the bytes it has read since it was entered. */
  datatype Verdict = More | Nak | SynAck | Call(cmd: Byte, args: seq<Byte>)

  function Judge(got: seq<Byte>): (r: Verdict)
    ensures r.Call? ==> Proper(r.cmd, r.args)
  {
    if got == [] then More
    else if got[0] == SYN then SynAck
    else if got[0] != ENQ then Nak
    else if |got| == 1 then More
    else JudgeCommand(got)
  }

  /** After ENQ. */
  function JudgeCommand(got: seq<Byte>): (r: Verdict)
    requires |got| >= 2
    ensures r.Call? ==> Proper(r.cmd, r.args)
  {
    if got[1] != SOH then Nak
    else if |got| < 4 then More
    else if got[3] != STX || !Known(got[2]) then Nak
    else
      var n := ArgSize(got[2]);
      if |got| < 5 + n then More
      else if got[4 + n] != EOT then Nak
      else Call(got[2], got[4..4 + n])
  }

  /** One entry of the handler: it reads until it has decided. `None` if it is still waiting
      for a byte at the end of the input. */
  function Handle(input: seq<Byte>, n: nat): (r: Option<(nat, Verdict)>)
    requires n <= |input|
    ensures r.Some? ==> n <= r.value.0 <= |input|
    ensures r.Some? && r.value.1.Call? ==> Proper(r.value.1.cmd, r.value.1.args)
    decreases |input| - n
  {
    if Judge(input[..n]) != More then Some((n, Judge(input[..n])))
    else if n == |input| then None
    else Handle(input, n + 1)
  }

  lemma JudgeStable(got: seq<Byte>, more: seq<Byte>)
    requires Judge(got) != More
    ensures Judge(got + more) == Judge(got)
  {
    if |got| >= 4 {
      var n := ArgSize(got[2]);
      if |got| >= 5 + n {
        assert (got + more)[4..4 + n] == got[4..4 + n];
      }
    }
  }

  /** A decided string that was undecided one byte earlier ends with the deciding byte. */
  lemma CallIsFrame(got: seq<Byte>)
    requires got != [] && Judge(got).Call? && Judge(got[..|got| - 1]) == More
    ensures Proper(Judge(got).cmd, Judge(got).args) && got == Frame(Judge(got).cmd, Judge(got).args)
  {
    var n, was := ArgSize(got[2]), got[..|got| - 1];
    assert |was| < 5 + n;
    assert got == [got[0], got[1], got[2], got[3]] + got[4..4 + n] + [got[4 + n]];
  }

  lemma FrameIsCall(cmd: Byte, args: seq<Byte>, n: nat)
    requires Proper(cmd, args) && n <= |Frame(cmd, args)|
    ensures Judge(Frame(cmd, args)[..n]) == if n == |Frame(cmd, args)| then Call(cmd, args) else More
  {
    var f := Frame(cmd, args);
    assert f[4..4 + |args|] == args && f[4 + |args|] == EOT;
    assert f[..|f|] == f;
  }

  /** Where the handler decides, it was undecided before. */
  lemma {:induction false} HandleDecides(input: seq<Byte>, n: nat)
    requires n <= |input| && (n > 0 ==> Judge(input[..n - 1]) == More)
    ensures var r := Handle(input, n);
      && (r.Some? ==> var (k, o) := r.value;
            && o == Judge(input[..k]) != More && (k > 0 ==> Judge(input[..k - 1]) == More))
      && (r.None? ==> Judge(input) == More)
    decreases |input| - n
  {
    assert input[..|input|] == input;
    if Judge(input[..n]) == More && n < |input| {
      HandleDecides(input, n + 1);
    }
  }

  /** And it decides at the first decided prefix. */
  lemma {:induction false} HandleAt(input: seq<Byte>, n: nat, k: nat)
    requires n <= k <= |input| && Judge(input[..k]) != More
    requires forall j :: n <= j < k ==> Judge(input[..j]) == More
    ensures Handle(input, n) == Some((k, Judge(input[..k])))
    decreases k - n
  {
    if n < k {
      assert Judge(input[..n]) == More;
      HandleAt(input, n + 1, k);
    }
  }

  lemma CalledOnFrame(input: seq<Byte>, n: nat, cmd: Byte, args: seq<Byte>)
    ensures Handle(input, 0) == Some((n, Call(cmd, args)))
            <==> n <= |input| && Proper(cmd, args) && input[..n] == Frame(cmd, args)
  {
    hide Judge, Frame;
    HandleDecides(input, 0);
    if Handle(input, 0) == Some((n, Call(cmd, args))) {
      NothingYet();
      assert input[..0] == [];
      assert input[..n][..n - 1] == input[..n - 1];
      CallIsFrame(input[..n]);
    }
    if n <= |input| && Proper(cmd, args) && input[..n] == Frame(cmd, args) {
      var f := Frame(cmd, args);
      forall j | 0 <= j < n
        ensures Judge(input[..j]) == More
      {
        FrameIsCall(cmd, args, j);
        assert input[..j] == input[..n][..j];
      }
      FrameIsCall(cmd, args, n);
      assert f[..n] == f;
      HandleAt(input, 0, n);
    }
  }

  /** The commands by number, with the bytes of argument they take. */
  predicate Listed(cmd: Byte, args: seq<Byte>) {
    || (cmd in {1, 3, 4, 5, 6, 7, 8, 10, 11} && args == [])
    || (cmd == 2 && |args| == 1)
    || (cmd == 9 && |args| == 2)
  }

  lemma FrameBytes(cmd: Byte, args: seq<Byte>)
    ensures Proper(cmd, args) <==> Listed(cmd, args)
    ensures Frame(cmd, args) == [0x05, 0x01, cmd, 0x02] + args + [0x04]
  {
  }

  /** For every input stream: a command is called if and only if it is listed and the bytes
      consumed are exactly the host's frame of that command with those arguments. */
  lemma ParserExact(input: seq<Byte>, n: nat, cmd: Byte, args: seq<Byte>)
    ensures Handle(input, 0) == Some((n, Call(cmd, args)))
            <==> n <= |input| && Listed(cmd, args) && input[..n] == Frame(cmd, args)
    ensures Frame(cmd, args) == [0x05, 0x01, cmd, 0x02] + args + [0x04]
  {
    hide Handle, Proper, Listed, Frame;
    CalledOnFrame(input, n, cmd, args);
    FrameBytes(cmd, args);
  }

  lemma NothingYet()
    ensures Judge([]) == More
  {
  }

  /** The strings on which the handler is still waiting: proper prefixes of some frame, or a
      header up to a command byte that no frame has. */
  predicate Unfinished(got: seq<Byte>) {
    || (|got| < 3 && got <= [ENQ, SOH])
    || (|got| == 3 && got[..2] == [ENQ, SOH])
    || (|got| > 3 && got[..2] == [ENQ, SOH] && got[3] == STX && Known(got[2]) && |got| < 5 + ArgSize(got[2]))
  }

  /** Everything else is answered: SYN by SYN ACK, and the rest by one NAK at the first byte
      after which the string can no longer become a frame. */
  lemma OtherAnswers(input: seq<Byte>)
    ensures Handle(input, 0).None? <==> Unfinished(input)
    ensures forall n: nat :: Handle(input, 0) == Some((n, SynAck)) <==> n == 1 && input != [] && input[0] == SYN
    ensures Handle(input, 0).Some? && Handle(input, 0).value.1 == Nak ==>
              var n := Handle(input, 0).value.0;
              0 < n && Unfinished(input[..n - 1]) && !Unfinished(input[..n])
              && forall cmd, args :: Proper(cmd, args) ==> input[..n] != Frame(cmd, args)
  {
    hide Handle, Frame;
    HandleDecides(input, 0);
    NothingYet();
    assert input[..0] == [];
    UnfinishedIsMore(input);
    if input != [] && input[0] == SYN {
      HandleAt(input, 0, 1);
    }
    if Handle(input, 0).Some? {
      var (n, o) := Handle(input, 0).value;
      UnfinishedIsMore(input[..n - 1]);
      UnfinishedIsMore(input[..n]);
      NotUnfinishedForGood(input, n);
      if o == Nak {
        forall cmd, args | Proper(cmd, args)
          ensures input[..n] != Frame(cmd, args)
        {
          FrameIsCall(cmd, args, |Frame(cmd, args)|);
          assert Frame(cmd, args)[..|Frame(cmd, args)|] == Frame(cmd, args);
        }
      }
    }
  }

  lemma UnfinishedIsMore(got: seq<Byte>)
    ensures Unfinished(got) <==> Judge(got) == More
  {
    if |got| == 2 && Judge(got) == More {
      assert got == [got[0], got[1]];
    }
    if |got| == 1 && Judge(got) == More {
      assert got == [got[0]];
    }
  }

  lemma NotUnfinishedForGood(input: seq<Byte>, n: nat)
    requires n <= |input| && Judge(input[..n]) != More
    ensures Judge(input) != More
  {
    JudgeStable(input[..n], input[n..]);
    assert input[..n] + input[n..] == input;
  }

  // ----- Whole streams -----

  /** What a host puts on the line. */
  datatype Message = Sync | Command(cmd: Byte, args: seq<Byte>)

  function Wire(ms: seq<Message>): seq<Byte> {
    if ms == [] then []
    else (if ms[0].Sync? then [SYN] else Frame(ms[0].cmd, ms[0].args)) + Wire(ms[1..])
  }

  /** Entering the handler again and again: what it decides, and the bytes left over. */
  function HandleAll(input: seq<Byte>): (seq<Verdict>, seq<Byte>)
    decreases |input|
  {
    match Handle(input, 0)
    case None => ([], input)
    case Some((n, o)) =>
      if n == 0 then ([], input)
      else
        var (os, left) := HandleAll(input[n..]);
        ([o] + os, left)
  }

  function OutcomeOf(m: Message): Verdict {
    if m.Sync? then SynAck else Call(m.cmd, m.args)
  }

  function OutcomesOf(ms: seq<Message>): seq<Verdict> {
    seq(|ms|, i requires 0 <= i < |ms| => OutcomeOf(ms[i]))
  }

  /** The handler reads back any stream of syncs and frames, message by message. */
  lemma {:induction false} WireReadBack(ms: seq<Message>)
    requires forall i :: 0 <= i < |ms| && ms[i].Command? ==> Proper(ms[i].cmd, ms[i].args)
    ensures HandleAll(Wire(ms)) == (OutcomesOf(ms), [])
    decreases |ms|
  {
    hide Handle, Judge, Frame;
    if ms == [] {
      OtherAnswers([]);
    } else {
      var m, input := ms[0], Wire(ms);
      var first := if m.Sync? then [SYN] else Frame(m.cmd, m.args);
      assert input[..|first|] == first && input[|first|..] == Wire(ms[1..]);
      if m.Sync? {
        OtherAnswers(input);
      } else {
        ParserExact(input, |first|, m.cmd, m.args);
        FrameLong(m.cmd, m.args);
      }
      assert Handle(input, 0) == Some((|first|, OutcomeOf(m)));
      WireReadBack(ms[1..]);
      assert HandleAll(input) == ([OutcomeOf(m)] + OutcomesOf(ms[1..]), []);
      assert [OutcomeOf(m)] + OutcomesOf(ms[1..]) == OutcomesOf(ms);
    }
  }

  lemma FrameLong(cmd: Byte, args: seq<Byte>)
    ensures |Frame(cmd, args)| == 5 + |args|
  {
  }
}
