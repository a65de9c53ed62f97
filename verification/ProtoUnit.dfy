/** The command handler as its code is written: it reads and writes the line byte by byte. */
module ProtoUnit {
  import opened Words
  import opened Wrappers
  import opened Supervisor
  import opened SupervisorUnit
  import opened Proto
  import opened ProtoCommands

  /** A handler that has answered (`Some(0)`), that wants a NAK sent (`Some(1)`), or that is
      still waiting, for a byte or for the unit (`None`). */
  type HandlerResult = Option<Byte>

  class Handler {
    const sv: Controller

    /** The bytes that will arrive on the line, and those written so far. */
    var rx: seq<Byte>
    var tx: seq<Byte>

    constructor (sv: Controller, rx: seq<Byte>)
      ensures this.sv == sv && this.rx == rx && tx == []
    {
      this.sv, this.rx, tx := sv, rx, [];
    }

    ghost predicate Valid()
      reads this, sv, sv.unit
    {
      sv.Valid()
    }

    method GetChar() returns (c: Option<Byte>)
      modifies this`rx
      ensures c.None? ==> old(rx) == [] && rx == []
      ensures c.Some? ==> old(rx) != [] && c.value == old(rx)[0] && rx == old(rx)[1..]
    {
      if rx == [] {
        return None;
      }
      c := Some(rx[0]);
      rx := rx[1..];
    }

    method PutChar(c: Byte)
      modifies this`tx
      ensures tx == old(tx) + [c]
    {
      tx := tx + [c];
    }

    method ProtoAck(buff: seq<Byte>)
      requires |buff| < 0x100
      modifies this`tx
      ensures tx == old(tx) + Response(buff)
    {
      PutChar(ACK);
      PutChar(|buff| % 0x100);
      PutChar(STX);
      for i := 0 to |buff|
        invariant tx == old(tx) + ([ACK, |buff| % 0x100, STX] + buff[..i])
      {
        PutChar(buff[i]);
        assert buff[..i + 1] == buff[..i] + [buff[i]];
      }
      PutChar(EOT);
      assert buff[..|buff|] == buff;
    }

    /** `input` is what was to come when the handler was entered; nothing before the bytes
        left in `rx` decided. */
    ghost predicate Undecided(input: seq<Byte>)
      reads this
    {
      && |rx| <= |input| && rx == input[|input| - |rx|..]
      && forall j :: 0 <= j <= |input| - |rx| ==> Judge(input[..j]) == More
    }

    /** One more byte, and what the handler may conclude from it. */
    method Next(ghost input: seq<Byte>) returns (c: Option<Byte>)
      requires Undecided(input)
      modifies this`rx
      ensures c.None? ==> rx == [] && Handle(input, 0).None?
      ensures c.Some? ==>
                && |rx| + 1 == |old(rx)| && |rx| < |input| && rx == input[|input| - |rx|..]
                && c.value == input[|input| - |rx| - 1]
                && (Judge(input[..|input| - |rx|]) == More ==> Undecided(input))
                && (Judge(input[..|input| - |rx|]) != More ==>
                     Handle(input, 0) == Some((|input| - |rx|, Judge(input[..|input| - |rx|]))))
    {
      hide Judge;
      ghost var n := |input| - |rx|;
      c := GetChar();
      if c.None? {
        assert input[..|input|] == input;
        HandleDecides(input, 0);
        assert input[..0] == [];
      } else if Judge(input[..n + 1]) != More {
        HandleAt(input, 0, n + 1);
      }
    }

    /** The callback of a command. */
    method Run(cmd: Byte, args: seq<Byte>, env: Env, env2: Env) returns (r: HandlerResult)
      requires Valid() && Proper(cmd, args)
      modifies this`tx, sv, sv.unit, sv.unit.mem
      ensures Valid()
      ensures var spec := Callback(sv.unit.design, sv.code, old(sv.View()), cmd, args, env, env2);
        r == (if spec.Some? then Some(0) else None)
        && (spec.Some? ==> sv.View() == spec.value.sv && tx == old(tx) + Response(spec.value.payload))
        && (spec.None? ==> tx == old(tx))
    {
      hide Supervisor.SvStop, Supervisor.SvBrk, Supervisor.SvCont, Supervisor.SvStart, Supervisor.SvGetRegs, RegsBytes,
           VERSION, Response, Bytes16, Join;
      VersionLength();
      if cmd == GETVERSION {
        ProtoAck(VERSION);
      } else if cmd == ECHO {
        ProtoAck(args);
      } else if cmd == START {
        var ret := sv.SvStart(env.stale);
        ProtoAck([ret]);
      } else if cmd == STOP {
        var ret := sv.SvStop(env);
        if ret.None? {
          return None;
        }
        ProtoAck([ret.value]);
      } else if cmd == BRK {
        var ret := sv.SvBrk(env);
        if ret.None? {
          return None;
        }
        ProtoAck([ret.value]);
      } else if cmd == CONT {
        var ret := sv.SvCont(env.stale);
        ProtoAck([ret]);
      } else if cmd == GETSTATUS {
        ProtoAck([StatusByte(sv.status)]);
      } else if cmd == GETREGS {
        var ret := sv.SvGetRegs(env, env2);
        if ret.None? {
          return None;
        }
        sv.regs := sv.regs.(valid := ret.value);
        ProtoAck(RegsBytes(sv.regs));
      } else if cmd == SETIODATA {
        sv.iodata := Join(args[0], args[1]);
        ProtoAck(Bytes16(sv.iodata));
      } else if cmd == GETIODATA {
        ProtoAck(Bytes16(sv.iodata));
      } else {
        ProtoAck(Bytes16(sv.ioaddr));
      }
      return Some(0);
    }

    /** After ENQ. */
    method ProtoRecv(ghost input: seq<Byte>, env: Env, env2: Env) returns (r: HandlerResult)
      requires Valid() && Undecided(input) && |input| - |rx| == 1 && input[0] == ENQ
      modifies this, sv, sv.unit, sv.unit.mem
      ensures Valid()
      ensures Handle(input, 0).None? ==> r == None && tx == old(tx) && sv.View() == old(sv.View())
      ensures Handle(input, 0).Some? ==>
                var (n, v) := Handle(input, 0).value;
                && rx == input[n..] && (v == Nak || v.Call?)
                && (v == Nak ==> r == Some(1) && tx == old(tx) && sv.View() == old(sv.View()))
                && (v.Call? ==>
                     var spec := Callback(sv.unit.design, sv.code, old(sv.View()), v.cmd, v.args, env, env2);
                     r == (if spec.Some? then Some(0) else None)
                     && (spec.Some? ==> sv.View() == spec.value.sv && tx == old(tx) + Response(spec.value.payload))
                     && (spec.None? ==> tx == old(tx)))
    {
      hide Handle, Callback, Response;
      var c := Next(input);
      if c.None? {
        return None;
      }
      if c.value != SOH {
        return Some(1);
      }
      c := Next(input);
      if c.None? {
        return None;
      }
      var cmd := c.value;
      c := Next(input);
      if c.None? {
        return None;
      }
      if c.value != STX || !Known(cmd) {
        return Some(1);
      }
      var args: seq<Byte> := [];
      for i := 0 to ArgSize(cmd)
        invariant Valid() && Undecided(input) && |input| - |rx| == 4 + i
        invariant input[0] == ENQ && input[1] == SOH && input[2] == cmd && input[3] == STX
        invariant args == input[4..4 + i] && tx == old(tx) && sv.View() == old(sv.View())
      {
        c := Next(input);
        if c.None? {
          return None;
        }
        args := args + [c.value];
      }
      c := Next(input);
      if c.None? {
        return None;
      }
      ghost var n := 5 + ArgSize(cmd);
      assert input[..n][4..4 + ArgSize(cmd)] == args;
      if c.value != EOT {
        return Some(1);
      }
      r := Run(cmd, args, env, env2);
    }

    /** One entry of the handler does what `Handle` says of the bytes on the line: nothing
        if they decide nothing; one NAK, or one SYN ACK, with the supervisor unchanged; or
        the command's callback and its answer. */
    method ProtoHandle(env: Env, env2: Env) returns (done: bool)
      requires Valid()
      modifies this, sv, sv.unit, sv.unit.mem
      ensures Valid()
      ensures Handle(old(rx), 0).None? ==> !done && tx == old(tx) && sv.View() == old(sv.View())
      ensures Handle(old(rx), 0).Some? ==>
                var (n, v) := Handle(old(rx), 0).value;
                && rx == old(rx)[n..] && v != More
                && (v == Nak ==> done && tx == old(tx) + [NAK] && sv.View() == old(sv.View()))
                && (v == SynAck ==> done && tx == old(tx) + [SYN, ACK] && sv.View() == old(sv.View()))
                && (v.Call? ==>
                     var spec := Callback(sv.unit.design, sv.code, old(sv.View()), v.cmd, v.args, env, env2);
                     done == spec.Some?
                     && (spec.Some? ==> sv.View() == spec.value.sv && tx == old(tx) + Response(spec.value.payload)))
    {
      hide Handle, Callback, Response, JudgeCommand;
      ghost var input := rx;
      var c := Next(input);
      if c.None? {
        return false;
      }
      if c.value == ENQ {
        var r := ProtoRecv(input, env, env2);
        if r.None? {
          return false;
        }
        if r.value != 0 {
          PutChar(NAK);
        }
      } else if c.value == SYN {
        PutChar(SYN);
        PutChar(ACK);
      } else {
        PutChar(NAK);
      }
      return true;
    }

    static lemma VersionLength()
      ensures |VERSION| == 23
    {
    }
  }
}
