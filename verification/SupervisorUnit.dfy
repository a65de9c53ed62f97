/** The supervisor as its code is written: a structure its functions update, in front of the
    shared memory and control register of the unit. */
module SupervisorUnit {
  import opened Words
  import opened Wrappers
  import opened EndToEnd
  import opened OcdTables
  import opened OcdRegisterTables
  import opened OcdLaunch
  import opened OcdUnit
  import opened Supervisor
  import Fsm = OcdFsm

  /** `None` is a call still waiting for the unit when the trace ends. */
  predicate Agrees(ret: Option<Byte>, now: Sv, spec: Option<Outcome>) {
    ret.Some? == spec.Some? && (ret.Some? ==> spec.value == Outcome(now, ret.value))
  }

  class Controller {
    const unit: Ocd
    const code: Design
    var status: Status
    var iodata: Word
    var ioaddr: Word
    var led: Byte
    var regs: Regs

    /** The structure before `SvInit`: on the stack, so it holds anything. */
    constructor (unit: Ocd, code: Design, garbage: Sv)
      requires unit.Valid()
      ensures Valid() && this.unit == unit && this.code == code && led == 0
    {
      this.unit, this.code := unit, code;
      status, iodata, ioaddr, led, regs := garbage.status, garbage.iodata, garbage.ioaddr, 0, garbage.regs;
    }

    ghost predicate Valid()
      reads this, unit
    {
      unit.Valid()
    }

    ghost function View(): Sv
      reads this, unit, unit.mem
    {
      Sv(status, iodata, ioaddr, led, regs, unit.State())
    }

    /** The array holds a table in its first words and the old contents above it. */
    ghost predicate Copied(mem: seq<Word>, table: Table, i: nat)
      requires |mem| == 512 && unit.Valid() && i <= |table| <= 512
      reads unit, unit.mem
    {
      && (forall k :: 0 <= k < i ==> unit.mem[k] == Join(table[k].0, table[k].1))
      && (forall k :: i <= k < 512 ==> unit.mem[k] == mem[k])
    }

    method OcdRun(table: Table, stale: Word)
      requires Valid()
      modifies unit, unit.mem
      ensures Valid() && unit.State() == Launch(old(unit.State()), table, stale)
      ensures |table| > 512 ==> unit.State() == old(unit.State())
      ensures |table| <= 512 ==>
                && !unit.stop && unit.pc == 0xFF && unit.pins == old(unit.pins) && unit.cmpr == old(unit.cmpr)
                && Copied(old(unit.mem[..]), table, |table|)
    {
      hide Join;
      if 2 * |table| > 1024 {
        return;
      }
      unit.ResetOcd();
      unit.readData := stale;
      ghost var core, mem := unit.Registers(), unit.mem[..];
      for i := 0 to |table|
        invariant Valid() && unit.Registers() == core && unit.readData == stale && Copied(mem, table, i)
      {
        unit.mem[i] := Join(table[i].0, table[i].1);
      }
      assert unit.mem[..] == Copy(mem, table);
    }

    method OcdBusyWait(es: seq<Fsm.Edge>) returns (done: bool)
      requires Valid()
      modifies unit, unit.mem
      ensures Valid()
      ensures var spec := BusyWait(unit.design, old(unit.State()), es);
        done == spec.Some? && (done ==> spec.value == unit.State())
    {
      hide Fsm.Tick;
      ghost var spec := BusyWait(unit.design, unit.State(), es);
      assert es[0..] == es;
      var i := 0;
      while !unit.stop && i < |es|
        invariant Valid() && i <= |es|
        invariant BusyWait(unit.design, unit.State(), es[i..]) == spec
      {
        assert es[i..][1..] == es[i + 1..];
        unit.PosEdge(es[i]);
        i := i + 1;
      }
      done := unit.stop;
    }

    method Perform(table: Table, env: Env) returns (done: bool)
      requires Valid()
      modifies unit, unit.mem
      ensures Valid()
      ensures var spec := RunAndWait(unit.design, old(unit.State()), table, env);
        done == spec.Some? && (done ==> spec.value == unit.State())
    {
      hide Launch, BusyWait;
      OcdRun(table, env.stale);
      done := OcdBusyWait(env.es);
    }

    function OcdGetReg(id: Nibble): Word
      requires Valid()
      reads this, unit, unit.mem
    {
      unit.mem[0x100 + id]
    }

    method OcdSetReg(id: Nibble, w: Word)
      requires Valid()
      modifies unit.mem
      ensures Valid() && unit.State() == SetReg(old(unit.State()), id, w)
    {
      unit.mem[0x100 + id] := w;
    }

    function OcdGetReg32(id: nat): (x: DWord)
      requires Valid() && id < 15
      reads this, unit, unit.mem
      ensures x == GetReg32(unit.State(), id)
    {
      Double(OcdGetReg(id), OcdGetReg(id + 1))
    }

    method OcdSetReg32(id: nat, x: DWord)
      requires Valid() && id < 15
      modifies unit.mem
      ensures Valid() && unit.State() == SetReg32(old(unit.State()), id, x)
    {
      hide SetReg, Low, High;
      OcdSetReg(id, Low(x));
      OcdSetReg(id + 1, High(x));
    }

    method SvInit(env: Env) returns (done: bool)
      requires Valid()
      modifies this, unit, unit.mem
      ensures Valid()
      ensures var spec := Supervisor.SvInit(unit.design, old(unit.State()), old(led), old(regs), env);
        done == spec.Some? && (done ==> spec.value == View())
    {
      hide RunAndWait, RESET_TABLE;
      ioaddr := 0;
      iodata := 0;
      done := Perform(RESET_TABLE, env);
      if done {
        status := Stop;
      }
    }

    method SvStop(env: Env) returns (ret: Option<Byte>)
      requires Valid()
      modifies this, unit, unit.mem
      ensures Valid() && Agrees(ret, View(), Supervisor.SvStop(unit.design, old(View()), env))
    {
      hide RunAndWait, RESET_TABLE;
      var done := Perform(RESET_TABLE, env);
      if !done {
        return None;
      }
      status := Stop;
      return Some(0);
    }

    method SvBrk(env: Env) returns (ret: Option<Byte>)
      requires Valid()
      modifies this, unit, unit.mem
      ensures Valid() && Agrees(ret, View(), Supervisor.SvBrk(unit.design, code, old(View()), env))
    {
      hide RunAndWait, BreakTable, GetReg32;
      if status != Running {
        return Some(1);
      }
      var done := Perform(BreakTable(code), env);
      if !done {
        return None;
      }
      regs := regs.(eflags := OcdGetReg32(2));
      regs := regs.(cs := OcdGetReg(4));
      regs := regs.(eip := OcdGetReg32(5));
      status := if OcdGetReg(1) != 0 then Brk32 else Brk16;
      return Some(0);
    }

    method SvCont(stale: Word) returns (ret: Byte)
      requires Valid()
      modifies this, unit, unit.mem
      ensures Valid() && Outcome(View(), ret) == Supervisor.SvCont(old(View()), stale)
    {
      hide Launch, SetReg, SetReg32;
      if status == Brk32 {
        OcdSetReg32(2, regs.eflags);
        OcdSetReg(4, regs.cs);
        OcdSetReg32(5, regs.eip);
        OcdRun(CONT_TABLE, stale);
        status := Running;
        return 0;
      } else if status == IoRd {
        OcdSetReg(3, iodata);
        OcdRun(WRITE_IO_TABLE, stale);
        status := Running;
        return 0;
      } else if status == IoWr {
        OcdRun(START_TABLE, stale);
        status := Running;
        return 0;
      }
      return 1;
    }

    method SvStart(stale: Word) returns (ret: Byte)
      requires Valid()
      modifies this, unit, unit.mem
      ensures Valid() && Outcome(View(), ret) == Supervisor.SvStart(old(View()), stale)
    {
      hide Launch;
      if status == Stop {
        OcdRun(START_TABLE, stale);
        status := Running;
        return 0;
      }
      return 1;
    }

    method SvIoBreak(env: Env) returns (ret: Option<Byte>)
      requires Valid()
      modifies this, unit, unit.mem
      ensures Valid() && Agrees(ret, View(), Supervisor.SvIoBreak(unit.design, old(View()), env))
    {
      hide RunAndWait, Launch, Supervisor.SvCont;
      if status != Running {
        return Some(1);
      }
      ioaddr := OcdGetReg(1);
      var iowr := OcdGetReg(2);
      if iowr != 0 {
        var done := Perform(READ_IO_TABLE, env);
        if !done {
          return None;
        }
        iodata := OcdGetReg(3);
        status := IoWr;
        if ioaddr == LED_PORT {
          led := iodata % 0x100;
          var _ := SvCont(env.stale);
        }
      } else {
        status := IoRd;
        if ioaddr == LED_PORT {
          iodata := led;
          var _ := SvCont(env.stale);
        }
      }
      return Some(0);
    }

    method SvGetRegs(env: Env, env2: Env) returns (ret: Option<Byte>)
      requires Valid()
      modifies this, unit, unit.mem
      ensures Valid() && Agrees(ret, View(), Supervisor.SvGetRegs(unit.design, old(View()), env, env2))
    {
      hide RunAndWait, GetReg32, SetReg, SetReg32, EspRun, EspBrk;
      if status != Brk32 {
        return Some(1);
      }
      var done := Perform(GET_REGS_TABLE, env);
      if !done {
        return None;
      }
      regs := regs.(edi := OcdGetReg32(0), esi := OcdGetReg32(2));
      regs := regs.(ebp := OcdGetReg32(4), esp := EspRun(OcdGetReg32(6)));
      regs := regs.(ebx := OcdGetReg32(8), edx := OcdGetReg32(10));
      regs := regs.(ecx := OcdGetReg32(12), eax := OcdGetReg32(14));
      OcdSetReg(1, MOV_ESP);
      OcdSetReg32(2, EspBrk(regs.esp));
      done := Perform(SET_REG_TABLE, env2);
      return if done then Some(0) else None;
    }
  }
}
