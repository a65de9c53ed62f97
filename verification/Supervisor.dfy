/** The supervisor's view of the CPU: its status, and the routines it launches for it. */
module Supervisor {
  import opened Words
  import opened Wrappers
  import opened EndToEnd
  import opened OcdTables
  import opened OcdRegisterTables
  import opened OcdLaunch
  import Fsm = OcdFsm

  type DWord = x: int | 0 <= x < 0x1_0000_0000

  datatype Status = Stop | Running | Brk16 | Brk32 | IoWr | IoRd

  datatype Regs = Regs(valid: Byte, eflags: DWord, eip: DWord, eax: DWord, ecx: DWord, edx: DWord, ebx: DWord,
                       esp: DWord, ebp: DWord, esi: DWord, edi: DWord, cs: Word)

  /** Everything the supervisor holds, the emulated LED register, and the unit it drives. */
  datatype Sv = Sv(status: Status, iodata: Word, ioaddr: Word, led: Byte, regs: Regs, ocd: Fsm.System) {
    predicate Sized() {
      ocd.Sized()
    }
  }

  /** What the surroundings do while a routine is waited for. */
  datatype Env = Env(stale: Word, es: seq<Fsm.Edge>)

  function Low(x: DWord): Word {
    x % 0x1_0000
  }

  function High(x: DWord): Word {
    x / 0x1_0000
  }

  function Double(lo: Word, hi: Word): DWord {
    var l: int, h: int := lo, hi;
    l + 0x1_0000 * h
  }

  function GetReg(s: Fsm.System, id: Nibble): Word
    requires s.Sized()
  {
    s.mem[0x100 + id]
  }

  function GetReg32(s: Fsm.System, id: nat): DWord
    requires s.Sized() && id < 15
  {
    Double(GetReg(s, id), GetReg(s, id + 1))
  }

  function SetReg(s: Fsm.System, id: Nibble, w: Word): (r: Fsm.System)
    requires s.Sized()
    ensures r.Sized()
  {
    s.(mem := s.mem[0x100 + id := w])
  }

  function SetReg32(s: Fsm.System, id: nat, x: DWord): (r: Fsm.System)
    requires s.Sized() && id < 15
    ensures r.Sized()
  {
    SetReg(SetReg(s, id, Low(x)), id + 1, High(x))
  }

  /** Waiting until the unit has stopped; `None` if the trace ends first, when the call has
      not returned. */
  function BusyWait(hw: Design, s: Fsm.System, es: seq<Fsm.Edge>): (r: Option<Fsm.System>)
    requires s.Sized()
    ensures r.Some? ==> r.value.Sized() && r.value.core.stop
    decreases |es|
  {
    if s.core.stop then Some(s)
    else if es == [] then None
    else BusyWait(hw, Fsm.Tick(hw, s, es[0]), es[1..])
  }

  function RunAndWait(hw: Design, s: Fsm.System, table: Table, env: Env): (r: Option<Fsm.System>)
    requires s.Sized()
    ensures r.Some? ==> r.value.Sized() && r.value.core.stop
  {
    BusyWait(hw, Launch(s, table, env.stale), env.es)
  }

  /** A call's outcome: the new state and the number it returns. */
  datatype Outcome = Outcome(sv: Sv, ret: Byte)

  function SvStop(hw: Design, sv: Sv, env: Env): (r: Option<Outcome>)
    requires sv.Sized()
    ensures r.Some? ==> r.value.sv.Sized()
  {
    match RunAndWait(hw, sv.ocd, RESET_TABLE, env)
    case None => None
    case Some(ocd) => Some(Outcome(sv.(ocd := ocd, status := Stop), 0))
  }

  function SvBrk(hw: Design, code: Design, sv: Sv, env: Env): (r: Option<Outcome>)
    requires sv.Sized()
    ensures r.Some? ==> r.value.sv.Sized()
  {
    if sv.status != Running then Some(Outcome(sv, 1))
    else
      match RunAndWait(hw, sv.ocd, BreakTable(code), env)
      case None => None
      case Some(ocd) =>
        var regs := sv.regs.(eflags := GetReg32(ocd, 2), cs := GetReg(ocd, 4), eip := GetReg32(ocd, 5));
        Some(Outcome(sv.(ocd := ocd, regs := regs, status := if GetReg(ocd, 1) != 0 then Brk32 else Brk16), 0))
  }

  function SvCont(sv: Sv, stale: Word): (r: Outcome)
    requires sv.Sized()
    ensures r.sv.Sized()
  {
    match sv.status
    case Brk32 =>
      var s := SetReg32(SetReg(SetReg32(sv.ocd, 2, sv.regs.eflags), 4, sv.regs.cs), 5, sv.regs.eip);
      Outcome(sv.(ocd := Launch(s, CONT_TABLE, stale), status := Running), 0)
    case IoRd =>
      Outcome(sv.(ocd := Launch(SetReg(sv.ocd, 3, sv.iodata), WRITE_IO_TABLE, stale), status := Running), 0)
    case IoWr =>
      Outcome(sv.(ocd := Launch(sv.ocd, START_TABLE, stale), status := Running), 0)
    case _ => Outcome(sv, 1)
  }

  function SvStart(sv: Sv, stale: Word): (r: Outcome)
    requires sv.Sized()
    ensures r.sv.Sized()
  {
    if sv.status == Stop then Outcome(sv.(ocd := Launch(sv.ocd, START_TABLE, stale), status := Running), 0)
    else Outcome(sv, 1)
  }

  const LED_PORT: Word := 0x10

  /** Serving an I/O access: the LED is emulated here, anything else is left to the host. */
  function SvIoBreak(hw: Design, sv: Sv, env: Env): (r: Option<Outcome>)
    requires sv.Sized()
    ensures r.Some? ==> r.value.sv.Sized()
  {
    if sv.status != Running then Some(Outcome(sv, 1))
    else
      var sv1 := sv.(ioaddr := GetReg(sv.ocd, 1));
      if GetReg(sv.ocd, 2) != 0 then
        match RunAndWait(hw, sv1.ocd, READ_IO_TABLE, env)
        case None => None
        case Some(ocd) =>
          var sv2 := sv1.(ocd := ocd, iodata := GetReg(ocd, 3), status := IoWr);
          if sv2.ioaddr == LED_PORT
          then Some(Outcome(SvCont(sv2.(led := sv2.iodata % 0x100), env.stale).sv, 0))
          else Some(Outcome(sv2, 0))
      else
        var sv2 := sv1.(status := IoRd);
        if sv2.ioaddr == LED_PORT
        then Some(Outcome(SvCont(sv2.(iodata := sv2.led), env.stale).sv, 0))
        else Some(Outcome(sv2, 0))
  }

  /** The interrupt has pushed three doublewords, so the interrupted ESP is twelve above the
      one PUSHA shows. */
  function EspRun(x: DWord): DWord {
    (x + 12) % 0x1_0000_0000
  }

  function EspBrk(x: DWord): DWord {
    (x - 12) % 0x1_0000_0000
  }

  const MOV_ESP: Word := 0xBC90

  function WithPushed(regs: Regs, s: Fsm.System): Regs
    requires s.Sized()
  {
    regs.(edi := GetReg32(s, 0), esi := GetReg32(s, 2), ebp := GetReg32(s, 4), esp := EspRun(GetReg32(s, 6)),
          ebx := GetReg32(s, 8), edx := GetReg32(s, 10), ecx := GetReg32(s, 12), eax := GetReg32(s, 14))
  }

  function SvGetRegs(hw: Design, sv: Sv, env: Env, env2: Env): (r: Option<Outcome>)
    requires sv.Sized()
    ensures r.Some? ==> r.value.sv.Sized()
  {
    if sv.status != Brk32 then Some(Outcome(sv, 1))
    else
      match RunAndWait(hw, sv.ocd, GET_REGS_TABLE, env)
      case None => None
      case Some(ocd) =>
        var regs := WithPushed(sv.regs, ocd);
        var s := SetReg32(SetReg(ocd, 1, MOV_ESP), 2, EspBrk(regs.esp));
        match RunAndWait(hw, s, SET_REG_TABLE, env2)
        case None => None
        case Some(ocd') => Some(Outcome(sv.(regs := regs, ocd := ocd'), 0))
  }

  /** Power-on: the unit in its reset state, whatever else it holds. */
  function SvInit(hw: Design, ocd: Fsm.System, led: Byte, regs: Regs, env: Env): (r: Option<Sv>)
    requires ocd.Sized()
    ensures r.Some? ==> r.value.Sized()
  {
    match RunAndWait(hw, ocd, RESET_TABLE, env)
    case None => None
    case Some(s) => Some(Sv(Stop, 0, 0, led, regs, s))
  }
}
