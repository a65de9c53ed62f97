/** The unit as the hardware description writes it: registers assigned at every clock edge
    from the values they held before it, next to a memory written in place. */
module OcdUnit {
  import opened Words
  import opened OcdIsa
  import opened OcdFsm
  import opened OcdSafety

  class Ocd {
    const design: Design
    const mem: array<Word>
    var readData: Word

    var phase: Phase
    var pc: Byte
    var nextPc: Byte
    var instr: Word
    var cmpr: Word
    var memAddress: MemAddress
    var memWrite: bool
    var memWriteData: Word
    var stop: bool

    /** The output registers wired to the 386. */
    var pins: Pins

    ghost function Registers(): Core
      reads this
    {
      Core(phase, pc, nextPc, instr, cmpr, memAddress, memWrite, memWriteData, stop,
           pins)
    }

    ghost predicate Valid()
      reads this
    {
      mem.Length == 512
    }

    ghost function State(): System
      reads this, mem
    {
      System(Registers(), mem[..], readData)
    }

    method ResetOcd()
      modifies this`stop, this`phase, this`pc, this`nextPc, this`memAddress, this`memWrite, this`instr
      ensures Registers() == ResetCore(old(Registers()))
    {
      stop := false;
      phase := Store;
      pc := 0xFF;
      nextPc := 0;
      memAddress := 0;
      memWrite := false;
      instr := 0;
    }

    method DoFetch(q: Word)
      modifies this
      ensures Registers() == FetchCore(old(Registers()), q) && readData == old(readData)
    {
      nextPc := (pc + 1) % 0x100;
      instr := q;
      memAddress := if q / 0x100 == LDI then pc + 1 else REG_OFFSET + q / 0x10 % 0x10;
      phase := Load;
    }

    method DrivePins(op: Byte, source: Word)
      modifies this`pins
      ensures pins == ExecPins(op, old(pins), source)
    {
      if op == ATTACH {
        pins := pins.(en := true);
      }
      if op == DETACH {
        pins := pins.(en := false);
      }
      if op == START {
        pins := pins.(reset := false, nmi := false, intr := false, hold := false);
      }
      if op == RESET {
        pins := pins.(reset := true);
      }
      if op == READY || op == WAITADS || op == WAITLOCK || op == STD {
        pins := pins.(readyN := false, hold := false);
      }
      if op == INT {
        pins := pins.(intr := true);
      }
      if op == NMI {
        pins := pins.(nmi := true);
      }
      if op == HOLD {
        pins := pins.(hold := true);
      }
      if op == STD {
        pins := pins.(dout := source);
      }
    }

    method ExecCompare(op: Byte, source: Word)
      modifies this`cmpr, this`nextPc
      ensures cmpr == ExecCmpr(op, old(cmpr), source)
      ensures nextPc == if Branches(op, old(cmpr)) then instr % 0x100 else old(nextPc)
    {
      var compared := cmpr;
      if op == LDCMP {
        cmpr := source;
      }
      if op == CMP {
        cmpr := if source == compared then 1 else 0;
      }
      if (op == BEQ && compared != 0) || (op == BNE && compared == 0) || op == BA {
        nextPc := instr % 0x100;
      }
    }

    method LeaveExec(source: Word, b: Bus)
      modifies this`phase, this`memAddress, this`memWriteData, this`memWrite
      ensures Registers() == ExecEnd(old(Registers()), source, b)
    {
      var op := instr / 0x100;
      if ExecWait(op, b) {
        phase := Exec;
      } else {
        phase := Store;
        memAddress := REG_OFFSET + instr % 0x10;
        memWriteData := source;
        if MemStore(op) {
          memWrite := true;
        }
      }
    }

    method DoExec(q: Word, b: Bus)
      modifies this
      ensures Registers() == ExecCore(design, old(Registers()), q, b) && readData == old(readData)
    {
      hide ExecPins, Source, ExecEnd, ExecCmpr, Branches;
      var op := instr / 0x100;
      var source := Source(design, op, q, b);
      DrivePins(op, source);
      if op == EXIT {
        stop := true;
      }
      ExecCompare(op, source);
      LeaveExec(source, b);
    }

    method DoStore()
      modifies this
      ensures Registers() == StoreCore(old(Registers())) && readData == old(readData)
    {
      var op := instr / 0x100;
      if op == WAITADS || op == WAITLOCK || op == WAITIO {
        pins := pins.(readyN := true, nmi := false, en := true);
      }
      memWrite := false;
      phase := StoreFetch;
      pc := (nextPc + (if op == LDI then 1 else 0)) % 0x100;
      memAddress := pc;
    }

    method DoStoreFetch()
      modifies this`phase
      ensures Registers() == old(Registers()).(phase := Fetch)
    {
      phase := Fetch;
    }

    /** One rising clock edge. The memory acts on what the unit drove before the edge, and
        the unit on what the memory showed before it. */
    method PosEdge(e: Edge)
      requires Valid()
      modifies this, mem
      ensures Valid() && State() == Tick(design, old(State()), e)
    {
      var q := readData;
      if memWrite {
        mem[memAddress] := memWriteData;
        readData := e.stale;
      } else {
        readData := mem[memAddress];
      }
      match phase {
        case Fetch => DoFetch(q);
        case Load => phase := Exec;
        case Exec => DoExec(q, e.bus);
        case Store => DoStore();
        case StoreFetch => DoStoreFetch();
      }
    }

    /** The always block: a clock edge, or a rising `rst`, which acts on the unit at once and
        leaves the memory alone. */
    method Always(ev: Event)
      requires Valid()
      modifies this, mem
      ensures Valid() && State() == React(design, old(State()), ev)
    {
      match ev {
        case Clock(e) => PosEdge(e);
        case Reset(stale) =>
          readData := stale;
          ResetOcd();
      }
    }

    /** A whole history of clock edges and resets. */
    method Clocked(evs: seq<Event>)
      requires Valid()
      modifies this, mem
      ensures Valid() && State() == History(design, old(State()), evs)
    {
      hide React;
      ghost var s0 := State();
      assert evs[0..] == evs;
      for i := 0 to |evs|
        invariant Valid() && History(design, State(), evs[i..]) == History(design, s0, evs)
      {
        assert evs[i..][1..] == evs[i + 1..];
        Always(evs[i]);
      }
    }
  }
}
