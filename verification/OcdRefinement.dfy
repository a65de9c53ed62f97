/** The clocked unit refines the one-step-per-instruction machine. */
module OcdRefinement {
  import opened Words
  import opened OcdIsa
  import opened OcdFsm

  /** An instruction boundary: the word at `pc` waits in the memory's output register. */
  predicate Boundary(s: System) {
    && s.Sized()
    && s.core.phase == Fetch && !s.core.stop && !s.core.memWrite
    && s.core.memAddress == s.core.pc
    && s.readData == s.mem[s.core.pc]
  }

  function Abs(s: System): (x: Isa)
    requires s.Sized()
    ensures x.Sized()
  {
    Isa(s.core.pc, s.mem[..256], Machine(s.mem[256..272], s.core.cmpr, s.core.pins))
  }

  predicate Waits(op: Byte) {
    op == WAITADS || op == WAITLOCK || op == WAITIO || op == HOLD
  }

  /** The unit sits in EXEC with the source operand of `x`'s current instruction ready.
      While it waits, the only trace of the cycles spent is the pins EXEC drives. */
  predicate Executing(s: System, x: Isa)
    requires x.Sized()
  {
    && s.Sized()
    && s.core.phase == Exec && !s.core.memWrite && !s.core.stop
    && s.core.pc == x.pc && s.mem[..256] == x.prog && s.mem[256..272] == x.m.regs
    && s.core.instr == x.prog[x.pc] && s.core.nextPc == (x.pc + 1) % 0x100
    && s.core.cmpr == x.m.cmpr
    && s.core.memAddress == (if OpcodeOf(s.core.instr) == LDI then x.pc + 1 else REG_OFFSET + SourceOf(s.core.instr))
    && s.readData == s.mem[s.core.memAddress]
    && (|| s.core.pins == x.m.pins
        || (Waits(OpcodeOf(s.core.instr)) && s.core.pins == ExecPins(OpcodeOf(s.core.instr), x.m.pins, 0)))
  }

  /** FETCH and LOAD bring the operand in, whatever the 386 does meanwhile. */
  lemma FetchAndLoad(v: Design, s: System, e0: Edge, e1: Edge)
    requires s.Sized() && Boundary(s)
    ensures Tick(v, s, e0).core.phase == Load
    ensures Executing(Tick(v, Tick(v, s, e0), e1), Abs(s))
  {
  }

  /** A cycle in which the wait condition holds leaves the unit waiting. */
  lemma WaitCycle(v: Design, s: System, x: Isa, e: Edge)
    requires x.Sized() && Executing(s, x)
    requires Blocked(x.Current(), e.bus) && !x.Current().Exit?
    ensures Executing(Tick(v, s, e), x)
  {
  }

  /** EXEC has committed under sample `b`: the result waits to be written back, and STORE
      will bring the pins to their final value. */
  predicate Committed(v: Design, s: System, x: Isa, b: Bus)
    requires x.Sized()
  {
    var op, m := OpcodeOf(s.core.instr), Effect(v, x.m, x.Current(), b);
    && s.Sized()
    && s.core.phase == Store && !s.core.stop
    && s.mem[..256] == x.prog && s.core.instr == x.prog[x.pc]
    && (s.core.nextPc + (if op == LDI then 1 else 0)) % 0x100 == x.NextPc()
    && s.core.cmpr == m.cmpr && StoreCore(s.core).pins == m.pins
    && s.core.memWrite == MemStore(op) && s.core.memAddress == REG_OFFSET + DestOf(s.core.instr)
    && m.regs == if MemStore(op) then s.mem[256..272][DestOf(s.core.instr) := s.core.memWriteData] else s.mem[256..272]
  }

  lemma CommitControl(v: Design, s: System, x: Isa, e: Edge)
    requires x.Sized() && Executing(s, x)
    requires !Blocked(x.Current(), e.bus)
    ensures var c := Tick(v, s, e).core;
      && c.phase == Store && !c.stop && c.instr == s.core.instr
      && (c.nextPc + (if OpcodeOf(c.instr) == LDI then 1 else 0)) % 0x100 == x.NextPc()
      && c.memWrite == MemStore(OpcodeOf(c.instr)) && c.memAddress == REG_OFFSET + DestOf(c.instr)
  {
    hide ExecPins, Source, MemStore;
  }

  /** The pins EXEC and STORE drive in sequence add up to the instruction's net effect. */
  lemma PinsAddUp(m: Machine, w: Word, imm: Word, source: Word)
    requires m.Sized()
    requires OpcodeOf(w) == STD ==> source == m.regs[SourceOf(w)]
    ensures StorePins(OpcodeOf(w), ExecPins(OpcodeOf(w), m.pins, source)) == NewPins(m, Decode(w, imm))
  {
  }

  /** Driving EXEC's pins on every waiting cycle is the same as driving them once. */
  lemma PinsSettle(op: Byte, p: Pins, source: Word)
    requires Waits(op)
    ensures ExecPins(op, ExecPins(op, p, 0), source) == ExecPins(op, p, source)
  {
  }

  lemma CommitPins(v: Design, s: System, x: Isa, e: Edge)
    requires x.Sized() && Executing(s, x)
    requires !Blocked(x.Current(), e.bus)
    ensures StoreCore(Tick(v, s, e).core).pins == Effect(v, x.m, x.Current(), e.bus).pins
  {
    var imm := if x.pc < 255 then x.prog[x.pc + 1] else x.m.regs[0];
    var source := Source(v, OpcodeOf(s.core.instr), s.readData, e.bus);
    PinsAddUp(x.m, x.prog[x.pc], imm, source);
    if s.core.pins != x.m.pins {
      PinsSettle(OpcodeOf(s.core.instr), x.m.pins, source);
    }
  }

  lemma CommitData(v: Design, s: System, x: Isa, e: Edge)
    requires x.Sized() && Executing(s, x)
    requires !Blocked(x.Current(), e.bus)
    ensures var c, m := Tick(v, s, e).core, Effect(v, x.m, x.Current(), e.bus);
      && c.cmpr == m.cmpr
      && m.regs == if MemStore(OpcodeOf(c.instr)) then x.m.regs[DestOf(c.instr) := c.memWriteData] else x.m.regs
  {
    hide ExecPins, NewPins;
  }

  /** EXEC, STORE and the address latch complete the instruction in three cycles. */
  lemma Complete(v: Design, s: System, x: Isa, e: Edge, e1: Edge, e2: Edge)
    requires x.Sized() && Executing(s, x)
    requires !Blocked(x.Current(), e.bus)
    ensures var s1 := Tick(v, s, e);
      var s2 := Tick(v, s1, e1);
      var s3 := Tick(v, s2, e2);
      s1.core.phase == Store && s2.core.phase == StoreFetch && Boundary(s3) && Abs(s3) == x.Step(v, e.bus)
  {
    CommitControl(v, s, x, e);
    CommitPins(v, s, x, e);
    CommitData(v, s, x, e);
    WriteBack(v, Tick(v, s, e), x, e.bus, e1, e2);
  }

  lemma WriteBack(v: Design, s: System, x: Isa, b: Bus, e1: Edge, e2: Edge)
    requires x.Sized() && Committed(v, s, x, b)
    ensures var s2 := Tick(v, s, e1);
      var s3 := Tick(v, s2, e2);
      s2.core.phase == StoreFetch && Boundary(s3) && Abs(s3) == x.Step(v, b)
  {
  }

  // ----- Runs of the clocked unit -----

  /** The position of the first edge, from `i` on, under which `op` commits. */
  function FirstClear(op: Op, es: seq<Edge>, i: nat): (k: nat)
    requires i <= |es|
    ensures i <= k <= |es|
    ensures forall j :: i <= j < k ==> Blocked(op, es[j].bus)
    ensures k < |es| ==> !Blocked(op, es[k].bus)
    decreases |es| - i
  {
    if i == |es| || !Blocked(op, es[i].bus) then i else FirstClear(op, es, i + 1)
  }

  lemma {:induction false} WaitRun(v: Design, s: System, x: Isa, es: seq<Edge>)
    requires x.Sized() && Executing(s, x) && !x.Current().Exit?
    requires forall j :: 0 <= j < |es| ==> Blocked(x.Current(), es[j].bus)
    ensures Executing(Run(v, s, es), x)
    decreases |es|
  {
    if es != [] {
      assert Blocked(x.Current(), es[0].bus);
      WaitCycle(v, s, x, es[0]);
      WaitRun(v, Tick(v, s, es[0]), x, es[1..]);
    }
  }

  /** Until its commit, an instruction other than EXIT is in LOAD and then in EXEC. */
  lemma UntilCommit(v: Design, s: System, es: seq<Edge>)
    requires s.Sized() && Boundary(s) && !Abs(s).Current().Exit? && 2 <= |es|
    requires forall j :: 2 <= j < |es| ==> Blocked(Abs(s).Current(), es[j].bus)
    ensures Executing(Run(v, s, es), Abs(s))
  {
    FetchAndLoad(v, s, es[0], es[1]);
    assert es[1..][1..] == es[2..];
    WaitRun(v, Tick(v, Tick(v, s, es[0]), es[1]), Abs(s), es[2..]);
  }

  /** Where the unit stands after a boundary and an unfinished instruction `op`. */
  function PhaseWithin(op: Op, es: seq<Edge>): Phase {
    if es == [] then Fetch
    else if |es| == 1 then Load
    else
      var k := FirstClear(op, es, 2);
      if |es| <= k then Exec else if |es| == k + 1 then Store else if |es| == k + 2 then StoreFetch else Fetch
  }

  /** From one boundary, an instruction that commits at edge `k` reaches the next boundary
      exactly three edges later, after five clocks and one more for each waiting clock,
      having performed one step of the instruction at `pc` under the sample of edge `k`. */
  lemma InstructionRefines(v: Design, s: System, es: seq<Edge>, k: nat)
    requires s.Sized() && Boundary(s) && 2 <= k
    requires k + 3 == |es| && k == FirstClear(Abs(s).Current(), es, 2)
    ensures Boundary(Run(v, s, es)) && Abs(Run(v, s, es)) == Abs(s).Step(v, es[k].bus)
  {
    hide Tick, Boundary, Executing, Abs, Effect;
    var c := Run(v, s, es[..k]);
    BeforeCommit(v, s, es, k);
    Complete(v, c, Abs(s), es[k], es[k + 1], es[k + 2]);
    RunSplit(v, s, es, k);
    assert es[k..] == [es[k], es[k + 1], es[k + 2]];
    RunFew(v, c, es[k], es[k + 1], es[k + 2]);
  }

  lemma BeforeCommit(v: Design, s: System, es: seq<Edge>, k: nat)
    requires s.Sized() && Boundary(s) && 2 <= k < |es|
    requires k == FirstClear(Abs(s).Current(), es, 2)
    ensures Executing(Run(v, s, es[..k]), Abs(s)) && !Blocked(Abs(s).Current(), es[k].bus)
  {
    hide Tick, Boundary, Executing, Abs, Effect, Decode;
    UntilCommit(v, s, es[..k]);
  }

  /** EXIT in EXEC: from here the unit only answers to `rst`. */
  predicate Halted(s: System) {
    s.Sized() && s.core.phase == Exec && OpcodeOf(s.core.instr) == EXIT && !s.core.memWrite
  }

  lemma {:induction false} ExitIsAbsorbing(v: Design, s: System, es: seq<Edge>)
    requires Halted(s) && es != []
    ensures Run(v, s, es).core == s.core.(stop := true)
    ensures Run(v, s, es).mem == s.mem && Halted(Run(v, s, es))
    decreases |es|
  {
    if |es| > 1 {
      ExitIsAbsorbing(v, Tick(v, s, es[0]), es[1..]);
    }
  }

  lemma ExitHalts(v: Design, s: System, e0: Edge, e1: Edge)
    requires s.Sized() && Boundary(s) && Abs(s).Current().Exit?
    ensures Halted(Run(v, s, [e0, e1])) && !Run(v, s, [e0, e1]).core.stop
  {
    hide NextCore;
    FetchAndLoad(v, s, e0, e1);
    RunFew(v, s, e0, e1, e1);
  }

  lemma WithinExit(v: Design, s: System, es: seq<Edge>)
    requires s.Sized() && Boundary(s) && Abs(s).Current().Exit? && 2 <= |es|
    ensures Run(v, s, es).core.phase == Exec
    ensures Run(v, s, es).core.stop <==> |es| >= 3
  {
    hide Tick, Abs;
    ExitHalts(v, s, es[0], es[1]);
    RunSplit(v, s, es, 2);
    assert es[..2] == [es[0], es[1]];
    if |es| >= 3 {
      ExitIsAbsorbing(v, Run(v, s, es[..2]), es[2..]);
    }
  }

  lemma AfterCommit(v: Design, s: System, es: seq<Edge>, k: nat)
    requires s.Sized() && Boundary(s) && 2 <= k < |es| < k + 3
    requires Executing(Run(v, s, es[..k]), Abs(s)) && !Blocked(Abs(s).Current(), es[k].bus)
    ensures Run(v, s, es).core.phase == (if |es| == k + 1 then Store else StoreFetch)
    ensures !Run(v, s, es).core.stop
  {
    hide Decode, Effect, FetchCore;
    var c := Run(v, s, es[..k]);
    CommitControl(v, c, Abs(s), es[k]);
    RunFew(v, c, es[k], es[|es| - 1], es[k]);
    RunSplit(v, s, es, k);
    assert es[k..] == if |es| == k + 1 then [es[k]] else [es[k], es[k + 1]];
  }

  /** Phase and stop flag inside an instruction, at every edge before its last. */
  lemma WithinInstruction(v: Design, s: System, es: seq<Edge>)
    requires s.Sized() && Boundary(s)
    requires |es| < 2 || |es| < FirstClear(Abs(s).Current(), es, 2) + 3
    ensures Run(v, s, es).core.phase == PhaseWithin(Abs(s).Current(), es)
    ensures Run(v, s, es).core.stop <==> Abs(s).Current().Exit? && |es| >= 3
  {
    hide Decode, Effect, ExecCore;
    if |es| == 1 {
      assert es == [es[0]];
      RunFew(v, s, es[0], es[0], es[0]);
    } else if |es| >= 2 {
      var k := FirstClear(Abs(s).Current(), es, 2);
      if Abs(s).Current().Exit? {
        WithinExit(v, s, es);
      } else if k == |es| {
        UntilCommit(v, s, es);
      } else {
        BeforeCommit(v, s, es, k);
        AfterCommit(v, s, es, k);
      }
    }
  }

  /** The instruction-level run over a clocked trace: whole instructions, then what is left. */
  datatype Progress = Progress(x: Isa, rest: seq<Edge>)

  function IsaRun(v: Design, x: Isa, es: seq<Edge>): (p: Progress)
    requires x.Sized()
    ensures p.x.Sized() && p.x.prog == x.prog
    ensures |p.rest| <= |es| && p.rest == es[|es| - |p.rest|..]
    decreases |es|
  {
    if |es| < 2 then Progress(x, es)
    else
      var k := FirstClear(x.Current(), es, 2);
      if k + 3 <= |es| then IsaRun(v, x.Step(v, es[k].bus), es[k + 3..]) else Progress(x, es)
  }

  lemma FirstClearPrefix(op: Op, es: seq<Edge>, i: nat, n: nat)
    requires i <= n <= |es| && FirstClear(op, es, i) < n
    ensures FirstClear(op, es[..n], i) == FirstClear(op, es, i)
    decreases n - i
  {
  }

  /** Running one instruction and then the rest is running the whole trace. */
  lemma RunChain(v: Design, s: System, es: seq<Edge>, m: nat, n: nat)
    requires s.Sized() && m <= n <= |es|
    ensures Run(v, s, es) == Run(v, Run(v, s, es[..m]), es[m..])
    ensures Run(v, s, es[..n]) == Run(v, Run(v, s, es[..m]), es[m..][..n - m])
  {
    RunSplit(v, s, es, m);
    RunSplit(v, s, es[..n], m);
    assert es[..n][..m] == es[..m] && es[..n][m..] == es[m..][..n - m];
  }

  /** The unit's state after `es`, told by an instruction-level run `p` over `es`. */
  predicate Tracks(v: Design, s: System, es: seq<Edge>, p: Progress)
    requires s.Sized() && p.x.Sized() && |p.rest| <= |es|
  {
    var t := Run(v, s, es[..|es| - |p.rest|]);
    && Boundary(t) && Abs(t) == p.x
    && Run(v, s, es).core.phase == PhaseWithin(p.x.Current(), p.rest)
    && (Run(v, s, es).core.stop <==> p.x.Current().Exit? && |p.rest| >= 3)
  }

  lemma TracksUnfinished(v: Design, s: System, es: seq<Edge>)
    requires s.Sized() && Boundary(s)
    requires |es| < 2 || |es| < FirstClear(Abs(s).Current(), es, 2) + 3
    ensures Tracks(v, s, es, Progress(Abs(s), es))
  {
    hide Decode, Tick, Boundary, PhaseWithin;
    WithinInstruction(v, s, es);
    assert es[..0] == [];
  }

  lemma TracksLater(v: Design, s: System, es: seq<Edge>, m: nat, p: Progress)
    requires s.Sized() && p.x.Sized() && m <= |es| && |p.rest| <= |es| - m
    requires Tracks(v, Run(v, s, es[..m]), es[m..], p)
    ensures Tracks(v, s, es, p)
  {
    hide Decode, Tick, Boundary, PhaseWithin, Abs;
    RunChain(v, s, es, m, |es| - |p.rest|);
  }

  /** The micro-architecture refines the instruction set on every run: whatever the 386
      does at each clock, the boundaries the unit passes are those of the instruction-level
      run with the same state, and between boundaries it is where that run says it is. */
  lemma {:induction false} RunRefines(v: Design, s: System, es: seq<Edge>)
    requires s.Sized() && Boundary(s)
    ensures Tracks(v, s, es, IsaRun(v, Abs(s), es))
    decreases |es|
  {
    hide Run, Decode, Effect, Boundary, Abs, PhaseWithin, Blocked, Tracks;
    var x := Abs(s);
    if |es| < 2 || FirstClear(x.Current(), es, 2) + 3 > |es| {
      TracksUnfinished(v, s, es);
    } else {
      var k := FirstClear(x.Current(), es, 2);
      FirstClearPrefix(x.Current(), es, 2, k + 3);
      InstructionRefines(v, s, es[..k + 3], k);
      RunRefines(v, Run(v, s, es[..k + 3]), es[k + 3..]);
      TracksLater(v, s, es, k + 3, IsaRun(v, x, es));
    }
  }

  /** An instruction-level run stops short of a whole instruction. */
  lemma {:induction false} RestIsUnfinished(v: Design, x: Isa, es: seq<Edge>)
    requires x.Sized()
    ensures var p := IsaRun(v, x, es);
      |p.rest| < 2 || |p.rest| < FirstClear(p.x.Current(), p.rest, 2) + 3
    decreases |es|
  {
    hide Decode, Effect, FirstClear;
    if |es| >= 2 {
      var k := FirstClear(x.Current(), es, 2);
      if k + 3 <= |es| {
        RestIsUnfinished(v, x.Step(v, es[k].bus), es[k + 3..]);
      }
    }
  }

  /** What an observer sees of a run: a boundary is in sight exactly when the
      instruction-level run is between instructions. */
  lemma RunObserved(v: Design, s: System, es: seq<Edge>)
    requires s.Sized() && Boundary(s)
    ensures var p := IsaRun(v, Abs(s), es);
      && Tracks(v, s, es, p)
      && (Run(v, s, es).core.phase == Fetch <==> p.rest == [])
  {
    hide Decode, Effect, Run, Boundary, Abs, IsaRun;
    RunRefines(v, s, es);
    RestIsUnfinished(v, Abs(s), es);
  }
}
