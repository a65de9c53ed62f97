/** The words a routine puts on the 386 buses and takes from them. */
module OcdEvents {
  import opened Words
  import opened OcdIsa
  import opened OcdFsm
  import opened OcdRefinement

  /** A word put on the data bus, a word taken from it, an address taken from the address
      bus, and a sample of the W/R# signal. */
  datatype Event = Drove(w: Word) | Sampled(w: Word) | Addressed(a: Address) | Directed(wr: bool)

  /** What one clock edge of the unit does to the buses. */
  function EdgeEvents(v: Design, s: System, b: Bus): seq<Event> {
    var op := OpcodeOf(s.core.instr);
    if s.core.phase == Exec && op == STD then [Drove(Source(v, op, s.readData, b))]
    else if s.core.phase == Exec && op == LDD then [Sampled(b.din)]
    else if s.core.phase == Exec && (op == LDAL || op == LDAH) then [Addressed(b.a)]
    else if s.core.phase == Exec && op == LDWR then [Directed(b.wr)]
    else []
  }

  function Observed(v: Design, s: System, es: seq<Edge>): seq<Event>
    requires s.Sized()
    decreases |es|
  {
    if es == [] then [] else EdgeEvents(v, s, es[0].bus) + Observed(v, Tick(v, s, es[0]), es[1..])
  }

  /** What one instruction does to the buses. */
  function OpEvents(m: Machine, op: Op, b: Bus): seq<Event>
    requires m.Sized()
  {
    match op
    case Std(s) => [Drove(m.regs[s])]
    case Ldd(_) => [Sampled(b.din)]
    case Ldal(_) => [Addressed(b.a)]
    case Ldah(_) => [Addressed(b.a)]
    case Ldwr(_) => [Directed(b.wr)]
    case _ => []
  }

  function IsaEvents(v: Design, x: Isa, es: seq<Edge>): seq<Event>
    requires x.Sized()
    decreases |es|
  {
    if |es| < 2 then []
    else
      var k := FirstClear(x.Current(), es, 2);
      if k + 3 > |es| then []
      else OpEvents(x.m, x.Current(), es[k].bus) + IsaEvents(v, x.Step(v, es[k].bus), es[k + 3..])
  }

  lemma {:induction false} ObservedSplit(v: Design, s: System, es: seq<Edge>, k: nat)
    requires s.Sized() && k <= |es|
    ensures Observed(v, s, es) == Observed(v, s, es[..k]) + Observed(v, Run(v, s, es[..k]), es[k..])
    decreases k
  {
    hide Tick, EdgeEvents;
    if k == 0 {
      assert es[k..] == es;
    } else {
      var t, now := Tick(v, s, es[0]), EdgeEvents(v, s, es[0].bus);
      ObservedSplit(v, t, es[1..], k - 1);
      assert es[..k][1..] == es[1..][..k - 1] && es[k..] == es[1..][k - 1..];
      var later, last := Observed(v, t, es[1..][..k - 1]), Observed(v, Run(v, t, es[1..][..k - 1]), es[k..]);
      assert now + (later + last) == (now + later) + last;
    }
  }

  lemma ObservedChain(v: Design, s: System, es: seq<Edge>, m: nat, n: nat)
    requires s.Sized() && m <= n <= |es|
    ensures Observed(v, s, es[..n]) == Observed(v, s, es[..m]) + Observed(v, Run(v, s, es[..m]), es[m..][..n - m])
  {
    hide Observed, Run;
    ObservedSplit(v, s, es[..n], m);
    assert es[..n][..m] == es[..m] && es[..n][m..] == es[m..][..n - m];
  }

  /** An instruction that is kept waiting touches no data meanwhile. */
  lemma {:induction false} WaitingIsSilent(v: Design, s: System, x: Isa, es: seq<Edge>)
    requires x.Sized() && Executing(s, x) && !x.Current().Exit?
    requires forall j :: 0 <= j < |es| ==> Blocked(x.Current(), es[j].bus)
    ensures Observed(v, s, es) == []
    decreases |es|
  {
    if es != [] {
      assert Blocked(x.Current(), es[0].bus);
      WaitCycle(v, s, x, es[0]);
      WaitingIsSilent(v, Tick(v, s, es[0]), x, es[1..]);
    }
  }

  lemma HaltedIsSilent(v: Design, s: System, es: seq<Edge>)
    requires Halted(s)
    ensures Observed(v, s, es) == []
    decreases |es|
  {
    if es != [] {
      HaltedIsSilent(v, Tick(v, s, es[0]), es[1..]);
    }
  }

  lemma ObservedFew(v: Design, s: System, e0: Edge, e1: Edge, e2: Edge)
    requires s.Sized()
    ensures Observed(v, s, [e0, e1]) == EdgeEvents(v, s, e0.bus) + EdgeEvents(v, Tick(v, s, e0), e1.bus)
    ensures Observed(v, s, [e0, e1, e2]) ==
            EdgeEvents(v, s, e0.bus) + EdgeEvents(v, Tick(v, s, e0), e1.bus)
            + EdgeEvents(v, Tick(v, Tick(v, s, e0), e1), e2.bus)
  {
    hide Tick, EdgeEvents;
    assert [e0, e1, e2][1..] == [e1, e2] && [e1, e2][1..] == [e2] && [e0, e1][1..] == [e1];
    assert forall t: System, e: Edge {:trigger Observed(v, t, [e])} :: t.Sized() ==>
             Observed(v, t, [e]) == EdgeEvents(v, t, e.bus);
    assert Observed(v, Tick(v, s, e0), [e1, e2]) == EdgeEvents(v, Tick(v, s, e0), e1.bus)
           + Observed(v, Tick(v, Tick(v, s, e0), e1), [e2]);
  }

  /** FETCH and LOAD, and the two clocks after EXEC, touch no data. */
  lemma QuietPhases(v: Design, s: System, e0: Edge, e1: Edge)
    requires s.Sized()
    requires s.core.phase == Fetch || s.core.phase == Store
    ensures Observed(v, s, [e0, e1]) == []
  {
    ObservedFew(v, s, e0, e1, e1);
  }

  lemma CommitObserved(v: Design, s: System, x: Isa, e: Edge, e1: Edge, e2: Edge)
    requires x.Sized() && Executing(s, x) && !Blocked(x.Current(), e.bus)
    ensures Observed(v, s, [e, e1, e2]) == OpEvents(x.m, x.Current(), e.bus)
  {
    hide ExecCore, FetchCore, StorePins;
    CommitControl(v, s, x, e);
    ObservedFew(v, s, e, e1, e2);
  }

  /** One instruction's clocks show exactly its effect on the data bus. */
  lemma InstructionObserved(v: Design, s: System, es: seq<Edge>, k: nat)
    requires s.Sized() && Boundary(s) && 2 <= k
    requires k + 3 == |es| && k == FirstClear(Abs(s).Current(), es, 2)
    ensures Observed(v, s, es) == OpEvents(Abs(s).m, Abs(s).Current(), es[k].bus)
  {
    hide Tick, Executing, Abs, Observed, EdgeEvents, OpEvents;
    var c := Run(v, s, es[..k]);
    BeforeCommit(v, s, es, k);
    ObservedSplit(v, s, es, k);
    assert es[k..] == [es[k], es[k + 1], es[k + 2]];
    CommitObserved(v, c, Abs(s), es[k], es[k + 1], es[k + 2]);
    BeforeCommitSilent(v, s, es[..k]);
  }

  lemma BeforeCommitSilent(v: Design, s: System, es: seq<Edge>)
    requires s.Sized() && Boundary(s) && 2 <= |es|
    requires forall j :: 2 <= j < |es| ==> Blocked(Abs(s).Current(), es[j].bus)
    ensures Observed(v, s, es) == []
  {
    hide Tick, Abs, Observed, EdgeEvents, Executing;
    ObservedSplit(v, s, es, 2);
    assert es[..2] == [es[0], es[1]];
    QuietPhases(v, s, es[0], es[1]);
    RunFew(v, s, es[0], es[1], es[1]);
    if Abs(s).Current().Exit? {
      ExitHalts(v, s, es[0], es[1]);
      HaltedIsSilent(v, Run(v, s, es[..2]), es[2..]);
    } else {
      FetchAndLoad(v, s, es[0], es[1]);
      WaitingIsSilent(v, Run(v, s, es[..2]), Abs(s), es[2..]);
    }
  }

  lemma IsaEventsUnfold(v: Design, x: Isa, es: seq<Edge>)
    requires x.Sized()
    ensures |es| < 2 || FirstClear(x.Current(), es, 2) + 3 > |es| ==>
              IsaEvents(v, x, es) == [] && IsaRun(v, x, es) == Progress(x, es)
    ensures |es| >= 2 && FirstClear(x.Current(), es, 2) + 3 <= |es| ==>
              var k := FirstClear(x.Current(), es, 2);
              && IsaEvents(v, x, es) == OpEvents(x.m, x.Current(), es[k].bus)
                 + IsaEvents(v, x.Step(v, es[k].bus), es[k + 3..])
              && IsaRun(v, x, es) == IsaRun(v, x.Step(v, es[k].bus), es[k + 3..])
  {
    hide Decode, Effect, FirstClear, OpEvents, Isa.Step, Isa.Current, Jumps, Blocked;
  }

  /** Up to the last boundary passed, the unit's data traffic is that of the instructions. */
  lemma {:induction false} EventsRefine(v: Design, s: System, es: seq<Edge>)
    requires s.Sized() && Boundary(s)
    ensures var p := IsaRun(v, Abs(s), es);
      Observed(v, s, es[..|es| - |p.rest|]) == IsaEvents(v, Abs(s), es)
    decreases |es|
  {
    hide Run, Decode, Effect, Boundary, Abs, Blocked, Observed, IsaEvents, OpEvents, IsaRun, FirstClear, Tick, Isa.Step,
         Isa.Current;
    var x := Abs(s);
    IsaEventsUnfold(v, x, es);
    if |es| < 2 || FirstClear(x.Current(), es, 2) + 3 > |es| {
      NothingObserved(v, s, es);
    } else {
      var k := FirstClear(x.Current(), es, 2);
      var head, tail, b := es[..k + 3], es[k + 3..], es[k].bus;
      assert head[k].bus == b;
      FirstClearPrefix(x.Current(), es, 2, k + 3);
      InstructionRefines(v, s, head, k);
      InstructionObserved(v, s, head, k);
      var t := Run(v, s, head);
      EventsRefine(v, t, tail);
      var p := IsaRun(v, x.Step(v, b), tail);
      var n := |es| - |p.rest|;
      assert Abs(t) == x.Step(v, b) && n - (k + 3) == |tail| - |p.rest|;
      ObservedChain(v, s, es, k + 3, n);
      assert Observed(v, t, tail[..n - (k + 3)]) == IsaEvents(v, x.Step(v, b), tail);
    }
  }

  lemma NothingObserved(v: Design, s: System, es: seq<Edge>)
    requires s.Sized()
    ensures Observed(v, s, es[..0]) == []
  {
  }

  /** Stopping in EXIT keeps registers, compare register and pins, and moves no data. */
  lemma ExitKeepsEverything(v: Design, s: System, es: seq<Edge>)
    requires s.Sized() && Boundary(s) && Abs(s).Current().Exit? && |es| >= 3
    ensures Abs(Run(v, s, es)).m == Abs(s).m && Observed(v, s, es) == []
  {
    hide Observed;
    var t := Run(v, s, es[..2]);
    assert es[..2] == [es[0], es[1]];
    FetchAndLoad(v, s, es[0], es[1]);
    RunFew(v, s, es[0], es[1], es[1]);
    ExitHalts(v, s, es[0], es[1]);
    RunSplit(v, s, es, 2);
    ExitIsAbsorbing(v, t, es[2..]);
    BeforeCommitSilent(v, s, es);
    assert t.core.cmpr == s.core.cmpr && t.core.pins == s.core.pins && t.mem[256..272] == s.mem[256..272];
  }
}
