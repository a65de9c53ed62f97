/** The break routine: from NMI to a saved context, and the decision between the modes. */
module OcdBreak {
  import opened Words
  import opened Wrappers
  import opened AsmAst
  import opened AsmSynth
  import opened AsmMeaning
  import opened AsmSemantics
  import opened EndToEnd
  import opened StraightLine
  import opened OcdEvents
  import opened OcdStretches
  import Isa = OcdIsa
  import Fsm = OcdFsm

  /** Raise NMI, wait for the locked vector fetch, note its address, compare its low word. */
  function Entry(): (ops: seq<Operation>)
    ensures Branchless(ops) && |ops| == 7
  {
    [Nmi, Waitlock] + (([Ldal(2)] + [Ldah(3)]) + Compare(2, 0x0008))
  }

  lemma EntryFold(hw: Design, m: Isa.Machine, bs: seq<Isa.Bus>)
    requires m.Sized() && |bs| == 7
    ensures var (m', evs) := Fold(hw, Entry(), m, bs);
      && evs == [Addressed(bs[2].a), Addressed(bs[3].a)]
      && m'.regs[2] == Isa.AddressLow(hw, bs[2].a) && m'.regs[3] == Isa.AddressHigh(hw, bs[3].a)
      && m'.cmpr == Bit(0x0008 == m'.regs[2])
  {
    hide Fold, Isa.AddressLow, Isa.AddressHigh, Compare;
    var wait, latch := [Nmi, Waitlock], [Ldal(2)] + [Ldah(3)];
    SilentFold(hw, wait, m, bs[..2]);
    var m1 := Fold(hw, wait, m, bs[..2]).0;
    LdalOne(hw, 2, m1, bs[2..4][..1]);
    var m2 := Fold(hw, [Ldal(2)], m1, bs[2..4][..1]).0;
    LdahOne(hw, 3, m2, bs[2..4][1..]);
    var m3 := Fold(hw, [Ldah(3)], m2, bs[2..4][1..]).0;
    FoldConcat(hw, [Ldal(2)], [Ldah(3)], m1, bs[2..4]);
    CompareFold(hw, 2, 0x0008, m3, bs[4..]);
    FoldConcat(hw, latch, Compare(2, 0x0008), m1, bs[2..]);
    assert bs[2..][..2] == bs[2..4] && bs[2..][2..] == bs[4..];
    FoldConcat(hw, wait, latch + Compare(2, 0x0008), m, bs);
    var evs: seq<Event> := [Addressed(bs[2].a)] + [Addressed(bs[3].a)];
    assert [] + (evs + []) == evs;
  }

  /** An interrupt gate and a code segment descriptor for the CPU to fetch. */
  const DESCRIPTORS: seq<Word> := [0x8E00, 0x000D, 0x0000, 0x0008, 0x9A00, 0x00CF, 0xFFFF, 0x0000]

  function Saved(): (ops: seq<Operation>)
    ensures Branchless(ops) && |ops| == 14
  {
    Captures(2, 4)
  }

  /** The protected-mode path: descriptors, one NOP pair, then the five words the CPU pushes. */
  function ProtectedOps(): (ops: seq<Operation>)
    ensures Branchless(ops) && |ops| == 45
  {
    BranchlessParts(ProtectedFront(), ProtectedBack());
    ProtectedFront() + ProtectedBack()
  }

  function ProtectedFront(): (ops: seq<Operation>)
    ensures Branchless(ops) && |ops| == 26
  {
    BranchlessParts(Drives(DESCRIPTORS), [Ready, Waitads]);
    Drives(DESCRIPTORS) + [Ready, Waitads]
  }

  function ProtectedBack(): (ops: seq<Operation>)
    ensures Branchless(ops) && |ops| == 19
  {
    BranchlessParts(Saved(), [Ldi(1, 1)] + [Hold]);
    BranchlessParts(Drives([0x9090]), Saved() + ([Ldi(1, 1)] + [Hold]));
    Drives([0x9090]) + (Saved() + ([Ldi(1, 1)] + [Hold]))
  }

  function RealOps(): (ops: seq<Operation>)
    ensures Branchless(ops) && |ops| == 7
  {
    [Ldi(1, 0x0000), Std(1), Waitads, Ldi(1, 0xD000), Std(1), Clr(1), Hold]
  }

  lemma FrontFold(hw: Design, m: Isa.Machine, bs: seq<Isa.Bus>)
    requires m.Sized() && |bs| == 26
    ensures Branchless(Drives(DESCRIPTORS) + [Ready, Waitads])
    ensures Fold(hw, Drives(DESCRIPTORS) + [Ready, Waitads], m, bs).1 == Driving(DESCRIPTORS)
  {
    hide Fold, Drives, Driving;
    var m1 := Fold(hw, Drives(DESCRIPTORS), m, bs[..24]).0;
    DrivesFold(hw, DESCRIPTORS, m, bs[..24]);
    SilentFold(hw, [Ready, Waitads], m1, bs[24..]);
    FoldConcat(hw, Drives(DESCRIPTORS), [Ready, Waitads], m, bs);
    assert Driving(DESCRIPTORS) + [] == Driving(DESCRIPTORS);
  }

  lemma SavedFold(hw: Design, m: Isa.Machine, bs: seq<Isa.Bus>)
    requires m.Sized() && |bs| == 16
    ensures Branchless(Saved() + ([Ldi(1, 1)] + [Hold]))
    ensures var (m', evs) := Fold(hw, Saved() + ([Ldi(1, 1)] + [Hold]), m, bs);
      && evs == Capturing(Samples(evs)) && |Samples(evs)| == 5
      && m'.regs[2..7] == Samples(evs) && m'.regs[1] == 1
  {
    hide Fold, Captures, Capturing, Samples;
    CapturesFold(hw, 2, 4, m, bs[..14]);
    var (m1, evs) := Fold(hw, Saved(), m, bs[..14]);
    LdiOne(hw, 1, 1, m1, bs[14..][..1]);
    var m2 := Fold(hw, [Ldi(1, 1)], m1, bs[14..][..1]).0;
    SilentFold(hw, [Hold], m2, bs[14..][1..]);
    FoldConcat(hw, [Ldi(1, 1)], [Hold], m1, bs[14..]);
    FoldConcat(hw, Saved(), [Ldi(1, 1)] + [Hold], m, bs);
    assert evs + [] == evs;
  }

  /** On the protected path the routine drives the descriptors and a NOP pair, and R2..R6 end
      as the five words sampled after that, in order. */
  lemma ProtectedFold(hw: Design, m: Isa.Machine, bs: seq<Isa.Bus>)
    requires m.Sized() && |bs| == 45
    ensures var (m', evs) := Fold(hw, ProtectedOps(), m, bs);
      && evs == Driving(DESCRIPTORS + [0x9090]) + Capturing(Samples(evs)) && |Samples(evs)| == 5
      && m'.regs[2..7] == Samples(evs) && m'.regs[1] == 1
  {
    hide Fold, Drives, Saved, Samples, Capturing;
    var front, save := Drives(DESCRIPTORS) + [Ready, Waitads], Saved() + ([Ldi(1, 1)] + [Hold]);
    FrontFold(hw, m, bs[..26]);
    var m1 := Fold(hw, front, m, bs[..26]).0;
    DrivesFold(hw, [0x9090], m1, bs[26..][..3]);
    var m2 := Fold(hw, Drives([0x9090]), m1, bs[26..][..3]).0;
    SavedFold(hw, m2, bs[26..][3..]);
    var evs := Fold(hw, save, m2, bs[26..][3..]).1;
    FoldConcat(hw, Drives([0x9090]), save, m1, bs[26..]);
    FoldConcat(hw, front, Drives([0x9090]) + save, m, bs);
    assert Driving(DESCRIPTORS) + (Driving([0x9090]) + evs) == Driving(DESCRIPTORS + [0x9090]) + evs;
    SamplesConcat(Driving(DESCRIPTORS + [0x9090]), evs);
    DrivingOnly(DESCRIPTORS + [0x9090]);
    assert [] + Samples(evs) == Samples(evs);
  }

  /** In real mode R1 ends as 0. */
  lemma RealFold(hw: Design, m: Isa.Machine, bs: seq<Isa.Bus>)
    requires m.Sized() && |bs| == 7
    ensures Fold(hw, RealOps(), m, bs).0.regs[1] == 0
  {
    hide Fold;
    var before := [Ldi(1, 0x0000), Std(1), Waitads, Ldi(1, 0xD000), Std(1)];
    var last := [Clr(1)] + [Hold];
    assert RealOps() == before + last;
    FoldConcat(hw, before, last, m, bs);
    var m1 := Fold(hw, before, m, bs[..5]).0;
    FoldConcat(hw, [Clr(1)], [Hold], m1, bs[5..]);
    FoldOne(hw, Clr(1), m1, bs[5..][..1]);
    SilentFold(hw, [Hold], Fold(hw, [Clr(1)], m1, bs[5..][..1]).0, bs[5..][1..]);
  }

  const PROTECTED_LABEL := "break_protected_mode"
  const REAL_LABEL := "break_real_mode"

  /** The break routine; `first` is the operation of its first branch. */
  function BreakItems(first: Operation): (items: seq<Item>)
    ensures |items| == 66
  {
    Lines(Entry()) + [Item(None, first, Id(PROTECTED_LABEL)), Item(None, Ldcmp(3), NoOp),
                      Item(None, Beq, Id(REAL_LABEL))]
    + [Item(Some(PROTECTED_LABEL), Ud, NoOp)] + Lines(ProtectedOps() + [Exit])
    + [Item(Some(REAL_LABEL), Ud, NoOp)] + Lines(RealOps() + [Exit])
  }

  const PROTECTED_AT := 11
  const REAL_AT := 58

  lemma BreakLayout(first: Operation)
    ensures var items := BreakItems(first);
      && StandAt(items, 0, Entry()) && items[7] == Item(None, first, Id(PROTECTED_LABEL))
      && items[8] == Item(None, Ldcmp(3), NoOp) && items[9] == Item(None, Beq, Id(REAL_LABEL))
      && StandAt(items, PROTECTED_AT, ProtectedOps()) && items[PROTECTED_AT + 45].op == Exit
      && StandAt(items, REAL_AT, RealOps()) && items[REAL_AT + 7].op == Exit
      && items[10] == Item(Some(PROTECTED_LABEL), Ud, NoOp) && items[57] == Item(Some(REAL_LABEL), Ud, NoOp)
      && (forall i :: 0 <= i < 66 && i != 10 && i != 57 ==> items[i].tag == None)
  {
    hide Entry, ProtectedOps, RealOps;
  }

  /** What the protected path leaves: the five words sampled are in R2..R6, and R1 is 1. */
  predicate SavedContext(m: Isa.Machine, evs: seq<Event>)
    requires m.Sized()
  {
    && |Samples(evs)| == 5 && m.regs[2..7] == Samples(evs) && m.regs[1] == 1
    && Droves(evs) == DESCRIPTORS + [0x9090]
  }

  lemma FromProtected(hw: Design, first: Operation, m: Isa.Machine, es: seq<Fsm.Edge>)
    requires m.Sized() && BreakItems(first)[PROTECTED_AT].op != Ud
    ensures var r := SourceRun(hw, BreakItems(first), PROTECTED_AT, m, es);
      r.place.At? && PROTECTED_AT <= r.place.i <= 56 && (r.place.i == 56 ==> SavedContext(r.m, r.events))
  {
    hide Fold, BreakItems, SourceRun, Commits, ProtectedOps, Droves, Samples, Driving, Capturing;
    BreakLayout(first);
    var ops, bs := ProtectedOps(), Commits(ProtectedOps(), es);
    StretchToExit(hw, BreakItems(first), PROTECTED_AT, ops, m, es);
    if |bs| == 45 {
      assert ops[..45] == ops;
      ProtectedFold(hw, m, bs);
      var ss := Samples(Fold(hw, ops, m, bs).1);
      DrovesConcat(Driving(DESCRIPTORS + [0x9090]), Capturing(ss));
      DrivingOnly(DESCRIPTORS + [0x9090]);
      CapturingOnly(ss);
      assert DESCRIPTORS + [0x9090] + [] == DESCRIPTORS + [0x9090];
    }
  }

  lemma FromReal(hw: Design, first: Operation, m: Isa.Machine, es: seq<Fsm.Edge>)
    requires m.Sized() && BreakItems(first)[REAL_AT].op != Ud
    ensures var r := SourceRun(hw, BreakItems(first), REAL_AT, m, es);
      r.place.At? && REAL_AT <= r.place.i <= 65 && (r.place.i == 65 ==> r.m.regs[1] == 0)
  {
    hide Fold, BreakItems, SourceRun, Commits, RealOps, Branchless;
    BreakLayout(first);
    var ops, bs := RealOps(), Commits(RealOps(), es);
    StretchToExit(hw, BreakItems(first), REAL_AT, ops, m, es);
    if |bs| == 7 {
      assert ops[..7] == ops;
      RealFold(hw, m, bs);
    }
  }

  lemma BreakDestinations(first: Operation)
    requires first == Bne || first == Beq
    ensures var items := BreakItems(first);
      && Destination(items, Id(PROTECTED_LABEL)) == Some(10) && Settle(items, 10) == At(PROTECTED_AT)
      && Destination(items, Id(REAL_LABEL)) == Some(57) && Settle(items, 57) == At(REAL_AT)
      && Settle(items, 7) == At(7) && Settle(items, 8) == At(8) && Settle(items, 9) == At(9)
      && items[PROTECTED_AT].op != Ud && items[REAL_AT].op != Ud && items[0].op != Ud
  {
    hide BreakItems, Entry, ProtectedOps, RealOps;
    BreakLayout(first);
    var items := BreakItems(first);
    assert ProtectedOps()[0] != Ud && RealOps()[0] != Ud && Entry()[0] != Ud;
    assert items[PROTECTED_AT + 0].op == ProtectedOps()[0] && items[REAL_AT + 0].op == RealOps()[0];
    assert items[0 + 0].op == Entry()[0];
    assert PROTECTED_LABEL != REAL_LABEL by {
      assert |PROTECTED_LABEL| != |REAL_LABEL|;
    }
    assert items[10].tag == Some(PROTECTED_LABEL) && items[57].tag == Some(REAL_LABEL);
  }

  /** A branch changes nothing but the place. */
  lemma BranchRuns(hw: Design, items: seq<Item>, i: nat, m: Isa.Machine, es: seq<Fsm.Edge>)
    requires i < |items| && IsBranch(items[i].op) && m.Sized() && After(items, i, m).At?
    ensures var r, c := SourceRun(hw, items, i, m, es), Commit(Lower(items[i].op, 0), es);
      r == if c.None? then Running(At(i), m, [], es) else SourceRun(hw, items, After(items, i, m).i, m, c.value.1)
  {
    hide SourceRun, After, Commit, Lower, Isa.Effect, OpEvents;
    SourceRunCommits(hw, items, i, m, es);
    var op := Lower(items[i].op, 0);
    if Commit(op, es).Some? {
      var (b, rest) := Commit(op, es).value;
      BranchInert(hw, m, items[i].op, 0, b);
      var q := SourceRun(hw, items, After(items, i, m).i, m, rest);
      assert [] + q.events == q.events;
    }
  }

  /** Whether the routine, having compared the low word of the address, goes on to look at
      the high byte. With BNE it does if the low word is the NMI vector's. */
  predicate LooksHigh(first: Operation, cmpr: Word) {
    (first == Bne && cmpr != 0) || (first == Beq && cmpr == 0)
  }

  /** The control flow of the routine's head. */
  lemma BreakAfter(first: Operation, m: Isa.Machine)
    requires first == Bne || first == Beq
    ensures var items := BreakItems(first);
      && items[7].op == first && items[8].op == Ldcmp(3) && items[9].op == Beq
      && items[PROTECTED_AT].op != Ud && items[REAL_AT].op != Ud
      && After(items, 7, m) == (if LooksHigh(first, m.cmpr) then At(8) else At(PROTECTED_AT))
      && After(items, 8, m) == At(9)
      && After(items, 9, m) == if m.cmpr != 0 then At(REAL_AT) else At(PROTECTED_AT)
  {
    hide BreakItems, Destination, Settle;
    BreakHead(first);
    BreakDestinations(first);
  }

  lemma BreakHead(first: Operation)
    ensures var items := BreakItems(first);
      && items[7] == Item(None, first, Id(PROTECTED_LABEL)) && items[8] == Item(None, Ldcmp(3), NoOp)
      && items[9] == Item(None, Beq, Id(REAL_LABEL))
  {
    hide BreakItems, StandAt;
    BreakLayout(first);
  }

  /** The account of a run that started at or after the first branch: it is on the way to
      one of the two ends, and only a real-mode candidate gets to the second. */
  predicate BreakEnds(realMode: bool, r: Running) {
    && r.place.At? && r.m.Sized()
    && (r.place.i == 56 ==> !realMode && SavedContext(r.m, r.events))
    && (r.place.i == 65 ==> realMode && r.m.regs[1] == 0)
  }

  lemma ProtectedEnds(hw: Design, first: Operation, m: Isa.Machine, es: seq<Fsm.Edge>)
    requires m.Sized() && BreakItems(first)[PROTECTED_AT].op != Ud
    ensures BreakEnds(false, SourceRun(hw, BreakItems(first), PROTECTED_AT, m, es))
  {
    hide BreakItems, SourceRun, SavedContext;
    FromProtected(hw, first, m, es);
  }

  lemma RealEnds(hw: Design, first: Operation, m: Isa.Machine, es: seq<Fsm.Edge>)
    requires m.Sized() && BreakItems(first)[REAL_AT].op != Ud
    ensures BreakEnds(true, SourceRun(hw, BreakItems(first), REAL_AT, m, es))
  {
    hide BreakItems, SourceRun, SavedContext;
    FromReal(hw, first, m, es);
  }

  lemma NotYetEnded(realMode: bool, i: nat, m: Isa.Machine, es: seq<Fsm.Edge>)
    requires m.Sized() && i < 10
    ensures BreakEnds(realMode, Running(At(i), m, [], es))
  {
  }

  lemma FromSecondBranch(hw: Design, first: Operation, m: Isa.Machine, es: seq<Fsm.Edge>)
    requires (first == Bne || first == Beq) && m.Sized() && BreakItems(first)[9].op != Ud
    ensures BreakEnds(m.cmpr != 0, SourceRun(hw, BreakItems(first), 9, m, es))
  {
    hide BreakItems, SourceRun, BreakEnds, After, Commit, Lower;
    BreakAfter(first, m);
    var items := BreakItems(first);
    BranchRuns(hw, items, 9, m, es);
    NotYetEnded(m.cmpr != 0, 9, m, es);
    if Commit(Lower(items[9].op, 0), es).Some? {
      var rest := Commit(Lower(items[9].op, 0), es).value.1;
      if m.cmpr != 0 {
        RealEnds(hw, first, m, rest);
      } else {
        ProtectedEnds(hw, first, m, rest);
      }
    }
  }

  lemma FromLoadHigh(hw: Design, first: Operation, m: Isa.Machine, es: seq<Fsm.Edge>)
    requires (first == Bne || first == Beq) && m.Sized() && BreakItems(first)[8].op != Ud
    ensures BreakEnds(m.regs[3] != 0, SourceRun(hw, BreakItems(first), 8, m, es))
  {
    hide BreakItems, SourceRun, Commit, SavedContext, After;
    BreakAfter(first, m);
    var items := BreakItems(first);
    SourceRunCommits(hw, items, 8, m, es);
    var op := Lower(Ldcmp(3), 0);
    if Commit(op, es).Some? {
      var (b, rest) := Commit(op, es).value;
      FromSecondBranch(hw, first, Isa.Effect(hw, m, op, b), rest);
      var q := SourceRun(hw, items, 9, Isa.Effect(hw, m, op, b), rest);
      assert OpEvents(m, op, b) + q.events == q.events;
    }
  }

  lemma FromFirstBranch(hw: Design, first: Operation, m: Isa.Machine, es: seq<Fsm.Edge>)
    requires (first == Bne || first == Beq) && m.Sized() && BreakItems(first)[7].op != Ud
    ensures BreakEnds(LooksHigh(first, m.cmpr) && m.regs[3] != 0, SourceRun(hw, BreakItems(first), 7, m, es))
  {
    hide BreakItems, SourceRun, BreakEnds, After, LooksHigh, Commit, Lower;
    BreakAfter(first, m);
    var items := BreakItems(first);
    BranchRuns(hw, items, 7, m, es);
    NotYetEnded(LooksHigh(first, m.cmpr) && m.regs[3] != 0, 7, m, es);
    if Commit(Lower(items[7].op, 0), es).Some? {
      var rest := Commit(Lower(items[7].op, 0), es).value.1;
      if LooksHigh(first, m.cmpr) {
        FromLoadHigh(hw, first, m, rest);
      } else {
        ProtectedEnds(hw, first, m, rest);
      }
    }
  }

  /** The two addresses a break noted, if it got that far. */
  function Addresses(evs: seq<Event>): Option<(Address, Address)> {
    if |evs| >= 2 && evs[0].Addressed? && evs[1].Addressed? then Some((evs[0].a, evs[1].a)) else None
  }

  /** The condition under which the routine takes the CPU to be in real mode. */
  predicate TakenForReal(hw: Design, first: Operation, low: Address, high: Address) {
    LooksHigh(first, Bit(0x0008 == Isa.AddressLow(hw, low))) && Isa.AddressHigh(hw, high) != 0
  }

  /** The break routine under any bus timing: it never leaves its own code; it stops at the
      end of the protected path with the saved context, or at the end of the real-mode path
      with R1 zero; and which of the two is decided by the addresses it noted. */
  lemma BreakRuns(hw: Design, first: Operation, m: Isa.Machine, es: seq<Fsm.Edge>)
    requires (first == Bne || first == Beq) && m.Sized()
    ensures BreakItems(first)[0].op != Ud
    ensures var r := SourceRun(hw, BreakItems(first), 0, m, es);
      && r.place.At? && r.m.Sized()
      && (r.place.i == 56 ==> SavedContext(r.m, r.events))
      && (r.place.i == 65 ==> r.m.regs[1] == 0)
      && (r.place.i == 56 || r.place.i == 65 ==>
            && Addresses(r.events).Some?
            && (r.place.i == 65 <==> TakenForReal(hw, first, Addresses(r.events).value.0, Addresses(r.events).value.1)))
  {
    hide BreakItems, SourceRun, Fold, Commits, Straight, SavedContext, Entry, Isa.AddressHigh, Isa.AddressLow,
         LooksHigh;
    BreakEntry(first);
    EntryRuns(hw, first, m, es);
    var r0 := Straight(hw, Entry(), m, es);
    if r0.left == [] {
      EntryFold(hw, m, Commits(Entry(), es));
      FromFirstBranch(hw, first, r0.m, r0.rest);
      SavedLater(r0.events, SourceRun(hw, BreakItems(first), 7, r0.m, r0.rest));
    }
  }

  lemma BreakEntry(first: Operation)
    requires first == Bne || first == Beq
    ensures var items := BreakItems(first);
      StandAt(items, 0, Entry()) && items[0].op != Ud && items[7].op != Ud && Settle(items, 7) == At(7)
  {
    hide BreakItems, Entry, ProtectedOps, RealOps;
    BreakLayout(first);
    BreakDestinations(first);
  }

  /** The head of the routine: unfinished, or finished and on to its first branch. */
  lemma EntryRuns(hw: Design, first: Operation, m: Isa.Machine, es: seq<Fsm.Edge>)
    requires (first == Bne || first == Beq) && m.Sized()
    requires BreakItems(first)[0].op != Ud && BreakItems(first)[7].op != Ud
    ensures var r, r0 := SourceRun(hw, BreakItems(first), 0, m, es), Straight(hw, Entry(), m, es);
      var bs := Commits(Entry(), es);
      && (r0.left != [] ==> r.place.At? && r.place.i < 7 && r.m.Sized())
      && (r0.left == [] ==>
            && |bs| == 7 && (r0.m, r0.events) == Fold(hw, Entry(), m, bs)
            && var q := SourceRun(hw, BreakItems(first), 7, r0.m, r0.rest);
               r == Running(q.place, q.m, r0.events + q.events, q.rest))
  {
    hide BreakItems, SourceRun, Fold, Commits, Straight, Entry, StandAt, Settle;
    BreakEntry(first);
    StretchRuns(hw, BreakItems(first), 0, Entry(), m, es);
    StraightIsFold(hw, Entry(), m, es);
    assert Entry()[..7] == Entry();
  }

  lemma SavedLater(before: seq<Event>, r: Running)
    requires |before| == 2 && before[0].Addressed? && before[1].Addressed? && r.m.Sized()
    ensures SavedContext(r.m, r.events) ==> SavedContext(r.m, before + r.events)
  {
    DrovesConcat(before, r.events);
    SamplesConcat(before, r.events);
    assert before[1..][1..] == [];
    assert Droves(before) == [] && Samples(before) == [];
  }
}
