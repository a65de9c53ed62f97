/** Continuing, starting and serving I/O: the routines after which the 386 runs until its next
    I/O access, as the assembly source spells them. */
module OcdRoutines {
  import opened Words
  import opened Wrappers
  import opened AsmAst
  import opened AsmSynth
  import opened AsmMeaning
  import opened AsmSemantics
  import opened StraightLine
  import opened OcdEvents
  import opened OcdStretches
  import Isa = OcdIsa
  import Fsm = OcdFsm

  // ----- Words of branch-free code -----

  function Word1(op: Operation): int
    requires op != Ud && !IsBranch(op)
  {
    var (i, d, s) := Fields(op);
    Opcode(i, d, s)
  }

  function WordsOf(ops: seq<Operation>): seq<int>
    requires Branchless(ops)
  {
    if ops == [] then []
    else (if ops[0].Ldi? then [Word1(ops[0]), ops[0].s] else [Word1(ops[0])]) + WordsOf(ops[1..])
  }

  lemma {:induction false} WordsConcat(a: seq<Operation>, b: seq<Operation>)
    requires Branchless(a) && Branchless(b)
    ensures Branchless(a + b) && WordsOf(a + b) == WordsOf(a) + WordsOf(b)
    decreases |a|
  {
    hide Word1;
    BranchlessParts(a, b);
    if a == [] {
      assert a + b == b;
    } else {
      assert (a + b)[1..] == a[1..] + b;
      WordsConcat(a[1..], b);
    }
  }

  /** The image of statements put after others. */
  lemma {:induction false} ImageConcat(v: Design, labels: map<string, int>, a: seq<Item>, b: seq<Item>)
    requires Image(v, labels, a).Success? && Image(v, labels, b).Success?
    ensures Image(v, labels, a + b) == Success(Image(v, labels, a).value + Image(v, labels, b).value)
    decreases |b|
  {
    hide Code;
    if b == [] {
      assert a + b == a && Image(v, labels, a).value + [] == Image(v, labels, a).value;
    } else {
      var n := |b| - 1;
      assert (a + b)[..|a + b| - 1] == a + b[..n];
      ImageConcat(v, labels, a, b[..n]);
      var wa, wb, code := Image(v, labels, a).value, Image(v, labels, b[..n]).value, Code(v, labels, b[n]).value;
      assert (wa + wb) + code == wa + (wb + code);
    }
  }

  lemma {:induction false} LinesImage(v: Design, labels: map<string, int>, ops: seq<Operation>)
    requires Branchless(ops)
    ensures Image(v, labels, Lines(ops)) == Success(WordsOf(ops))
    decreases |ops|
  {
    hide Word1;
    if ops != [] {
      var n := |ops| - 1;
      assert Lines(ops)[..n] == Lines(ops[..n]);
      LinesImage(v, labels, ops[..n]);
      assert ops == ops[..n] + [ops[n]];
      WordsConcat(ops[..n], [ops[n]]);
      LineCode(v, labels, ops[n]);
    }
  }

  lemma LineCode(v: Design, labels: map<string, int>, op: Operation)
    requires op != Ud && !IsBranch(op)
    ensures Branchless([op]) && Code(v, labels, Item(None, op, NoOp)) == Success(WordsOf([op]))
  {
    hide Fields, Opcode;
    var ws := if op.Ldi? then [Word1(op), op.s] else [Word1(op)];
    assert [op][1..] == [] && ws + [] == ws;
    assert WordsOf([op]) == ws + WordsOf([]);
  }

  // ----- Continue -----

  /** Wait for the CPU's next cycle, then drive a register. */
  function Puts(ds: seq<Nibble>): (ops: seq<Operation>)
    ensures Branchless(ops) && Quiet(ops) && |ops| == 2 * |ds|
  {
    if ds == [] then [] else [Waitads, Std(ds[0])] + Puts(ds[1..])
  }

  lemma {:induction false} PutsWords(regs: seq<Word>, ds: seq<Nibble>)
    requires |regs| == 16
    ensures StdWords(regs, Puts(ds)) == seq(|ds|, i requires 0 <= i < |ds| => regs[ds[i]])
    decreases |ds|
  {
    hide StdWords;
    var all := seq(|ds|, i requires 0 <= i < |ds| => regs[ds[i]]);
    if ds != [] {
      var rest := Puts(ds[1..]);
      PutsWords(regs, ds[1..]);
      hide Puts;
      StdWordsPut(regs, ds[0], rest);
      assert all == [regs[ds[0]]] + seq(|ds| - 1, i requires 0 <= i < |ds| - 1 => regs[ds[1..][i]]);
    } else {
      NoStdWords(regs);
    }
  }

  lemma StdWordsPut(regs: seq<Word>, d: Nibble, rest: seq<Operation>)
    requires |regs| == 16
    ensures StdWords(regs, [Waitads, Std(d)] + rest) == [regs[d]] + StdWords(regs, rest)
  {
    var ops := [Waitads, Std(d)] + rest;
    assert ops[1..] == [Std(d)] + rest && ops[1..][1..] == rest;
    assert StdWords(regs, ops) == [] + StdWords(regs, ops[1..]);
    assert StdWords(regs, ops[1..]) == [regs[d]] + StdWords(regs, rest);
  }

  lemma NoStdWords(regs: seq<Word>)
    requires |regs| == 16
    ensures StdWords(regs, []) == []
  {
  }

  /** After the restarted CPU's next I/O access, its address and direction. */
  function WatchIo(): (ops: seq<Operation>)
    ensures Branchless(ops) && |ops| == 4
  {
    [Detach, Waitio] + ([Ldal(1)] + [Ldwr(2)])
  }

  const CONT_REGS: seq<Nibble> := [1, 7, 7, 7, 5, 6, 4, 0, 2, 3]

  function ContLoad(): (ops: seq<Operation>)
    ensures Branchless(ops) && |ops| == 2
  {
    [Ldi(1, 0x90CF)] + [Ldi(7, 0x9090)]
  }

  function ContOps(): (ops: seq<Operation>)
    ensures Branchless(ops) && |ops| == 26
  {
    BranchlessParts(Puts(CONT_REGS), WatchIo());
    BranchlessParts(ContLoad(), Puts(CONT_REGS) + WatchIo());
    ContLoad() + (Puts(CONT_REGS) + WatchIo())
  }

  /** IRET and padding for the prefetch queue, then the six words IRET pops. */
  function ContWords(regs: seq<Word>): seq<Word>
    requires |regs| == 16
  {
    [0x90CF, 0x9090, 0x9090, 0x9090, regs[5], regs[6], regs[4], regs[0], regs[2], regs[3]]
  }

  lemma WatchIoFold(hw: Design, m: Isa.Machine, bs: seq<Isa.Bus>)
    requires m.Sized() && |bs| == 4
    ensures var (m', evs) := Fold(hw, WatchIo(), m, bs);
      && evs == [Addressed(bs[2].a), Directed(bs[3].wr)]
      && m'.regs == m.regs[1 := Isa.AddressLow(hw, bs[2].a)][2 := Bit(bs[3].wr)]
  {
    hide Fold, Isa.AddressLow;
    var wait, latch := [Detach, Waitio], [Ldal(1)] + [Ldwr(2)];
    SilentFold(hw, wait, m, bs[..2]);
    var m1 := Fold(hw, wait, m, bs[..2]).0;
    LdalOne(hw, 1, m1, bs[2..][..1]);
    LdwrOne(hw, 2, Fold(hw, [Ldal(1)], m1, bs[2..][..1]).0, bs[2..][1..]);
    FoldConcat(hw, [Ldal(1)], [Ldwr(2)], m1, bs[2..]);
    FoldConcat(hw, wait, latch, m, bs);
    assert WatchIo() == wait + latch;
  }

  lemma ContLoadFold(hw: Design, m: Isa.Machine, bs: seq<Isa.Bus>)
    requires m.Sized() && |bs| == 2
    ensures Fold(hw, ContLoad(), m, bs).0.regs == m.regs[1 := 0x90CF][7 := 0x9090]
    ensures Fold(hw, ContLoad(), m, bs).1 == []
  {
    hide Fold;
    FoldConcat(hw, [Ldi(1, 0x90CF)], [Ldi(7, 0x9090)], m, bs);
    LdiOne(hw, 1, 0x90CF, m, bs[..1]);
    LdiOne(hw, 7, 0x9090, Fold(hw, [Ldi(1, 0x90CF)], m, bs[..1]).0, bs[1..]);
  }

  lemma ContPutsFold(hw: Design, regs: seq<Word>, m: Isa.Machine, bs: seq<Isa.Bus>)
    requires m.Sized() && |bs| == 20 && |regs| == 16 && m.regs == regs[1 := 0x90CF][7 := 0x9090]
    ensures Fold(hw, Puts(CONT_REGS), m, bs).0.regs == m.regs
    ensures Fold(hw, Puts(CONT_REGS), m, bs).1 == Driving(ContWords(regs))
  {
    hide Fold, Puts, Driving;
    QuietFold(hw, Puts(CONT_REGS), m, bs);
    PutsWords(m.regs, CONT_REGS);
    assert StdWords(m.regs, Puts(CONT_REGS)) == ContWords(regs);
  }

  lemma ContFold(hw: Design, m: Isa.Machine, bs: seq<Isa.Bus>)
    requires m.Sized() && |bs| == 26
    ensures var (m', evs) := Fold(hw, ContOps(), m, bs);
      && evs == Driving(ContWords(m.regs)) + [Addressed(bs[24].a), Directed(bs[25].wr)]
      && m'.regs[1] == Isa.AddressLow(hw, bs[24].a) && m'.regs[2] == Bit(bs[25].wr)
  {
    hide Fold, WatchIo, Driving, ContLoad, Puts, ContWords, Isa.AddressLow;
    var drive := Puts(CONT_REGS);
    var m1 := Fold(hw, ContLoad(), m, bs[..2]).0;
    var m2 := Fold(hw, drive, m1, bs[2..][..20]).0;
    BranchlessParts(drive, WatchIo());
    FoldConcat(hw, ContLoad(), drive + WatchIo(), m, bs);
    FoldConcat(hw, drive, WatchIo(), m1, bs[2..]);
    ContLoadFold(hw, m, bs[..2]);
    ContPutsFold(hw, m.regs, m1, bs[2..][..20]);
    WatchIoFold(hw, m2, bs[2..][20..]);
    var evs := Driving(ContWords(m.regs)) + [Addressed(bs[24].a), Directed(bs[25].wr)];
    assert [] + evs == evs;
  }

  /** Whatever the bus timing, the continue routine drives a first part of `ContWords`, and
      all of them by the time it stops. */
  lemma ContinueDrives(hw: Design, m: Isa.Machine, es: seq<Fsm.Edge>)
    requires m.Sized()
    ensures var r := SourceRun(hw, Routine(ContOps()), 0, m, es);
      && r.place.At? && Droves(r.events) <= ContWords(m.regs)
      && (r.place.i == 26 ==> Droves(r.events) == ContWords(m.regs))
  {
    hide Fold, ContOps, Routine, SourceRun, Commits, Driving, ContWords;
    var ops, bs := ContOps(), Commits(ContOps(), es);
    StretchToExit(hw, Routine(ContOps()), 0, ops, m, es);
    var all := bs + seq(26 - |bs|, _ => Isa.Bus(true, true, 0, 0, false, false, false, false));
    assert all[..|bs|] == bs;
    ContFold(hw, m, all);
    FoldPrefix(hw, ops, |bs|, m, all);
    ContDroves(m.regs, all[24].a, all[25].wr);
    DrovesPrefix(Fold(hw, ops[..|bs|], m, bs).1, Fold(hw, ops, m, all).1);
    if |bs| == 26 {
      assert ops[..26] == ops && all == bs;
    }
  }

  lemma NothingDriven(a: Address, wr: bool)
    ensures Droves([Addressed(a), Directed(wr)]) == []
  {
    assert [Addressed(a), Directed(wr)][1..] == [Directed(wr)] && [Directed(wr)][1..] == [];
    assert Droves([Directed(wr)]) == [];
  }

  lemma ContDroves(regs: seq<Word>, a: Address, wr: bool)
    requires |regs| == 16
    ensures Droves(Driving(ContWords(regs)) + [Addressed(a), Directed(wr)]) == ContWords(regs)
  {
    DrovesConcat(Driving(ContWords(regs)), [Addressed(a), Directed(wr)]);
    DrivingOnly(ContWords(regs));
    NothingDriven(a, wr);
  }

  // ----- Starting, and serving an I/O access -----

  function StartOps(): (ops: seq<Operation>)
    ensures Branchless(ops) && |ops| == 5
  {
    [Start] + WatchIo()
  }

  /** Drive the word in R3 for an I/O read, then watch for the next access. */
  function WriteIoOps(): (ops: seq<Operation>)
    ensures Branchless(ops) && |ops| == 5
  {
    [Std(3)] + WatchIo()
  }

  /** Take the word of an I/O write into R3. */
  function ReadIoOps(): (ops: seq<Operation>)
    ensures Branchless(ops) && |ops| == 1
  {
    [Ldd(3)]
  }

  function ResetOps(): (ops: seq<Operation>)
    ensures Branchless(ops) && |ops| == 2
  {
    [Reset] + [Attach]
  }

  /** A routine without branches, EXIT at its end. */
  function Routine(ops: seq<Operation>): (items: seq<Item>)
    requires Branchless(ops)
    ensures |items| == |ops| + 1 && StandAt(items, 0, ops) && items[0].op != Ud && items[|ops|].op == Exit
  {
    Lines(ops + [Exit])
  }

  /** The bus traffic of one I/O read served: the word of R3, then the next address. */
  lemma WriteIoFold(hw: Design, m: Isa.Machine, bs: seq<Isa.Bus>)
    requires m.Sized() && |bs| == 5
    ensures var (m', evs) := Fold(hw, WriteIoOps(), m, bs);
      && evs == [Drove(m.regs[3]), Addressed(bs[3].a), Directed(bs[4].wr)]
      && m'.regs[1] == Isa.AddressLow(hw, bs[3].a) && m'.regs[2] == Bit(bs[4].wr)
  {
    hide Fold, WatchIo, Isa.AddressLow;
    QuietFold(hw, [Std(3)], m, bs[..1]);
    assert [Std(3)][1..] == [];
    assert StdWords(m.regs, [Std(3)]) == [m.regs[3]] + StdWords(m.regs, []);
    assert Driving([m.regs[3]]) == [Drove(m.regs[3])];
    WatchIoFold(hw, Fold(hw, [Std(3)], m, bs[..1]).0, bs[1..]);
    FoldConcat(hw, [Std(3)], WatchIo(), m, bs);
  }

  lemma StartFold(hw: Design, m: Isa.Machine, bs: seq<Isa.Bus>)
    requires m.Sized() && |bs| == 5
    ensures var (m', evs) := Fold(hw, StartOps(), m, bs);
      && evs == [Addressed(bs[3].a), Directed(bs[4].wr)]
      && m'.regs[1] == Isa.AddressLow(hw, bs[3].a) && m'.regs[2] == Bit(bs[4].wr)
  {
    hide Fold, WatchIo, Isa.AddressLow;
    FoldOne(hw, Start, m, bs[..1]);
    WatchIoFold(hw, Fold(hw, [Start], m, bs[..1]).0, bs[1..]);
    FoldConcat(hw, [Start], WatchIo(), m, bs);
    assert [] + [Addressed(bs[3].a), Directed(bs[4].wr)] == [Addressed(bs[3].a), Directed(bs[4].wr)];
  }

  lemma ReadIoFold(hw: Design, m: Isa.Machine, bs: seq<Isa.Bus>)
    requires m.Sized() && |bs| == 1
    ensures Fold(hw, ReadIoOps(), m, bs).0.regs[3] == bs[0].din
    ensures Fold(hw, ReadIoOps(), m, bs).1 == [Sampled(bs[0].din)]
  {
    FoldOne(hw, Ldd(3), m, bs);
  }
}
