/** Reading the registers of a held 386, and putting its ESP back. */
module OcdRegisters {
  import opened Words
  import opened AsmAst
  import opened StraightLine
  import opened OcdEvents
  import opened OcdStretches
  import opened OcdRoutines
  import Isa = OcdIsa

  function GetRegsLoad(): (ops: seq<Operation>)
    ensures Branchless(ops) && |ops| == 3
  {
    [Ldi(1, 0x9060)] + ([Ldi(2, 0x9090)] + [Waitads])
  }

  const PUSHA_REGS: seq<Nibble> := [1, 2, 2, 2, 2]

  /** Drive a register and wait for the CPU's next cycle. */
  function PutsThenWait(ds: seq<Nibble>): (ops: seq<Operation>)
    ensures Branchless(ops) && Quiet(ops) && |ops| == 2 * |ds|
  {
    if ds == [] then [] else [Std(ds[0]), Waitads] + PutsThenWait(ds[1..])
  }

  /** Inject PUSHA and capture the sixteen words it pushes in R0..R15. */
  function GetRegsOps(): (ops: seq<Operation>)
    ensures Branchless(ops) && |ops| == 61
  {
    GetRegsFeed() + GetRegsTake()
  }

  function GetRegsTake(): (ops: seq<Operation>)
    ensures Branchless(ops) && |ops| == 48
  {
    AllCaptures() + [Hold]
  }

  function AllCaptures(): (ops: seq<Operation>)
    ensures Branchless(ops) && |ops| == 47
  {
    Captures(0, 15)
  }

  function GetRegsFeed(): (ops: seq<Operation>)
    ensures Branchless(ops) && |ops| == 13
  {
    BranchlessParts(GetRegsLoad(), PutsThenWait(PUSHA_REGS));
    GetRegsLoad() + PutsThenWait(PUSHA_REGS)
  }

  lemma GetRegsFold(hw: Design, m: Isa.Machine, bs: seq<Isa.Bus>)
    requires m.Sized() && |bs| == 61
    ensures var (m', evs) := Fold(hw, GetRegsOps(), m, bs);
      && |Samples(evs)| == 16 && m'.regs == Samples(evs)
      && Droves(evs) == [0x9060, 0x9090, 0x9090, 0x9090, 0x9090]
  {
    hide Fold, Captures, Samples, Droves, Capturing, Driving, GetRegsFeed;
    var feed, take := GetRegsFeed(), AllCaptures();
    FoldConcat(hw, feed, GetRegsTake(), m, bs);
    var (m1, e1) := Fold(hw, feed, m, bs[..13]);
    FeedDrives(hw, m, bs[..13]);
    CapturesFold(hw, 0, 15, m1, bs[13..][..47]);
    var (m2, e2) := Fold(hw, take, m1, bs[13..][..47]);
    SilentFold(hw, [Hold], m2, bs[13..][47..]);
    FoldConcat(hw, take, [Hold], m1, bs[13..]);
    assert e2 + [] == e2 && [] + Samples(e2) == Samples(e2);
    SamplesConcat(e1, e2);
    DrovesConcat(e1, e2);
    CapturingOnly(Samples(e2));
    assert Droves(e1) + [] == Droves(e1);
    assert m1.regs[..0] + Samples(e2) + m1.regs[16..] == Samples(e2);
  }

  lemma {:induction false} PutsThenWaitWords(regs: seq<Word>, ds: seq<Nibble>)
    requires |regs| == 16
    ensures StdWords(regs, PutsThenWait(ds)) == seq(|ds|, i requires 0 <= i < |ds| => regs[ds[i]])
    decreases |ds|
  {
    hide StdWords;
    var all := seq(|ds|, i requires 0 <= i < |ds| => regs[ds[i]]);
    if ds != [] {
      var rest := PutsThenWait(ds[1..]);
      PutsThenWaitWords(regs, ds[1..]);
      hide PutsThenWait;
      StdWordsPutFirst(regs, ds[0], rest);
      assert all == [regs[ds[0]]] + seq(|ds| - 1, i requires 0 <= i < |ds| - 1 => regs[ds[1..][i]]);
    } else {
      NoStdWords(regs);
    }
  }

  lemma StdWordsPutFirst(regs: seq<Word>, d: Nibble, rest: seq<Operation>)
    requires |regs| == 16
    ensures StdWords(regs, [Std(d), Waitads] + rest) == [regs[d]] + StdWords(regs, rest)
  {
    var ops := [Std(d), Waitads] + rest;
    assert ops[1..] == [Waitads] + rest && ops[1..][1..] == rest;
    assert StdWords(regs, ops[1..]) == [] + StdWords(regs, rest);
  }

  /** The feeding part drives PUSHA and NOPs, and samples nothing. */
  lemma FeedDrives(hw: Design, m: Isa.Machine, bs: seq<Isa.Bus>)
    requires m.Sized() && |bs| == 13
    ensures var evs := Fold(hw, GetRegsFeed(), m, bs).1;
      Samples(evs) == [] && Droves(evs) == [0x9060, 0x9090, 0x9090, 0x9090, 0x9090]
  {
    hide Fold, Samples, Droves, Driving, PutsThenWait, StdWords;
    FoldConcat(hw, GetRegsLoad(), PutsThenWait(PUSHA_REGS), m, bs);
    FoldConcat(hw, GetRegsLoad(), PutsThenWait(PUSHA_REGS), m, bs);
    FoldConcat(hw, [Ldi(1, 0x9060)], [Ldi(2, 0x9090)] + [Waitads], m, bs[..3]);
    LdiOne(hw, 1, 0x9060, m, bs[..3][..1]);
    var m1 := Fold(hw, [Ldi(1, 0x9060)], m, bs[..3][..1]).0;
    FoldConcat(hw, [Ldi(2, 0x9090)], [Waitads], m1, bs[..3][1..]);
    LdiOne(hw, 2, 0x9090, m1, bs[..3][1..][..1]);
    WaitOnce(hw, Fold(hw, [Ldi(2, 0x9090)], m1, bs[..3][1..][..1]).0, bs[..3][1..][1..]);
    var m2 := Fold(hw, GetRegsLoad(), m, bs[..3]).0;
    QuietFold(hw, PutsThenWait(PUSHA_REGS), m2, bs[3..]);
    var ws := StdWords(m2.regs, PutsThenWait(PUSHA_REGS));
    var none: seq<Event> := [];
    assert none + (none + none) == none && none + Driving(ws) == Driving(ws);
    assert bs[..3][1..][..1] == bs[1..2] && bs[..3][1..][1..] == bs[2..3];
    DrivingOnly(ws);
    PutsThenWaitWords(m2.regs, PUSHA_REGS);
    assert m2.regs == m.regs[1 := 0x9060][2 := 0x9090];
    assert ws == [0x9060, 0x9090, 0x9090, 0x9090, 0x9090];
  }

  const SET_REGS: seq<Nibble> := [1, 2, 3, 4, 4]

  /** Inject `MOV reg, imm32`: opcode word in R1, immediate in R2 and R3. */
  function SetRegOps(): (ops: seq<Operation>)
    ensures Branchless(ops) && |ops| == 12
  {
    BranchlessParts(Puts(SET_REGS), [Hold]);
    BranchlessParts([Ldi(4, 0x9090)], Puts(SET_REGS) + [Hold]);
    [Ldi(4, 0x9090)] + (Puts(SET_REGS) + [Hold])
  }

  lemma SetRegFold(hw: Design, m: Isa.Machine, bs: seq<Isa.Bus>)
    requires m.Sized() && |bs| == 12
    ensures Fold(hw, SetRegOps(), m, bs).1 == Driving([m.regs[1], m.regs[2], m.regs[3], 0x9090, 0x9090])
  {
    hide Fold, Puts, Driving;
    var drive := Puts(SET_REGS);
    LdiOne(hw, 4, 0x9090, m, bs[..1]);
    var m1 := Fold(hw, [Ldi(4, 0x9090)], m, bs[..1]).0;
    QuietFold(hw, drive, m1, bs[1..][..10]);
    PutsWords(m1.regs, SET_REGS);
    assert StdWords(m1.regs, drive) == [m.regs[1], m.regs[2], m.regs[3], 0x9090, 0x9090];
    SilentFold(hw, [Hold], Fold(hw, drive, m1, bs[1..][..10]).0, bs[1..][10..]);
    FoldConcat(hw, drive, [Hold], m1, bs[1..]);
    FoldConcat(hw, [Ldi(4, 0x9090)], drive + [Hold], m, bs);
    var evs := Driving([m.regs[1], m.regs[2], m.regs[3], 0x9090, 0x9090]);
    assert [] + (evs + []) == evs;
  }
}
