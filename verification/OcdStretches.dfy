/** What the recurring stretches of the routines do: driving words, capturing words. */
module OcdStretches {
  import opened Words
  import opened AsmAst
  import opened AsmSynth
  import opened AsmMeaning
  import opened AsmSemantics
  import opened StraightLine
  import opened OcdEvents
  import Isa = OcdIsa
  import Fsm = OcdFsm

  function Droves(evs: seq<Event>): seq<Word> {
    if evs == [] then []
    else (if evs[0].Drove? then [evs[0].w] else []) + Droves(evs[1..])
  }

  function Samples(evs: seq<Event>): seq<Word> {
    if evs == [] then []
    else (if evs[0].Sampled? then [evs[0].w] else []) + Samples(evs[1..])
  }

  lemma {:induction false} DrovesConcat(a: seq<Event>, b: seq<Event>)
    ensures Droves(a + b) == Droves(a) + Droves(b)
    decreases |a|
  {
    if a == [] {
      assert a + b == b;
    } else {
      var one := if a[0].Drove? then [a[0].w] else [];
      assert (a + b)[1..] == a[1..] + b && (a + b)[0] == a[0];
      DrovesConcat(a[1..], b);
      assert Droves(a + b) == one + Droves(a[1..] + b);
      assert one + (Droves(a[1..]) + Droves(b)) == (one + Droves(a[1..])) + Droves(b);
    }
  }

  lemma {:induction false} SamplesConcat(a: seq<Event>, b: seq<Event>)
    ensures Samples(a + b) == Samples(a) + Samples(b)
    decreases |a|
  {
    if a == [] {
      assert a + b == b;
    } else {
      var one := if a[0].Sampled? then [a[0].w] else [];
      assert (a + b)[1..] == a[1..] + b && (a + b)[0] == a[0];
      SamplesConcat(a[1..], b);
      assert Samples(a + b) == one + Samples(a[1..] + b);
      assert one + (Samples(a[1..]) + Samples(b)) == (one + Samples(a[1..])) + Samples(b);
    }
  }

  function Driving(ws: seq<Word>): seq<Event> {
    seq(|ws|, i requires 0 <= i < |ws| => Drove(ws[i]))
  }

  function Capturing(ws: seq<Word>): seq<Event> {
    seq(|ws|, i requires 0 <= i < |ws| => Sampled(ws[i]))
  }

  lemma {:induction false} DrivingOnly(ws: seq<Word>)
    ensures Droves(Driving(ws)) == ws && Samples(Driving(ws)) == []
    decreases |ws|
  {
    if ws != [] {
      assert Driving(ws)[1..] == Driving(ws[1..]);
      DrivingOnly(ws[1..]);
    }
  }

  lemma {:induction false} CapturingOnly(ws: seq<Word>)
    ensures Droves(Capturing(ws)) == [] && Samples(Capturing(ws)) == ws
    decreases |ws|
  {
    if ws != [] {
      assert Capturing(ws)[1..] == Capturing(ws[1..]);
      CapturingOnly(ws[1..]);
    }
  }

  // ----- Operations under given samples -----

  /** The samples the operations of a stretch commit under, as far as the trace goes. */
  function Commits(ops: seq<Operation>, es: seq<Fsm.Edge>): (bs: seq<Isa.Bus>)
    requires Branchless(ops)
    ensures |bs| <= |ops|
    decreases |ops|
  {
    if ops == [] || Commit(Lower(ops[0], 0), es).None? then []
    else
      var (b, rest) := Commit(Lower(ops[0], 0), es).value;
      [b] + Commits(ops[1..], rest)
  }

  /** The operations one after the other, each under its own sample. */
  function Fold(hw: Design, ops: seq<Operation>, m: Isa.Machine, bs: seq<Isa.Bus>): (r: (Isa.Machine, seq<Event>))
    requires m.Sized() && Branchless(ops) && |bs| == |ops|
    ensures r.0.Sized()
    decreases |ops|
  {
    if ops == [] then (m, [])
    else
      var op := Lower(ops[0], 0);
      var r := Fold(hw, ops[1..], Isa.Effect(hw, m, op, bs[0]), bs[1..]);
      (r.0, OpEvents(m, op, bs[0]) + r.1)
  }

  /** Waiting leaves no trace: a stretch has done what its committed operations do. */
  lemma {:induction false} StraightIsFold(hw: Design, ops: seq<Operation>, m: Isa.Machine, es: seq<Fsm.Edge>)
    requires m.Sized() && Branchless(ops)
    ensures var bs, r := Commits(ops, es), Straight(hw, ops, m, es);
      r.left == ops[|bs|..] && (r.m, r.events) == Fold(hw, ops[..|bs|], m, bs)
    decreases |ops|
  {
    hide Lower, Isa.Effect, OpEvents, Commit;
    if ops != [] && Commit(Lower(ops[0], 0), es).Some? {
      var (b, rest) := Commit(Lower(ops[0], 0), es).value;
      StraightIsFold(hw, ops[1..], Isa.Effect(hw, m, Lower(ops[0], 0), b), rest);
      var bs := Commits(ops, es);
      assert ops[..|bs|][1..] == ops[1..][..|bs| - 1] && bs[1..] == Commits(ops[1..], rest);
    }
  }

  lemma {:induction false} FoldConcat(hw: Design, a: seq<Operation>, b: seq<Operation>, m: Isa.Machine,
                                      bs: seq<Isa.Bus>)
    requires m.Sized() && Branchless(a) && Branchless(b) && |bs| == |a| + |b|
    ensures Branchless(a + b)
    ensures var (m1, e1) := Fold(hw, a, m, bs[..|a|]);
      var (m2, e2) := Fold(hw, b, m1, bs[|a|..]);
      Fold(hw, a + b, m, bs) == (m2, e1 + e2)
    decreases |a|
  {
    hide Lower, Isa.Effect, OpEvents;
    BranchlessParts(a, b);
    if a == [] {
      assert a + b == b && bs[0..] == bs;
      assert [] + Fold(hw, b, m, bs).1 == Fold(hw, b, m, bs).1;
    } else {
      var op := Lower(a[0], 0);
      var m', ev := Isa.Effect(hw, m, op, bs[0]), OpEvents(m, op, bs[0]);
      assert (a + b)[1..] == a[1..] + b && bs[..|a|][1..] == bs[1..][..|a| - 1] && bs[|a|..] == bs[1..][|a| - 1..];
      FoldConcat(hw, a[1..], b, m', bs[1..]);
      var (m1, e1) := Fold(hw, a[1..], m', bs[1..][..|a| - 1]);
      var e2 := Fold(hw, b, m1, bs[|a|..]).1;
      assert ev + (e1 + e2) == (ev + e1) + e2;
    }
  }

  lemma FoldOne(hw: Design, a: Operation, m: Isa.Machine, bs: seq<Isa.Bus>)
    requires m.Sized() && Branchless([a]) && |bs| == 1
    ensures Fold(hw, [a], m, bs) == (Isa.Effect(hw, m, Lower(a, 0), bs[0]), OpEvents(m, Lower(a, 0), bs[0]))
  {
    hide Lower, Isa.Effect, OpEvents;
    assert [a][0] == a;
    var ev := OpEvents(m, Lower(a, 0), bs[0]);
    assert [a][1..] == [] && bs[1..] == [] && ev + [] == ev;
  }

  /** A first part of the traffic drives a first part of the words. */
  lemma DrovesPrefix(a: seq<Event>, b: seq<Event>)
    requires a <= b
    ensures Droves(a) <= Droves(b)
  {
    assert b == a + b[|a|..];
    DrovesConcat(a, b[|a|..]);
  }

  /** An unfinished stretch has moved a first part of what the whole stretch moves. */
  lemma FoldPrefix(hw: Design, ops: seq<Operation>, n: nat, m: Isa.Machine, bs: seq<Isa.Bus>)
    requires m.Sized() && Branchless(ops) && n <= |ops| == |bs|
    ensures Fold(hw, ops[..n], m, bs[..n]).1 <= Fold(hw, ops, m, bs).1
  {
    assert ops == ops[..n] + ops[n..];
    FoldConcat(hw, ops[..n], ops[n..], m, bs);
  }

  // ----- Driving -----

  /** Operations that read no pin into a register and write none: drive, wait, handshake. */
  predicate Quiet(ops: seq<Operation>) {
    forall i :: 0 <= i < |ops| ==>
      || ops[i].Std? || ops[i].Waitads? || ops[i].Waitlock? || ops[i].Waitio? || ops[i].Ready?
      || ops[i].Hold? || ops[i].Nmi? || ops[i].Detach?
  }

  function StdWords(regs: seq<Word>, ops: seq<Operation>): seq<Word>
    requires |regs| == 16
  {
    if ops == [] then []
    else (if ops[0].Std? then [regs[ops[0].d % 0x10]] else []) + StdWords(regs, ops[1..])
  }

  lemma QuietOne(hw: Design, op: Operation, m: Isa.Machine, b: Isa.Bus)
    requires m.Sized() && Quiet([op])
    ensures op != Ud && !IsBranch(op)
    ensures Isa.Effect(hw, m, Lower(op, 0), b).regs == m.regs
    ensures OpEvents(m, Lower(op, 0), b) == if op.Std? then [Drove(m.regs[op.d % 0x10])] else []
  {
    assert [op][0] == op;
  }

  lemma {:induction false} QuietFold(hw: Design, ops: seq<Operation>, m: Isa.Machine, bs: seq<Isa.Bus>)
    requires m.Sized() && Quiet(ops) && |bs| == |ops|
    ensures Branchless(ops)
    ensures Fold(hw, ops, m, bs).0.regs == m.regs && Fold(hw, ops, m, bs).1 == Driving(StdWords(m.regs, ops))
    decreases |ops|
  {
    hide Lower, Isa.Effect, OpEvents;
    if ops != [] {
      QuietOne(hw, ops[0], m, bs[0]);
      QuietFold(hw, ops[1..], Isa.Effect(hw, m, Lower(ops[0], 0), bs[0]), bs[1..]);
    }
  }

  lemma LdiOne(hw: Design, d: int, w: int, m: Isa.Machine, bs: seq<Isa.Bus>)
    requires m.Sized() && |bs| == 1
    ensures Branchless([Ldi(d, w)])
    ensures Fold(hw, [Ldi(d, w)], m, bs).0.regs == m.regs[d % 0x10 := w % 0x1_0000]
    ensures Fold(hw, [Ldi(d, w)], m, bs).1 == []
  {
    FoldOne(hw, Ldi(d, w), m, bs);
  }

  lemma LdalOne(hw: Design, d: Nibble, m: Isa.Machine, bs: seq<Isa.Bus>)
    requires m.Sized() && |bs| == 1
    ensures Branchless([Ldal(d)])
    ensures Fold(hw, [Ldal(d)], m, bs).0.regs == m.regs[d := Isa.AddressLow(hw, bs[0].a)]
    ensures Fold(hw, [Ldal(d)], m, bs).1 == [Addressed(bs[0].a)]
  {
    FoldOne(hw, Ldal(d), m, bs);
  }

  lemma LdahOne(hw: Design, d: Nibble, m: Isa.Machine, bs: seq<Isa.Bus>)
    requires m.Sized() && |bs| == 1
    ensures Branchless([Ldah(d)])
    ensures Fold(hw, [Ldah(d)], m, bs).0.regs == m.regs[d := Isa.AddressHigh(hw, bs[0].a)]
    ensures Fold(hw, [Ldah(d)], m, bs).1 == [Addressed(bs[0].a)]
  {
    FoldOne(hw, Ldah(d), m, bs);
  }

  /** Operations that drive nothing at all. */
  lemma {:induction false} SilentFold(hw: Design, ops: seq<Operation>, m: Isa.Machine, bs: seq<Isa.Bus>)
    requires m.Sized() && Quiet(ops) && |bs| == |ops| && forall i :: 0 <= i < |ops| ==> !ops[i].Std?
    ensures Branchless(ops)
    ensures Fold(hw, ops, m, bs).0.regs == m.regs && Fold(hw, ops, m, bs).1 == []
    decreases |ops|
  {
    hide Lower, Isa.Effect, OpEvents;
    if ops != [] {
      QuietOne(hw, ops[0], m, bs[0]);
      SilentFold(hw, ops[1..], Isa.Effect(hw, m, Lower(ops[0], 0), bs[0]), bs[1..]);
    }
  }

  /** Load R`s` into the compare register and compare it with the constant `w`. */
  function Compare(s: Nibble, w: Word): (ops: seq<Operation>)
    ensures Branchless(ops) && |ops| == 3
  {
    [Ldcmp(s)] + ([Ldi(1, w)] + [Cmp(1)])
  }

  lemma CompareFold(hw: Design, s: Nibble, w: Word, m: Isa.Machine, bs: seq<Isa.Bus>)
    requires m.Sized() && |bs| == 3 && s != 1
    ensures var (m', evs) := Fold(hw, Compare(s, w), m, bs);
      m'.regs == m.regs[1 := w] && m'.cmpr == Bit(w == m.regs[s]) && evs == []
  {
    FoldConcat(hw, [Ldcmp(s)], [Ldi(1, w)] + [Cmp(1)], m, bs);
    FoldOne(hw, Ldcmp(s), m, bs[..1]);
    var m1 := Fold(hw, [Ldcmp(s)], m, bs[..1]).0;
    FoldConcat(hw, [Ldi(1, w)], [Cmp(1)], m1, bs[1..]);
    FoldOne(hw, Ldi(1, w), m1, bs[1..][..1]);
    FoldOne(hw, Cmp(1), Fold(hw, [Ldi(1, w)], m1, bs[1..][..1]).0, bs[1..][1..]);
  }

  lemma LdwrOne(hw: Design, d: Nibble, m: Isa.Machine, bs: seq<Isa.Bus>)
    requires m.Sized() && |bs| == 1
    ensures Branchless([Ldwr(d)])
    ensures Fold(hw, [Ldwr(d)], m, bs).0.regs == m.regs[d := Bit(bs[0].wr)]
    ensures Fold(hw, [Ldwr(d)], m, bs).1 == [Directed(bs[0].wr)]
  {
    FoldOne(hw, Ldwr(d), m, bs);
  }

  /** Load a constant into R1, drive it, wait for the CPU to take it. */
  function Drive(w: Word): (ops: seq<Operation>)
    ensures Branchless(ops) && |ops| == 3
  {
    [Ldi(1, w), Std(1), Waitads]
  }

  function Drives(ws: seq<Word>): (ops: seq<Operation>)
    ensures Branchless(ops) && |ops| == 3 * |ws| && Exit !in ops
  {
    if ws == [] then [] else Drive(ws[0]) + Drives(ws[1..])
  }

  lemma DriveOnce(hw: Design, w: Word, m: Isa.Machine, bs: seq<Isa.Bus>)
    requires m.Sized() && |bs| == 3
    ensures Fold(hw, Drive(w), m, bs).0.regs == m.regs[1 := w]
    ensures Fold(hw, Drive(w), m, bs).1 == [Drove(w)]
  {
    hide Fold;
    var put := [Std(1), Waitads];
    FoldConcat(hw, [Ldi(1, w)], put, m, bs);
    LdiOne(hw, 1, w, m, bs[..1]);
    var m1 := Fold(hw, [Ldi(1, w)], m, bs[..1]).0;
    QuietFold(hw, put, m1, bs[1..]);
    PutDrives(m1.regs);
    assert [] + [Drove(w)] == [Drove(w)] && Drive(w) == [Ldi(1, w)] + put;
  }

  lemma PutDrives(regs: seq<Word>)
    requires |regs| == 16
    ensures Driving(StdWords(regs, [Std(1), Waitads])) == [Drove(regs[1])]
  {
    assert [Std(1), Waitads][1..] == [Waitads] && [Waitads][1..] == [];
    assert StdWords(regs, [Waitads]) == StdWords(regs, []);
    assert StdWords(regs, [Std(1), Waitads]) == [regs[1]] + StdWords(regs, [Waitads]);
  }

  lemma {:induction false} DrivesFold(hw: Design, ws: seq<Word>, m: Isa.Machine, bs: seq<Isa.Bus>)
    requires m.Sized() && |bs| == 3 * |ws|
    ensures Fold(hw, Drives(ws), m, bs).1 == Driving(ws)
    ensures forall d :: 0 <= d < 16 && d != 1 ==> Fold(hw, Drives(ws), m, bs).0.regs[d] == m.regs[d]
    decreases |ws|
  {
    if ws != [] {
      hide Fold, Drive;
      FoldConcat(hw, Drive(ws[0]), Drives(ws[1..]), m, bs);
      DriveOnce(hw, ws[0], m, bs[..3]);
      DrivesFold(hw, ws[1..], Fold(hw, Drive(ws[0]), m, bs[..3]).0, bs[3..]);
      assert Driving(ws) == [Drove(ws[0])] + Driving(ws[1..]);
    }
  }

  // ----- Capturing -----

  /** Take a word off the data bus and acknowledge it. */
  function Capture(d: Nibble): (ops: seq<Operation>)
    ensures Branchless(ops) && |ops| == 2 && Exit !in ops
  {
    [Ldd(d), Ready]
  }

  /** Take `n` words into consecutive registers, waiting for the next cycle in between. */
  function Captures(d: nat, n: nat): (ops: seq<Operation>)
    requires d + n <= 15
    ensures Branchless(ops) && |ops| == 3 * n + 2 && Exit !in ops
    decreases n
  {
    if n == 0 then Capture(d) else Capture(d) + [Waitads] + Captures(d + 1, n - 1)
  }

  lemma CaptureOnce(hw: Design, d: Nibble, m: Isa.Machine, bs: seq<Isa.Bus>)
    requires m.Sized() && |bs| == 2
    ensures Fold(hw, Capture(d), m, bs).0.regs == m.regs[d := bs[0].din]
    ensures Fold(hw, Capture(d), m, bs).1 == [Sampled(bs[0].din)]
  {
    assert Capture(d) == [Ldd(d)] + [Ready];
    FoldConcat(hw, [Ldd(d)], [Ready], m, bs);
    FoldOne(hw, Ldd(d), m, bs[..1]);
    FoldOne(hw, Ready, Fold(hw, [Ldd(d)], m, bs[..1]).0, bs[1..]);
  }

  /** A wait for the next bus cycle. */
  lemma WaitOnce(hw: Design, m: Isa.Machine, bs: seq<Isa.Bus>)
    requires m.Sized() && |bs| == 1
    ensures Branchless([Waitads]) && Fold(hw, [Waitads], m, bs).0.regs == m.regs && Fold(hw, [Waitads], m, bs).1 == []
  {
    FoldOne(hw, Waitads, m, bs);
  }

  /** `regs'` is `regs` with `ws` spliced in at `d`. */
  predicate Spliced(regs: seq<Word>, d: nat, ws: seq<Word>, regs': seq<Word>)
    requires |regs| == 16 && d + |ws| <= 16
  {
    regs' == regs[..d] + ws + regs[d + |ws|..]
  }

  lemma SpliceMore(regs: seq<Word>, d: nat, w: Word, ws: seq<Word>, regs': seq<Word>)
    requires |regs| == 16 && d + 1 + |ws| <= 16 && Spliced(regs[d := w], d + 1, ws, regs')
    ensures Spliced(regs, d, [w] + ws, regs')
  {
  }

  lemma SpliceOne(regs: seq<Word>, d: nat, w: Word)
    requires |regs| == 16 && d < 16
    ensures Spliced(regs, d, [w], regs[d := w])
  {
  }

  /** After a wait the stretch goes on with the same registers. */
  lemma WaitThen(hw: Design, ops: seq<Operation>, m: Isa.Machine, bs: seq<Isa.Bus>)
    requires m.Sized() && Branchless(ops) && |bs| == |ops| + 1
    ensures Branchless([Waitads]) && Branchless([Waitads] + ops)
    ensures var m1 := Fold(hw, [Waitads], m, bs[..1]).0;
      m1.regs == m.regs && Fold(hw, [Waitads] + ops, m, bs) == Fold(hw, ops, m1, bs[1..])
  {
    hide Fold;
    FoldConcat(hw, [Waitads], ops, m, bs);
    WaitOnce(hw, m, bs[..1]);
    var m1 := Fold(hw, [Waitads], m, bs[..1]).0;
    var r := Fold(hw, ops, m1, bs[1..]);
    assert [] + r.1 == r.1;
  }

  lemma CapturingMore(w: Word, evs: seq<Event>)
    requires evs == Capturing(Samples(evs))
    ensures [Sampled(w)] + evs == Capturing(Samples([Sampled(w)] + evs))
    ensures Samples([Sampled(w)] + evs) == [w] + Samples(evs)
  {
    assert ([Sampled(w)] + evs)[1..] == evs;
  }

  /** The registers `d..d+n` after capturing are the words sampled, in order. */
  lemma {:induction false} CapturesFold(hw: Design, d: nat, n: nat, m: Isa.Machine, bs: seq<Isa.Bus>)
    requires m.Sized() && d + n <= 15 && |bs| == 3 * n + 2
    ensures var (m', evs) := Fold(hw, Captures(d, n), m, bs);
      && |Samples(evs)| == n + 1 && evs == Capturing(Samples(evs))
      && Spliced(m.regs, d, Samples(evs), m'.regs)
    decreases n
  {
    hide Isa.Effect, OpEvents, Lower, Fold, Spliced, Samples, Capturing, Branchless, Capture;
    var w := bs[0].din;
    CaptureOnce(hw, d, m, bs[..2]);
    if n == 0 {
      assert bs[..2] == bs && [Sampled(w)] + [] == [Sampled(w)] && [w] + [] == [w];
      NothingCaptured();
      CapturingMore(w, []);
      SpliceOne(m.regs, d, w);
    } else {
      var rest, m1 := Captures(d + 1, n - 1), Fold(hw, Capture(d), m, bs[..2]).0;
      assert Captures(d, n) == Capture(d) + ([Waitads] + rest);
      WaitThen(hw, rest, m1, bs[2..]);
      FoldConcat(hw, Capture(d), [Waitads] + rest, m, bs);
      var m2 := Fold(hw, [Waitads], m1, bs[2..][..1]).0;
      CapturesFold(hw, d + 1, n - 1, m2, bs[2..][1..]);
      var (m', evs) := Fold(hw, rest, m2, bs[2..][1..]);
      CapturingMore(w, evs);
      SpliceMore(m.regs, d, w, Samples(evs), m'.regs);
    }
  }

  lemma NothingCaptured()
    ensures Samples([]) == [] && Capturing([]) == []
  {
  }

  // ----- Whole stretches of a source function -----

  /** A source run that has reached statement `i + |bs|` of a stretch at `i` by committing
      its operations under the samples `bs`. */
  predicate Reaches(hw: Design, i: nat, ops: seq<Operation>, m: Isa.Machine, bs: seq<Isa.Bus>, r: Running)
    requires m.Sized() && Branchless(ops) && |bs| <= |ops|
  {
    r.place == At(i + |bs|) && (r.m, r.events) == Fold(hw, ops[..|bs|], m, bs)
  }

  /** A run into a stretch that ends in EXIT stays in the stretch. */
  lemma StretchToExit(hw: Design, items: seq<Item>, i: nat, ops: seq<Operation>, m: Isa.Machine, es: seq<Fsm.Edge>)
    requires m.Sized() && Branchless(ops) && ops != [] && StandAt(items, i, ops)
    requires i + |ops| < |items| && items[i + |ops|].op == Exit
    ensures items[i].op != Ud
    ensures Reaches(hw, i, ops, m, Commits(ops, es), SourceRun(hw, items, i, m, es))
  {
    hide Straight, SourceRun, Fold, Commits;
    assert Settle(items, i + |ops|) == At(i + |ops|);
    StretchRuns(hw, items, i, ops, m, es);
    StraightIsFold(hw, ops, m, es);
    var r := Straight(hw, ops, m, es);
    ExitStays(hw, items, i + |ops|, r.m, r.rest);
    assert r.events + [] == r.events;
  }

  lemma ExitStays(hw: Design, items: seq<Item>, i: nat, m: Isa.Machine, es: seq<Fsm.Edge>)
    requires m.Sized() && i < |items| && items[i].op == Exit
    ensures SourceRun(hw, items, i, m, es) == Running(At(i), m, [], es)
  {
    hide SourceRun;
    SourceRunCommits(hw, items, i, m, es);
  }
}
