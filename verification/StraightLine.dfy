/** Runs of branch-free stretches of a routine. */
module StraightLine {
  import opened Words
  import opened Wrappers
  import opened AsmAst
  import opened AsmSynth
  import opened AsmMeaning
  import opened AsmSemantics
  import opened EndToEnd
  import opened OcdEvents
  import Isa = OcdIsa
  import Fsm = OcdFsm
  import Clocked = OcdRefinement

  /** Statements without labels. */
  function Lines(ops: seq<Operation>): (items: seq<Item>)
    ensures |items| == |ops|
    ensures forall i :: 0 <= i < |ops| ==> items[i] == Item(None, ops[i], NoOp)
  {
    seq(|ops|, i requires 0 <= i < |ops| => Item(None, ops[i], NoOp))
  }

  predicate Branchless(ops: seq<Operation>) {
    forall i :: 0 <= i < |ops| ==> ops[i] != Ud && !IsBranch(ops[i])
  }

  /** How far a stretch gets: machine, data traffic, edges and operations left. */
  datatype Outcome = Outcome(m: Isa.Machine, events: seq<Event>, rest: seq<Fsm.Edge>, left: seq<Operation>)

  /** The sample an operation commits under and the edges after it, if it completes. */
  function Commit(op: Isa.Op, es: seq<Fsm.Edge>): (r: Option<(Isa.Bus, seq<Fsm.Edge>)>)
    ensures r.Some? ==> |r.value.1| < |es| && !Isa.Blocked(op, r.value.0)
  {
    if Completes(op, es) then
      var k := Clocked.FirstClear(op, es, 2);
      Some((es[k].bus, es[k + 3..]))
    else None
  }

  function Straight(hw: Design, ops: seq<Operation>, m: Isa.Machine, es: seq<Fsm.Edge>): (r: Outcome)
    requires m.Sized() && Branchless(ops)
    ensures r.m.Sized() && Branchless(r.left) && |r.rest| <= |es| && |r.left| <= |ops|
    decreases |ops|
  {
    if ops == [] || Commit(Lower(ops[0], 0), es).None? then Outcome(m, [], es, ops)
    else
      var op := Lower(ops[0], 0);
      var (b, rest) := Commit(op, es).value;
      var r := Straight(hw, ops[1..], Isa.Effect(hw, m, op, b), rest);
      r.(events := OpEvents(m, op, b) + r.events)
  }

  lemma StraightUnfolds(hw: Design, ops: seq<Operation>, m: Isa.Machine, es: seq<Fsm.Edge>)
    requires m.Sized() && Branchless(ops) && ops != []
    ensures var op, r := Lower(ops[0], 0), Straight(hw, ops, m, es);
      && (Commit(op, es).None? ==> r == Outcome(m, [], es, ops))
      && (Commit(op, es).Some? ==>
            var (b, rest) := Commit(op, es).value;
            var q := Straight(hw, ops[1..], Isa.Effect(hw, m, op, b), rest);
            r == Outcome(q.m, OpEvents(m, op, b) + q.events, q.rest, q.left))
  {
    hide Lower, Isa.Effect, OpEvents, Commit;
  }

  /** `ops` stand at position `i`. */
  predicate StandAt(items: seq<Item>, i: nat, ops: seq<Operation>) {
    && i + |ops| <= |items|
    && forall k {:trigger ops[k]} :: 0 <= k < |ops| ==> items[i + k].op == ops[k]
  }

  lemma SourceRunCommits(hw: Design, items: seq<Item>, i: nat, m: Isa.Machine, es: seq<Fsm.Edge>)
    requires i < |items| && items[i].op != Ud && m.Sized()
    ensures var op, r := Lower(items[i].op, 0), SourceRun(hw, items, i, m, es);
      && (Commit(op, es).None? ==> r == Running(At(i), m, [], es))
      && (Commit(op, es).Some? && After(items, i, m).Lost? ==> r.place.Lost?)
      && (Commit(op, es).Some? && After(items, i, m).At? ==>
            var (b, rest) := Commit(op, es).value;
            var q := SourceRun(hw, items, After(items, i, m).i, Isa.Effect(hw, m, op, b), rest);
            r == q.(events := OpEvents(m, op, b) + q.events))
  {
    hide Lower, Isa.Effect, After, SourceRun, OpEvents;
    SourceRunUnfolds(hw, items, i, m, es);
  }

  lemma NoJump(items: seq<Item>, i: nat, m: Isa.Machine)
    requires i < |items| && items[i].op != Ud && !IsBranch(items[i].op)
    ensures After(items, i, m) == Settle(items, i + 1)
  {
    hide Destination;
  }

  lemma StandAtTail(items: seq<Item>, i: nat, ops: seq<Operation>)
    requires Branchless(ops) && ops != [] && StandAt(items, i, ops)
    ensures items[i].op == ops[0] && Branchless(ops[1..]) && StandAt(items, i + 1, ops[1..])
    ensures |ops| > 1 ==> Settle(items, i + 1) == At(i + 1)
  {
    assert items[i + 0].op == ops[0];
    forall j | 0 <= j < |ops| - 1
      ensures items[i + 1 + j].op == ops[1..][j]
    {
      assert items[i + (1 + j)].op == ops[1 + j];
    }
    if |ops| > 1 {
      assert ops[1..][0] == ops[1];
      assert items[i + 1 + 0].op == ops[1..][0];
    }
  }

  lemma EmptyStretch(hw: Design, m: Isa.Machine, es: seq<Fsm.Edge>)
    requires m.Sized()
    ensures Branchless([]) && Straight(hw, [], m, es) == Outcome(m, [], es, [])
  {
  }

  lemma FirstIsReal(a: seq<Operation>)
    requires Branchless(a) && a != []
    ensures a[0] != Ud && !IsBranch(a[0])
  {
  }

  /** `q` is the source run that got to `end - |r.left|` if the stretch run `r` is unfinished,
      and that goes on from statement `j` if it is finished. */
  predicate Continues(hw: Design, items: seq<Item>, end: nat, j: nat, r: Outcome, q: Running)
    requires j < |items| && items[j].op != Ud && r.m.Sized() && |r.left| <= end
  {
    && (r.left != [] ==> q == Running(At(end - |r.left|), r.m, r.events, r.rest))
    && (r.left == [] ==>
          var n := SourceRun(hw, items, j, r.m, r.rest);
          q == Running(n.place, n.m, r.events + n.events, n.rest))
  }

  lemma ContinuesLonger(hw: Design, items: seq<Item>, end: nat, j: nat, r: Outcome, q: Running, evs: seq<Event>)
    requires j < |items| && items[j].op != Ud && r.m.Sized() && |r.left| <= end && Continues(hw, items, end, j, r, q)
    ensures Continues(hw, items, end, j, r.(events := evs + r.events), q.(events := evs + q.events))
  {
    hide SourceRun;
    if r.left == [] {
      var n := SourceRun(hw, items, j, r.m, r.rest);
      assert evs + (r.events + n.events) == (evs + r.events) + n.events;
    }
  }

  lemma ContinuesAtOnce(hw: Design, items: seq<Item>, end: nat, j: nat, m: Isa.Machine, es: seq<Fsm.Edge>)
    requires j < |items| && items[j].op != Ud && m.Sized()
    ensures Continues(hw, items, end, j, Outcome(m, [], es, []), SourceRun(hw, items, j, m, es))
  {
    hide SourceRun;
    var n := SourceRun(hw, items, j, m, es);
    assert [] + n.events == n.events;
  }

  /** A source run through a branch-free stretch is the stretch and then the rest. */
  lemma {:induction false} StretchRuns(hw: Design, items: seq<Item>, i: nat, ops: seq<Operation>, m: Isa.Machine,
                                       es: seq<Fsm.Edge>)
    requires m.Sized() && Branchless(ops) && ops != [] && StandAt(items, i, ops) && Settle(items, i + |ops|).At?
    ensures items[i].op != Ud
    ensures Continues(hw, items, i + |ops|, Settle(items, i + |ops|).i, Straight(hw, ops, m, es),
                      SourceRun(hw, items, i, m, es))
    decreases |ops|
  {
    hide Lower, Isa.Effect, OpEvents, SourceRun, After, Commit, Settle, StandAt, Straight, Branchless;
    StandAtTail(items, i, ops);
    FirstIsReal(ops);
    SourceRunCommits(hw, items, i, m, es);
    NoJump(items, i, m);
    StraightUnfolds(hw, ops, m, es);
    var op, tail, j := Lower(ops[0], 0), ops[1..], Settle(items, i + |ops|).i;
    if Commit(op, es).Some? {
      hide Continues;
      var (b, rest) := Commit(op, es).value;
      var m', evs := Isa.Effect(hw, m, op, b), OpEvents(m, op, b);
      if tail == [] {
        EmptyStretch(hw, m', rest);
        ContinuesAtOnce(hw, items, i + |ops|, j, m', rest);
        ContinuesLonger(hw, items, i + |ops|, j, Outcome(m', [], rest, []), SourceRun(hw, items, j, m', rest), evs);
      } else {
        StretchRuns(hw, items, i + 1, tail, m', rest);
        ContinuesLonger(hw, items, i + |ops|, j, Straight(hw, tail, m', rest), SourceRun(hw, items, i + 1, m', rest),
                        evs);
      }
    }
  }

  lemma BranchlessParts(a: seq<Operation>, b: seq<Operation>)
    ensures Branchless(a) && Branchless(b) <==> Branchless(a + b)
  {
    assert a == (a + b)[..|a|] && b == (a + b)[|a|..];
  }
}
