/** The two passes as the code is written: contexts, instructions and tables updated in
    place, one statement at a time. */
module AsmUnit {
  import opened Words
  import opened Wrappers
  import opened AsmAst
  import opened AsmAnalysis
  import opened AsmSynth

  /** The context of one function. */
  class FunctionContext {
    var labels: map<string, int>
    var cursor: int
    const progMem: array<int>

    ghost function View(): Context
      reads this, progMem
    {
      Context(labels, cursor, progMem[..])
    }

    constructor ()
      ensures fresh(progMem) && View() == EmptyContext() && progMem.Length == 256
    {
      labels, cursor, progMem := map[], 0, new int[256](_ => 0);
      new;
      assert progMem[..] == EmptyContext().progMem;
    }
  }

  /** A source line, with the two fields pass 1 fills in. */
  class SourceLine {
    const line: Line
    var op: Operation
    var offset: int

    constructor (line: Line)
      ensures this.line == line
    {
      this.line, op, offset := line, Ud, 0;
    }
  }

  datatype Stmt = InstrStmt(i: SourceLine) | DirStmt(dir: string, args: seq<Operand>) {
    function Source(): Statement {
      if InstrStmt? then Instr(i.line) else Directive(dir, args)
    }
  }

  class Assembler {
    const design: Design
    var consts: map<string, int>
    var funcs: map<string, FunctionContext>
    var ctxt: FunctionContext

    /** Every context created so far, and where `funcs` and `ctxt` stand in it. */
    ghost var all: seq<FunctionContext>
    ghost var index: map<string, nat>
    ghost var at: nat

    ghost function Footprint(): set<object>
      reads this
    {
      set i: int | 0 <= i < |all| :: all[i] as object
    }

    ghost function Memories(): set<object>
      reads this
    {
      set i: int | 0 <= i < |all| :: all[i].progMem as object
    }

    ghost predicate Valid()
      reads this
    {
      && at < |all| && ctxt == all[at]
      && (forall i, j :: 0 <= i < j < |all| ==> all[i] != all[j] && all[i].progMem != all[j].progMem)
      && (forall i :: 0 <= i < |all| ==> all[i].progMem.Length == 256)
      && funcs.Keys == index.Keys
      && (forall f :: f in funcs ==> index[f] < |all| && funcs[f] == all[index[f]])
    }

    ghost function Views(): (vs: seq<Context>)
      reads this, Footprint(), Memories()
      ensures |vs| == |all| && forall i :: 0 <= i < |all| ==> vs[i] == all[i].View()
    {
      seq(|all|, i requires 0 <= i < |all| reads this, Footprint(), Memories() =>
        assert all[i] in Footprint() && all[i].progMem in Memories(); all[i].View())
    }

    ghost function View(): (c: Contexts)
      requires Valid()
      reads this, Footprint(), Memories()
      ensures c.Valid()
    {
      Contexts(consts, Views(), index, at)
    }

    /** With a first context, in which statements before any `.func` go. */
    constructor (design: Design, consts: map<string, int>)
      ensures Valid() && this.design == design && fresh(Footprint()) && fresh(Memories())
      ensures View() == Contexts(consts, [EmptyContext()], map[], 0)
    {
      this.design, this.consts := design, consts;
      var first := new FunctionContext();
      funcs, ctxt, all, index, at := map[], first, [first], map[], 0;
      new;
      assert Views() == [EmptyContext()];
    }

    // ----- Pass 1 -----

    /** The current context alone has changed, and so has one entry of the view. */
    twostate lemma CurrentChanged()
      requires old(Valid()) && Valid() && old(at) == at && old(all) == all
      requires forall i :: 0 <= i < |all| && i != at ==> all[i].View() == old(all[i].View())
      ensures Views() == old(Views())[at := ctxt.View()]
    {
    }

    /** Give a statement its operation and offset, move the cursor, note the label. */
    method PlaceInstr(x: SourceLine, op: Operation)
      modifies x, ctxt
      ensures x.op == op && x.offset == old(ctxt.cursor)
      ensures ctxt.View() == Place(old(ctxt.View()), x.line.tag, op)
    {
      var c := ctxt;
      x.op := op;
      x.offset := c.cursor;
      match x.op {
        case Ldi(_, _) => c.cursor := c.cursor + 2;
        case Ud =>
        case _ => c.cursor := c.cursor + 1;
      }
      if x.line.tag.Some? {
        c.labels := c.labels[x.line.tag.value := x.offset];
      }
    }

    method AnalyseInstr(x: SourceLine) returns (ok: bool)
      requires Valid()
      modifies x, ctxt
      ensures Valid()
      ensures var spec := AnalyseStatement(old(View()), Instr(x.line));
        ok == spec.Success? && (ok ==> View() == spec.value.0 && Note(x.op, x.offset) == spec.value.1)
    {
      hide OperationOf, Place;
      var op := OperationOf(consts, x.line);
      if op.Failure? {
        return false;
      }
      PlaceInstr(x, op.value);
      CurrentChanged();
      return true;
    }

    method DirDefine(args: seq<Operand>) returns (ok: bool)
      requires Valid()
      modifies this`consts
      ensures Valid() && ok == Define(old(consts), args).Success?
      ensures ok ==> consts == Define(old(consts), args).value
    {
      if |args| != 2 || !args[0].Id? {
        return false;
      }
      var v := GetOp(consts, args[1]);
      if v.Failure? {
        return false;
      }
      consts := consts[args[0].name := v.value];
      return true;
    }

    method DirOrg(args: seq<Operand>) returns (ok: bool)
      requires Valid()
      modifies ctxt
      ensures Valid() && ok == Org(old(ctxt.View()), args).Success?
      ensures ok ==> ctxt.View() == Org(old(ctxt.View()), args).value
    {
      if |args| != 1 || !args[0].Num? {
        return false;
      }
      ctxt.cursor := args[0].i;
      return true;
    }

    method DirFunc(args: seq<Operand>) returns (ok: bool)
      requires Valid()
      modifies this
      ensures Valid() && old(all) <= all
      ensures ok == OpenFunc(old(View()), args).Success? && (ok ==> View() == OpenFunc(old(View()), args).value)
      ensures forall i :: |old(all)| <= i < |all| ==> fresh(all[i]) && fresh(all[i].progMem)
    {
      if |args| != 1 || !args[0].Id? {
        return false;
      }
      ghost var vs := Views();
      var c := new FunctionContext();
      ctxt := c;
      funcs := funcs[args[0].name := c];
      at, index, all := |all|, index[args[0].name := |all|], all + [c];
      assert Views() == vs + [EmptyContext()];
      return true;
    }

    method AnalyseDir(dir: string, args: seq<Operand>) returns (ok: bool)
      requires Valid()
      modifies this, ctxt
      ensures Valid() && old(all) <= all
      ensures forall i :: |old(all)| <= i < |all| ==> fresh(all[i]) && fresh(all[i].progMem)
      ensures var spec := AnalyseStatement(old(View()), Directive(dir, args));
        ok == spec.Success? && (ok ==> View() == spec.value.0 && Note(Ud, 0) == spec.value.1)
    {
      hide Define, Org, OpenFunc;
      if dir == ".define" {
        ok := DirDefine(args);
        CurrentChanged();
      } else if dir == ".org" {
        ok := DirOrg(args);
        CurrentChanged();
      } else if dir == ".func" {
        ok := DirFunc(args);
      } else {
        ok := false;
      }
    }

    method AnalyseOne(x: Stmt) returns (ok: bool)
      requires Valid()
      modifies this, ctxt, if x.InstrStmt? then {x.i} else {}
      ensures Valid() && old(all) <= all
      ensures forall i :: |old(all)| <= i < |all| ==> fresh(all[i]) && fresh(all[i].progMem)
      ensures var spec := AnalyseStatement(old(View()), x.Source());
        ok == spec.Success? && (ok ==> View() == spec.value.0 && NoteOf(x) == spec.value.1)
    {
      hide AnalyseStatement;
      match x {
        case InstrStmt(i) => ok := AnalyseInstr(i);
        case DirStmt(dir, args) => ok := AnalyseDir(dir, args);
      }
    }

    /** Every statement in order; `false` where the assembler stops with an error. */
    method Analyse(src: seq<Stmt>) returns (ok: bool)
      requires Valid() && Separate(src)
      modifies this, Footprint(), LinesOf(src)
      ensures Valid() && old(all) <= all
      ensures forall i :: |old(all)| <= i < |all| ==> fresh(all[i]) && fresh(all[i].progMem)
      ensures var spec := AsmAnalysis.Analyse(old(View()), Sources(src));
        ok == spec.Success? && (ok ==> View() == spec.value.0 && NotesOf(src) == spec.value.1)
    {
      hide AnalyseStatement, AsmAnalysis.Analyse, View, Views;
      ghost var c0, all0, foot := View(), all, Footprint();
      AnalyseNothing(c0);
      for k := 0 to |src|
        invariant Valid() && all0 <= all
        invariant forall i :: |all0| <= i < |all| ==> fresh(all[i]) && fresh(all[i].progMem)
        invariant AsmAnalysis.Analyse(c0, Sources(src[..k])) == Success((View(), NotesOf(src[..k])))
      {
        ghost var before, was := NotesOf(src[..k]), View();
        SourcesMore(src, k);
        AnalyseMore(c0, Sources(src[..k]), src[k].Source());
        assert ctxt in foot || fresh(ctxt);
        assert src[k].InstrStmt? ==> src[k].i in LinesOf(src);
        ok := AnalyseOne(src[k]);
        if !ok {
          PrefixFails(c0, src, k);
          return;
        }
        NotesMore(src, k, before);
      }
      assert src[..|src|] == src;
      return true;
    }

    // ----- Pass 2 -----

    /** A store into the current function's memory; outside it, an exception. */
    method Store(i: int, w: int) returns (ok: bool)
      requires ctxt.progMem.Length == 256
      modifies ctxt.progMem
      ensures ok == Put(old(ctxt.progMem[..]), i, w).Success?
      ensures ok ==> ctxt.progMem[..] == Put(old(ctxt.progMem[..]), i, w).value
    {
      if i < 0 || i >= ctxt.progMem.Length {
        return false;
      }
      ctxt.progMem[i] := w;
      return true;
    }

    method SynthInstr(x: SourceLine) returns (ok: bool)
      requires ctxt.progMem.Length == 256
      modifies ctxt.progMem
      ensures var spec := SynthLine(design, old(ctxt.View()), x.line, Note(x.op, x.offset));
        ok == spec.Success? && (ok ==> ctxt.View() == spec.value)
    {
      hide Encode, Put;
      if x.op.Ldi? {
        ok := Store(x.offset + 1, x.op.s);
        if !ok {
          return;
        }
      }
      var word := Encode(design, ctxt.labels, x.op, x.line.d);
      if word.Failure? {
        return false;
      }
      ok := Store(x.offset, word.value);
    }

    method SynthOne(s: Stmt) returns (ok: bool)
      requires Valid()
      modifies this`ctxt, this`at, ctxt.progMem
      ensures Valid() && all == old(all)
      ensures var spec := SynthStatement(design, old(View()), s.Source(), NoteOf(s));
        ok == spec.Success? && (ok ==> View() == spec.value)
    {
      hide SynthLine, Views;
      if s.InstrStmt? {
        if s.i.op != Ud {
          ok := SynthInstr(s.i);
        } else {
          ok := true;
        }
        CurrentChanged();
      } else if s.dir == ".func" {
        if |s.args| != 1 || !s.args[0].Id? || s.args[0].name !in funcs {
          return false;
        }
        ctxt, at := funcs[s.args[0].name], index[s.args[0].name];
        ok := true;
      } else {
        CurrentChanged();
        ok := true;
      }
    }

    method Synth(src: seq<Stmt>) returns (ok: bool)
      requires Valid()
      modifies this`ctxt, this`at, Memories()
      ensures Valid() && all == old(all)
      ensures var spec := AsmSynth.Synth(design, old(View()), Sources(src), old(NotesOf(src)));
        ok == spec.Success? && (ok ==> View() == spec.value)
    {
      hide SynthStatement, AsmSynth.Synth, View, Views, NotesOf;
      ghost var c0, ss, notes := View(), Sources(src), NotesOf(src);
      SynthNothing(design, c0);
      for k := 0 to |src|
        invariant Valid() && all == old(all) && NotesOf(src) == notes
        invariant AsmSynth.Synth(design, c0, ss[..k], notes[..k]) == Success(View())
      {
        assert ctxt.progMem in Memories() by { assert ctxt == all[at]; }
        SynthMore(design, c0, ss, notes, k);
        assert ss[k] == src[k].Source() && notes[k] == NoteOf(src[k]);
        ok := SynthOne(src[k]);
        if !ok {
          SynthPrefixFails(design, c0, ss, notes, k);
          return;
        }
      }
      assert ss[..|src|] == ss && notes[..|src|] == notes;
      return true;
    }

    /** Both passes over the same statements. */
    method Run(src: seq<Stmt>) returns (ok: bool)
      requires Valid() && Separate(src)
      modifies this, Footprint(), Memories(), LinesOf(src)
      ensures var first := AsmAnalysis.Analyse(old(View()), Sources(src));
        && (ok ==> first.Success?)
        && (first.Success? ==>
              var second := AsmSynth.Synth(design, first.value.0, Sources(src), first.value.1);
              ok == second.Success? && (ok ==> Valid() && View() == second.value))
    {
      hide AsmAnalysis.Analyse, AsmSynth.Synth;
      ghost var memories := Memories();
      ok := Analyse(src);
      if ok {
        assert forall o :: o in Memories() ==> o in memories || fresh(o);
        ok := Synth(src);
      }
    }
  }

  lemma AnalyseNothing(c: Contexts)
    requires c.Valid()
    ensures AsmAnalysis.Analyse(c, Sources([])) == Success((c, NotesOf([])))
  {
  }

  /** One statement more. */
  lemma AnalyseMore(c: Contexts, src: seq<Statement>, st: Statement)
    requires c.Valid() && AsmAnalysis.Analyse(c, src).Success?
    ensures var (c1, notes) := AsmAnalysis.Analyse(c, src).value;
      AsmAnalysis.Analyse(c, src + [st]) ==
      match AnalyseStatement(c1, st)
      case Failure(e) => Failure(e)
      case Success((c2, n)) => Success((c2, notes + [n]))
  {
    hide AnalyseStatement;
    assert (src + [st])[..|src|] == src;
  }

  /** No line object occurs twice. */
  ghost predicate Separate(src: seq<Stmt>) {
    forall i, j :: 0 <= i < j < |src| && src[i].InstrStmt? && src[j].InstrStmt? ==> src[i].i != src[j].i
  }

  ghost function LinesOf(src: seq<Stmt>): set<object> {
    set k: int | 0 <= k < |src| && src[k].InstrStmt? :: src[k].i as object
  }

  function Sources(src: seq<Stmt>): (r: seq<Statement>)
    ensures |r| == |src|
  {
    seq(|src|, k requires 0 <= k < |src| => src[k].Source())
  }

  ghost function NoteOf(s: Stmt): Note
    reads if s.InstrStmt? then {s.i} else {}
  {
    if s.InstrStmt? then Note(s.i.op, s.i.offset) else Note(Ud, 0)
  }

  ghost function NotesOf(src: seq<Stmt>): (r: seq<Note>)
    reads LinesOf(src)
    ensures |r| == |src| && forall k :: 0 <= k < |src| ==> r[k] == NoteOf(src[k])
  {
    seq(|src|, k requires 0 <= k < |src| reads LinesOf(src) =>
      assert src[k].InstrStmt? ==> src[k].i in LinesOf(src); NoteOf(src[k]))
  }

  lemma SourcesMore(src: seq<Stmt>, k: nat)
    requires k < |src|
    ensures Sources(src[..k + 1]) == Sources(src[..k]) + [src[k].Source()]
  {
  }

  lemma NotesMore(src: seq<Stmt>, k: nat, before: seq<Note>)
    requires k < |src| && |before| == k && forall j :: 0 <= j < k ==> before[j] == NoteOf(src[j])
    ensures NotesOf(src[..k + 1]) == before + [NoteOf(src[k])]
  {
  }

  /** An error at one statement is an error of the whole. */
  lemma {:induction false} PrefixFails(c: Contexts, src: seq<Stmt>, k: nat)
    requires c.Valid() && k < |src| && AsmAnalysis.Analyse(c, Sources(src[..k + 1])).Failure?
    ensures AsmAnalysis.Analyse(c, Sources(src)).Failure?
    decreases |src|
  {
    hide AnalyseStatement;
    if |src| == k + 1 {
      assert src[..k + 1] == src;
    } else {
      var n := |src| - 1;
      assert src[..n][..k + 1] == src[..k + 1] && src[..n + 1] == src;
      PrefixFails(c, src[..n], k);
      SourcesMore(src, n);
      assert Sources(src)[..n] == Sources(src[..n]);
    }
  }

  lemma SynthNothing(v: Design, c: Contexts)
    requires c.Valid()
    ensures AsmSynth.Synth(v, c, [], []) == Success(c)
  {
  }

  lemma SynthMore(v: Design, c: Contexts, ss: seq<Statement>, notes: seq<Note>, k: nat)
    requires c.Valid() && |notes| == |ss| && k < |ss| && AsmSynth.Synth(v, c, ss[..k], notes[..k]).Success?
    ensures AsmSynth.Synth(v, c, ss[..k + 1], notes[..k + 1]) ==
            SynthStatement(v, AsmSynth.Synth(v, c, ss[..k], notes[..k]).value, ss[k], notes[k])
  {
    hide SynthStatement;
    assert ss[..k + 1][..k] == ss[..k] && notes[..k + 1][..k] == notes[..k];
  }

  lemma {:induction false} SynthPrefixFails(v: Design, c: Contexts, ss: seq<Statement>, notes: seq<Note>, k: nat)
    requires c.Valid() && |notes| == |ss| && k < |ss| && AsmSynth.Synth(v, c, ss[..k + 1], notes[..k + 1]).Failure?
    ensures AsmSynth.Synth(v, c, ss, notes).Failure?
    decreases |ss|
  {
    hide SynthStatement;
    if |ss| == k + 1 {
      assert ss[..k + 1] == ss && notes[..k + 1] == notes;
    } else {
      var n := |ss| - 1;
      assert ss[..n][..k + 1] == ss[..k + 1] && notes[..n][..k + 1] == notes[..k + 1];
      SynthPrefixFails(v, c, ss[..n], notes[..n], k);
    }
  }
}
