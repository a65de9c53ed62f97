/** What the two passes make of any source at all: cursor moves, repeated function names and
    statements before the first function included. */
module AsmAny {
  import opened Words
  import opened Wrappers
  import opened AsmAst
  import opened AsmAnalysis
  import opened AsmSynth

  // ----- Reading -----

  predicate Moves(st: Statement) {
    st.Directive? && st.dir == ".org" && |st.args| == 1 && st.args[0].Num?
  }

  predicate Opens(st: Statement) {
    IsFunc(st) && |st.args| == 1 && st.args[0].Id?
  }

  /** The operation of a statement under the constants before it, and the constants after it. */
  function ReadStatement(consts: map<string, int>, st: Statement): Result<(map<string, int>, Operation)> {
    match st
    case Instr(line) =>
      var op :- OperationOf(consts, line);
      Success((consts, op))
    case Directive(dir, args) =>
      if dir == ".define" then
        var consts' :- Define(consts, args);
        Success((consts', Ud))
      else if Moves(st) || Opens(st) then Success((consts, Ud))
      else Failure("directive")
  }

  function Read(consts: map<string, int>, src: seq<Statement>): (r: Result<(map<string, int>, seq<Operation>)>)
    ensures r.Success? ==> |r.value.1| == |src|
  {
    if src == [] then Success((consts, []))
    else
      match Read(consts, src[..|src| - 1])
      case Failure(e) => Failure(e)
      case Success((consts1, ops)) =>
        match ReadStatement(consts1, src[|src| - 1])
        case Failure(e) => Failure(e)
        case Success((consts2, op)) => Success((consts2, ops + [op]))
  }

  // ----- Where things are -----

  /** How many functions a source opens. Context 0 is the one before them all. */
  function Opened(src: seq<Statement>): nat {
    if src == [] then 0 else Opened(src[..|src| - 1]) + if Opens(src[|src| - 1]) then 1 else 0
  }

  /** The place of the next statement in its function. */
  function Cursor(src: seq<Statement>, ops: seq<Operation>): int
    requires |ops| == |src|
  {
    if src == [] then 0
    else
      var n := |src| - 1;
      if Opens(src[n]) then 0
      else if Moves(src[n]) then src[n].args[0].i
      else Cursor(src[..n], ops[..n]) + Size(ops[n])
  }

  /** The cursor function `k` was left with. */
  function CursorOf(src: seq<Statement>, ops: seq<Operation>, k: nat): int
    requires |ops| == |src|
  {
    if k >= Opened(src) then Cursor(src, ops)
    else if src == [] then 0
    else CursorOf(src[..|src| - 1], ops[..|src| - 1], k)
  }

  function TagOf(st: Statement): Option<string> {
    if st.Instr? then st.line.tag else None
  }

  /** The labels of function `k`: each stands for where the last statement with it was. */
  function LabelsOf(src: seq<Statement>, ops: seq<Operation>, k: nat): map<string, int>
    requires |ops| == |src|
  {
    if src == [] then map[]
    else
      var n := |src| - 1;
      var m := LabelsOf(src[..n], ops[..n], k);
      if Opened(src[..n]) == k && TagOf(src[n]).Some? then m[TagOf(src[n]).value := Cursor(src[..n], ops[..n])] else m
  }

  /** The function a name stands for: the last one opened under it. */
  function Funcs(src: seq<Statement>): map<string, nat> {
    if src == [] then map[]
    else
      var n := |src| - 1;
      if Opens(src[n]) then Funcs(src[..n])[src[n].args[0].name := Opened(src)] else Funcs(src[..n])
  }

  // ----- Pass 1 -----

  function ContextOf(src: seq<Statement>, ops: seq<Operation>, k: nat): Context
    requires |ops| == |src|
  {
    Context(LabelsOf(src, ops, k), CursorOf(src, ops, k), EmptyContext().progMem)
  }

  predicate Noted(notes: seq<Note>, src: seq<Statement>, ops: seq<Operation>)
    requires |ops| == |src|
  {
    && |notes| == |src|
    && forall j :: 0 <= j < |src| ==>
         notes[j].op == ops[j] && (ops[j] != Ud ==> notes[j].offset == Cursor(src[..j], ops[..j]))
  }

  predicate Described(c: Contexts, src: seq<Statement>, ops: seq<Operation>)
    requires |ops| == |src|
  {
    && |c.all| == Opened(src) + 1 && c.cur == Opened(src) && c.funcs == Funcs(src)
    && forall k :: 0 <= k < |c.all| ==> c.all[k] == ContextOf(src, ops, k)
  }

  lemma NotedMore(notes: seq<Note>, src: seq<Statement>, ops: seq<Operation>, st: Statement, op: Operation, n: Note)
    requires |ops| == |src| && Noted(notes, src, ops) && n.op == op && (op != Ud ==> n.offset == Cursor(src, ops))
    ensures Noted(notes + [n], src + [st], ops + [op])
  {
    var src', ops' := src + [st], ops + [op];
    forall j | 0 <= j < |src'|
      ensures (notes + [n])[j].op == ops'[j]
      ensures (ops'[j] != Ud ==> (notes + [n])[j].offset == Cursor(src'[..j], ops'[..j]))
    {
      assert src'[..j] == src[..j] && ops'[..j] == ops[..j];
      assert j == |src| ==> src[..j] == src && ops[..j] == ops;
    }
  }

  /** Contexts other than the last are as they were. */
  lemma ContextSnoc(src: seq<Statement>, ops: seq<Operation>, st: Statement, op: Operation, k: nat)
    requires |ops| == |src|
    ensures Opened(src + [st]) == Opened(src) + if Opens(st) then 1 else 0
    ensures k < Opened(src) ==> ContextOf(src + [st], ops + [op], k) == ContextOf(src, ops, k)
    ensures k == Opened(src) ==>
              ContextOf(src + [st], ops + [op], k) ==
              Context(if TagOf(st).Some? then LabelsOf(src, ops, k)[TagOf(st).value := Cursor(src, ops)]
                else LabelsOf(src, ops, k),
                      if Opens(st) then Cursor(src, ops) else Cursor(src + [st], ops + [op]), EmptyContext().progMem)
  {
    var src', ops' := src + [st], ops + [op];
    assert src'[..|src'| - 1] == src && ops'[..|src'| - 1] == ops && src'[|src|] == st;
    assert Opened(src') == Opened(src) + if Opens(st) then 1 else 0;
    if k < Opened(src') {
      assert CursorOf(src', ops', k) == CursorOf(src, ops, k);
    }
  }

  lemma {:induction false} NoLabelsYet(src: seq<Statement>, ops: seq<Operation>, k: nat)
    requires |ops| == |src| && k > Opened(src)
    ensures LabelsOf(src, ops, k) == map[]
    decreases |src|
  {
    if src != [] {
      NoLabelsYet(src[..|src| - 1], ops[..|src| - 1], k);
    }
  }

  /** One more statement. */
  lemma StepDescribed(c: Contexts, src: seq<Statement>, ops: seq<Operation>, st: Statement)
    requires c.Valid() && |ops| == |src| && Described(c, src, ops)
    ensures AnalyseStatement(c, st).Success? <==> ReadStatement(c.consts, st).Success?
    ensures ReadStatement(c.consts, st).Success? ==>
              var (c', n) := AnalyseStatement(c, st).value;
              var (consts', op) := ReadStatement(c.consts, st).value;
              && c'.consts == consts' && n.op == op && (op != Ud ==> n.offset == Cursor(src, ops))
              && Described(c', src + [st], ops + [op])
  {
    hide OperationOf, Define, LabelsOf, Cursor, CursorOf, Opened, Funcs;
    if ReadStatement(c.consts, st).Success? {
      var (c', n) := AnalyseStatement(c, st).value;
      var op := ReadStatement(c.consts, st).value.1;
      var cur := Opened(src);
      CurrentCursor(src, ops);
      assert c.all[cur] == ContextOf(src, ops, cur);
      CursorSnoc(src, ops, st, op);
      FuncsSnoc(src, st);
      ContextSnoc(src, ops, st, op, cur);
      if Opens(st) {
        OpenedEmpty(src, ops, st, op);
      }
      forall k | 0 <= k < |c'.all|
        ensures c'.all[k] == ContextOf(src + [st], ops + [op], k)
      {
        ContextSnoc(src, ops, st, op, k);
      }
    }
  }

  lemma CurrentCursor(src: seq<Statement>, ops: seq<Operation>)
    requires |ops| == |src|
    ensures CursorOf(src, ops, Opened(src)) == Cursor(src, ops)
  {
  }

  lemma CursorSnoc(src: seq<Statement>, ops: seq<Operation>, st: Statement, op: Operation)
    requires |ops| == |src|
    ensures Cursor(src + [st], ops + [op]) ==
            if Opens(st) then 0 else if Moves(st) then st.args[0].i else Cursor(src, ops) + Size(op)
  {
    assert (src + [st])[..|src|] == src && (ops + [op])[..|ops|] == ops;
  }

  lemma FuncsSnoc(src: seq<Statement>, st: Statement)
    ensures Funcs(src + [st]) == if Opens(st) then Funcs(src)[st.args[0].name := Opened(src) + 1] else Funcs(src)
  {
    assert (src + [st])[..|src|] == src;
  }

  lemma OpenedEmpty(src: seq<Statement>, ops: seq<Operation>, st: Statement, op: Operation)
    requires |ops| == |src| && Opens(st)
    ensures ContextOf(src + [st], ops + [op], Opened(src) + 1) == EmptyContext()
  {
    assert (src + [st])[..|src|] == src && (ops + [op])[..|ops|] == ops;
    NoLabelsYet(src, ops, Opened(src) + 1);
  }

  /** Pass 1 succeeds exactly when every statement can be read, and leaves these contexts and
      notes. */
  lemma {:induction false} PassOne(consts: map<string, int>, src: seq<Statement>)
    ensures Analyse(FirstContexts(consts), src).Success? <==> Read(consts, src).Success?
    ensures Read(consts, src).Success? ==>
              var (c, notes) := Analyse(FirstContexts(consts), src).value;
              var (consts', ops) := Read(consts, src).value;
              c.consts == consts' && Described(c, src, ops) && Noted(notes, src, ops)
    decreases |src|
  {
    hide AnalyseStatement, ReadStatement, Described, Noted;
    if src == [] {
      NothingDescribed(consts);
    } else {
      var n := |src| - 1;
      PassOne(consts, src[..n]);
      assert src == src[..n] + [src[n]];
      if Read(consts, src[..n]).Success? {
        var (c, notes) := Analyse(FirstContexts(consts), src[..n]).value;
        var ops := Read(consts, src[..n]).value.1;
        StepDescribed(c, src[..n], ops, src[n]);
        if Read(consts, src).Success? {
          var op := ReadStatement(c.consts, src[n]).value.1;
          NotedMore(notes, src[..n], ops, src[n], op, AnalyseStatement(c, src[n]).value.1);
        }
      }
    }
  }

  lemma NothingDescribed(consts: map<string, int>)
    ensures Described(FirstContexts(consts), [], []) && Noted([], [], [])
  {
  }

  // ----- Pass 2 -----

  /** The function whose memory statement `n` is written to: the one its last `.func` line names
      or, before any, the one the file ends in. */
  function Home(src: seq<Statement>, n: nat): nat
    requires n <= |src|
  {
    if n == 0 then Opened(src)
    else if Opens(src[n - 1]) && src[n - 1].args[0].name in Funcs(src) then Funcs(src)[src[n - 1].args[0].name]
    else Home(src, n - 1)
  }

  function At(src: seq<Statement>, ops: seq<Operation>, j: nat): int
    requires j <= |src| == |ops|
  {
    Cursor(src[..j], ops[..j])
  }

  predicate Real(src: seq<Statement>, ops: seq<Operation>, j: nat)
    requires j < |src| == |ops|
  {
    src[j].Instr? && ops[j] != Ud
  }

  /** The first word of statement `j`, under the labels of the function it is written to. */
  function FirstWord(v: Design, src: seq<Statement>, ops: seq<Operation>, j: nat): Result<int>
    requires j < |src| == |ops| && Real(src, ops, j)
  {
    Encode(v, LabelsOf(src, ops, Home(src, j)), ops[j], src[j].line.d)
  }

  /** Statement `j` has a code, and its words lie in the memory. */
  predicate Placed(v: Design, src: seq<Statement>, ops: seq<Operation>, j: nat)
    requires j < |src| == |ops|
  {
    Real(src, ops, j) ==>
      FirstWord(v, src, ops, j).Success? && 0 <= At(src, ops, j) && At(src, ops, j) + Size(ops[j]) <= 256
  }

  /** Statement `j` writes word `a` of function `k`. */
  predicate Covers(src: seq<Statement>, ops: seq<Operation>, j: nat, k: nat, a: int)
    requires j < |src| == |ops|
  {
    Real(src, ops, j) && Home(src, j) == k && At(src, ops, j) <= a < At(src, ops, j) + Size(ops[j])
  }

  function WordOr(w: Result<int>): int {
    if w.Success? then w.value else 0
  }

  function WordAt(v: Design, src: seq<Statement>, ops: seq<Operation>, j: nat, a: int): int
    requires j < |src| == |ops| && Real(src, ops, j)
  {
    if a == At(src, ops, j) then WordOr(FirstWord(v, src, ops, j)) else if ops[j].Ldi? then ops[j].s else 0
  }

  /** Word `a` of function `k` after the first `n` statements: the last of them that writes it
      decides. */
  function Cell(v: Design, src: seq<Statement>, ops: seq<Operation>, n: nat, k: nat, a: int): int
    requires n <= |src| == |ops|
  {
    if n == 0 then 0
    else if Covers(src, ops, n - 1, k, a) then WordAt(v, src, ops, n - 1, a)
    else Cell(v, src, ops, n - 1, k, a)
  }

  /** Function `k` after the first `n` statements. */
  function Filled(v: Design, src: seq<Statement>, ops: seq<Operation>, n: nat, k: nat): Context
    requires n <= |src| == |ops|
  {
    ContextOf(src, ops, k).(progMem := seq(256, a => Cell(v, src, ops, n, k, a)))
  }

  predicate AllPlaced(v: Design, src: seq<Statement>, ops: seq<Operation>, n: nat)
    requires n <= |src| == |ops|
  {
    forall j :: 0 <= j < n ==> Placed(v, src, ops, j)
  }

  /** Every `.func` line names a function. */
  predicate NamesKnown(src: seq<Statement>) {
    forall j :: 0 <= j < |src| && IsFunc(src[j]) ==> Opens(src[j]) && src[j].args[0].name in Funcs(src)
  }

  /** Pass 2 after `n` statements. */
  predicate Reached(v: Design, c: Contexts, src: seq<Statement>, ops: seq<Operation>, n: nat)
    requires n <= |src| == |ops|
  {
    && c.funcs == Funcs(src) && |c.all| == Opened(src) + 1 && c.cur == Home(src, n)
    && forall k :: 0 <= k < |c.all| ==> c.all[k] == Filled(v, src, ops, n, k)
  }

  lemma {:induction false} ReadNames(consts: map<string, int>, src: seq<Statement>)
    requires Read(consts, src).Success?
    ensures NamesKnown(src)
    decreases |src|
  {
    hide OperationOf, Define;
    if src != [] {
      var n := |src| - 1;
      ReadNames(consts, src[..n]);
      forall j | 0 <= j < |src| && IsFunc(src[j])
        ensures Opens(src[j]) && src[j].args[0].name in Funcs(src)
      {
        assert j < n ==> src[..n][j] == src[j];
      }
    }
  }

  lemma LineFilled(v: Design, src: seq<Statement>, ops: seq<Operation>, n: nat)
    requires n < |src| == |ops| && Real(src, ops, n)
    ensures var k := Home(src, n);
      var r := SynthLine(v, Filled(v, src, ops, n, k), src[n].line, Note(ops[n], At(src, ops, n)));
      && (r.Success? <==> Placed(v, src, ops, n))
      && (r.Success? ==> r.value == Filled(v, src, ops, n + 1, k))
  {
    hide Encode, LabelsOf, Home, Cursor, Cell;
    var k, o := Home(src, n), At(src, ops, n);
    var r := SynthLine(v, Filled(v, src, ops, n, k), src[n].line, Note(ops[n], o));
    if r.Success? {
      forall a | 0 <= a < 256
        ensures r.value.progMem[a] == Cell(v, src, ops, n + 1, k, a)
      {
        CellStep(v, src, ops, n, k, a);
      }
      assert r.value.progMem == Filled(v, src, ops, n + 1, k).progMem;
    }
  }

  lemma CellStep(v: Design, src: seq<Statement>, ops: seq<Operation>, n: nat, k: nat, a: int)
    requires n < |src| == |ops|
    ensures Cell(v, src, ops, n + 1, k, a) ==
            if Covers(src, ops, n, k, a) then WordAt(v, src, ops, n, a) else Cell(v, src, ops, n, k, a)
  {
  }

  /** A statement leaves alone the functions it is not written to. */
  lemma FilledAlone(v: Design, src: seq<Statement>, ops: seq<Operation>, n: nat, k: nat)
    requires n < |src| == |ops| && (Real(src, ops, n) ==> Home(src, n) != k)
    ensures Filled(v, src, ops, n + 1, k) == Filled(v, src, ops, n, k)
  {
    hide WordAt, Cell;
    forall a
      ensures Cell(v, src, ops, n + 1, k, a) == Cell(v, src, ops, n, k, a)
    {
      CellStep(v, src, ops, n, k, a);
    }
    assert Filled(v, src, ops, n + 1, k).progMem == Filled(v, src, ops, n, k).progMem;
  }

  lemma {:induction false} HomeExists(src: seq<Statement>, n: nat)
    requires n <= |src|
    ensures Home(src, n) <= Opened(src)
    decreases n
  {
    FuncsExist(src);
    if n > 0 {
      HomeExists(src, n - 1);
    }
  }

  lemma {:induction false} FuncsExist(src: seq<Statement>)
    ensures forall f :: f in Funcs(src) ==> 1 <= Funcs(src)[f] <= Opened(src)
    decreases |src|
  {
    if src != [] {
      FuncsExist(src[..|src| - 1]);
    }
  }

  lemma StepReached(v: Design, c: Contexts, src: seq<Statement>, ops: seq<Operation>, n: nat, note: Note)
    requires n < |src| == |ops| && c.Valid() && Reached(v, c, src, ops, n) && NamesKnown(src)
    requires note.op == ops[n] && (ops[n] != Ud ==> note.offset == At(src, ops, n))
    ensures var r := SynthStatement(v, c, src[n], note);
      && (r.Success? <==> Placed(v, src, ops, n))
      && (r.Success? ==> r.value.consts == c.consts && Reached(v, r.value, src, ops, n + 1))
  {
    hide SynthLine, Filled, Funcs, Opened, At;
    var h, r := Home(src, n), SynthStatement(v, c, src[n], note);
    HomeExists(src, n);
    if Real(src, ops, n) {
      LineFilled(v, src, ops, n);
      assert note == Note(ops[n], At(src, ops, n));
    } else {
      FilledAlone(v, src, ops, n, h);
    }
    if r.Success? {
      forall k | 0 <= k < |c.all|
        ensures r.value.all[k] == Filled(v, src, ops, n + 1, k)
      {
        if k != h || !Real(src, ops, n) {
          FilledAlone(v, src, ops, n, k);
        }
      }
    }
  }

  lemma {:induction false} PassTwo(v: Design, c: Contexts, src: seq<Statement>, ops: seq<Operation>, notes: seq<Note>,
                                   n: nat)
    requires n <= |src| == |ops| && c.Valid() && Described(c, src, ops) && Noted(notes, src, ops) && NamesKnown(src)
    ensures var r := Synth(v, c, src[..n], notes[..n]);
      && (r.Success? <==> AllPlaced(v, src, ops, n))
      && (r.Success? ==> r.value.consts == c.consts && Reached(v, r.value, src, ops, n))
    decreases n
  {
    hide SynthStatement, Placed, Reached, Described, NamesKnown, Cursor;
    if n == 0 {
      NothingReached(v, c, src, ops);
    } else {
      var m := n - 1;
      PassTwo(v, c, src, ops, notes, m);
      assert src[..n][..m] == src[..m] && notes[..n][..m] == notes[..m];
      if AllPlaced(v, src, ops, m) {
        StepReached(v, Synth(v, c, src[..m], notes[..m]).value, src, ops, m, notes[m]);
      }
    }
  }

  lemma NothingReached(v: Design, c: Contexts, src: seq<Statement>, ops: seq<Operation>)
    requires |src| == |ops| && Described(c, src, ops)
    ensures Reached(v, c, src, ops, 0)
  {
    forall k | 0 <= k < |c.all|
      ensures c.all[k] == Filled(v, src, ops, 0, k)
    {
      assert EmptyContext().progMem == Filled(v, src, ops, 0, k).progMem;
    }
  }

  // ----- The header -----

  /** The names functions were opened under, in order. */
  function HeaderNames(src: seq<Statement>): (names: seq<string>)
    ensures |names| == Opened(src)
  {
    if src == [] then []
    else
      var n := |src| - 1;
      HeaderNames(src[..n]) + if Opens(src[n]) then [src[n].args[0].name] else []
  }

  /** The words below a function's cursor. */
  function Below(c: Context): seq<int>
    requires c.cursor <= |c.progMem|
  {
    c.progMem[..if c.cursor < 0 then 0 else c.cursor]
  }

  /** No function ends beyond its memory. */
  predicate NoneBeyond(c: Contexts) {
    forall k :: 1 <= k < |c.all| ==> c.all[k].cursor <= |c.all[k].progMem|
  }

  /** Both passes and the header: one table for every `.func` line, in order. */
  function Header(v: Design, consts: map<string, int>, src: seq<Statement>): Result<seq<(string, seq<int>)>> {
    match Analyse(FirstContexts(consts), src)
    case Failure(e) => Failure(e)
    case Success((c1, notes)) =>
      match Synth(v, c1, src, notes)
      case Failure(e) => Failure(e)
      case Success(c) =>
        if |c.all| == Opened(src) + 1 && NoneBeyond(c) then
          Success(seq(Opened(src), k requires 0 <= k < Opened(src) => (HeaderNames(src)[k], Below(c.all[k + 1]))))
        else Failure("index out of bounds")
  }

  /** The table of function `k`: each word below its cursor as the last statement that writes it
      left it, zero where none does. */
  function EmittedWords(v: Design, src: seq<Statement>, ops: seq<Operation>, k: nat): seq<int>
    requires |ops| == |src|
  {
    seq(if CursorOf(src, ops, k) < 0 then 0 else CursorOf(src, ops, k), a => Cell(v, src, ops, |src|, k, a))
  }

  predicate CursorsFit(src: seq<Statement>, ops: seq<Operation>)
    requires |ops| == |src|
  {
    forall k :: 1 <= k <= Opened(src) ==> CursorOf(src, ops, k) <= 256
  }

  /** The assembler on any source: it succeeds exactly when every statement can be read, every
      real one has a code and a place within the 256 words, and no function ends beyond them;
      and it then emits these tables. */
  lemma AnySource(v: Design, consts: map<string, int>, src: seq<Statement>)
    ensures var h, r := Header(v, consts, src), Read(consts, src);
      && (h.Success? <==> r.Success? && AllPlaced(v, src, r.value.1, |src|) && CursorsFit(src, r.value.1))
      && (h.Success? ==>
            && |h.value| == Opened(src)
            && forall k :: 0 <= k < |h.value| ==>
                 h.value[k] == (HeaderNames(src)[k], EmittedWords(v, src, r.value.1, k + 1)))
  {
    hide Analyse, Synth, Read, AllPlaced, Opened, HeaderNames, Described, Reached, NamesKnown, CursorOf, Cell, Noted;
    var r := Read(consts, src);
    PassOne(consts, src);
    if r.Success? {
      var (c1, notes) := Analyse(FirstContexts(consts), src).value;
      var ops := r.value.1;
      ReadNames(consts, src);
      PassTwo(v, c1, src, ops, notes, |src|);
      assert src[..|src|] == src && notes[..|src|] == notes;
      if AllPlaced(v, src, ops, |src|) {
        EmittedTables(v, Synth(v, c1, src, notes).value, src, ops);
      }
    }
  }

  lemma EmittedTables(v: Design, c: Contexts, src: seq<Statement>, ops: seq<Operation>)
    requires |ops| == |src| && Reached(v, c, src, ops, |src|)
    ensures |c.all| == Opened(src) + 1
    ensures forall k :: 0 <= k < |c.all| ==> c.all[k].cursor == CursorOf(src, ops, k) && |c.all[k].progMem| == 256
    ensures forall k :: 0 <= k < |c.all| && CursorOf(src, ops, k) <= 256 ==>
              Below(c.all[k]) == EmittedWords(v, src, ops, k)
  {
    hide Cell, CursorOf, Opened, LabelsOf;
  }

  // ----- What a word is -----

  /** The last statement that writes a word decides it; one that nobody writes is zero. */
  lemma {:induction false} LastWriter(v: Design, src: seq<Statement>, ops: seq<Operation>, n: nat, k: nat, a: int,
                                      j: nat)
    requires j <= n <= |src| == |ops| && forall i :: j <= i < n ==> !Covers(src, ops, i, k, a)
    ensures Cell(v, src, ops, n, k, a) == Cell(v, src, ops, j, k, a)
    ensures j > 0 && Covers(src, ops, j - 1, k, a) ==> Cell(v, src, ops, n, k, a) == WordAt(v, src, ops, j - 1, a)
    ensures j == 0 ==> Cell(v, src, ops, n, k, a) == 0
    decreases n
  {
    hide Covers, WordAt;
    if n > j {
      LastWriter(v, src, ops, n - 1, k, a, j);
    }
  }
}
