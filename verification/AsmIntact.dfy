/** A function that moves no cursor comes out intact whatever the rest of its file does. */
module AsmIntact {
  import opened Words
  import opened Wrappers
  import opened AsmAst
  import opened AsmAnalysis
  import opened AsmSynth
  import opened AsmMeaning
  import opened AsmAny

  /** Statements `s..e` are the body of a function `f`: its `.func` line is right before them,
      they move no cursor, the next function or the end of the file follows, and no later
      function has the same name. */
  predicate FunctionAt(src: seq<Statement>, s: nat, e: nat, f: string) {
    && 0 < s <= e <= |src| && src[s - 1] == Directive(".func", [Id(f)]) && Plain(src[s..e])
    && (e == |src| || Opens(src[e]))
    && forall j :: e <= j < |src| && Opens(src[j]) ==> src[j].args[0].name != f
  }

  // ----- Reading -----

  lemma {:induction false} ReadPrefix(consts: map<string, int>, src: seq<Statement>, n: nat)
    requires n <= |src| && Read(consts, src).Success?
    ensures Read(consts, src[..n]).Success? && Read(consts, src[..n]).value.1 == Read(consts, src).value.1[..n]
    decreases |src| - n
  {
    hide ReadStatement;
    if n == |src| {
      assert src[..n] == src;
    } else {
      ReadPrefix(consts, src, n + 1);
      assert src[..n + 1][..n] == src[..n];
    }
  }

  /** The items of a body, read where it stands in the file. */
  lemma {:induction false} BodyRead(consts: map<string, int>, src: seq<Statement>, s: nat, n: nat)
    requires s <= n <= |src| && Read(consts, src).Success? && Plain(src[s..n])
    ensures Read(consts, src[..s]).Success? && Read(consts, src[..n]).Success?
    ensures var r := Items(Read(consts, src[..s]).value.0, src[s..n]);
      && r.Success? && r.value.0 == Read(consts, src[..n]).value.0
      && ItemsAt(src, Read(consts, src).value.1, s, n, r.value.1)
    decreases n
  {
    hide Read, Items, ItemsAt;
    ReadPrefix(consts, src, s);
    ReadPrefix(consts, src, n);
    if n > s {
      var m := n - 1;
      assert src[s..n] == src[s..m] + [src[m]] && src[..n] == src[..m] + [src[m]];
      PlainParts(src[s..m], src[m]);
      BodyRead(consts, src, s, m);
      BodyReadMore(consts, src, s, m);
    } else {
      assert src[s..n] == [];
      NothingRead(Read(consts, src[..s]).value.0, src, Read(consts, src).value.1, s);
    }
  }

  lemma PlainParts(a: seq<Statement>, st: Statement)
    requires Plain(a + [st])
    ensures Plain(a) && Plain([st])
  {
    assert forall i :: 0 <= i < |a| ==> (a + [st])[i] == a[i];
    assert (a + [st])[|a|] == st;
  }

  lemma NothingRead(consts: map<string, int>, src: seq<Statement>, ops: seq<Operation>, s: nat)
    requires s <= |src| == |ops|
    ensures Items(consts, []) == Success((consts, [])) && ItemsAt(src, ops, s, s, [])
  {
  }

  /** One more statement of the body. */
  lemma BodyReadMore(consts: map<string, int>, src: seq<Statement>, s: nat, m: nat)
    requires s <= m < |src| && Read(consts, src).Success? && Plain([src[m]])
    requires Read(consts, src[..s]).Success? && Read(consts, src[..m]).Success? && Read(consts, src[..m + 1]).Success?
    requires Read(consts, src[..m + 1]).value.1 == Read(consts, src).value.1[..m + 1]
    requires var r := Items(Read(consts, src[..s]).value.0, src[s..m]);
      && r.Success? && r.value.0 == Read(consts, src[..m]).value.0
      && ItemsAt(src, Read(consts, src).value.1, s, m, r.value.1)
    ensures var r := Items(Read(consts, src[..s]).value.0, src[s..m + 1]);
      && r.Success? && r.value.0 == Read(consts, src[..m + 1]).value.0
      && ItemsAt(src, Read(consts, src).value.1, s, m + 1, r.value.1)
  {
    hide ReadStatement, ItemOf, ItemAt;
    var n, ops := m + 1, Read(consts, src).value.1;
    assert src[..n][..m] == src[..m] && src[..n][m] == src[m];
    assert src[s..n][..m - s] == src[s..m] && src[s..n][m - s] == src[m];
    var consts1 := Read(consts, src[..m]).value.0;
    OneRead(consts1, src[m]);
    assert ops[..n][m] == ops[m];
    ItemRead(src, ops, m, consts1);
  }

  lemma OneRead(consts: map<string, int>, st: Statement)
    requires Plain([st]) && ReadStatement(consts, st).Success?
    ensures ItemOf(consts, st).Success? && ItemOf(consts, st).value.0 == ReadStatement(consts, st).value.0
    ensures ItemOf(consts, st).value.1 ==
            Item(TagOf(st), ReadStatement(consts, st).value.1, if st.Instr? then st.line.d else NoOp)
  {
    hide OperationOf, Define;
    assert [st][0] == st;
  }

  /** The item a statement of the file stands for. */
  predicate ItemAt(src: seq<Statement>, ops: seq<Operation>, j: nat, it: Item)
    requires j < |src| == |ops|
  {
    && it.tag == TagOf(src[j]) && it.op == ops[j]
    && if src[j].Instr? then it.target == src[j].line.d else it.op == Ud
  }

  lemma ItemRead(src: seq<Statement>, ops: seq<Operation>, j: nat, consts: map<string, int>)
    requires j < |src| == |ops| && ReadStatement(consts, src[j]).Success?
    requires ops[j] == ReadStatement(consts, src[j]).value.1
    requires ItemOf(consts, src[j]).Success? && ItemOf(consts, src[j]).value.1 ==
             Item(TagOf(src[j]), ops[j], if src[j].Instr? then src[j].line.d else NoOp)
    ensures ItemAt(src, ops, j, ItemOf(consts, src[j]).value.1)
  {
  }

  /** `items` are the statements `s..e` of the file. */
  predicate ItemsAt(src: seq<Statement>, ops: seq<Operation>, s: nat, e: nat, items: seq<Item>) {
    s <= e <= |src| == |ops| && |items| == e - s && forall i :: 0 <= i < e - s ==> ItemAt(src, ops, s + i, items[i])
  }

  // ----- Offsets, labels and homes -----

  lemma Bounds(src: seq<Statement>, s: nat, e: nat, f: string)
    requires FunctionAt(src, s, e, f)
    ensures 0 < s <= e <= |src|
  {
  }

  lemma NoneInside(src: seq<Statement>, s: nat, e: nat, f: string)
    requires FunctionAt(src, s, e, f)
    ensures forall j :: s <= j < e ==> !IsFunc(src[j]) && !Moves(src[j])
    ensures forall j :: s <= j < |src| && Opens(src[j]) ==> src[j].args[0].name != f
  {
    forall j | s <= j < e
      ensures !IsFunc(src[j]) && !Moves(src[j])
    {
      assert src[s..e][j - s] == src[j];
    }
  }

  /** One more statement of the body. */
  lemma PlaceStep(src: seq<Statement>, ops: seq<Operation>, m: nat, k: nat, front: seq<Item>, it: Item)
    requires m < |src| == |ops| && !IsFunc(src[m]) && !Moves(src[m]) && ItemAt(src, ops, m, it)
    requires At(src, ops, m) == Offset(front) && Opened(src[..m]) == k
    requires LabelsOf(src[..m], ops[..m], k) == Labels(front)
    ensures At(src, ops, m + 1) == Offset(front + [it]) && Opened(src[..m + 1]) == k
    ensures LabelsOf(src[..m + 1], ops[..m + 1], k) == Labels(front + [it])
  {
    var n := m + 1;
    assert src[..n][..m] == src[..m] && ops[..n][..m] == ops[..m] && src[..n][m] == src[m] && ops[..n][m] == ops[m];
    assert (front + [it])[..|front|] == front;
  }

  lemma PlaceStart(src: seq<Statement>, ops: seq<Operation>, s: nat)
    requires 0 < s <= |src| == |ops| && Opens(src[s - 1])
    ensures At(src, ops, s) == Offset([]) && LabelsOf(src[..s], ops[..s], Opened(src[..s])) == Labels([])
  {
    var m := s - 1;
    assert src[..s][m] == src[m] && src[..s][..m] == src[..m] && ops[..s][..m] == ops[..m];
    NoLabelsYet(src[..m], ops[..m], Opened(src[..s]));
  }

  /** In the body, the cursor is the offset of the meaning, the function the same. */
  lemma {:induction false} BodyPlaces(src: seq<Statement>, ops: seq<Operation>, s: nat, e: nat, f: string,
                                      items: seq<Item>, n: nat)
    requires FunctionAt(src, s, e, f) && ItemsAt(src, ops, s, e, items) && s <= n <= e
    ensures At(src, ops, n) == Offset(items[..n - s]) && Opened(src[..n]) == Opened(src[..s])
    ensures LabelsOf(src[..n], ops[..n], Opened(src[..s])) == Labels(items[..n - s])
    decreases n
  {
    hide At, Offset, Opened, LabelsOf, Labels, ItemAt;
    if n == s {
      PlaceStart(src, ops, s);
      assert items[..0] == [];
    } else {
      hide FunctionAt;
      var m := n - 1;
      BodyPlaces(src, ops, s, e, f, items, m);
      NoneInside(src, s, e, f);
      var it := items[m - s];
      assert ItemAt(src, ops, s + (m - s), it) && items[..m - s] + [it] == items[..n - s];
      PlaceStep(src, ops, m, Opened(src[..s]), items[..m - s], it);
    }
  }

  lemma {:induction false} OpenedGrows(src: seq<Statement>, m: nat, n: nat)
    requires m <= n <= |src|
    ensures Opened(src[..m]) <= Opened(src[..n])
    decreases n
  {
    if m < n {
      OpenedGrows(src, m, n - 1);
      assert src[..n][..n - 1] == src[..n - 1];
    }
  }

  /** What follows a function changes neither its labels nor its cursor. */
  lemma {:induction false} AfterBody(src: seq<Statement>, ops: seq<Operation>, e: nat, n: nat)
    requires |ops| == |src| && e <= n <= |src| && (e == |src| || Opens(src[e]))
    ensures var k := Opened(src[..e]);
      && LabelsOf(src[..n], ops[..n], k) == LabelsOf(src[..e], ops[..e], k)
      && CursorOf(src[..n], ops[..n], k) == Cursor(src[..e], ops[..e])
    decreases n
  {
    if n == e {
      CurrentCursor(src[..e], ops[..e]);
    } else {
      var m, k := n - 1, Opened(src[..e]);
      AfterBody(src, ops, e, m);
      assert src[..n][..m] == src[..m] && ops[..n][..m] == ops[..m] && src[..n][m] == src[m];
      OpenedGrows(src, e, m);
      if m > e {
        assert src[..e + 1][..e] == src[..e] && src[..e + 1][e] == src[e];
        OpenedGrows(src, e + 1, m);
      }
    }
  }

  /** The function a name stands for was opened under it, and is the last that was. */
  lemma {:induction false} NamedLast(src: seq<Statement>, n: nat)
    requires n <= |src|
    ensures forall g :: g in Funcs(src[..n]) ==>
              1 <= Funcs(src[..n])[g] <= |HeaderNames(src[..n])| && HeaderNames(src[..n])[Funcs(src[..n])[g] - 1] == g
    decreases n
  {
    if n > 0 {
      NamedLast(src, n - 1);
      assert src[..n][..n - 1] == src[..n - 1];
    }
  }

  lemma {:induction false} StillNamed(src: seq<Statement>, s: nat, n: nat, f: string)
    requires 0 < s <= n <= |src| && src[s - 1] == Directive(".func", [Id(f)])
    requires forall j :: s <= j < n && Opens(src[j]) ==> src[j].args[0].name != f
    ensures f in Funcs(src[..n]) && Funcs(src[..n])[f] == Opened(src[..s])
    decreases n
  {
    assert src[..n][..n - 1] == src[..n - 1] && src[..n][n - 1] == src[n - 1];
    if n > s {
      StillNamed(src, s, n - 1, f);
    }
  }

  lemma {:induction false} BodyHome(src: seq<Statement>, s: nat, e: nat, f: string, n: nat)
    requires FunctionAt(src, s, e, f) && s <= n <= e
    ensures Home(src, n) == Opened(src[..s])
    decreases n
  {
    NoneInside(src, s, e, f);
    if n == s {
      StillNamed(src, s, |src|, f);
      assert src[..|src|] == src;
    } else {
      BodyHome(src, s, e, f, n - 1);
    }
  }

  lemma {:induction false} LaterHome(src: seq<Statement>, s: nat, e: nat, f: string, n: nat)
    requires FunctionAt(src, s, e, f) && NamesKnown(src) && e < n <= |src|
    ensures Home(src, n) != Opened(src[..s])
    decreases n
  {
    if Opens(src[n - 1]) {
      var g := src[n - 1].args[0].name;
      NoneInside(src, s, e, f);
      StillNamed(src, s, |src|, f);
      assert src[..|src|] == src;
      NamedLast(src, |src|);
    } else {
      assert n - 1 > e;
      LaterHome(src, s, e, f, n - 1);
    }
  }

  // ----- The words -----

  /** While the body is written, the words behind the cursor are its image so far. */
  lemma {:induction false} BodyWords(v: Design, src: seq<Statement>, ops: seq<Operation>, s: nat, e: nat, f: string,
                                     items: seq<Item>, n: nat)
    requires FunctionAt(src, s, e, f) && ItemsAt(src, ops, s, e, items) && s <= n <= e
    requires forall j :: s <= j < n ==> Placed(v, src, ops, j)
    ensures var k := Opened(src[..s]);
      var image := Image(v, LabelsOf(src, ops, k), items[..n - s]);
      && image.Success?
      && forall a :: 0 <= a < Offset(items[..n - s]) ==> Cell(v, src, ops, n, k, a) == image.value[a]
    decreases n
  {
    hide LabelsOf, Encode, FunctionAt, Opened, Home, At, Covers, WordAt, Cell, Placed, ItemAt;
    if n == s {
      assert items[..0] == [];
    } else {
      var m, k := n - 1, Opened(src[..s]);
      BodyWords(v, src, ops, s, e, f, items, m);
      BodyPlaces(src, ops, s, e, f, items, m);
      BodyHome(src, s, e, f, m);
      var it := items[m - s];
      assert items[..n - s][..m - s] == items[..m - s] && ItemAt(src, ops, s + (m - s), it);
      assert Placed(v, src, ops, m);
      StatementWords(v, src, ops, m, k, it);
      var o := Offset(items[..m - s]);
      forall a | 0 <= a < Offset(items[..n - s])
        ensures Cell(v, src, ops, n, k, a) == Image(v, LabelsOf(src, ops, k), items[..n - s]).value[a]
      {
        CellStep(v, src, ops, m, k, a);
      }
    }
  }

  /** The words of one statement of the body. */
  lemma StatementWords(v: Design, src: seq<Statement>, ops: seq<Operation>, j: nat, k: nat, it: Item)
    requires j < |src| == |ops| && ItemAt(src, ops, j, it) && Home(src, j) == k && Placed(v, src, ops, j)
    ensures var code, o := Code(v, LabelsOf(src, ops, k), it), At(src, ops, j);
      && code.Success? && |code.value| == Size(it.op)
      && forall a ::
           if o <= a < o + Size(it.op)
           then Covers(src, ops, j, k, a) && WordAt(v, src, ops, j, a) == code.value[a - o]
           else !Covers(src, ops, j, k, a)
  {
    hide LabelsOf, Encode, Home, At;
  }

  /** What statements `s..e` say, read where they stand. */
  function BodyItems(consts: map<string, int>, src: seq<Statement>, s: nat, e: nat): seq<Item>
    requires s <= e <= |src|
  {
    match Read(consts, src[..s])
    case Failure(_) => []
    case Success((consts', _)) =>
      match Items(consts', src[s..e])
      case Failure(_) => []
      case Success((_, items)) => items
  }

  /** Whatever else the file holds, the function's table is the image of its own statements
      under its own labels. */
  lemma Intact(v: Design, consts: map<string, int>, src: seq<Statement>, s: nat, e: nat, f: string)
    requires FunctionAt(src, s, e, f) && Header(v, consts, src).Success?
    ensures Read(consts, src[..s]).Success? && Items(Read(consts, src[..s]).value.0, src[s..e]).Success?
    ensures var items := BodyItems(consts, src, s, e);
      var image, k := Image(v, Labels(items), items), Opened(src[..s]);
      && image.Success? && |image.value| <= 256 && 1 <= k <= |Header(v, consts, src).value|
      && Header(v, consts, src).value[k - 1] == (f, image.value)
  {
    hide Header, Cell, Items, Read, LabelsOf, CursorOf, Cursor, Labels, Image, Offset, FunctionAt, ItemAt, Funcs,
         Placed, Opened, HeaderNames, NamesKnown, Home, Covers, WordAt;
    Bounds(src, s, e, f);
    AnySource(v, consts, src);
    var ops, k := Read(consts, src).value.1, Opened(src[..s]);
    ReadNames(consts, src);
    FunctionRead(consts, src, s, e, f);
    var items := BodyItems(consts, src, s, e);
    BodyWords(v, src, ops, s, e, f, items, e);
    Surroundings(src, ops, s, e, f, items);
    var image := Image(v, Labels(items), items);
    forall a | 0 <= a < |image.value|
      ensures Cell(v, src, ops, |src|, k, a) == image.value[a]
    {
      forall i | e <= i < |src|
        ensures !Covers(src, ops, i, k, a)
      {
        NotCovered(src, ops, s, e, f, i, a);
      }
      LastWriter(v, src, ops, |src|, k, a, e);
    }
    assert EmittedWords(v, src, ops, k) == image.value;
  }

  lemma FunctionRead(consts: map<string, int>, src: seq<Statement>, s: nat, e: nat, f: string)
    requires FunctionAt(src, s, e, f) && Read(consts, src).Success?
    ensures Read(consts, src[..s]).Success? && Items(Read(consts, src[..s]).value.0, src[s..e]).Success?
    ensures s <= e <= |src|
    ensures ItemsAt(src, Read(consts, src).value.1, s, e, Items(Read(consts, src[..s]).value.0, src[s..e]).value.1)
  {
    hide Read, Items, ItemsAt;
    BodyRead(consts, src, s, e);
  }

  lemma NotCovered(src: seq<Statement>, ops: seq<Operation>, s: nat, e: nat, f: string, i: nat, a: int)
    requires FunctionAt(src, s, e, f) && NamesKnown(src) && e <= i < |src| == |ops|
    ensures !Covers(src, ops, i, Opened(src[..s]), a)
  {
    hide At, Home, Opened, NamesKnown;
    if i > e {
      LaterHome(src, s, e, f, i);
    }
  }

  /** The labels, the cursor, the place and the name of the function in the finished file. */
  lemma Surroundings(src: seq<Statement>, ops: seq<Operation>, s: nat, e: nat, f: string, items: seq<Item>)
    requires FunctionAt(src, s, e, f) && ItemsAt(src, ops, s, e, items)
    ensures var k := Opened(src[..s]);
      && LabelsOf(src, ops, k) == Labels(items) && CursorOf(src, ops, k) == Offset(items) && items[..e - s] == items
      && 1 <= k <= Opened(src) && HeaderNames(src)[k - 1] == f
  {
    hide LabelsOf, CursorOf, Cursor, Labels, Offset, ItemAt;
    BodyPlaces(src, ops, s, e, f, items, e);
    AfterBody(src, ops, e, |src|);
    assert src[..|src|] == src && ops[..|src|] == ops && items[..e - s] == items;
    NoneInside(src, s, e, f);
    StillNamed(src, s, |src|, f);
    NamedLast(src, |src|);
  }
}
