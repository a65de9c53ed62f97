/** What a source function means, told without cursors, contexts or stores: a list of
    operations, the word offset of each, and the concatenation of their encodings. */
module AsmMeaning {
  import opened Words
  import opened Wrappers
  import opened AsmAst
  import opened AsmAnalysis
  import opened AsmSynth

  /** A statement of a function. One without an operation carries `Ud`. */
  datatype Item = Item(tag: Option<string>, op: Operation, target: Operand)

  function Offset(items: seq<Item>): nat {
    if items == [] then 0 else Offset(items[..|items| - 1]) + Size(items[|items| - 1].op)
  }

  /** Every label with the offset of the statement it was last put on. */
  function Labels(items: seq<Item>): map<string, int> {
    if items == [] then map[]
    else
      var n := |items| - 1;
      var m := Labels(items[..n]);
      if items[n].tag.Some? then m[items[n].tag.value := Offset(items[..n])] else m
  }

  /** The words of one statement. */
  function Code(v: Design, labels: map<string, int>, it: Item): Result<seq<int>> {
    if it.op == Ud then Success([])
    else
      var w :- Encode(v, labels, it.op, it.target);
      Success(if it.op.Ldi? then [w, it.op.s] else [w])
  }

  /** The words of a function, one statement after the other. */
  function Image(v: Design, labels: map<string, int>, items: seq<Item>): (r: Result<seq<int>>)
    ensures r.Success? ==> |r.value| == Offset(items)
  {
    if items == [] then Success([])
    else
      var n := |items| - 1;
      match Image(v, labels, items[..n])
      case Failure(e) => Failure(e)
      case Success(ws) =>
        match Code(v, labels, items[n])
        case Failure(e) => Failure(e)
        case Success(code) => Success(ws + code)
  }

  /** The image exists and fits the program memory. */
  predicate Fits(r: Result<seq<int>>) {
    r.Success? && |r.value| <= 256
  }

  function ItemOf(consts: map<string, int>, st: Statement): Result<(map<string, int>, Item)> {
    match st
    case Instr(line) =>
      var op :- OperationOf(consts, line);
      Success((consts, Item(line.tag, op, line.d)))
    case Directive(dir, args) =>
      if dir == ".define" then
        var consts' :- Define(consts, args);
        Success((consts', Item(None, Ud, NoOp)))
      else Failure("Unimplemented directive")
  }

  /** The statements of a function body, each read under the constants defined before it. */
  function Items(consts: map<string, int>, body: seq<Statement>): (r: Result<(map<string, int>, seq<Item>)>)
    ensures r.Success? ==> |r.value.1| == |body|
  {
    if body == [] then Success((consts, []))
    else
      match Items(consts, body[..|body| - 1])
      case Failure(e) => Failure(e)
      case Success((consts1, items)) =>
        match ItemOf(consts1, body[|body| - 1])
        case Failure(e) => Failure(e)
        case Success((consts2, it)) => Success((consts2, items + [it]))
  }

  /** A function body that neither moves the cursor nor starts another function. */
  predicate Plain(body: seq<Statement>) {
    forall i :: 0 <= i < |body| ==> body[i].Directive? ==> body[i].dir != ".org" && body[i].dir != ".func"
  }

  lemma {:induction false} OffsetMonotone(items: seq<Item>, i: nat, j: nat)
    requires i <= j <= |items|
    ensures Offset(items[..i]) <= Offset(items[..j])
    decreases j
  {
    if i < j {
      OffsetMonotone(items, i, j - 1);
      assert items[..j][..j - 1] == items[..j - 1];
    }
  }

  lemma OffsetStep(items: seq<Item>, i: nat)
    requires i < |items|
    ensures Offset(items[..i + 1]) == Offset(items[..i]) + Size(items[i].op)
  {
    assert items[..i + 1][..i] == items[..i];
  }

  /** A label stands for the offset of the last statement that carries it. */
  lemma {:induction false} LabelIsLastOffset(items: seq<Item>, l: string)
    ensures l in Labels(items) <==> exists i :: 0 <= i < |items| && items[i].tag == Some(l)
    ensures forall i :: 0 <= i < |items| && items[i].tag == Some(l)
                        && (forall j :: i < j < |items| ==> items[j].tag != Some(l))
                        ==> l in Labels(items) && Labels(items)[l] == Offset(items[..i])
  {
    if items != [] {
      var n := |items| - 1;
      LabelIsLastOffset(items[..n], l);
      forall i | 0 <= i < |items| && items[i].tag == Some(l)
                 && (forall j :: i < j < |items| ==> items[j].tag != Some(l))
        ensures l in Labels(items) && Labels(items)[l] == Offset(items[..i])
      {
        if i < n {
          assert items[n].tag != Some(l);
          assert items[..n][i].tag == Some(l) && items[..n][..i] == items[..i];
        }
      }
      if i :| 0 <= i < |items| && items[i].tag == Some(l) {
        assert i < n ==> items[..n][i].tag == Some(l);
      }
    }
  }

  lemma CodeSize(v: Design, labels: map<string, int>, it: Item)
    requires Code(v, labels, it).Success?
    ensures |Code(v, labels, it).value| == Size(it.op)
  {
  }

  /** The words at a statement's offset are its code. */
  lemma {:induction false} CodeAtOffset(v: Design, labels: map<string, int>, items: seq<Item>, i: nat)
    requires i < |items| && Image(v, labels, items).Success?
    ensures Code(v, labels, items[i]).Success?
    ensures var ws, code, o := Image(v, labels, items).value, Code(v, labels, items[i]).value, Offset(items[..i]);
      |code| == Size(items[i].op) && o + |code| <= |ws| && ws[o..o + |code|] == code
  {
    hide Code, Offset;
    var n := |items| - 1;
    CodeSize(v, labels, items[n]);
    var ws, front, last := Image(v, labels, items).value, Image(v, labels, items[..n]).value,
        Code(v, labels, items[n]).value;
    assert ws == front + last;
    if i < n {
      CodeAtOffset(v, labels, items[..n], i);
      assert items[..n][..i] == items[..i];
      var o, k := Offset(items[..i]), |Code(v, labels, items[i]).value|;
      assert ws[o..o + k] == front[o..o + k];
    }
  }
}
