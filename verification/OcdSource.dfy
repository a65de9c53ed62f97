/** The assembly source of the shipped routines, line by line, and the header made of it. */
module OcdSource {
  import opened Words
  import opened Wrappers
  import opened AsmAst
  import opened AsmAnalysis
  import opened AsmSynth
  import opened AsmMeaning
  import opened AsmAny
  import opened AsmFile
  import opened AsmReading

  // ----- Lines -----

  type RegId = x: int | 0 <= x < 16

  function RegName(i: nat): string
    requires i < 32
  {
    (if i < 10 then "R" else if i < 20 then "R1" else if i < 30 then "R2" else "R3") + ['0' + (i % 10) as char]
  }

  /** The constants an assembly starts with: 32 register names, of which the unit has 16. */
  function Registers(n: nat): map<string, int>
    requires n <= 32
  {
    if n == 0 then map[] else Registers(n - 1)[RegName(n - 1) := n - 1]
  }

  predicate Knows(consts: map<string, int>, i: RegId) {
    RegName(i) in consts && consts[RegName(i)] == i
  }

  lemma {:induction false} RegistersKnown(n: nat, i: RegId)
    requires i < n <= 32
    ensures Knows(Registers(n), i)
    decreases n
  {
    hide RegName;
    if i < n - 1 {
      RegistersKnown(n - 1, i);
      NamesApart(i, n - 1);
    }
  }

  lemma NamesApart(i: nat, j: nat)
    requires i < j < 32
    ensures RegName(i) != RegName(j)
  {
    var a, b := RegName(i), RegName(j);
    if |a| == |b| && i % 10 == j % 10 {
      assert a[1] != b[1];
    } else {
      assert |a| != |b| || a[|a| - 1] != b[|b| - 1];
    }
  }

  predicate IsReg(x: int) {
    0 <= x < 16
  }

  /** Its registers exist. */
  predicate Spellable(op: Operation) {
    && (Operands(op).0.Some? ==> IsReg(Operands(op).0.value))
    && (Operands(op).1.Some? && !op.Ldi? ==> IsReg(Operands(op).1.value))
  }

  function FirstOperand(it: Item): Operand
    requires Spellable(it.op)
  {
    if Operands(it.op).0.Some? then Id(RegName(Operands(it.op).0.value))
    else if IsBranch(it.op) then it.target
    else NoOp
  }

  function SecondOperand(op: Operation): Operand
    requires Spellable(op)
  {
    match Operands(op).1
    case None => NoOp
    case Some(s) => if op.Ldi? then Num(s) else Id(RegName(s))
  }

  /** The line that says `it`. */
  function Spell(it: Item): Line
    requires Spellable(it.op)
  {
    Line(it.tag, Mnemonic(it.op), FirstOperand(it), SecondOperand(it.op))
  }

  lemma SpellMeans(consts: map<string, int>, it: Item)
    requires Spellable(it.op) && forall i: RegId :: Knows(consts, i)
    ensures OperationOf(consts, Spell(it)) == Success(it.op)
  {
    hide RegName, Mnemonic, OperationOf;
    forall x: int | IsReg(x)
      ensures GetOp(consts, Id(RegName(x))) == Success(x)
    {
      assert Knows(consts, x);
    }
    OperationExact(consts, Spell(it), it.op);
  }

  lemma BlankSays(consts: map<string, int>)
    ensures OperationOf(consts, Line(None, "", NoOp, NoOp)) == Success(Ud)
  {
    OperationExact(consts, Line(None, "", NoOp, NoOp), Ud);
  }

  // ----- Function bodies -----

  /** A line that holds a comment, or nothing. */
  const BLANK: Statement := Instr(Line(None, "", NoOp, NoOp))

  /** The body says `items`, one line each, with any blank lines between them. */
  predicate Says(body: seq<Statement>, items: seq<Item>)
    decreases |body|
  {
    if body == [] then items == []
    else
      var n, m := |body| - 1, |items| - 1;
      || (body[n] == BLANK && Says(body[..n], items))
      || (items != [] && Spellable(items[m].op) && body[n] == Instr(Spell(items[m])) && Says(body[..n], items[..m]))
  }

  /** Alike to both passes. */
  ghost predicate Same(a: seq<Item>, b: seq<Item>) {
    && Offset(a) == Offset(b) && Labels(a) == Labels(b)
    && forall v, labels :: Image(v, labels, a) == Image(v, labels, b)
  }

  lemma SameBlank(a: seq<Item>, b: seq<Item>)
    requires Same(a, b)
    ensures Same(a + [Item(None, Ud, NoOp)], b)
  {
    var blank := Item(None, Ud, NoOp);
    assert (a + [blank])[..|a|] == a;
    forall v, labels
      ensures Image(v, labels, a + [blank]) == Image(v, labels, b)
    {
      assert Code(v, labels, blank) == Success([]);
      assert Image(v, labels, a).Success? ==> Image(v, labels, a).value + [] == Image(v, labels, a).value;
    }
  }

  /** What a line is read as differs from what it says only in an operand pass 2 ignores. */
  lemma SameLine(a: seq<Item>, b: seq<Item>, x: Item, y: Item)
    requires Same(a, b) && x.tag == y.tag && x.op == y.op && Spellable(y.op) && x.target == FirstOperand(y)
    ensures Same(a + [x], b + [y])
  {
    assert (a + [x])[..|a|] == a && (b + [y])[..|b|] == b;
    forall v, labels
      ensures Image(v, labels, a + [x]) == Image(v, labels, b + [y])
    {
      assert Code(v, labels, x) == Code(v, labels, y) by { hide Image, Labels, Opcode; }
    }
  }

  lemma SameNothing()
    ensures Same([], [])
  {
  }

  /** Reading a body gives back what it says, whatever blank lines there are. */
  lemma {:induction false} SaysMeans(consts: map<string, int>, body: seq<Statement>, items: seq<Item>)
    requires Says(body, items) && forall i: RegId :: Knows(consts, i)
    ensures Items(consts, body).Success? && Items(consts, body).value.0 == consts
    ensures Same(Items(consts, body).value.1, items)
    decreases |body|
  {
    hide Same, Spell, OperationOf, Knows;
    if body == [] {
      SameNothing();
      return;
    }
    var n, m := |body| - 1, |items| - 1;
    if body[n] == BLANK && Says(body[..n], items) {
      SaysMeans(consts, body[..n], items);
      BlankMeans(consts);
      SameBlank(Items(consts, body[..n]).value.1, items);
    } else {
      SaysMeans(consts, body[..n], items[..m]);
      SpellMeans(consts, items[m]);
      SpelledLine(items[m]);
      SameLine(Items(consts, body[..n]).value.1, items[..m], ItemOf(consts, body[n]).value.1, items[m]);
      assert items == items[..m] + [items[m]];
    }
  }

  lemma BlankMeans(consts: map<string, int>)
    ensures ItemOf(consts, BLANK) == Success((consts, Item(None, Ud, NoOp)))
  {
    BlankSays(consts);
  }

  lemma SpelledLine(it: Item)
    requires Spellable(it.op)
    ensures Spell(it).tag == it.tag && Spell(it).d == FirstOperand(it)
  {
  }

  // ----- Whole files -----

  lemma {:induction false} FileSays(consts: map<string, int>, secs: seq<Section>, says: seq<seq<Item>>)
    requires |secs| == |says| && forall i: RegId :: Knows(consts, i)
    requires forall i :: 0 <= i < |secs| ==> Says(secs[i].body, says[i])
    ensures Meaning(consts, secs).Success? && Meaning(consts, secs).value.0 == consts
    ensures forall i :: 0 <= i < |secs| ==> Same(Meaning(consts, secs).value.1[i], says[i])
    decreases |secs|
  {
    hide Same, Says, Knows, Items;
    if secs != [] {
      var n := |secs| - 1;
      FileSays(consts, secs[..n], says[..n]);
      SaysMeans(consts, secs[n].body, says[n]);
    }
  }

  lemma {:induction false} SaysPlain(body: seq<Statement>, items: seq<Item>)
    requires Says(body, items)
    ensures Plain(body)
    decreases |body|
  {
    hide Spell;
    if body != [] {
      var n := |body| - 1;
      if body[n] == BLANK && Says(body[..n], items) {
        SaysPlain(body[..n], items);
      } else {
        SaysPlain(body[..n], items[..|items| - 1]);
      }
      assert body == body[..n] + [body[n]];
    }
  }

  /** A file says its functions: what the assembler emits for each. */
  lemma FileAssembles(v: Design, secs: seq<Section>, says: seq<seq<Item>>)
    requires |secs| == |says| && (forall i :: 0 <= i < |secs| ==> Says(secs[i].body, says[i]))
    requires forall i, j :: 0 <= i < j < |secs| ==> secs[i].name != secs[j].name
    ensures var h := Header(v, Registers(32), Flatten(secs));
      && (h.Success? <==> AllFit(v, says))
      && (h.Success? ==>
            && |h.value| == |secs|
            && forall i :: 0 <= i < |secs| ==>
                 h.value[i] == (secs[i].name, Image(v, Labels(says[i]), says[i]).value))
  {
    hide Header, Flatten, Image, Labels, Offset, Meaning, Says, Registers, Knows;
    forall i: RegId
      ensures Knows(Registers(32), i)
    {
      RegistersKnown(32, i);
    }
    FileSays(Registers(32), secs, says);
    forall i | 0 <= i < |secs|
      ensures Plain(secs[i].body)
    {
      SaysPlain(secs[i].body, says[i]);
    }
    AssemblerCorrect(v, Registers(32), secs);
    var ms := Meaning(Registers(32), secs).value.1;
    forall i | 0 <= i < |secs|
      ensures Image(v, Labels(ms[i]), ms[i]) == Image(v, Labels(says[i]), says[i])
    {
      assert Same(ms[i], says[i]);
    }
  }
}
