/** The assembler on a file of plain functions. */
module AsmFile {
  import opened Words
  import opened Wrappers
  import opened AsmAst
  import opened AsmAnalysis
  import opened AsmSynth
  import opened AsmMeaning
  import opened AsmAny
  import opened AsmIntact

  datatype Section = Section(name: string, body: seq<Statement>) {
    function FuncLine(): Statement {
      Directive(".func", [Id(name)])
    }
  }

  function Flatten(secs: seq<Section>): seq<Statement> {
    if secs == [] then []
    else
      var n := |secs| - 1;
      Flatten(secs[..n]) + ([secs[n].FuncLine()] + secs[n].body)
  }

  /** Function names differ, and nothing moves the cursor. */
  predicate WellFormed(secs: seq<Section>) {
    && (forall i :: 0 <= i < |secs| ==> Plain(secs[i].body))
    && (forall i, j :: 0 <= i < j < |secs| ==> secs[i].name != secs[j].name)
  }

  /** The meaning of every function, in order; constants carry over from one to the next. */
  function Meaning(consts: map<string, int>, secs: seq<Section>): (r: Result<(map<string, int>, seq<seq<Item>>)>)
    ensures r.Success? ==> |r.value.1| == |secs|
  {
    if secs == [] then Success((consts, []))
    else
      var n := |secs| - 1;
      match Meaning(consts, secs[..n])
      case Failure(e) => Failure(e)
      case Success((consts1, ms)) =>
        match Items(consts1, secs[n].body)
        case Failure(e) => Failure(e)
        case Success((consts2, items)) => Success((consts2, ms + [items]))
  }

  predicate AllFit(v: Design, ms: seq<seq<Item>>) {
    forall i :: 0 <= i < |ms| ==> Fits(Image(v, Labels(ms[i]), ms[i]))
  }

  // ----- Reading -----

  lemma {:induction false} ReadConcat(consts: map<string, int>, a: seq<Statement>, b: seq<Statement>)
    ensures Read(consts, a + b).Success? <==> Read(consts, a).Success? && Read(Read(consts, a).value.0, b).Success?
    ensures Read(consts, a + b).Success? ==>
              Read(consts, a + b).value.0 == Read(Read(consts, a).value.0, b).value.0
    decreases |b|
  {
    hide ReadStatement;
    if b == [] {
      assert a + b == a;
    } else {
      var n := |b| - 1;
      assert (a + b)[..|a + b| - 1] == a + b[..n];
      ReadConcat(consts, a, b[..n]);
    }
  }

  /** A body is read exactly if it has a meaning. */
  lemma {:induction false} ReadBody(consts: map<string, int>, body: seq<Statement>)
    requires Plain(body)
    ensures Read(consts, body).Success? <==> Items(consts, body).Success?
    ensures Items(consts, body).Success? ==> Read(consts, body).value.0 == Items(consts, body).value.0
    decreases |body|
  {
    hide OperationOf, Define;
    if body != [] {
      ReadBody(consts, body[..|body| - 1]);
    }
  }

  lemma ReadFuncLine(consts: map<string, int>, s: Section)
    ensures Read(consts, [s.FuncLine()]) == Success((consts, [Ud]))
  {
    assert [s.FuncLine()][..0] == [];
    assert Read(consts, []) == Success((consts, [])) && [] + [Ud] == [Ud];
  }

  lemma {:induction false} FileRead(consts: map<string, int>, secs: seq<Section>)
    requires WellFormed(secs)
    ensures Read(consts, Flatten(secs)).Success? <==> Meaning(consts, secs).Success?
    ensures Meaning(consts, secs).Success? ==> Read(consts, Flatten(secs)).value.0 == Meaning(consts, secs).value.0
    decreases |secs|
  {
    hide Read, Items;
    if secs == [] {
      NothingRead(consts, [], [], 0);
      ReadNothing(consts);
    } else {
      var n := |secs| - 1;
      FileRead(consts, secs[..n]);
      ReadConcat(consts, Flatten(secs[..n]), [secs[n].FuncLine()] + secs[n].body);
      if Meaning(consts, secs[..n]).Success? {
        var consts1 := Meaning(consts, secs[..n]).value.0;
        ReadConcat(consts1, [secs[n].FuncLine()], secs[n].body);
        ReadFuncLine(consts1, secs[n]);
        ReadBody(consts1, secs[n].body);
      }
    }
  }

  lemma ReadNothing(consts: map<string, int>)
    ensures Read(consts, []) == Success((consts, []))
  {
  }

  // ----- Where the functions are -----

  function StartOf(secs: seq<Section>, i: nat): nat
    requires i < |secs|
  {
    |Flatten(secs[..i])| + 1
  }

  function EndOf(secs: seq<Section>, i: nat): nat
    requires i < |secs|
  {
    |Flatten(secs[..i + 1])|
  }

  lemma FlattenStep(secs: seq<Section>, i: nat)
    requires i < |secs|
    ensures Flatten(secs[..i + 1]) == Flatten(secs[..i]) + ([secs[i].FuncLine()] + secs[i].body)
    ensures EndOf(secs, i) == StartOf(secs, i) + |secs[i].body|
  {
    assert secs[..i + 1][..i] == secs[..i];
  }

  lemma {:induction false} FlattenPrefix(secs: seq<Section>, i: nat, n: nat)
    requires i <= n <= |secs|
    ensures Flatten(secs[..i]) <= Flatten(secs[..n])
    decreases n
  {
    if i < n {
      FlattenPrefix(secs, i, n - 1);
      FlattenStep(secs, n - 1);
    }
  }

  /** The lines of function `i`, where they stand. */
  lemma LinesAt(secs: seq<Section>, i: nat)
    requires i < |secs|
    ensures var src, s, e := Flatten(secs), StartOf(secs, i), EndOf(secs, i);
      && 0 < s <= e <= |src| && src[..s - 1] == Flatten(secs[..i]) && src[s - 1] == secs[i].FuncLine()
      && src[s..e] == secs[i].body && src[..e] == Flatten(secs[..i + 1])
  {
    hide Flatten;
    FlattenStep(secs, i);
    FlattenPrefix(secs, i, |secs|);
    FlattenPrefix(secs, i + 1, |secs|);
    assert secs[..|secs|] == secs;
    var src, upto := Flatten(secs), Flatten(secs[..i + 1]);
    var s, e := StartOf(secs, i), EndOf(secs, i);
    assert src[..e] == upto && src[s..e] == upto[s..e] && src[s - 1] == upto[s - 1];
  }

  /** Every line is that of a function's name, or in a function's body. */
  lemma {:induction false} Located(secs: seq<Section>, n: nat, j: nat) returns (i: nat)
    requires 0 < n <= |secs| && j < |Flatten(secs[..n])|
    ensures i < n && StartOf(secs, i) - 1 <= j < EndOf(secs, i)
    decreases n
  {
    FlattenStep(secs, n - 1);
    NoSections();
    assert secs[..0] == [];
    if j < |Flatten(secs[..n - 1])| {
      i := Located(secs, n - 1, j);
    } else {
      i := n - 1;
    }
  }

  lemma PlainBody(secs: seq<Section>, i: nat, j: nat)
    requires i < |secs| && WellFormed(secs) && StartOf(secs, i) <= j < EndOf(secs, i)
    ensures j < |Flatten(secs)| && !Opens(Flatten(secs)[j])
  {
    LinesAt(secs, i);
    assert Flatten(secs)[StartOf(secs, i)..EndOf(secs, i)][j - StartOf(secs, i)] == Flatten(secs)[j];
  }

  /** Function `i` is a function of the file, with the same name nowhere behind it. */
  lemma SectionAt(secs: seq<Section>, i: nat)
    requires i < |secs| && WellFormed(secs)
    ensures FunctionAt(Flatten(secs), StartOf(secs, i), EndOf(secs, i), secs[i].name)
  {
    hide Flatten, StartOf, EndOf, WellFormed;
    var src, e := Flatten(secs), EndOf(secs, i);
    LinesAt(secs, i);
    assert Plain(secs[i].body) by { BodyPlain(secs, i); }
    if i + 1 < |secs| {
      NextFollows(secs, i);
    } else {
      LastEnds(secs, i);
    }
    forall j | e <= j < |src| && Opens(src[j])
      ensures src[j].args[0].name != secs[i].name
    {
      OtherName(secs, i, j);
    }
  }

  lemma BodyPlain(secs: seq<Section>, i: nat)
    requires i < |secs| && WellFormed(secs)
    ensures Plain(secs[i].body)
  {
  }

  /** A function that opens behind function `i` has another name. */
  lemma OtherName(secs: seq<Section>, i: nat, j: nat)
    requires i < |secs| && WellFormed(secs) && EndOf(secs, i) <= j < |Flatten(secs)| && Opens(Flatten(secs)[j])
    ensures Flatten(secs)[j].args[0].name != secs[i].name
  {
    hide Flatten, StartOf, EndOf;
    assert secs[..|secs|] == secs;
    var k := Located(secs, |secs|, j);
    if StartOf(secs, k) <= j {
      PlainBody(secs, k, j);
    }
    LinesAt(secs, k);
    if k <= i {
      EndsGrow(secs, k, i);
    }
  }

  lemma EndsGrow(secs: seq<Section>, k: nat, i: nat)
    requires k <= i < |secs|
    ensures EndOf(secs, k) <= EndOf(secs, i)
  {
    FlattenPrefix(secs, k + 1, i + 1);
  }

  lemma NextFollows(secs: seq<Section>, i: nat)
    requires i + 1 < |secs|
    ensures EndOf(secs, i) < |Flatten(secs)| && Opens(Flatten(secs)[EndOf(secs, i)])
  {
    LinesAt(secs, i + 1);
  }

  lemma LastEnds(secs: seq<Section>, i: nat)
    requires i + 1 == |secs|
    ensures EndOf(secs, i) == |Flatten(secs)|
  {
    assert secs[..i + 1] == secs;
  }

  lemma {:induction false} OpenedSections(secs: seq<Section>, i: nat)
    requires i <= |secs| && WellFormed(secs)
    ensures Opened(Flatten(secs[..i])) == i
    ensures i < |secs| ==> StartOf(secs, i) <= |Flatten(secs)| && Opened(Flatten(secs)[..StartOf(secs, i)]) == i + 1
    decreases i
  {
    hide Flatten;
    if i == 0 {
      NoSections();
      assert secs[..0] == [];
    } else {
      OpenedSections(secs, i - 1);
      LinesAt(secs, i - 1);
      var src, s, e := Flatten(secs), StartOf(secs, i - 1), EndOf(secs, i - 1);
      OpenedInside(src, s, e, secs, i - 1);
    }
    if i < |secs| {
      LinesAt(secs, i);
      var s := StartOf(secs, i);
      var upto := Flatten(secs)[..s];
      assert upto[..s - 1] == Flatten(secs)[..s - 1] && upto[s - 1] == secs[i].FuncLine();
    }
  }

  lemma NoSections()
    ensures Flatten([]) == []
  {
  }

  lemma {:induction false} OpenedInside(src: seq<Statement>, s: nat, e: nat, secs: seq<Section>, i: nat)
    requires i < |secs| && WellFormed(secs) && src == Flatten(secs) && s == StartOf(secs, i) <= e <= EndOf(secs, i)
    ensures s <= e <= |src| && Opened(src[..e]) == Opened(src[..s])
    decreases e
  {
    hide Flatten, WellFormed, StartOf, EndOf, Opens;
    LinesAt(secs, i);
    if e > s {
      OpenedInside(src, s, e - 1, secs, i);
      PlainBody(secs, i, e - 1);
      assert src[..e][..e - 1] == src[..e - 1] && src[..e][e - 1] == src[e - 1];
    }
  }

  // ----- Which functions fit -----

  /** A function has an image that fits exactly if each of its statements has a code and a place,
      and it does not end beyond the memory. */
  lemma FunctionFits(v: Design, src: seq<Statement>, ops: seq<Operation>, s: nat, e: nat, f: string, items: seq<Item>)
    requires FunctionAt(src, s, e, f) && ItemsAt(src, ops, s, e, items)
    ensures Fits(Image(v, Labels(items), items)) <==>
              && (forall j :: s <= j < e ==> Placed(v, src, ops, j))
              && CursorOf(src, ops, Opened(src[..s])) <= 256
  {
    hide Labels, LabelsOf, Cursor, CursorOf, Offset, FunctionAt, ItemAt, Opened, Home, Placed, Image;
    Surroundings(src, ops, s, e, f, items);
    if forall j :: s <= j < e ==> Placed(v, src, ops, j) {
      BodyWords(v, src, ops, s, e, f, items, e);
    } else if Fits(Image(v, Labels(items), items)) {
      forall j | s <= j < e
        ensures Placed(v, src, ops, j)
      {
        StatementPlaced(v, src, ops, s, e, f, items, j);
      }
    }
  }

  lemma StatementPlaced(v: Design, src: seq<Statement>, ops: seq<Operation>, s: nat, e: nat, f: string,
                        items: seq<Item>, j: nat)
    requires FunctionAt(src, s, e, f) && ItemsAt(src, ops, s, e, items) && s <= j < e
    requires Fits(Image(v, Labels(items), items)) && LabelsOf(src, ops, Opened(src[..s])) == Labels(items)
    ensures Placed(v, src, ops, j)
  {
    hide Labels, LabelsOf, Cursor, FunctionAt, Opened, Home, Image, Encode;
    var it := items[j - s];
    assert ItemAt(src, ops, s + (j - s), it);
    BodyPlaces(src, ops, s, e, f, items, j);
    BodyHome(src, s, e, f, j);
    CodeAtOffset(v, Labels(items), items, j - s);
  }

  // ----- The assembler -----

  /** What function `i` says, read where it stands. */
  lemma SectionItems(consts: map<string, int>, secs: seq<Section>, i: nat)
    requires i < |secs| && WellFormed(secs) && Meaning(consts, secs).Success?
    ensures StartOf(secs, i) <= EndOf(secs, i) <= |Flatten(secs)|
    ensures BodyItems(consts, Flatten(secs), StartOf(secs, i), EndOf(secs, i)) == Meaning(consts, secs).value.1[i]
  {
    hide Read, Items, Flatten, Meaning;
    LinesAt(secs, i);
    MeaningPrefix(consts, secs, i);
    var src, s := Flatten(secs), StartOf(secs, i);
    WellFormedPrefix(secs, i);
    FileRead(consts, secs[..i]);
    assert src[..s] == Flatten(secs[..i]) + [secs[i].FuncLine()];
    ReadConcat(consts, Flatten(secs[..i]), [secs[i].FuncLine()]);
    ReadFuncLine(Meaning(consts, secs[..i]).value.0, secs[i]);
  }

  lemma WellFormedPrefix(secs: seq<Section>, i: nat)
    requires i <= |secs| && WellFormed(secs)
    ensures WellFormed(secs[..i])
  {
  }

  lemma {:induction false} MeaningPrefix(consts: map<string, int>, secs: seq<Section>, i: nat)
    requires i < |secs| && Meaning(consts, secs).Success?
    ensures Meaning(consts, secs[..i]).Success?
    ensures var r := Items(Meaning(consts, secs[..i]).value.0, secs[i].body);
      r.Success? && r.value.1 == Meaning(consts, secs).value.1[i]
    decreases |secs|
  {
    hide Items;
    var n := |secs| - 1;
    if i < n {
      MeaningPrefix(consts, secs[..n], i);
      assert secs[..n][..i] == secs[..i];
    }
  }

  lemma FileFits(v: Design, consts: map<string, int>, secs: seq<Section>)
    requires WellFormed(secs) && Meaning(consts, secs).Success? && Read(consts, Flatten(secs)).Success?
    ensures var src, ops := Flatten(secs), Read(consts, Flatten(secs)).value.1;
      AllFit(v, Meaning(consts, secs).value.1) <==> AllPlaced(v, src, ops, |src|) && CursorsFit(src, ops)
  {
    hide Flatten, Meaning, Read, Image, Labels, WellFormed, Placed, CursorOf, Opened, StartOf, EndOf, BodyItems,
         FunctionAt, ItemsAt, Fits;
    var src, ops, ms := Flatten(secs), Read(consts, Flatten(secs)).value.1, Meaning(consts, secs).value.1;
    assert secs[..|secs|] == secs;
    OpenedSections(secs, |secs|);
    forall i | 0 <= i < |secs|
      ensures StartOf(secs, i) <= EndOf(secs, i) <= |src|
      ensures Fits(Image(v, Labels(ms[i]), ms[i])) <==>
                && (forall j :: StartOf(secs, i) <= j < EndOf(secs, i) ==> Placed(v, src, ops, j))
                && CursorOf(src, ops, i + 1) <= 256
    {
      SectionFits(v, consts, secs, i);
    }
    NoSections();
    assert |secs| == 0 ==> secs == [];
    if AllFit(v, ms) {
      forall j | 0 <= j < |src|
        ensures Placed(v, src, ops, j)
      {
        var i := Located(secs, |secs|, j);
        if j < StartOf(secs, i) {
          NamePlaced(v, secs, ops, i);
        }
      }
      forall k | 1 <= k <= Opened(src)
        ensures CursorOf(src, ops, k) <= 256
      {
        assert Fits(Image(v, Labels(ms[k - 1]), ms[k - 1]));
      }
    }
  }

  lemma NamePlaced(v: Design, secs: seq<Section>, ops: seq<Operation>, i: nat)
    requires i < |secs| && |ops| == |Flatten(secs)|
    ensures 0 < StartOf(secs, i) <= |ops| && Placed(v, Flatten(secs), ops, StartOf(secs, i) - 1)
  {
    LinesAt(secs, i);
  }

  lemma SectionFits(v: Design, consts: map<string, int>, secs: seq<Section>, i: nat)
    requires WellFormed(secs) && Meaning(consts, secs).Success? && Read(consts, Flatten(secs)).Success? && i < |secs|
    ensures StartOf(secs, i) <= EndOf(secs, i) <= |Flatten(secs)|
    ensures var src, ops := Flatten(secs), Read(consts, Flatten(secs)).value.1;
      var items := Meaning(consts, secs).value.1[i];
      Fits(Image(v, Labels(items), items)) <==>
        && (forall j :: StartOf(secs, i) <= j < EndOf(secs, i) ==> Placed(v, src, ops, j))
        && CursorOf(src, ops, i + 1) <= 256
  {
    hide Flatten, Meaning, Read, Image, Labels, WellFormed, Placed, CursorOf, Opened, StartOf, EndOf, FunctionAt,
         ItemsAt, Items, Fits;
    var src, s, e := Flatten(secs), StartOf(secs, i), EndOf(secs, i);
    SectionAt(secs, i);
    SectionItems(consts, secs, i);
    OpenedSections(secs, i);
    FunctionRead(consts, src, s, e, secs[i].name);
    FunctionFits(v, src, Read(consts, src).value.1, s, e, secs[i].name, Meaning(consts, secs).value.1[i]);
  }

  /** The assembler on a file of functions: it succeeds exactly when every statement has a
      meaning, every branch target exists and every function fits 256 words; and then the table
      of each function is the concatenation of its statements' encodings. */
  lemma AssemblerCorrect(v: Design, consts: map<string, int>, secs: seq<Section>)
    requires WellFormed(secs)
    ensures var h, m := Header(v, consts, Flatten(secs)), Meaning(consts, secs);
      && (h.Success? <==> m.Success? && AllFit(v, m.value.1))
      && (h.Success? ==>
            && |h.value| == |secs|
            && forall i :: 0 <= i < |secs| ==>
                 h.value[i] == (secs[i].name, Image(v, Labels(m.value.1[i]), m.value.1[i]).value))
  {
    hide Flatten, Meaning, Read, Image, Labels, WellFormed, Header, AllPlaced, CursorsFit, Opened, HeaderNames,
         EmittedWords, StartOf, EndOf, BodyItems, FunctionAt;
    var src, h, m := Flatten(secs), Header(v, consts, Flatten(secs)), Meaning(consts, secs);
    AnySource(v, consts, src);
    FileRead(consts, secs);
    if m.Success? {
      FileFits(v, consts, secs);
    }
    if h.Success? {
      assert secs[..|secs|] == secs;
      OpenedSections(secs, |secs|);
      forall i | 0 <= i < |secs|
        ensures h.value[i] == (secs[i].name, Image(v, Labels(m.value.1[i]), m.value.1[i]).value)
      {
        SectionAt(secs, i);
        SectionItems(consts, secs, i);
        OpenedSections(secs, i);
        Intact(v, consts, src, StartOf(secs, i), EndOf(secs, i), secs[i].name);
      }
    }
  }
}
