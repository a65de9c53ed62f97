/** The table of the break routine. */
module OcdBreakTables {
  import opened Words
  import opened Wrappers
  import opened AsmAst
  import opened AsmSynth
  import opened AsmMeaning
  import opened EndToEnd
  import opened StraightLine
  import opened OcdStretches
  import opened OcdRoutines
  import opened OcdBreak
  import opened OcdTables
  import Isa = OcdIsa

  const BREAK_HEAD: Table :=
    [(0x00, 0x45), (0x00, 0x48), (0x02, 0x22), (0x03, 0x23), (0x20, 0x28), (0x01, 0x20), (0x08, 0x00), (0x10, 0x60)]

  const BREAK_BRANCHES: Table := [(0x0b, 0x71), (0x30, 0x28), (0x43, 0x71)]

  const BREAK_DESCRIPTORS: Table :=
    [(0x01, 0x20), (0x00, 0x8e), (0x10, 0x34), (0x00, 0x42), (0x01, 0x20), (0x0d, 0x00), (0x10, 0x34), (0x00, 0x42)]
    + [(0x01, 0x20), (0x00, 0x00), (0x10, 0x34), (0x00, 0x42), (0x01, 0x20), (0x08, 0x00), (0x10, 0x34), (0x00, 0x42)]
    + [(0x01, 0x20), (0x00, 0x9a), (0x10, 0x34), (0x00, 0x42), (0x01, 0x20), (0xcf, 0x00), (0x10, 0x34), (0x00, 0x42)]
    + [(0x01, 0x20), (0xff, 0xff), (0x10, 0x34), (0x00, 0x42), (0x01, 0x20), (0x00, 0x00), (0x10, 0x34), (0x00, 0x42)]

  const BREAK_SAVE: Table :=
    [(0x01, 0x20), (0x90, 0x90), (0x10, 0x34), (0x00, 0x42)]
    + [(0x02, 0x24), (0x00, 0x43), (0x00, 0x42), (0x03, 0x24), (0x00, 0x43), (0x00, 0x42), (0x04, 0x24), (0x00, 0x43)]
    + [(0x00, 0x42), (0x05, 0x24), (0x00, 0x43), (0x00, 0x42), (0x06, 0x24), (0x00, 0x43)]
    + [(0x01, 0x20), (0x01, 0x00), (0x00, 0x46)]

  const BREAK_PROTECTED: Table := BREAK_DESCRIPTORS + [(0x00, 0x43), (0x00, 0x42)] + BREAK_SAVE + [(0x00, 0x00)]

  const BREAK_REAL: Table :=
    [(0x01, 0x20), (0x00, 0x00), (0x10, 0x34), (0x00, 0x42), (0x01, 0x20), (0x00, 0xd0), (0x10, 0x34)]
    + [(0x01, 0x29), (0x00, 0x46), (0x00, 0x00)]

  const BREAK_TABLE: Table := BREAK_HEAD + BREAK_BRANCHES + BREAK_PROTECTED + BREAK_REAL

  lemma CompareTable()
    ensures TableOf(Compare(2, 0x0008)) == [(0x20, 0x28), (0x01, 0x20), (0x08, 0x00), (0x10, 0x60)]
  {
    hide TableOf;
    TableSimple(Ldcmp(2), 0x20, 0x28);
    TableLdi(1, 0x0008);
    TableSimple(Cmp(1), 0x10, 0x60);
    TableConcat([Ldi(1, 0x0008)], [Cmp(1)]);
    TableConcat([Ldcmp(2)], [Ldi(1, 0x0008)] + [Cmp(1)]);
  }

  lemma EntryTable()
    ensures TableOf(Entry()) == BREAK_HEAD
  {
    hide TableOf, Compare;
    TableSimple(Nmi, 0x00, 0x45);
    TableSimple(Waitlock, 0x00, 0x48);
    TableSimple(Ldal(2), 0x02, 0x22);
    TableSimple(Ldah(3), 0x03, 0x23);
    CompareTable();
    TableConcat([Nmi], [Waitlock]);
    TableConcat([Ldal(2)], [Ldah(3)]);
    TableConcat([Ldal(2)] + [Ldah(3)], Compare(2, 0x0008));
    TableConcat([Nmi] + [Waitlock], ([Ldal(2)] + [Ldah(3)]) + Compare(2, 0x0008));
    assert Entry() == ([Nmi] + [Waitlock]) + (([Ldal(2)] + [Ldah(3)]) + Compare(2, 0x0008));
  }

  lemma DriveTable(w: Word)
    ensures TableOf(Drive(w)) == [(0x01, 0x20), (Lo(w), Hi(w)), (0x10, 0x34), (0x00, 0x42)]
  {
    hide TableOf;
    TableLdi(1, w);
    TableSimple(Std(1), 0x10, 0x34);
    TableSimple(Waitads, 0x00, 0x42);
    TableConcat([Std(1)], [Waitads]);
    TableConcat([Ldi(1, w)], [Std(1)] + [Waitads]);
    assert Drive(w) == [Ldi(1, w)] + ([Std(1)] + [Waitads]);
  }

  lemma DrivesTable(w: Word, ws: seq<Word>)
    ensures TableOf(Drives([w] + ws)) == [(0x01, 0x20), (Lo(w), Hi(w)), (0x10, 0x34), (0x00, 0x42)]
            + TableOf(Drives(ws))
  {
    hide TableOf, Lo, Hi, Drive;
    assert ([w] + ws)[1..] == ws;
    DriveTable(w);
    TableConcat(Drive(w), Drives(ws));
  }

  lemma NoDrives()
    ensures TableOf(Drives([])) == []
  {
  }

  function DriveRows(w: Word): Table {
    [(0x01, 0x20), (Lo(w), Hi(w)), (0x10, 0x34), (0x00, 0x42)]
  }

  lemma FourDrives(a: Word, b: Word, c: Word, d: Word, ws: seq<Word>)
    ensures TableOf(Drives([a, b, c, d] + ws)) ==
            DriveRows(a) + (DriveRows(b) + (DriveRows(c) + (DriveRows(d) + TableOf(Drives(ws)))))
  {
    hide TableOf, Drives, Lo, Hi;
    DrivesTable(a, [b, c, d] + ws);
    DrivesTable(b, [c, d] + ws);
    DrivesTable(c, [d] + ws);
    DrivesTable(d, ws);
    assert [a, b, c, d] + ws == [a] + ([b, c, d] + ws) && [b, c, d] + ws == [b] + ([c, d] + ws);
    assert [c, d] + ws == [c] + ([d] + ws);
  }

  lemma DescriptorsTable()
    ensures TableOf(Drives(DESCRIPTORS)) == BREAK_DESCRIPTORS
  {
    hide TableOf, Drives;
    FourDrives(0x8E00, 0x000D, 0x0000, 0x0008, [0x9A00, 0x00CF, 0xFFFF, 0x0000]);
    FourDrives(0x9A00, 0x00CF, 0xFFFF, 0x0000, []);
    NoDrives();
    assert [0x9A00, 0x00CF, 0xFFFF, 0x0000] + [] == [0x9A00, 0x00CF, 0xFFFF, 0x0000];
    assert DESCRIPTORS == [0x8E00, 0x000D, 0x0000, 0x0008] + [0x9A00, 0x00CF, 0xFFFF, 0x0000];
  }

  lemma SavedTable()
    ensures TableOf(Saved()) ==
            [(0x02, 0x24), (0x00, 0x43), (0x00, 0x42)] + ([(0x03, 0x24), (0x00, 0x43), (0x00, 0x42)]
            + ([(0x04, 0x24), (0x00, 0x43), (0x00, 0x42)] + ([(0x05, 0x24), (0x00, 0x43), (0x00, 0x42)]
            + [(0x06, 0x24), (0x00, 0x43)])))
  {
    hide TableOf, Captures;
    CapturesTable(2, 4);
    CapturesTable(3, 3);
    CapturesTable(4, 2);
    CapturesTable(5, 1);
    LastCapture();
    CaptureTable(6);
  }

  lemma LastCapture()
    ensures Captures(6, 0) == Capture(6)
  {
  }

  lemma ProtectedTable()
    ensures Branchless(ProtectedOps() + [Exit]) && TableOf(ProtectedOps() + [Exit]) == BREAK_PROTECTED
  {
    hide TableOf, Drives, Saved, DESCRIPTORS;
    var front, end := Drives(DESCRIPTORS) + [Ready, Waitads], [Ldi(1, 1)] + [Hold];
    var back := Drives([0x9090]) + (Saved() + end);
    DescriptorsTable();
    TableSimple(Ready, 0x00, 0x43);
    TableSimple(Waitads, 0x00, 0x42);
    TableConcat([Ready], [Waitads]);
    assert [Ready, Waitads] == [Ready] + [Waitads];
    TableConcat(Drives(DESCRIPTORS), [Ready, Waitads]);
    BackTable();
    BranchlessParts(Saved(), end);
    BranchlessParts(Drives([0x9090]), Saved() + end);
    TableConcat(front, back);
    TableSimple(Exit, 0x00, 0x00);
    TableConcat(ProtectedOps(), [Exit]);
  }

  lemma BackTable()
    ensures Branchless(Drives([0x9090]) + (Saved() + ([Ldi(1, 1)] + [Hold])))
    ensures TableOf(Drives([0x9090]) + (Saved() + ([Ldi(1, 1)] + [Hold]))) == BREAK_SAVE
  {
    hide TableOf, Drives, Saved;
    var end := [Ldi(1, 1)] + [Hold];
    DrivesTable(0x9090, []);
    NoDrives();
    assert [0x9090] + [] == [0x9090];
    SavedTable();
    TableLdi(1, 1);
    TableSimple(Hold, 0x00, 0x46);
    TableConcat([Ldi(1, 1)], [Hold]);
    TableConcat(Saved(), end);
    TableConcat(Drives([0x9090]), Saved() + end);
  }

  lemma RealTable()
    ensures Branchless(RealOps() + [Exit]) && TableOf(RealOps() + [Exit]) == BREAK_REAL
  {
    hide TableOf;
    var front := [Ldi(1, 0x0000)] + [Std(1)] + [Waitads];
    var back := [Ldi(1, 0xD000)] + [Std(1)] + ([Clr(1)] + [Hold]);
    RealFrontTable();
    RealBackTable();
    assert RealOps() == front + back;
    hide RealOps;
    TableSimple(Exit, 0x00, 0x00);
    TableConcat(front, back);
    TableConcat(front + back, [Exit]);
  }

  lemma RealFrontTable()
    ensures Branchless([Ldi(1, 0x0000)] + [Std(1)] + [Waitads])
    ensures TableOf([Ldi(1, 0x0000)] + [Std(1)] + [Waitads]) == [(0x01, 0x20), (0x00, 0x00), (0x10, 0x34), (0x00, 0x42)]
  {
    hide TableOf;
    TableLdi(1, 0x0000);
    TableSimple(Std(1), 0x10, 0x34);
    TableSimple(Waitads, 0x00, 0x42);
    TableConcat([Ldi(1, 0x0000)], [Std(1)]);
    TableConcat([Ldi(1, 0x0000)] + [Std(1)], [Waitads]);
  }

  lemma RealBackTable()
    ensures Branchless([Ldi(1, 0xD000)] + [Std(1)] + ([Clr(1)] + [Hold]))
    ensures TableOf([Ldi(1, 0xD000)] + [Std(1)] + ([Clr(1)] + [Hold])) ==
            [(0x01, 0x20), (0x00, 0xd0), (0x10, 0x34), (0x01, 0x29), (0x00, 0x46)]
  {
    hide TableOf;
    TableLdi(1, 0xD000);
    TableSimple(Std(1), 0x10, 0x34);
    TableSimple(Clr(1), 0x01, 0x29);
    TableSimple(Hold, 0x00, 0x46);
    TableConcat([Ldi(1, 0xD000)], [Std(1)]);
    TableConcat([Clr(1)], [Hold]);
    TableConcat([Ldi(1, 0xD000)] + [Std(1)], [Clr(1)] + [Hold]);
  }

  lemma {:induction false} OffsetConcat(a: seq<Item>, b: seq<Item>)
    ensures Offset(a + b) == Offset(a) + Offset(b)
    decreases |b|
  {
    if b == [] {
      assert a + b == a;
    } else {
      assert (a + b)[..|a + b| - 1] == a + b[..|b| - 1];
      OffsetConcat(a, b[..|b| - 1]);
    }
  }

  lemma OffsetOfLines(ops: seq<Operation>)
    requires Branchless(ops)
    ensures Offset(Lines(ops)) == |TableOf(ops)|
  {
    LinesImage(Intended, map[], ops);
  }

  lemma OffsetOfOne(it: Item)
    ensures Offset([it]) == Size(it.op)
  {
    assert [it][..0] == [];
  }

  function BreakUpTo(first: Operation): seq<Item> {
    Lines(Entry()) + [Item(None, first, Id(PROTECTED_LABEL)), Item(None, Ldcmp(3), NoOp),
                      Item(None, Beq, Id(REAL_LABEL))]
  }

  lemma HeadOffset(first: Operation)
    requires first == Bne || first == Beq
    ensures Offset(BreakUpTo(first)) == 0x0b
  {
    hide Entry, TableOf;
    var a, b, c := Item(None, first, Id(PROTECTED_LABEL)), Item(None, Ldcmp(3), NoOp), Item(None, Beq, Id(REAL_LABEL));
    EntryTable();
    OffsetOfLines(Entry());
    OffsetOfOne(a);
    OffsetOfOne(b);
    OffsetOfOne(c);
    OffsetConcat([a], [b]);
    OffsetConcat([a] + [b], [c]);
    assert [a, b, c] == [a] + [b] + [c];
    OffsetConcat(Lines(Entry()), [a, b, c]);
  }

  /** The two labels stand for words 0x0b and 0x43. */
  lemma BreakLabels(first: Operation)
    requires first == Bne || first == Beq
    ensures var items := BreakItems(first);
      && PROTECTED_LABEL in Labels(items) && Labels(items)[PROTECTED_LABEL] == 0x0b
      && REAL_LABEL in Labels(items) && Labels(items)[REAL_LABEL] == 0x43
  {
    hide Labels, Offset, TableOf, Entry, ProtectedOps, RealOps, BreakItems, BreakUpTo, Branchless;
    var items := BreakItems(first);
    var mark, body := Item(Some(PROTECTED_LABEL), Ud, NoOp), ProtectedOps() + [Exit];
    BreakLayout(first);
    BreakPrefixes(first);
    LabelIsLastOffset(items, PROTECTED_LABEL);
    LabelIsLastOffset(items, REAL_LABEL);
    assert |PROTECTED_LABEL| != |REAL_LABEL|;
    HeadOffset(first);
    OffsetOfOne(mark);
    OffsetConcat(BreakUpTo(first), [mark]);
    ProtectedTable();
    OffsetOfLines(body);
    OffsetConcat(BreakUpTo(first) + [mark], Lines(body));
    assert items[10].tag == Some(PROTECTED_LABEL) && items[57].tag == Some(REAL_LABEL);
  }

  lemma BreakPrefixes(first: Operation)
    ensures Branchless(ProtectedOps() + [Exit])
    ensures BreakItems(first)[..10] == BreakUpTo(first)
    ensures BreakItems(first)[..57] == BreakUpTo(first) + [Item(Some(PROTECTED_LABEL), Ud, NoOp)]
            + Lines(ProtectedOps() + [Exit])
  {
    hide Entry, ProtectedOps, RealOps;
    BranchlessParts(ProtectedOps(), [Exit]);
  }

  lemma ImageOne(v: Design, labels: map<string, int>, it: Item)
    requires Code(v, labels, it).Success?
    ensures Image(v, labels, [it]) == Code(v, labels, it)
  {
    assert [it][..0] == [];
    var code := Code(v, labels, it).value;
    assert [] + code == code;
    assert Image(v, labels, []) == Success([]);
  }

  /** The opcode that ends up in the table for the routine's first branch. */
  function FirstOpcode(v: Design, first: Operation): Byte {
    if first == Bne then BneOpcode(v) else Isa.BEQ
  }

  lemma BranchCodes(v: Design, labels: map<string, int>, first: Operation)
    requires first == Bne || first == Beq
    requires PROTECTED_LABEL in labels && labels[PROTECTED_LABEL] == 0x0b
    requires REAL_LABEL in labels && labels[REAL_LABEL] == 0x43
    ensures Code(v, labels, Item(None, first, Id(PROTECTED_LABEL))) == Success([FirstOpcode(v, first) * 0x100 + 0x0b])
    ensures Code(v, labels, Item(None, Ldcmp(3), NoOp)) == Success([0x2830])
    ensures Code(v, labels, Item(None, Beq, Id(REAL_LABEL))) == Success([0x7143])
  {
    assert Encode(v, labels, Ldcmp(3), NoOp) == Success(0x2830);
    assert Encode(v, labels, Beq, Id(REAL_LABEL)) == Success(0x7143);
    assert Encode(v, labels, first, Id(PROTECTED_LABEL)) == Success(FirstOpcode(v, first) * 0x100 + 0x0b);
  }

  lemma BranchesImage(v: Design, labels: map<string, int>, first: Operation)
    requires first == Bne || first == Beq
    requires PROTECTED_LABEL in labels && labels[PROTECTED_LABEL] == 0x0b
    requires REAL_LABEL in labels && labels[REAL_LABEL] == 0x43
    ensures var bs := [Item(None, first, Id(PROTECTED_LABEL)), Item(None, Ldcmp(3), NoOp),
                       Item(None, Beq, Id(REAL_LABEL))];
      Image(v, labels, bs) == Success([FirstOpcode(v, first) * 0x100 + 0x0b, 0x2830, 0x7143])
  {
    hide Image, Code, FirstOpcode;
    var a, b, c := Item(None, first, Id(PROTECTED_LABEL)), Item(None, Ldcmp(3), NoOp), Item(None, Beq, Id(REAL_LABEL));
    BranchCodes(v, labels, first);
    ImageOne(v, labels, a);
    ImageOne(v, labels, b);
    ImageOne(v, labels, c);
    ImageConcat(v, labels, [a], [b]);
    ImageConcat(v, labels, [a] + [b], [c]);
    assert [a, b, c] == [a] + [b] + [c];
    var w := FirstOpcode(v, first) * 0x100 + 0x0b;
    assert [w] + [0x2830] + [0x7143] == [w, 0x2830, 0x7143];
  }

  /** The table of the break routine with a given opcode in its first branch. */
  function BreakTableWith(opcode: Byte): Table {
    BREAK_HEAD + [(0x0b, opcode), (0x30, 0x28), (0x43, 0x71)] + BREAK_PROTECTED + BREAK_REAL
  }

  lemma EmitConcat(a: seq<int>, b: seq<int>)
    ensures Emit(a + b) == Emit(a) + Emit(b)
  {
  }

  lemma BranchRows(opcode: Byte)
    ensures Emit([opcode * 0x100 + 0x0b, 0x2830, 0x7143]) == [(0x0b, opcode), (0x30, 0x28), (0x43, 0x71)]
  {
    ByteSplit(opcode, 0x0b);
  }

  function BreakWords(opcode: Byte): seq<int> {
    WordsOf(Entry()) + [opcode * 0x100 + 0x0b, 0x2830, 0x7143] + WordsOf(ProtectedOps() + [Exit])
      + WordsOf(RealOps() + [Exit])
  }

  lemma BreakImage(v: Design, first: Operation)
    requires first == Bne || first == Beq
    ensures var items := BreakItems(first);
      Image(v, Labels(items), items) == Success(BreakWords(FirstOpcode(v, first)))
  {
    hide Image, Labels, Entry, ProtectedOps, RealOps, WordsOf, FirstOpcode;
    var labels := Labels(BreakItems(first));
    var bs := [Item(None, first, Id(PROTECTED_LABEL)), Item(None, Ldcmp(3), NoOp), Item(None, Beq, Id(REAL_LABEL))];
    var p, r := Item(Some(PROTECTED_LABEL), Ud, NoOp), Item(Some(REAL_LABEL), Ud, NoOp);
    BreakLabels(first);
    LinesImage(v, labels, Entry());
    BranchesImage(v, labels, first);
    ImageOne(v, labels, p);
    LinesImage(v, labels, ProtectedOps() + [Exit]);
    ImageOne(v, labels, r);
    LinesImage(v, labels, RealOps() + [Exit]);
    var i1 := Lines(Entry()) + bs;
    ImageConcat(v, labels, Lines(Entry()), bs);
    ImageConcat(v, labels, i1, [p]);
    ImageConcat(v, labels, i1 + [p], Lines(ProtectedOps() + [Exit]));
    ImageConcat(v, labels, i1 + [p] + Lines(ProtectedOps() + [Exit]), [r]);
    ImageConcat(v, labels, i1 + [p] + Lines(ProtectedOps() + [Exit]) + [r], Lines(RealOps() + [Exit]));
    var w1, w2, w3, w4 := WordsOf(Entry()), [FirstOpcode(v, first) * 0x100 + 0x0b, 0x2830, 0x7143],
                          WordsOf(ProtectedOps() + [Exit]), WordsOf(RealOps() + [Exit]);
    assert w1 + w2 + [] + w3 + [] + w4 == w1 + w2 + w3 + w4;
  }

  lemma BreakRows(opcode: Byte)
    ensures Emit(BreakWords(opcode)) == BreakTableWith(opcode)
  {
    hide Entry, ProtectedOps, RealOps, WordsOf, Emit, BREAK_HEAD, BREAK_PROTECTED, BREAK_REAL;
    EntryTable();
    BranchRows(opcode);
    ProtectedTable();
    RealTable();
    var w1, w2, w3, w4 := WordsOf(Entry()), [opcode * 0x100 + 0x0b, 0x2830, 0x7143],
                          WordsOf(ProtectedOps() + [Exit]), WordsOf(RealOps() + [Exit]);
    EmitConcat(w1, w2);
    EmitConcat(w1 + w2, w3);
    EmitConcat(w1 + w2 + w3, w4);
  }

  /** Assembling the break routine. */
  lemma BreakAssembles(v: Design, first: Operation)
    requires first == Bne || first == Beq
    ensures var items := BreakItems(first);
      && Image(v, Labels(items), items).Success?
      && Emit(Image(v, Labels(items), items).value) == BreakTableWith(FirstOpcode(v, first))
  {
    hide Image, Labels, BreakItems, Emit, BreakWords, BreakTableWith;
    BreakImage(v, first);
    BreakRows(FirstOpcode(v, first));
  }

  /** The header table of the break routine, from its source. */
  function AssembledBreak(v: Design, first: Operation): Table
    requires first == Bne || first == Beq
  {
    BreakAssembles(v, first);
    Emit(Image(v, Labels(BreakItems(first)), BreakItems(first)).value)
  }

  /** The shipped break routine is what the assembler, as written, makes of its source: its
      BNE has become a BEQ. The intended assembler would emit another table. */
  lemma BreakIsAssembled(v: Design)
    ensures AssembledBreak(AsWritten, Bne) == BREAK_TABLE == AssembledBreak(v, Beq)
    ensures AssembledBreak(Intended, Bne) != BREAK_TABLE
  {
    hide Emit, Image, Labels, BreakItems, BREAK_HEAD, BREAK_PROTECTED, BREAK_REAL;
    BreakAssembles(AsWritten, Bne);
    BreakAssembles(Intended, Bne);
    BreakAssembles(v, Beq);
    assert BreakTableWith(0x71) == BREAK_TABLE;
    assert BreakTableWith(0x73)[|BREAK_HEAD|] == (0x0b, 0x73) && BREAK_TABLE[|BREAK_HEAD|] == (0x0b, 0x71);
  }
}
