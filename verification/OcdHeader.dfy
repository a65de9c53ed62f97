/** The generated header: its eight tables are what the assembler makes of the source file. */
module OcdHeader {
  import opened Words
  import opened AsmAst
  import opened AsmMeaning
  import opened AsmAny
  import opened AsmFile
  import opened EndToEnd
  import opened StraightLine
  import opened OcdStretches
  import opened OcdRoutines
  import opened OcdBreak
  import opened OcdRegisters
  import opened OcdTables
  import opened OcdBreakTables
  import opened OcdRegisterTables
  import opened OcdLaunch
  import opened OcdSource

  /** The functions of the file, in order, and what their lines say. */
  function Names(): (names: seq<string>)
    ensures |names| == 8
  {
    ["ocd_prgm_reset", "ocd_prgm_start", "ocd_prgm_read_io", "ocd_prgm_write_io", "ocd_prgm_break", "ocd_prgm_cont",
     "ocd_prgm_get_regs", "ocd_prgm_set_reg"]
  }

  function Bodies(): (says: seq<seq<Item>>)
    ensures |says| == 8
  {
    [Lines(ResetOps() + [Exit]), Lines(StartOps() + [Exit]), Lines(ReadIoOps() + [Exit]), Lines(WriteIoOps() + [Exit]),
     BreakItems(Bne), Lines(ContOps() + [Exit]), Lines(GetRegsOps() + [Exit]), Lines(SetRegOps() + [Exit])]
  }

  function Shipped(v: Design): (tables: seq<Table>)
    ensures |tables| == 8
  {
    [RESET_TABLE, START_TABLE, READ_IO_TABLE, WRITE_IO_TABLE, BreakTable(v), CONT_TABLE, GET_REGS_TABLE, SET_REG_TABLE]
  }

  /** The source file, whatever its blank lines and comments. */
  predicate IsSource(secs: seq<Section>) {
    && |secs| == 8
    && forall i :: 0 <= i < 8 ==> secs[i].name == Names()[i] && Says(secs[i].body, Bodies()[i])
  }

  lemma NamesDiffer()
    ensures forall i, j :: 0 <= i < j < 8 ==> Names()[i] != Names()[j]
  {
    var names := Names();
    forall i, j | 0 <= i < j < 8
      ensures names[i] != names[j]
    {
      assert |names[i]| != |names[j]| || names[i][9] != names[j][9];
    }
  }

  lemma LinesTable(v: Design, ops: seq<Operation>)
    requires Branchless(ops)
    ensures var items := Lines(ops);
      var image := Image(v, Labels(items), items);
      image.Success? && Emit(image.value) == TableOf(ops) && |image.value| == |TableOf(ops)|
  {
    hide WordsOf, Labels;
    LinesImage(v, Labels(Lines(ops)), ops);
  }

  function OpsOf(i: nat): (ops: seq<Operation>)
    requires i < 8
    ensures Branchless(ops)
  {
    match i
    case 0 => ResetOps()
    case 1 => StartOps()
    case 2 => ReadIoOps()
    case 3 => WriteIoOps()
    case 5 => ContOps()
    case 6 => GetRegsOps()
    case 7 => SetRegOps()
    case _ => []
  }

  /** Table `i` of the header. */
  lemma BodyTable(v: Design, i: nat)
    requires i < 8
    ensures var image := Image(v, Labels(Bodies()[i]), Bodies()[i]);
      Fits(image) && Emit(image.value) == Shipped(v)[i]
  {
    hide Emit, Image, Labels, BreakItems, TableOf, BreakTable, Lines, ContOps, GetRegsOps, SetRegOps, StartOps,
         WriteIoOps, ReadIoOps, ResetOps, AssembledBreak, GET_REGS_TABLE, BREAK_TABLE, CONT_TABLE;
    if i == 4 {
      BreakAssembles(v, Bne);
      BreakTableAssembled(v);
      BreakEmitted(v);
    } else {
      SmallTables();
      ContIsAssembled();
      GetRegsIsAssembled();
      SetRegIsAssembled();
      TablesFit();
      LinesTable(v, OpsOf(i) + [Exit]);
    }
  }

  lemma TablesFit()
    ensures |RESET_TABLE| <= 256 && |START_TABLE| <= 256 && |READ_IO_TABLE| <= 256 && |WRITE_IO_TABLE| <= 256
    ensures |CONT_TABLE| <= 256 && |GET_REGS_TABLE| <= 256 && |SET_REG_TABLE| <= 256
  {
  }

  lemma BreakEmitted(v: Design)
    ensures var image := Image(v, Labels(BreakItems(Bne)), BreakItems(Bne));
      image.Success? && Emit(image.value) == AssembledBreak(v, Bne) && |image.value| == |AssembledBreak(v, Bne)|
  {
    hide Image, Labels, BreakItems;
    BreakAssembles(v, Bne);
  }

  /** Assembling the source file succeeds and emits exactly the eight functions, in order; as
      written, each as the table the header ships, and as intended only the break routine's table
      differs, by the opcode of its BNE. */
  lemma HeaderAssembled(v: Design, secs: seq<Section>)
    requires IsSource(secs)
    ensures var h := Header(v, Registers(32), Flatten(secs));
      && h.Success? && |h.value| == 8
      && forall i :: 0 <= i < 8 ==> h.value[i].0 == Names()[i] && Emit(h.value[i].1) == Shipped(v)[i]
  {
    hide Header, Flatten, Registers, Says, Names, Bodies, Shipped, Image, Labels, Emit;
    NamesDiffer();
    FileAssembles(v, secs, Bodies());
    forall i | 0 <= i < 8
      ensures Fits(Image(v, Labels(Bodies()[i]), Bodies()[i]))
      ensures Emit(Image(v, Labels(Bodies()[i]), Bodies()[i]).value) == Shipped(v)[i]
    {
      BodyTable(v, i);
    }
  }

  // ----- The file exists -----

  predicate ItemsSpellable(items: seq<Item>) {
    forall i :: 0 <= i < |items| ==> Spellable(items[i].op)
  }

  /** The lines of a function, with no blank ones. */
  function Written(items: seq<Item>): (body: seq<Statement>)
    requires ItemsSpellable(items)
    ensures |body| == |items|
  {
    seq(|items|, i requires 0 <= i < |items| => Instr(Spell(items[i])))
  }

  lemma {:induction false} WrittenSays(items: seq<Item>)
    requires ItemsSpellable(items)
    ensures Says(Written(items), items)
    decreases |items|
  {
    hide Spell;
    if items != [] {
      var n := |items| - 1;
      WrittenSays(items[..n]);
      assert Written(items)[..n] == Written(items[..n]);
    }
  }

  predicate AllSpellable(ops: seq<Operation>) {
    forall i :: 0 <= i < |ops| ==> Spellable(ops[i])
  }

  lemma {:induction false} PutsSpellable(ds: seq<Nibble>)
    ensures AllSpellable(Puts(ds)) && AllSpellable(PutsThenWait(ds))
    decreases |ds|
  {
    if ds != [] {
      PutsSpellable(ds[1..]);
    }
  }

  lemma {:induction false} CapturesSpellable(d: nat, n: nat)
    requires d + n <= 15
    ensures AllSpellable(Captures(d, n))
    decreases n
  {
    if n > 0 {
      CapturesSpellable(d + 1, n - 1);
    }
  }

  lemma {:induction false} DrivesSpellable(ws: seq<Word>)
    ensures AllSpellable(Drives(ws))
    decreases |ws|
  {
    if ws != [] {
      DrivesSpellable(ws[1..]);
    }
  }

  lemma OpsSpellable()
    ensures AllSpellable(ResetOps() + [Exit]) && AllSpellable(StartOps() + [Exit])
    ensures AllSpellable(ReadIoOps() + [Exit]) && AllSpellable(WriteIoOps() + [Exit])
    ensures AllSpellable(ContOps() + [Exit]) && AllSpellable(GetRegsOps() + [Exit])
    ensures AllSpellable(SetRegOps() + [Exit])
  {
    hide Puts, PutsThenWait, Captures;
    PutsSpellable(CONT_REGS);
    PutsSpellable(PUSHA_REGS);
    PutsSpellable(SET_REGS);
    CapturesSpellable(0, 15);
  }

  lemma BreakOpsSpellable()
    ensures AllSpellable(Entry()) && AllSpellable(ProtectedOps() + [Exit]) && AllSpellable(RealOps() + [Exit])
  {
    hide Drives, Captures;
    DrivesSpellable(DESCRIPTORS);
    DrivesSpellable([0x9090]);
    CapturesSpellable(2, 4);
  }

  lemma BodiesSpellable(i: nat)
    requires i < 8
    ensures ItemsSpellable(Bodies()[i])
  {
    hide ContOps, GetRegsOps, SetRegOps, StartOps, WriteIoOps, ReadIoOps, ResetOps, Entry, ProtectedOps, RealOps,
         Spellable;
    if i == 4 {
      BreakOpsSpellable();
      SpellableBranches();
    } else {
      OpsSpellable();
    }
  }

  lemma SpellableBranches()
    ensures Spellable(Bne) && Spellable(Beq) && Spellable(Ldcmp(3)) && Spellable(Ud) && Spellable(Exit)
  {
  }

  /** The file of these lines and no others. */
  function SourceFile(): (secs: seq<Section>)
    requires forall i :: 0 <= i < 8 ==> ItemsSpellable(Bodies()[i])
    ensures |secs| == 8
  {
    seq(8, i requires 0 <= i < 8 => Section(Names()[i], Written(Bodies()[i])))
  }

  /** It is such a source. */
  lemma SourceExists()
    ensures forall i :: 0 <= i < 8 ==> ItemsSpellable(Bodies()[i])
    ensures IsSource(SourceFile())
  {
    hide Bodies, Names, Says, Written, ItemsSpellable;
    forall i | 0 <= i < 8
      ensures ItemsSpellable(Bodies()[i])
    {
      BodiesSpellable(i);
    }
    forall i | 0 <= i < 8
      ensures Says(Written(Bodies()[i]), Bodies()[i])
    {
      WrittenSays(Bodies()[i]);
    }
  }
}
