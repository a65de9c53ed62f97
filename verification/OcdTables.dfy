/** Tables of the generated header, word by word, and their agreement with what the assembler
    makes of the routines' source. */
module OcdTables {
  import opened Words
  import opened AsmAst
  import opened AsmSynth
  import opened EndToEnd
  import opened StraightLine
  import opened OcdStretches
  import opened OcdRoutines

  const CONT_TABLE: Table :=
    [(0x01, 0x20), (0xcf, 0x90), (0x07, 0x20), (0x90, 0x90)]
    + [(0x00, 0x42), (0x10, 0x34), (0x00, 0x42), (0x70, 0x34), (0x00, 0x42), (0x70, 0x34)]
    + [(0x00, 0x42), (0x70, 0x34), (0x00, 0x42), (0x50, 0x34), (0x00, 0x42), (0x60, 0x34)]
    + [(0x00, 0x42), (0x40, 0x34), (0x00, 0x42), (0x00, 0x34), (0x00, 0x42), (0x20, 0x34)]
    + [(0x00, 0x42), (0x30, 0x34), (0x00, 0x03), (0x00, 0x49), (0x01, 0x22), (0x02, 0x25)]
    + [(0x00, 0x00)]

  /** The table of branch-free code. */
  function TableOf(ops: seq<Operation>): Table
    requires Branchless(ops)
  {
    Emit(WordsOf(ops))
  }

  lemma TableConcat(a: seq<Operation>, b: seq<Operation>)
    requires Branchless(a) && Branchless(b)
    ensures Branchless(a + b) && TableOf(a + b) == TableOf(a) + TableOf(b)
  {
    hide WordsOf;
    WordsConcat(a, b);
  }

  function Lo(w: int): Byte {
    w % 0x100
  }

  function Hi(w: int): Byte {
    w / 0x100 % 0x100
  }

  lemma TableOne(op: Operation)
    requires op != Ud && !IsBranch(op)
    ensures Branchless([op])
    ensures TableOf([op]) ==
            if op.Ldi? then [(Lo(Word1(op)), Hi(Word1(op))), (Lo(op.s), Hi(op.s))] else [(Lo(Word1(op)), Hi(Word1(op)))]
  {
    hide Word1;
    var ws := if op.Ldi? then [Word1(op), op.s] else [Word1(op)];
    assert [op][1..] == [] && ws + [] == ws;
    assert WordsOf([op]) == ws + WordsOf([]);
  }

  /** Opcode byte and operand byte of an operation. */
  lemma WordBytes(op: Operation)
    requires op != Ud && !IsBranch(op)
    ensures var (i, d, s) := Fields(op);
      Hi(Word1(op)) == i && Lo(Word1(op)) == s % 0x10 * 0x10 + d % 0x10
  {
    var (i, d, s) := Fields(op);
    hide Fields, Hi, Lo, Opcode;
    OpcodeBytes(i, d, s);
  }

  lemma OpcodeBytes(i: Byte, d: int, s: int)
    ensures Hi(Opcode(i, d, s)) == i && Lo(Opcode(i, d, s)) == s % 0x10 * 0x10 + d % 0x10
  {
    hide Hi, Lo;
    var lo := s % 0x10 * 0x10 + d % 0x10;
    assert 0 <= lo < 0x100;
    ByteSplit(i, lo);
  }

  lemma ByteSplit(hi: Byte, lo: int)
    requires 0 <= lo < 0x100
    ensures Hi(hi * 0x100 + lo) == hi && Lo(hi * 0x100 + lo) == lo
  {
  }

  /** Table of a single operation that takes no immediate. */
  lemma TableSimple(op: Operation, lo: Byte, hi: Byte)
    requires op != Ud && !IsBranch(op) && !op.Ldi?
    requires Fields(op).0 == hi && lo == Fields(op).2 % 0x10 * 0x10 + Fields(op).1 % 0x10
    ensures Branchless([op]) && TableOf([op]) == [(lo, hi)]
  {
    hide Fields, Word1;
    TableOne(op);
    WordBytes(op);
  }

  lemma TableLdi(d: Nibble, w: Word)
    ensures Branchless([Ldi(d, w)])
    ensures TableOf([Ldi(d, w)]) == [(d, 0x20), (Lo(w), Hi(w))]
  {
    hide Word1;
    TableOne(Ldi(d, w));
    WordBytes(Ldi(d, w));
  }

  lemma PutsTable(d: Nibble, ds: seq<Nibble>)
    ensures TableOf(Puts([d] + ds)) == [(0x00, 0x42), (0x10 * d, 0x34)] + TableOf(Puts(ds))
  {
    hide TableOf;
    assert ([d] + ds)[1..] == ds;
    assert Puts([d] + ds) == ([Waitads] + [Std(d)]) + Puts(ds);
    TableSimple(Waitads, 0x00, 0x42);
    TableSimple(Std(d), 0x10 * d, 0x34);
    TableConcat([Waitads], [Std(d)]);
    TableConcat([Waitads] + [Std(d)], Puts(ds));
  }

  lemma WatchIoTable()
    ensures TableOf(WatchIo()) == [(0x00, 0x03), (0x00, 0x49), (0x01, 0x22), (0x02, 0x25)]
  {
    hide TableOf;
    assert WatchIo() == ([Detach] + [Waitio]) + ([Ldal(1)] + [Ldwr(2)]);
    TableSimple(Detach, 0x00, 0x03);
    TableSimple(Waitio, 0x00, 0x49);
    TableSimple(Ldal(1), 0x01, 0x22);
    TableSimple(Ldwr(2), 0x02, 0x25);
    TableConcat([Detach], [Waitio]);
    TableConcat([Ldal(1)], [Ldwr(2)]);
    TableConcat([Detach] + [Waitio], [Ldal(1)] + [Ldwr(2)]);
  }

  lemma ContLoadTable()
    ensures TableOf(ContLoad()) == [(0x01, 0x20), (0xcf, 0x90), (0x07, 0x20), (0x90, 0x90)]
  {
    hide TableOf;
    TableLdi(1, 0x90CF);
    TableLdi(7, 0x9090);
    TableConcat([Ldi(1, 0x90CF)], [Ldi(7, 0x9090)]);
  }

  lemma ContLastPutsTable()
    ensures TableOf(Puts([6, 4, 0, 2, 3])) ==
            [(0x00, 0x42), (0x60, 0x34)] + ([(0x00, 0x42), (0x40, 0x34)] + ([(0x00, 0x42), (0x00, 0x34)]
            + ([(0x00, 0x42), (0x20, 0x34)] + [(0x00, 0x42), (0x30, 0x34)])))
  {
    hide TableOf, Puts;
    PutsTable(6, [4, 0, 2, 3]);
    PutsTable(4, [0, 2, 3]);
    PutsTable(0, [2, 3]);
    PutsTable(2, [3]);
    PutsTable(3, []);
    NoTable();
    assert [6, 4, 0, 2, 3] == [6] + [4, 0, 2, 3] && [4, 0, 2, 3] == [4] + [0, 2, 3];
    assert [0, 2, 3] == [0] + [2, 3] && [2, 3] == [2] + [3] && [3] == [3] + [];
    assert [(0x00, 0x42), (0x30, 0x34)] + [] == [(0x00, 0x42), (0x30, 0x34)];
  }

  lemma ContPutsTable()
    ensures TableOf(Puts(CONT_REGS)) ==
            [(0x00, 0x42), (0x10, 0x34)] + ([(0x00, 0x42), (0x70, 0x34)] + ([(0x00, 0x42), (0x70, 0x34)]
            + ([(0x00, 0x42), (0x70, 0x34)] + ([(0x00, 0x42), (0x50, 0x34)] + TableOf(Puts([6, 4, 0, 2, 3]))))))
  {
    hide TableOf, Puts;
    PutsTable(1, [7, 7, 7, 5, 6, 4, 0, 2, 3]);
    PutsTable(7, [7, 7, 5, 6, 4, 0, 2, 3]);
    PutsTable(7, [7, 5, 6, 4, 0, 2, 3]);
    PutsTable(7, [5, 6, 4, 0, 2, 3]);
    PutsTable(5, [6, 4, 0, 2, 3]);
    assert CONT_REGS == [1] + [7, 7, 7, 5, 6, 4, 0, 2, 3];
    assert [7, 7, 7, 5, 6, 4, 0, 2, 3] == [7] + [7, 7, 5, 6, 4, 0, 2, 3];
    assert [7, 7, 5, 6, 4, 0, 2, 3] == [7] + [7, 5, 6, 4, 0, 2, 3];
    assert [7, 5, 6, 4, 0, 2, 3] == [7] + [5, 6, 4, 0, 2, 3];
    assert [5, 6, 4, 0, 2, 3] == [5] + [6, 4, 0, 2, 3];
  }

  lemma NoTable()
    ensures TableOf(Puts([])) == []
  {
  }

  /** The shipped continue routine is what the assembler makes of its source. */
  lemma ContIsAssembled()
    ensures Branchless(ContOps() + [Exit]) && TableOf(ContOps() + [Exit]) == CONT_TABLE
  {
    hide TableOf, Puts, WatchIo, ContLoad;
    var drive, watch := Puts(CONT_REGS), WatchIo();
    ContLoadTable();
    ContPutsTable();
    ContLastPutsTable();
    WatchIoTable();
    TableSimple(Exit, 0x00, 0x00);
    BranchlessParts(drive, watch);
    TableConcat(drive, watch);
    TableConcat(ContLoad(), drive + watch);
    TableConcat(ContOps(), [Exit]);
  }

  lemma CaptureTable(d: Nibble)
    ensures TableOf(Capture(d)) == [(d, 0x24), (0x00, 0x43)]
  {
    hide TableOf;
    TableSimple(Ldd(d), d, 0x24);
    TableSimple(Ready, 0x00, 0x43);
    TableConcat([Ldd(d)], [Ready]);
    assert Capture(d) == [Ldd(d)] + [Ready];
  }

  lemma CapturesTable(d: nat, n: nat)
    requires d + n <= 15 && n > 0
    ensures TableOf(Captures(d, n)) == [(d, 0x24), (0x00, 0x43), (0x00, 0x42)] + TableOf(Captures(d + 1, n - 1))
  {
    hide TableOf;
    CaptureTable(d);
    TableSimple(Waitads, 0x00, 0x42);
    TableConcat(Capture(d), [Waitads]);
    TableConcat(Capture(d) + [Waitads], Captures(d + 1, n - 1));
  }

  const START_TABLE: Table := [(0x00, 0x40), (0x00, 0x03), (0x00, 0x49), (0x01, 0x22), (0x02, 0x25), (0x00, 0x00)]
  const WRITE_IO_TABLE: Table := [(0x30, 0x34), (0x00, 0x03), (0x00, 0x49), (0x01, 0x22), (0x02, 0x25), (0x00, 0x00)]
  const READ_IO_TABLE: Table := [(0x03, 0x24), (0x00, 0x00)]
  const RESET_TABLE: Table := [(0x00, 0x41), (0x00, 0x02), (0x00, 0x00)]

  lemma SmallTables()
    ensures Branchless(StartOps() + [Exit]) && TableOf(StartOps() + [Exit]) == START_TABLE
    ensures Branchless(WriteIoOps() + [Exit]) && TableOf(WriteIoOps() + [Exit]) == WRITE_IO_TABLE
    ensures Branchless(ReadIoOps() + [Exit]) && TableOf(ReadIoOps() + [Exit]) == READ_IO_TABLE
    ensures Branchless(ResetOps() + [Exit]) && TableOf(ResetOps() + [Exit]) == RESET_TABLE
  {
    hide TableOf, WatchIo;
    WatchIoTable();
    TableSimple(Start, 0x00, 0x40);
    TableSimple(Std(3), 0x30, 0x34);
    TableSimple(Ldd(3), 0x03, 0x24);
    TableSimple(Reset, 0x00, 0x41);
    TableSimple(Attach, 0x00, 0x02);
    TableSimple(Exit, 0x00, 0x00);
    TableConcat([Start], WatchIo());
    TableConcat(StartOps(), [Exit]);
    TableConcat([Std(3)], WatchIo());
    TableConcat(WriteIoOps(), [Exit]);
    TableConcat(ReadIoOps(), [Exit]);
    TableConcat([Reset], [Attach]);
    TableConcat(ResetOps(), [Exit]);
  }
}
