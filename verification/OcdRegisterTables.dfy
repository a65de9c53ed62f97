/** The tables of the routines that read and set registers. */
module OcdRegisterTables {
  import opened Words
  import opened AsmAst
  import opened EndToEnd
  import opened StraightLine
  import opened OcdStretches
  import opened OcdRoutines
  import opened OcdRegisters
  import opened OcdTables

  const SET_REG_TABLE: Table :=
    [(0x04, 0x20), (0x90, 0x90), (0x00, 0x42), (0x10, 0x34), (0x00, 0x42), (0x20, 0x34), (0x00, 0x42), (0x30, 0x34)]
    + [(0x00, 0x42), (0x40, 0x34), (0x00, 0x42), (0x40, 0x34), (0x00, 0x46), (0x00, 0x00)]

  lemma SetRegIsAssembled()
    ensures Branchless(SetRegOps() + [Exit]) && TableOf(SetRegOps() + [Exit]) == SET_REG_TABLE
  {
    hide TableOf, Puts, Branchless;
    SetRegPutsTable();
    TableLdi(4, 0x9090);
    TableSimple(Hold, 0x00, 0x46);
    TableSimple(Exit, 0x00, 0x00);
    TableConcat(Puts(SET_REGS), [Hold]);
    TableConcat([Ldi(4, 0x9090)], Puts(SET_REGS) + [Hold]);
    TableConcat(SetRegOps(), [Exit]);
  }

  lemma SetRegPutsTable()
    ensures TableOf(Puts(SET_REGS)) ==
            [(0x00, 0x42), (0x10, 0x34), (0x00, 0x42), (0x20, 0x34), (0x00, 0x42), (0x30, 0x34), (0x00, 0x42),
             (0x40, 0x34),
             (0x00, 0x42), (0x40, 0x34)]
  {
    hide TableOf, Puts;
    PutsTable(1, [2, 3, 4, 4]);
    PutsTable(2, [3, 4, 4]);
    PutsTable(3, [4, 4]);
    PutsTable(4, [4]);
    PutsTable(4, []);
    NoTable();
    assert SET_REGS == [1] + [2, 3, 4, 4] && [2, 3, 4, 4] == [2] + [3, 4, 4] && [3, 4, 4] == [3] + [4, 4];
    assert [4, 4] == [4] + [4] && [4] == [4] + [];
  }

  const GET_REGS_FEED: Table :=
    [(0x01, 0x20), (0x60, 0x90), (0x02, 0x20), (0x90, 0x90), (0x00, 0x42), (0x10, 0x34), (0x00, 0x42), (0x20, 0x34)]
    + [(0x00, 0x42), (0x20, 0x34), (0x00, 0x42), (0x20, 0x34), (0x00, 0x42), (0x20, 0x34), (0x00, 0x42)]

  const GET_REGS_TAKE: Table :=
    [(0x00, 0x24), (0x00, 0x43), (0x00, 0x42), (0x01, 0x24), (0x00, 0x43), (0x00, 0x42), (0x02, 0x24), (0x00, 0x43),
     (0x00, 0x42)]
    + [(0x03, 0x24), (0x00, 0x43), (0x00, 0x42), (0x04, 0x24), (0x00, 0x43), (0x00, 0x42), (0x05, 0x24), (0x00, 0x43),
       (0x00, 0x42)]
    + [(0x06, 0x24), (0x00, 0x43), (0x00, 0x42), (0x07, 0x24), (0x00, 0x43), (0x00, 0x42), (0x08, 0x24), (0x00, 0x43),
       (0x00, 0x42)]
    + [(0x09, 0x24), (0x00, 0x43), (0x00, 0x42), (0x0a, 0x24), (0x00, 0x43), (0x00, 0x42), (0x0b, 0x24), (0x00, 0x43),
       (0x00, 0x42)]
    + [(0x0c, 0x24), (0x00, 0x43), (0x00, 0x42), (0x0d, 0x24), (0x00, 0x43), (0x00, 0x42), (0x0e, 0x24), (0x00, 0x43),
       (0x00, 0x42)]
    + [(0x0f, 0x24), (0x00, 0x43)]

  const GET_REGS_TABLE: Table := GET_REGS_FEED + GET_REGS_TAKE + [(0x00, 0x46), (0x00, 0x00)]

  function CaptureRows(d: Nibble): Table {
    [(d, 0x24), (0x00, 0x43), (0x00, 0x42)]
  }

  lemma ThreeCaptures(d: nat, n: nat)
    requires d + n <= 15 && n >= 3
    ensures TableOf(Captures(d, n)) ==
            CaptureRows(d) + (CaptureRows(d + 1) + (CaptureRows(d + 2) + TableOf(Captures(d + 3, n - 3))))
  {
    hide TableOf, Captures;
    CapturesTable(d, n);
    CapturesTable(d + 1, n - 1);
    CapturesTable(d + 2, n - 2);
  }

  lemma AllCapturesTable()
    ensures TableOf(AllCaptures()) == GET_REGS_TAKE
  {
    hide TableOf, Captures;
    ThreeCaptures(0, 15);
    ThreeCaptures(3, 12);
    ThreeCaptures(6, 9);
    ThreeCaptures(9, 6);
    ThreeCaptures(12, 3);
    LastOfAll();
    CaptureTable(15);
  }

  lemma LastOfAll()
    ensures Captures(15, 0) == Capture(15) && AllCaptures() == Captures(0, 15)
  {
  }

  lemma PutsThenWaitTable(d: Nibble, ds: seq<Nibble>)
    ensures TableOf(PutsThenWait([d] + ds)) == [(0x10 * d, 0x34), (0x00, 0x42)] + TableOf(PutsThenWait(ds))
  {
    hide TableOf;
    assert ([d] + ds)[1..] == ds;
    assert PutsThenWait([d] + ds) == ([Std(d)] + [Waitads]) + PutsThenWait(ds);
    TableSimple(Waitads, 0x00, 0x42);
    TableSimple(Std(d), 0x10 * d, 0x34);
    TableConcat([Std(d)], [Waitads]);
    TableConcat([Std(d)] + [Waitads], PutsThenWait(ds));
  }

  lemma NoPutsThenWait()
    ensures TableOf(PutsThenWait([])) == []
  {
  }

  lemma FeedPutsTable()
    ensures TableOf(PutsThenWait(PUSHA_REGS)) ==
            [(0x10, 0x34), (0x00, 0x42), (0x20, 0x34), (0x00, 0x42), (0x20, 0x34), (0x00, 0x42), (0x20, 0x34),
             (0x00, 0x42),
             (0x20, 0x34), (0x00, 0x42)]
  {
    hide TableOf, PutsThenWait;
    PutsThenWaitTable(1, [2, 2, 2, 2]);
    PutsThenWaitTable(2, [2, 2, 2]);
    PutsThenWaitTable(2, [2, 2]);
    PutsThenWaitTable(2, [2]);
    PutsThenWaitTable(2, []);
    NoPutsThenWait();
    assert PUSHA_REGS == [1] + [2, 2, 2, 2] && [2, 2, 2, 2] == [2] + [2, 2, 2] && [2, 2, 2] == [2] + [2, 2];
    assert [2, 2] == [2] + [2] && [2] == [2] + [];
  }

  lemma FeedTable()
    ensures TableOf(GetRegsFeed()) == GET_REGS_FEED
  {
    hide TableOf, PutsThenWait;
    FeedPutsTable();
    TableLdi(1, 0x9060);
    TableLdi(2, 0x9090);
    TableSimple(Waitads, 0x00, 0x42);
    TableConcat([Ldi(2, 0x9090)], [Waitads]);
    TableConcat([Ldi(1, 0x9060)], [Ldi(2, 0x9090)] + [Waitads]);
    TableConcat(GetRegsLoad(), PutsThenWait(PUSHA_REGS));
  }

  lemma GetRegsIsAssembled()
    ensures Branchless(GetRegsOps() + [Exit]) && TableOf(GetRegsOps() + [Exit]) == GET_REGS_TABLE
  {
    hide TableOf, GetRegsFeed, AllCaptures, GET_REGS_FEED, GET_REGS_TAKE;
    FeedTable();
    AllCapturesTable();
    TableSimple(Hold, 0x00, 0x46);
    TableSimple(Exit, 0x00, 0x00);
    TableConcat(AllCaptures(), [Hold]);
    TableConcat(GetRegsFeed(), GetRegsTake());
    TableConcat(GetRegsOps(), [Exit]);
  }
}
