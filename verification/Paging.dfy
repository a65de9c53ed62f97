/** The BIOS page window: the tables it builds and the translation the 386 makes of them. */
module Paging {
  import opened Words
  import opened Wrappers

  const PAGE_SIZE := 4096
  const PD_ADDR := 0x0001_0000
  const PT_ADDR := 0x0001_1000
  const EXTERNAL_RAM := 0x0010_0000
  const BIOS_BASE := 0xC000_0000
  const TABLE_SIZE := 1024

  /** A linear or physical address. */
  type Addr = x: int | 0 <= x < 0x1_0000_0000
  type Frame20 = x: int | 0 <= x < 0x10_0000

  /** A directory or table entry: present, writable, user-accessible, and a 20-bit frame. */
  datatype Entry = Entry(p: bool, rw: bool, us: bool, addr: Frame20)

  const EMPTY := Entry(false, false, false, 0)

  /** The page tables in physical memory, by the frame they lie in. */
  type Tables = map<int, seq<Entry>>

  // ----- The 386 -----

  /** Page translation (section 5.2 of the Intel 80386 Programmer's Reference Manual):
      directory, page and offset fields; a fault if either entry is not present. */
  function Translate(tables: Tables, cr3: Addr, linear: Addr): Option<int> {
    var dir := Lookup(tables, cr3 / PAGE_SIZE, linear / 0x40_0000);
    if !dir.p then None
    else
      var page := Lookup(tables, dir.addr, linear / 0x1000 % 0x400);
      if !page.p then None else Some(page.addr * PAGE_SIZE + linear % PAGE_SIZE)
  }

  function Lookup(tables: Tables, frame: int, i: int): Entry {
    if frame in tables && 0 <= i < |tables[frame]| then tables[frame][i] else EMPTY
  }

  // ----- The tables -----

  function IdentityTable(n: nat): seq<Entry>
    requires n <= TABLE_SIZE
  {
    seq(TABLE_SIZE, i requires 0 <= i < TABLE_SIZE => if i < n then Entry(true, true, true, i) else EMPTY)
  }

  function Directory(): seq<Entry> {
    seq(TABLE_SIZE, i requires 0 <= i < TABLE_SIZE =>
      if i == 0x300 then Entry(true, true, true, PT_ADDR / PAGE_SIZE)
      else if i == 0 then Entry(false, true, true, PT_ADDR / PAGE_SIZE)
      else EMPTY)
  }

  function BiosTables(): Tables {
    map[PD_ADDR / PAGE_SIZE := Directory(), PT_ADDR / PAGE_SIZE := IdentityTable(TABLE_SIZE)]
  }

  /** The two tables where the set-up code writes them. */
  class Bios {
    const pd: array<Entry>
    const pt: array<Entry>

    constructor ()
      ensures Valid() && fresh(pd) && fresh(pt)
    {
      pd, pt := new Entry[TABLE_SIZE], new Entry[TABLE_SIZE];
    }

    ghost predicate Valid()
      reads this
    {
      pd.Length == TABLE_SIZE && pt.Length == TABLE_SIZE && pd != pt
    }

    ghost function InMemory(): Tables
      reads this, pd, pt
    {
      map[PD_ADDR / PAGE_SIZE := pd[..], PT_ADDR / PAGE_SIZE := pt[..]]
    }

    method Clear(table: array<Entry>)
      modifies table
      ensures forall i :: 0 <= i < table.Length ==> table[i] == EMPTY
    {
      for i := 0 to table.Length
        invariant forall k :: 0 <= k < i ==> table[k] == EMPTY
      {
        table[i] := EMPTY;
      }
    }

    /** One entry, from a 32-bit address of which the low twelve bits are dropped. */
    method SetEntry(table: array<Entry>, idx: nat, us: bool, rw: bool, frame: Addr)
      requires idx < table.Length
      modifies table
      ensures table[..] == old(table[..])[idx := Entry(true, rw, us, frame / PAGE_SIZE)]
    {
      table[idx] := Entry(true, rw, us, frame / PAGE_SIZE);
    }

    method SetupPaging()
      requires Valid()
      modifies pd, pt
      ensures Valid() && InMemory() == BiosTables()
    {
      Clear(pd);
      Clear(pt);
      for i := 0 to TABLE_SIZE
        invariant pt[..] == IdentityTable(i) && forall k :: 0 <= k < TABLE_SIZE ==> pd[k] == EMPTY
      {
        SetEntry(pt, i, true, true, i * 0x1000);
        assert pt[..] == IdentityTable(i + 1);
      }
      SetEntry(pd, 0x0000_0000 / 0x40_0000, true, true, PT_ADDR);
      SetEntry(pd, 0xC000_0000 / 0x40_0000, true, true, PT_ADDR);
      pd[0x0000_0000 / 0x40_0000] := pd[0x0000_0000 / 0x40_0000].(p := false);
      assert pd[..] == Directory();
    }
  }

  // ----- The window -----

  /** After set-up the CPU maps [0xC0000000, 0xC0400000) to itself minus 0xC0000000, and
      faults everywhere else. */
  lemma Window(linear: Addr)
    ensures Translate(BiosTables(), PD_ADDR, linear) ==
            if BIOS_BASE <= linear < BIOS_BASE + 0x40_0000 then Some(linear - BIOS_BASE) else None
  {
    var d := linear / 0x40_0000;
    assert 0 <= d < 0x400;
    assert Lookup(BiosTables(), PD_ADDR / PAGE_SIZE, d) == Directory()[d];
    if d == 0x300 {
      var i := linear / 0x1000 % 0x400;
      assert Lookup(BiosTables(), PT_ADDR / PAGE_SIZE, i) == IdentityTable(TABLE_SIZE)[i];
      assert linear / 0x1000 == 0x400 * d + i;
    }
  }

  /** Whether a user program may write there: both entries must let it (section 6.4 of the Intel
      80386 Programmer's Reference Manual). */
  predicate UserMayWrite(tables: Tables, cr3: Addr, linear: Addr) {
    var dir := Lookup(tables, cr3 / PAGE_SIZE, linear / 0x40_0000);
    var page := Lookup(tables, dir.addr, linear / 0x1000 % 0x400);
    dir.p && page.p && dir.us && page.us && dir.rw && page.rw
  }

  /** The whole window may be written, by user programs too, whatever the bit is called. */
  lemma WindowRights(linear: Addr)
    ensures UserMayWrite(BiosTables(), PD_ADDR, linear) <==> 0xC000_0000 <= linear < 0xC040_0000
  {
    var d := linear / 0x40_0000;
    assert 0 <= d < 0x400;
    assert Lookup(BiosTables(), PD_ADDR / PAGE_SIZE, d) == Directory()[d];
    if d == 0x300 {
      var i := linear / 0x1000 % 0x400;
      assert Lookup(BiosTables(), PT_ADDR / PAGE_SIZE, i) == IdentityTable(TABLE_SIZE)[i];
    }
  }

  // ----- Frames through the window -----

  function FrameToPhys(f: int): int {
    f * 0x1000 + EXTERNAL_RAM
  }

  function FrameToVirt(f: int): int {
    FrameToPhys(f) + BIOS_BASE
  }

  function PhysToFrame(p: int): int {
    (p - EXTERNAL_RAM) / 0x1000
  }

  /** The mask `~BIOS_BASE` keeps the low thirty bits. */
  function VirtToFrame(v: Addr): int {
    PhysToFrame(v % 0x4000_0000)
  }

  /** Byte `k` of a frame's page is byte `k` of the frame's own physical page, and leads back
      to the frame. */
  lemma FrameThroughWindow(f: Byte, k: int)
    requires 0 <= k < PAGE_SIZE
    ensures FrameToVirt(f) + k < 0x1_0000_0000
    ensures Translate(BiosTables(), PD_ADDR, FrameToVirt(f) + k) == Some(EXTERNAL_RAM + PAGE_SIZE * f + k)
    ensures VirtToFrame(FrameToVirt(f) + k) == f
  {
    var linear: Addr := FrameToVirt(f) + k;
    Window(linear);
    assert linear % 0x4000_0000 == linear - BIOS_BASE;
    assert (f * 0x1000 + k) / 0x1000 == f;
  }

  /** Where byte `k` of a frame's page lies. */
  function Physical(f: Byte, k: int): Option<int>
    requires 0 <= k < PAGE_SIZE
  {
    Translate(BiosTables(), PD_ADDR, FrameToVirt(f) + k)
  }

  /** Pages of different frames never overlap, and no page of a frame overlaps the page
      tables, so no write through the window to a frame changes the window. */
  lemma PagesApart(f: Byte, g: Byte, j: int, k: int)
    requires 0 <= j < PAGE_SIZE && 0 <= k < PAGE_SIZE
    ensures Physical(f, j).Some? && Physical(f, j).value / PAGE_SIZE !in BiosTables()
    ensures Physical(f, j) == Physical(g, k) <==> (f == g && j == k)
  {
    hide Translate;
    FrameThroughWindow(f, j);
    FrameThroughWindow(g, k);
    assert (PAGE_SIZE * f + j) / PAGE_SIZE == f && (PAGE_SIZE * g + k) / PAGE_SIZE == g;
  }
}
