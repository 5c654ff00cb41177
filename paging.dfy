/**
 * The page-directory manager: one page directory of 1024 entries and the
 * two 4 KB page tables the kernel builds at boot, under 32-bit paging with
 * 4 MB pages enabled (section 4.3 of the Intel SDM, Volume 3A, Tables 4-4,
 * 4-5 and 4-6).
 *
 * A directory entry is either a 4 MB page or a reference to a page table;
 * the page-size bit (bit 7) selects which, so the model tags the entry
 * instead of overlaying the two layouts.  A page table is named by the
 * physical page number its reference holds (bits 12-31 of its address).
 */
module Paging {
  import opened Machine

  const ENTRIES: int := 1024
  /** Page number of video memory, 0xB8000 >> 12. */
  const VIDEO_PAGE: int := 0xB8
  const KERNEL_SLOT: int := 1
  /** The slot of the program window at virtual 128 MB (PRO_ADDR). */
  const PROGRAM_SLOT: int := 32
  /** The slot that maps video memory for user programs (USER_VMEM). */
  const USER_VMEM_SLOT: int := 33

  /** A 4 KB page mapping; frame is bits 12-31 of the physical address. */
  datatype Pte = Pte(present: bool, rw: bool, user: bool, writeThrough: bool, cacheDisabled: bool,
                     accessed: bool, dirty: bool, pat: bool, global: bool, available: int, frame: int)

  /** A page-directory entry: a reference to a page table whose address is
      base << 12 (page-size bit 0), or a 4 MB page at frame << 22
      (page-size bit 1). */
  datatype Pde =
    | TableRef(present: bool, rw: bool, user: bool, writeThrough: bool, cacheDisabled: bool,
               accessed: bool, global: bool, available: int, base: int)
    | BigPage(present: bool, rw: bool, user: bool, writeThrough: bool, cacheDisabled: bool,
              accessed: bool, dirty: bool, global: bool, available: int, pat: bool, frame: int)

  /** The all-zero directory entry init_paging stores in every slot first;
      its page-size bit is 0, so it reads as a (non-present) table reference. */
  const ClearPde: Pde := TableRef(false, false, false, false, false, false, false, 0, 0)
  /** The all-zero page-table entry. */
  const ClearPte: Pte := Pte(false, false, false, false, false, false, false, false, false, 0, 0)

  /** Video memory for the kernel: present, read/write, supervisor. */
  const VideoPte: Pte := Pte(true, true, false, false, false, false, false, false, false, 0, VIDEO_PAGE)
  /** Video memory for user programs: the same page, user-accessible. */
  const UserVideoPte: Pte := Pte(true, true, true, false, false, false, false, false, false, 0, VIDEO_PAGE)
  /** The kernel's 4 MB page: present, read/write, supervisor, cache
      disabled, global, at physical 4 MB. */
  const KernelPde: Pde := BigPage(true, true, false, false, true, false, false, true, 0, false, 1)
  /** The program window: present, read/write, user, cache disabled, not
      global, frame 0 until execute remaps it. */
  const ProgramPde: Pde := BigPage(true, true, true, false, true, false, false, false, 0, false, 0)

  /** Slot 0: the supervisor reference to page table 0. */
  function VideoTablePde(base: int): Pde
  {
    TableRef(true, true, false, false, false, false, false, 0, base)
  }

  /** Slot 33: the user reference to page table 1. */
  function UserVideoTablePde(base: int): Pde
  {
    TableRef(true, true, true, false, false, false, false, 0, base)
  }

  /** The present bit, which sits at bit 0 in both layouts. */
  predicate Present(e: Pde) { e.present }

  /** The directory init_paging builds, for page tables 0 and 1 at page
      numbers b0 and b1. */
  function BootDirectory(b0: int, b1: int): (d: seq<Pde>)
    ensures |d| == ENTRIES
  {
    seq(ENTRIES, i => if i == 0 then VideoTablePde(b0)
                      else if i == KERNEL_SLOT then KernelPde
                      else if i == PROGRAM_SLOT then ProgramPde
                      else if i == USER_VMEM_SLOT then UserVideoTablePde(b1)
                      else ClearPde)
  }

  /** Page table 0 as init_paging builds it. */
  function BootTable0(): (t: seq<Pte>)
    ensures |t| == ENTRIES
  {
    seq(ENTRIES, i => if i == VIDEO_PAGE then VideoPte else ClearPte)
  }

  /** Which of the two page tables a lookup landed in. */
  datatype TableName = PageTable0 | PageTable1

  /** What get_pageTable_entry returns: NULL, a pointer to entry `index` of
      a page table, or a read of memory this model does not hold (a 4 MB
      slot read as a table reference, or a table other than the two). */
  datatype PtLookup = NullEntry | Entry(table: TableName, index: int, pte: Pte) | Unmodelled

  /** get_pageTable_entry over the directory and the two tables' contents:
      NULL for an index of 1024 or more, for a directory slot whose present
      bit is clear, or for a table entry whose present bit is clear. */
  function PageTableEntry(dir: seq<Pde>, t0: seq<Pte>, t1: seq<Pte>, b0: int, b1: int,
                          dirIdx: u32, tableIdx: u32): (r: PtLookup)
    requires |dir| == ENTRIES && |t0| == ENTRIES && |t1| == ENTRIES && b0 != b1
    ensures dirIdx >= ENTRIES || tableIdx >= ENTRIES ==> r.NullEntry?
    ensures dirIdx < ENTRIES && !Present(dir[dirIdx]) ==> r.NullEntry?
    ensures r.Unmodelled? <==>
      dirIdx < ENTRIES && tableIdx < ENTRIES && Present(dir[dirIdx]) &&
      (dir[dirIdx].BigPage? || (dir[dirIdx].base != b0 && dir[dirIdx].base != b1))
    ensures r.Entry? ==>
      dirIdx < ENTRIES && Present(dir[dirIdx]) && dir[dirIdx].TableRef? && r.index == tableIdx &&
      r.pte.present && r.pte == (if r.table == PageTable0 then t0 else t1)[tableIdx] &&
      (r.table == PageTable0 <==> dir[dirIdx].base == b0)
    ensures dirIdx < ENTRIES && tableIdx < ENTRIES && Present(dir[dirIdx]) && dir[dirIdx].TableRef? ==>
      (dir[dirIdx].base == b0 ==> (r.Entry? <==> t0[tableIdx].present)) &&
      (dir[dirIdx].base == b1 ==> (r.Entry? <==> t1[tableIdx].present))
  {
    if dirIdx >= ENTRIES || tableIdx >= ENTRIES then NullEntry
    else if !Present(dir[dirIdx]) then NullEntry
    else if dir[dirIdx].BigPage? then Unmodelled
    else if dir[dirIdx].base == b0 then
      (if t0[tableIdx].present then Entry(PageTable0, tableIdx, t0[tableIdx]) else NullEntry)
    else if dir[dirIdx].base == b1 then
      (if t1[tableIdx].present then Entry(PageTable1, tableIdx, t1[tableIdx]) else NullEntry)
    else Unmodelled
  }

  /** get_bigPage: the directory slot, or NULL for an index of 1024 or more
      or a slot whose present bit is clear.  Only the present bit is
      tested, so a present table reference is returned too. */
  function BigPageEntry(dir: seq<Pde>, dirIdx: u32): (r: Option<Pde>)
    requires |dir| == ENTRIES
    ensures r.Some? <==> dirIdx < ENTRIES && Present(dir[dirIdx])
    ensures r.Some? ==> r.value == dir[dirIdx]
  {
    if dirIdx >= ENTRIES then None
    else if !Present(dir[dirIdx]) then None
    else Some(dir[dirIdx])
  }

  /** After boot, get_bigPage finds exactly slots 0, 1, 32 and 33; slot 1
      is the global supervisor page at physical 4 MB and slot 32 the user
      program window at frame 0. */
  lemma {:induction false} BootBigPages(b0: int, b1: int, k: u32)
    ensures var r := BigPageEntry(BootDirectory(b0, b1), k);
      r.Some? <==> k == 0 || k == KERNEL_SLOT || k == PROGRAM_SLOT || k == USER_VMEM_SLOT
    ensures var r := BigPageEntry(BootDirectory(b0, b1), KERNEL_SLOT);
      r.Some? && r.value.BigPage? && !r.value.user && r.value.global && r.value.frame * FOUR_MB == FOUR_MB
    ensures var r := BigPageEntry(BootDirectory(b0, b1), PROGRAM_SLOT);
      r.Some? && r.value.BigPage? && r.value.user && !r.value.global && r.value.frame == 0
  {
    var d := BootDirectory(b0, b1);
    if k < ENTRIES {
      assert d[k] == if k == 0 then VideoTablePde(b0)
                     else if k == KERNEL_SLOT then KernelPde
                     else if k == PROGRAM_SLOT then ProgramPde
                     else if k == USER_VMEM_SLOT then UserVideoTablePde(b1)
                     else ClearPde;
    }
  }

  /** After boot, the only 4 KB mappings are video memory: entry 0xB8 of
      table 0 through slot 0 (supervisor) and entry 0xB8 of table 1 through
      slot 33 (user), both at physical 0xB8000. */
  lemma {:induction false} BootSmallPages(b0: int, b1: int, t1: seq<Pte>, i: u32, j: u32)
    requires b0 != b1 && |t1| == ENTRIES
    requires forall k :: 0 <= k < ENTRIES && k != VIDEO_PAGE ==> !t1[k].present
    ensures var t1' := t1[VIDEO_PAGE := UserVideoPte];
      var r := PageTableEntry(BootDirectory(b0, b1), BootTable0(), t1', b0, b1, i, j);
      (r.Entry? <==> j == VIDEO_PAGE && (i == 0 || i == USER_VMEM_SLOT)) &&
      (r.Entry? ==> r.pte.frame == VIDEO_PAGE && r.pte.present && r.pte.rw && (r.pte.user <==> i == USER_VMEM_SLOT))
  {
    var d := BootDirectory(b0, b1);
    if i < ENTRIES && j < ENTRIES {
      assert d[i] == if i == 0 then VideoTablePde(b0)
                     else if i == KERNEL_SLOT then KernelPde
                     else if i == PROGRAM_SLOT then ProgramPde
                     else if i == USER_VMEM_SLOT then UserVideoTablePde(b1)
                     else ClearPde;
      assert BootTable0()[j] == if j == VIDEO_PAGE then VideoPte else ClearPte;
    }
  }

  class PageDirectory {
    const dir: array<Pde>
    const table0: array<Pte>
    const table1: array<Pte>
    /** Page numbers of page_table_0 and page_table_1 (their link addresses >> 12). */
    const table0Base: int
    const table1Base: int

    ghost predicate Valid()
      reads this
    {
      dir.Length == ENTRIES && table0.Length == ENTRIES && table1.Length == ENTRIES &&
      table0 != table1 && table0Base != table1Base
    }

    /** The three statically allocated, zero-initialised arrays. */
    constructor (b0: int, b1: int)
      requires b0 != b1
      ensures Valid() && table0Base == b0 && table1Base == b1
      ensures fresh(dir) && fresh(table0) && fresh(table1)
      ensures forall k :: 0 <= k < ENTRIES ==> dir[k] == ClearPde && table0[k] == ClearPte && table1[k] == ClearPte
    {
      dir := new Pde[ENTRIES](_ => ClearPde);
      table0 := new Pte[ENTRIES](_ => ClearPte);
      table1 := new Pte[ENTRIES](_ => ClearPte);
      table0Base := b0;
      table1Base := b1;
    }

    /** init_paging without the control-register writes: clear the
        directory and table 0, then install video memory in table 0 (slot 0),
        the kernel page (slot 1), the program window (slot 32) and user
        video memory in table 1 (slot 33).  Table 1 is not cleared first. */
    method InitPaging()
      requires Valid()
      modifies dir, table0, table1
      ensures dir[..] == BootDirectory(table0Base, table1Base)
      ensures table0[..] == BootTable0()
      ensures table1[..] == old(table1[..])[VIDEO_PAGE := UserVideoPte]
    {
      var it := 0;
      while it < ENTRIES
        invariant 0 <= it <= ENTRIES
        invariant forall k :: 0 <= k < it ==> dir[k] == ClearPde
        invariant table0[..] == old(table0[..]) && table1[..] == old(table1[..])
      {
        dir[it] := ClearPde;
        it := it + 1;
      }
      it := 0;
      while it < ENTRIES
        invariant 0 <= it <= ENTRIES
        invariant forall k :: 0 <= k < it ==> table0[k] == ClearPte
        invariant forall k :: 0 <= k < ENTRIES ==> dir[k] == ClearPde
        invariant table1[..] == old(table1[..])
      {
        table0[it] := ClearPte;
        it := it + 1;
      }
      table0[VIDEO_PAGE] := VideoPte;
      dir[0] := VideoTablePde(table0Base);
      dir[KERNEL_SLOT] := KernelPde;
      dir[PROGRAM_SLOT] := ProgramPde;
      table1[VIDEO_PAGE] := UserVideoPte;
      dir[USER_VMEM_SLOT] := UserVideoTablePde(table1Base);
      dir[0] := VideoTablePde(table0Base);
      forall k | 0 <= k < ENTRIES
        ensures dir[k] == BootDirectory(table0Base, table1Base)[k]
      {
      }
      assert table0[..] == BootTable0();
    }
  }
}
