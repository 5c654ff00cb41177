/**
 * The per-process descriptor table and process control block.
 *
 * A descriptor's flags word packs three fields: the in-use bit (bit 0),
 * the file kind (bits 1-2: 0 device, 1 directory, 2 regular) and the
 * saved traversal index into the inode's block list (bits 8-19).
 */
module Pcb {
  import opened Machine

  /** The operation table a descriptor dispatches through; NoTable is the
      NULL pointer a cleared descriptor holds. */
  datatype OpsTable = NoTable | RtcTable | DirTable | FileTable | TerminalTable

  datatype FileDesc = FileDesc(ops: OpsTable, inode: u32, filePos: u32, flags: u32)

  const RTC_FILE: int := 0
  const DIR_FILE: int := 1
  const REG_FILE: int := 2

  const FD_COUNT: int := 8
  /** Flags of the console descriptors 0 and 1: in use, kind bits 3. */
  const TERMINAL_FILE_FLAGS: u32 := 0x7

  /** The all-zero descriptor that clears slots 2-7 of a new process. */
  const ClearFd: FileDesc := FileDesc(NoTable, 0, 0, 0)

  /** Bit 0 of the flags word (USE_MASK). */
  predicate InUse(f: u32) { f % 2 == 1 }

  /** Bits 1-2 of the flags word ((flags & TYPE_MASK) >> TYPE_SHIFT). */
  function KindOf(f: u32): (k: int)
    ensures 0 <= k < 4
  {
    (f / 2) % 4
  }

  /** Bits 8-19 of the flags word ((flags & I_IDX_MASK) >> I_IDX_SHIFT). */
  function TraversalIdx(f: u32): (i: int)
    ensures 0 <= i < 4096
  {
    (f / 0x100) % 0x1000
  }

  /** The flags word after "flags &= I_IDX_CLEAR; flags |= i << I_IDX_SHIFT":
      bits 8-19 hold i and every other bit is kept. */
  function WithTraversalIdx(f: u32, i: int): (g: u32)
    requires 0 <= i < 4096
    ensures TraversalIdx(g) == i
    ensures g % 0x100 == f % 0x100 && g / 0x10_0000 == f / 0x10_0000
    ensures InUse(g) == InUse(f) && KindOf(g) == KindOf(f)
  {
    FlagsSplit(f);
    FlagsFields(f / 0x10_0000, TraversalIdx(f), f % 0x100);
    FlagsFields(f / 0x10_0000, i, f % 0x100);
    (f / 0x10_0000) * 0x10_0000 + i * 0x100 + f % 0x100
  }

  /** A flags word assembled from its high bits h (20-31), traversal index
      m (8-19) and low byte l reads back each part. */
  lemma {:induction false} FlagsFields(h: int, m: int, l: int)
    requires 0 <= h && 0 <= m < 0x1000 && 0 <= l < 0x100
    ensures var g := h * 0x10_0000 + m * 0x100 + l;
      g / 0x100 == h * 0x1000 + m && g % 0x100 == l && (g / 0x100) % 0x1000 == m &&
      g / 0x10_0000 == h && g % 2 == l % 2 && (g / 2) % 4 == (l / 2) % 4
  {
    var q := h * 0x1000 + m;
    var g := q * 0x100 + l;
    assert g == h * 0x10_0000 + m * 0x100 + l;
    DivModPlus(q, 0x100, l);
    DivModPlus(h, 0x1000, m);
    assert g == h * 0x10_0000 + (m * 0x100 + l);
    DivModPlus(h, 0x10_0000, m * 0x100 + l);
    var r := h * 0x8_0000 + m * 0x80 + l / 2;
    assert g == r * 2 + l % 2;
    DivModPlus(r, 2, l % 2);
    assert r == (h * 0x2_0000 + m * 0x20 + l / 8) * 4 + (l / 2) % 4;
    DivModPlus(h * 0x2_0000 + m * 0x20 + l / 8, 4, (l / 2) % 4);
  }

  /** (q * d + r) / d == q and (q * d + r) % d == r for 0 <= r < d, for the
      field widths of the flags word. */
  lemma {:induction false} DivModPlus(q: int, d: int, r: int)
    requires d == 2 || d == 4 || d == 0x100 || d == 0x1000 || d == 0x10_0000
    requires 0 <= r < d
    ensures (q * d + r) / d == q && (q * d + r) % d == r
  {
    if d == 2 {
    } else if d == 4 {
    } else if d == 0x100 {
    } else if d == 0x1000 {
    } else {
    }
  }

  /** Every flags word is the assembly of its three parts. */
  lemma {:induction false} FlagsSplit(f: u32)
    ensures f == (f / 0x10_0000) * 0x10_0000 + TraversalIdx(f) * 0x100 + f % 0x100
  {
    var q := f / 0x100;
    assert f == q * 0x100 + f % 0x100;
    assert q == (q / 0x1000) * 0x1000 + q % 0x1000;
    assert q / 0x1000 == f / 0x10_0000;
  }

  /** i is the lowest general-purpose slot (2-7) whose in-use bit is clear. */
  ghost predicate IsLowestFree(s: seq<FileDesc>, i: int)
    requires |s| == FD_COUNT
  {
    2 <= i < FD_COUNT && !InUse(s[i].flags) &&
    forall j :: 2 <= j < i ==> InUse(s[j].flags)
  }

  ghost predicate AllBusy(s: seq<FileDesc>)
    requires |s| == FD_COUNT
  {
    forall j :: 2 <= j < FD_COUNT ==> InUse(s[j].flags)
  }

  /** The lowest slot from j on (up to 7) whose in-use bit is clear, or -1. */
  function FreeFrom(s: seq<FileDesc>, j: int): (i: int)
    requires |s| == FD_COUNT && 2 <= j
    decreases FD_COUNT - j
    ensures i == -1 <==> forall k :: j <= k < FD_COUNT ==> InUse(s[k].flags)
    ensures i != -1 ==> j <= i < FD_COUNT && !InUse(s[i].flags)
    ensures i != -1 ==> forall k :: j <= k < i ==> InUse(s[k].flags)
  {
    if j >= FD_COUNT then -1
    else if !InUse(s[j].flags) then j
    else FreeFrom(s, j + 1)
  }

  /** The slot every open routine claims: the lowest free one in 2-7. */
  function LowestFree(s: seq<FileDesc>): (i: int)
    requires |s| == FD_COUNT
    ensures i == -1 <==> AllBusy(s)
    ensures i != -1 ==> IsLowestFree(s, i)
  {
    FreeFrom(s, 2)
  }

  /** The lowest free slot depends only on the flags words, so installing
      an operation table in a slot does not move it. */
  lemma {:induction false} FreeFromFlags(s: seq<FileDesc>, t: seq<FileDesc>, j: int)
    requires |s| == |t| == FD_COUNT && 2 <= j
    requires forall k :: 0 <= k < FD_COUNT ==> s[k].flags == t[k].flags
    ensures FreeFrom(s, j) == FreeFrom(t, j)
    decreases FD_COUNT - j
  {
    if j < FD_COUNT {
      FreeFromFlags(s, t, j + 1);
    }
  }

  /** The scan every open routine performs over slots 2-7; -1 when all six
      are in use. */
  method FindFree(files: array<FileDesc>) returns (i: int)
    requires files.Length == FD_COUNT
    ensures i == LowestFree(files[..])
  {
    i := 2;
    while i < FD_COUNT
      invariant 2 <= i <= FD_COUNT
      invariant FreeFrom(files[..], i) == LowestFree(files[..])
    {
      if !InUse(files[i].flags) {
        return;
      }
      i := i + 1;
    }
    i := -1;
  }

  /** A process control block.  Each one lives at a fixed kernel address
      derived from its nesting depth; execute overwrites it in place. */
  class Pcb {
    const address: int
    const files: array<FileDesc>
    /** Address of the PCB of the process that executed this one
        (old_pcb_ptr); 0 for NULL. */
    var parent: int
    var input: seq<byte>
    /** Frame of the program window this process replaced (old_phys_addr). */
    var oldFrame: int
    /** Kernel stack top of the process that executed this one (old_esp0). */
    var oldEsp0: int

    constructor (address: int)
      ensures this.address == address
      ensures fresh(files) && files.Length == FD_COUNT
      ensures forall j :: 0 <= j < FD_COUNT ==> files[j] == ClearFd
      ensures parent == 0 && input == [] && oldFrame == 0 && oldEsp0 == 0
    {
      this.address := address;
      files := new FileDesc[FD_COUNT](_ => ClearFd);
      parent := 0;
      input := [];
      oldFrame := 0;
      oldEsp0 := 0;
    }
  }
}
