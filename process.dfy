/**
 * The process lifecycle as state transitions.  At most six programs run,
 * nested: each execute starts a child of the current process and each halt
 * returns to the parent.  The PCB of nesting depth d lives at
 * 8 MB - (d + 1) * 8 KB; the program runs in the 4 MB page of directory
 * slot 32, which execute points at physical frame 2 + d; and tss.esp0, the
 * kernel stack top used on entry from user mode, is set to the running
 * process's own PCB address.
 */
module Process {
  import opened Machine

  const MAX_PROCESSES: int := 6
  /** tss.esp0 as the boot code leaves it, before any program runs. */
  const BOOT_ESP0: int := EIGHT_MB

  /** The address execute stores the PCB of depth d at. */
  function PcbAddress(d: int): int
  {
    EIGHT_MB - d * EIGHT_KB - EIGHT_KB
  }

  /** The depth whose PCB an address holds, when it holds one. */
  function Depth(a: int): int
  {
    (EIGHT_MB - a) / EIGHT_KB - 1
  }

  predicate IsPcbAddress(a: int)
  {
    0 <= Depth(a) < MAX_PROCESSES && PcbAddress(Depth(a)) == a
  }

  /** Each of the six PCB addresses names its own depth; they lie in the
      kernel's 4-8 MB page, 8 KB apart, below the boot kernel stack. */
  lemma PcbAddresses(d: int)
    requires 0 <= d < MAX_PROCESSES
    ensures Depth(PcbAddress(d)) == d && IsPcbAddress(PcbAddress(d))
    ensures FOUR_MB < PcbAddress(d) && PcbAddress(d) + EIGHT_KB <= EIGHT_MB
    ensures forall e :: 0 <= e < d ==> PcbAddress(e) - PcbAddress(d) >= EIGHT_KB
  {
  }

  /** The frame execute points slot 32 at for the program of depth n:
      "((EIGHT_MB + n * FOUR_MB) & 0xFFC00000) >> 22" on 32-bit words. */
  function ProgramFrame(n: int): int
    requires 0 <= n
  {
    ((EIGHT_MB + n * FOUR_MB) % 0x1_0000_0000) / FOUR_MB
  }

  /** The six programs get the distinct frames 2..7, above the kernel page. */
  lemma ProgramFrames(n: int)
    requires 0 <= n < MAX_PROCESSES
    ensures ProgramFrame(n) == 2 + n
  {
  }

  /** What a PCB saves about the process that executed it: its PCB address
      (old_pcb_ptr), its program frame (old_phys_addr) and its esp0
      (old_esp0). */
  datatype Saved = Saved(parent: int, frame: int, esp0: int)

  /** process_number, cur_pcb, the frame of slot 32, tss.esp0 and what each
      of the six PCB slots saved. */
  datatype Procs = Procs(count: int, cur: int, frame: int, esp0: int, saved: seq<Saved>)

  /** A successful execute: the new PCB goes to depth count and saves the
      current process; the child becomes current with its own frame and
      kernel stack.  With six processes execute refuses and nothing changes. */
  function ExecTransition(p: Procs): Procs
  {
    if p.count < 0 || p.count >= MAX_PROCESSES || |p.saved| != MAX_PROCESSES then p
    else Procs(p.count + 1, PcbAddress(p.count), ProgramFrame(p.count),
               EIGHT_MB - (p.count + 1) * EIGHT_KB,
               p.saved[p.count := Saved(p.cur, p.frame, p.esp0)])
  }

  /** A successful halt: one process fewer, and the current PCB's saved
      esp0, frame and parent are restored.  With no process (or no PCB at
      cur_pcb) nothing changes. */
  function HaltTransition(p: Procs): Procs
  {
    if p.count <= 0 || !IsPcbAddress(p.cur) || |p.saved| != MAX_PROCESSES then p
    else
      var s := p.saved[Depth(p.cur)];
      Procs(p.count - 1, s.parent, s.frame, s.esp0, p.saved)
  }

  /** cur_pcb, the slot-32 frame and tss.esp0 while k processes run. */
  function CurAt(k: int): int { if k == 0 then 0 else PcbAddress(k - 1) }
  function FrameAt(k: int): int requires 0 <= k { if k == 0 then 0 else ProgramFrame(k - 1) }
  function Esp0At(k: int): int { EIGHT_MB - k * EIGHT_KB }

  /** The shape of the process stack: everything is determined by the
      count, and PCB k (below the count) saved the state with k processes. */
  ghost predicate Nested(p: Procs)
  {
    |p.saved| == MAX_PROCESSES && 0 <= p.count <= MAX_PROCESSES &&
    p.cur == CurAt(p.count) && p.frame == FrameAt(p.count) && p.esp0 == Esp0At(p.count) &&
    forall k :: 0 <= k < p.count ==> p.saved[k] == Saved(CurAt(k), FrameAt(k), Esp0At(k))
  }

  /** The boot state (no process, cur_pcb NULL, slot 32 at frame 0, esp0 at
      8 MB) is nested, whatever the PCB memory holds. */
  lemma BootNested(saved: seq<Saved>)
    requires |saved| == MAX_PROCESSES
    ensures Nested(Procs(0, 0, 0, BOOT_ESP0, saved))
  {
  }

  /** execute keeps the stack nested, and tss.esp0 becomes the child's own
      PCB address: its kernel stack grows down from its PCB into the next
      8 KB block. */
  lemma {:induction false} ExecNested(p: Procs)
    requires Nested(p) && p.count < MAX_PROCESSES
    ensures Nested(ExecTransition(p))
    ensures var q := ExecTransition(p); q.count == p.count + 1 && q.esp0 == q.cur == PcbAddress(p.count)
  {
    var q := ExecTransition(p);
    forall k | 0 <= k < q.count
      ensures q.saved[k] == Saved(CurAt(k), FrameAt(k), Esp0At(k))
    {
      if k < p.count {
        assert q.saved[k] == p.saved[k];
      }
    }
  }

  /** execute overwrites the PCB slot of depth count, so what that slot
      held before does not matter. */
  lemma ExecIgnoresNextSlot(p: Procs, s: Saved)
    requires 0 <= p.count < MAX_PROCESSES == |p.saved|
    ensures ExecTransition(p.(saved := p.saved[p.count := s])) == ExecTransition(p)
  {
    assert p.saved[p.count := s][p.count := Saved(p.cur, p.frame, p.esp0)] == p.saved[p.count := Saved(p.cur, p.frame, p.esp0)];
  }

  /** halt keeps the stack nested; it finds a PCB at cur_pcb. */
  lemma {:induction false} HaltNested(p: Procs)
    requires Nested(p) && p.count > 0
    ensures IsPcbAddress(p.cur) && Depth(p.cur) == p.count - 1
    ensures Nested(HaltTransition(p)) && HaltTransition(p).count == p.count - 1
  {
    PcbAddresses(p.count - 1);
  }

  /** Two states that agree on everything a nested stack depends on. */
  ghost predicate SameStack(p: Procs, q: Procs)
  {
    p.count == q.count && p.cur == q.cur && p.frame == q.frame && p.esp0 == q.esp0 &&
    0 <= p.count <= |p.saved| && |p.saved| == |q.saved| && p.saved[..p.count] == q.saved[..p.count]
  }

  /** halt undoes execute: the parent is current again, with its frame and
      kernel stack. */
  lemma {:induction false} HaltUndoesExec(p: Procs)
    requires Nested(p) && p.count < MAX_PROCESSES
    ensures SameStack(HaltTransition(ExecTransition(p)), p)
  {
    PcbAddresses(p.count);
    var q := HaltTransition(ExecTransition(p));
    assert q.saved[..p.count] == p.saved[..p.count];
  }

  /** n executes in a row. */
  function ExecN(p: Procs, n: nat): Procs
  {
    if n == 0 then p else ExecTransition(ExecN(p, n - 1))
  }

  /** n halts in a row. */
  function HaltN(p: Procs, n: nat): Procs
  {
    if n == 0 then p else HaltTransition(HaltN(p, n - 1))
  }

  /** n executes lead to the nested state with n more processes. */
  lemma {:induction false} ExecNNested(p: Procs, n: nat)
    requires Nested(p) && p.count + n <= MAX_PROCESSES
    ensures Nested(ExecN(p, n)) && ExecN(p, n).count == p.count + n
    ensures ExecN(p, n).saved[..p.count] == p.saved[..p.count]
  {
    if n > 0 {
      ExecNNested(p, n - 1);
      var q := ExecN(p, n - 1);
      ExecNested(q);
      assert ExecN(p, n).saved[..p.count] == q.saved[..p.count];
    }
  }

  /** Every nested state with the same count has the same cur_pcb, frame
      and esp0, and the same saved entries below the count. */
  lemma NestedByCount(p: Procs, q: Procs)
    requires Nested(p) && Nested(q) && p.count == q.count
    ensures SameStack(p, q)
  {
    assert p.saved[..p.count] == q.saved[..q.count];
  }

  /** Any run of up to six executes followed by as many halts returns to
      the starting process with its frame and kernel stack. */
  lemma {:induction false} ExecsThenHalts(p: Procs, n: nat)
    requires Nested(p) && p.count + n <= MAX_PROCESSES
    ensures SameStack(HaltN(ExecN(p, n), n), p)
  {
    ExecNNested(p, n);
    HaltsNested(ExecN(p, n), n);
    NestedByCount(HaltN(ExecN(p, n), n), p);
  }

  /** n halts from a nested state with at least n processes. */
  lemma {:induction false} HaltsNested(p: Procs, n: nat)
    requires Nested(p) && n <= p.count
    ensures Nested(HaltN(p, n)) && HaltN(p, n).count == p.count - n
  {
    if n > 0 {
      HaltsNested(p, n - 1);
      HaltNested(HaltN(p, n - 1));
    }
  }
}
