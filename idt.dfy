/**
 * Interrupt descriptor table construction (set_idt_entry) and the order in
 * which the kernel masks the interrupt lines and fills the table at boot.
 *
 * A gate's type lives in four one-bit fields: bit 0 in reserved3, bit 1 in
 * reserved2, bit 2 in reserved1 and bit 3 in size, so that 0x5 is a task
 * gate, 0xE a 32-bit interrupt gate and 0xF a 32-bit trap gate (section 6.11
 * of the Intel 64 and IA-32 Architectures Software Developer's Manual,
 * Volume 3A).
 */
module Idt {
  import opened Machine
  import opened Pic

  const NUM_VEC: int := 256
  const SYS_CALL_NUM: int := 0x80
  const TASK_GATE: int := 0x05
  const INT_GATE: int := 0x0E
  const TRAP_GATE: int := 0x0F

  /** What a gate's offset points at: an exception entry stub
      (idt_functions[v]), one of the installed handlers, the placeholder
      value 1, or whatever the table held before. */
  datatype Target = ExceptionEntry(vector: int) | RtcHandler | KeyHandler | SysCallHandler
                  | OffsetOne | Previous(address: int)

  /** The segment selector of a gate. */
  datatype Selector = KernelCs | KernelTss | OtherSelector(value: int)

  /** One idt_desc_t. */
  datatype Gate = Gate(offset: Target, selector: Selector, reserved4: int, reserved3: int,
                       reserved2: int, reserved1: int, size: int, reserved0: int, dpl: int, present: int)

  /** idt_protections: the privilege level of each exception gate. */
  const IDT_PROTECTIONS: seq<int> := [0, 0, 0, 3, 3, 3, 0, 0, 0, 0, 0, 0, 0, 0, 0, 0, 0, 0, 0, 0]

  /** idt_gates: the gate type of each exception. */
  const IDT_GATES: seq<int> :=
    [TRAP_GATE, TRAP_GATE, INT_GATE, INT_GATE, TRAP_GATE, TRAP_GATE, TRAP_GATE, TRAP_GATE, TASK_GATE,
     TRAP_GATE, TRAP_GATE, TRAP_GATE, TRAP_GATE, TRAP_GATE, INT_GATE, TRAP_GATE, TRAP_GATE, TRAP_GATE,
     TRAP_GATE, TRAP_GATE]

  /** The gate type a gate's four type bits spell. */
  function GateType(g: Gate): int
  {
    g.reserved3 + 2 * g.reserved2 + 4 * g.reserved1 + 8 * g.size
  }

  /** "(t & (1 << k)) >> k": bit k of a non-negative type. */
  function TypeBit(t: int, k: int): int
    requires 0 <= t && 0 <= k < 4
  {
    if k == 0 then t % 2 else if k == 1 then (t / 2) % 2 else if k == 2 then (t / 4) % 2 else (t / 8) % 2
  }

  /** Vectors that get an exception gate: those below 20 except the
      reserved 1, 9 and 15. */
  predicate IsException(v: int)
  {
    0 <= v < 20 && v != 1 && v != 9 && v != 15
  }

  /** The gate set_idt_entry builds for an installed handler. */
  function HandlerGate(f: Target): Gate
  {
    Gate(f, KernelCs, 0, 0, 1, 1, 1, 0, 0, 1)
  }

  /** The non-present filler set_idt_entry puts in empty vectors. */
  const PLACEHOLDER: Gate := Gate(OffsetOne, KernelCs, 0, 0, 1, 1, 1, 0, 0, 0)

  /** A present gate of type t whose type bits are taken from t. */
  function TypedGate(offset: Target, selector: Selector, t: int, dpl: int): Gate
    requires 0 <= t
  {
    Gate(offset, selector, 0, TypeBit(t, 0), TypeBit(t, 1), TypeBit(t, 2), TypeBit(t, 3), 0, dpl, 1)
  }

  /** The gate set_idt_entry leaves at vector v, from the gate there before
      and the handler argument (None for NULL). */
  function NewGate(prev: Gate, v: int, f: Option<Target>): (g: Gate)
    requires 0 <= v < NUM_VEC
    ensures f.Some? ==> g.present == 1 && g.dpl == 0 && g.selector == KernelCs &&
                        g.offset == f.value && GateType(g) == INT_GATE
    ensures f.None? && IsException(v) ==>
      g.present == 1 && GateType(g) == IDT_GATES[v] && g.dpl == IDT_PROTECTIONS[v] &&
      (g.selector == KernelTss <==> v == 8) && (v != 8 ==> g.offset == ExceptionEntry(v))
    ensures f.None? && v == SYS_CALL_NUM ==>
      g.present == 1 && g.dpl == 3 && g.selector == KernelCs && g.offset == SysCallHandler &&
      GateType(g) == TRAP_GATE
    ensures f.None? && !IsException(v) && v != SYS_CALL_NUM ==>
      if prev.present == 0 then g.present == 0 else g == prev
  {
    if f.Some? then HandlerGate(f.value)
    else if IsException(v) then
      if IDT_GATES[v] == TASK_GATE then TypedGate(OffsetOne, KernelTss, IDT_GATES[v], 0)
      else TypedGate(ExceptionEntry(v), KernelCs, IDT_GATES[v], IDT_PROTECTIONS[v])
    else if v == SYS_CALL_NUM then TypedGate(SysCallHandler, KernelCs, TRAP_GATE, 3)
    else if prev.present == 0 then PLACEHOLDER
    else prev
  }

  /** Only vector 8 is a task gate among the exceptions, and only 3, 4 and 5
      are reachable from user level. */
  lemma ExceptionGates(prev: Gate, v: int)
    requires IsException(v)
    ensures GateType(NewGate(prev, v, None)) == TASK_GATE <==> v == 8
    ensures NewGate(prev, v, None).dpl == 3 <==> 3 <= v <= 5
    ensures GateType(NewGate(prev, v, None)) in {TASK_GATE, INT_GATE, TRAP_GATE}
  {
  }

  /** set_idt_entry: rewrite gate v in place. */
  method SetIdtEntry(idt: array<Gate>, v: u32, f: Option<Target>)
    requires idt.Length == NUM_VEC && v < NUM_VEC
    modifies idt
    ensures idt[..] == old(idt[..])[v := NewGate(old(idt[v]), v, f)]
  {
    var g := idt[v];
    if f.Some? {
      g := g.(offset := f.value, dpl := 0, present := 1, selector := KernelCs, reserved0 := 0,
               size := 1, reserved1 := 1, reserved2 := 1, reserved3 := 0, reserved4 := 0);
    } else if v < 20 && v != 1 && v != 9 && v != 15 {
      var curGate := IDT_GATES[v];
      var size, res1, res2, res3 := TypeBit(curGate, 3), TypeBit(curGate, 2), TypeBit(curGate, 1), TypeBit(curGate, 0);
      if curGate == TASK_GATE {
        g := g.(offset := OffsetOne, selector := KernelTss, present := 1, dpl := 0);
      } else {
        g := g.(offset := ExceptionEntry(v as int), dpl := IDT_PROTECTIONS[v], present := 1, selector := KernelCs);
      }
      g := g.(reserved0 := 0, size := size, reserved1 := res1, reserved2 := res2, reserved3 := res3, reserved4 := 0);
    } else if v as int == SYS_CALL_NUM {
      var curGate := TRAP_GATE;
      var size, res1, res2, res3 := TypeBit(curGate, 3), TypeBit(curGate, 2), TypeBit(curGate, 1), TypeBit(curGate, 0);
      g := g.(offset := SysCallHandler, selector := KernelCs, dpl := 3, present := 1, reserved0 := 0,
               size := size, reserved1 := res1, reserved2 := res2, reserved3 := res3, reserved4 := 0);
    } else if g.present == 0 {
      g := g.(offset := OffsetOne, dpl := 0, present := 0, selector := KernelCs, reserved0 := 0,
               size := 1, reserved1 := 1, reserved2 := 1, reserved3 := 0, reserved4 := 0);
    }
    idt[v] := g;
  }

  /** The table after the boot loop calls set_idt_entry(i, NULL) for every
      vector: each gate depends only on its own vector and previous gate. */
  function Filled(t: seq<Gate>): (r: seq<Gate>)
    requires |t| == NUM_VEC
    ensures |r| == NUM_VEC && forall v :: 0 <= v < NUM_VEC ==> r[v] == NewGate(t[v], v, None)
  {
    seq(NUM_VEC, v requires 0 <= v < NUM_VEC => NewGate(t[v], v, None))
  }

  /** The table after the RTC and keyboard handlers are installed. */
  function Installed(t: seq<Gate>, rtcVector: int, keyVector: int): seq<Gate>
    requires |t| == NUM_VEC && 0 <= rtcVector < NUM_VEC && 0 <= keyVector < NUM_VEC
  {
    t[rtcVector := HandlerGate(RtcHandler)][keyVector := HandlerGate(KeyHandler)]
  }

  /** On the all-empty table the boot sequence starts from, with the two
      handlers on distinct vectors 20..255 other than 0x80: the handlers
      survive the fill loop; exactly the exception vectors, 0x80 and the two
      handler vectors are present, each as a task, interrupt or trap gate;
      and user level can reach only vectors 3, 4, 5 and 0x80. */
  lemma BootTable(t: seq<Gate>, rtcVector: int, keyVector: int)
    requires |t| == NUM_VEC && forall v :: 0 <= v < NUM_VEC ==> t[v].present == 0
    requires 20 <= rtcVector < NUM_VEC && 20 <= keyVector < NUM_VEC && rtcVector != keyVector
    requires rtcVector != SYS_CALL_NUM && keyVector != SYS_CALL_NUM
    ensures var r := Filled(Installed(t, rtcVector, keyVector));
      r[rtcVector] == HandlerGate(RtcHandler) && r[keyVector] == HandlerGate(KeyHandler)
    ensures var r := Filled(Installed(t, rtcVector, keyVector));
      forall v :: 0 <= v < NUM_VEC ==>
        (r[v].present == 1 <==> IsException(v) || v == SYS_CALL_NUM || v == rtcVector || v == keyVector)
    ensures var r := Filled(Installed(t, rtcVector, keyVector));
      forall v :: 0 <= v < NUM_VEC && r[v].present == 1 ==>
        GateType(r[v]) in {TASK_GATE, INT_GATE, TRAP_GATE} &&
        (r[v].dpl == 3 <==> 3 <= v <= 5 || v == SYS_CALL_NUM)
  {
    var s := Installed(t, rtcVector, keyVector);
    var r := Filled(s);
    forall v | 0 <= v < NUM_VEC
      ensures r[v].present == 1 <==> IsException(v) || v == SYS_CALL_NUM || v == rtcVector || v == keyVector
      ensures r[v].present == 1 ==>
        GateType(r[v]) in {TASK_GATE, INT_GATE, TRAP_GATE} &&
        (r[v].dpl == 3 <==> 3 <= v <= 5 || v == SYS_CALL_NUM)
    {
      if IsException(v) {
        ExceptionGates(s[v], v);
      }
    }
  }

  /** The boot order of the interrupt set-up: mask all sixteen lines,
      install the RTC and keyboard handlers at their vectors, then run
      set_idt_entry(i, NULL) over all 256 vectors.  Initialising the
      controllers and the clock is port I/O and is not modelled. */
  method InitInterrupts(idt: array<Gate>, pic: Controllers, rtcVector: u32, keyVector: u32)
    requires idt.Length == NUM_VEC && rtcVector < NUM_VEC && keyVector < NUM_VEC
    modifies idt, pic
    ensures forall j :: 0 <= j < 16 ==> !pic.Enabled(j)
    ensures idt[..] == Filled(Installed(old(idt[..]), rtcVector, keyVector))
  {
    MaskAll(pic);
    SetIdtEntry(idt, rtcVector, Some(RtcHandler));
    SetIdtEntry(idt, keyVector, Some(KeyHandler));
    ghost var installed := idt[..];
    assert installed == Installed(old(idt[..]), rtcVector, keyVector);
    var i: u32 := 0;
    while i < NUM_VEC as u32
      invariant 0 <= i <= NUM_VEC
      invariant forall v :: 0 <= v < i ==> idt[v] == NewGate(installed[v], v, None)
      invariant forall v :: i <= v < NUM_VEC ==> idt[v] == installed[v]
      invariant forall j :: 0 <= j < 16 ==> !pic.Enabled(j)
    {
      SetIdtEntry(idt, i, None);
      i := i + 1;
    }
    assert idt[..] == Filled(installed);
  }

  /** The boot loop calling disable_irq for lines 0-15. */
  method MaskAll(pic: Controllers)
    modifies pic
    ensures forall j :: 0 <= j < 16 ==> !pic.Enabled(j)
  {
    var i: u32 := 0;
    while i < 16
      invariant 0 <= i <= 16
      invariant forall j :: 0 <= j < i ==> !pic.Enabled(j)
    {
      pic.DisableIrq(i);
      i := i + 1;
    }
  }
}
