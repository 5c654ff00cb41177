/**
 * The two cascaded 8259A interrupt controllers as the kernel drives them:
 * the interrupt-mask shadows master_mask (IRQs 0-7) and slave_mask (IRQs
 * 8-15), and the bytes the driver sends to the controllers' ports.  In an
 * 8259A mask byte (operation command word 1) a set bit masks its line.
 */
module Pic {
  import opened Machine

  /** The controllers' command and data ports.  Their numbers are defined
      in i8259.h, which is not part of this model. */
  datatype Port = MasterCommand | MasterData | SlaveCommand | SlaveData

  /** One outb: a mask byte sent to a data port, or the non-specific
      end-of-interrupt command sent to a command port. */
  datatype PortWrite = MaskByte(port: Port, value: bv8) | Eoi(port: Port)

  /** The byte 1 << k. */
  function Single(k: int): bv8
    requires 0 <= k < 8
  {
    if k == 0 then 1 else if k == 1 then 2 else if k == 2 then 4 else if k == 3 then 8
    else if k == 4 then 16 else if k == 5 then 32 else if k == 6 then 64 else 128
  }

  /** Bit k of a mask byte. */
  predicate Bit(m: bv8, k: int)
    requires 0 <= k < 8
  {
    m & Single(k) != 0
  }

  /** The byte "mask & ~(1 << k)" leaves in a uint8_t: bit k cleared for
      k < 8; for 8 <= k < 32 the shifted bit lies outside the byte. */
  function Unmasked(m: bv8, k: int): (r: bv8)
    requires 0 <= k < 32
    ensures k < 8 ==> !Bit(r, k)
    ensures k < 8 ==> forall j :: 0 <= j < 8 && j != k ==> Bit(r, j) == Bit(m, j)
    ensures k >= 8 ==> r == m
  {
    if k < 8 then m & !Single(k) else m
  }

  /** The byte "mask | (1 << k)" leaves in a uint8_t: bit k set for k < 8. */
  function Masked(m: bv8, k: int): (r: bv8)
    requires 0 <= k < 32
    ensures k < 8 ==> Bit(r, k)
    ensures k < 8 ==> forall j :: 0 <= j < 8 && j != k ==> Bit(r, j) == Bit(m, j)
    ensures k >= 8 ==> r == m
  {
    if k < 8 then m | Single(k) else m
  }

  /** Unmasking and masking are each idempotent. */
  lemma MaskIdempotent(m: bv8, k: int)
    requires 0 <= k < 32
    ensures Unmasked(Unmasked(m, k), k) == Unmasked(m, k)
    ensures Masked(Masked(m, k), k) == Masked(m, k)
  {
  }

  /** Unmasking after masking gives the byte unmasking alone gives, and
      the other way round. */
  lemma MaskLastWins(m: bv8, k: int)
    requires 0 <= k < 32
    ensures Unmasked(Masked(m, k), k) == Unmasked(m, k)
    ensures Masked(Unmasked(m, k), k) == Masked(m, k)
  {
  }

  class Controllers {
    /** Mask shadow of the master controller (IRQs 0-7). */
    var masterMask: bv8
    /** Mask shadow of the slave controller (IRQs 8-15). */
    var slaveMask: bv8
    /** Every byte sent to a controller port, oldest first. */
    var sent: seq<PortWrite>

    /** The masks as the zero-initialised globals start. */
    constructor ()
      ensures masterMask == 0 && slaveMask == 0 && sent == []
    {
      masterMask := 0;
      slaveMask := 0;
      sent := [];
    }

    /** Line irq (0-15) is unmasked in its controller's shadow. */
    predicate Enabled(irq: int)
      requires 0 <= irq < 16
      reads this
    {
      if irq < 8 then !Bit(masterMask, irq) else !Bit(slaveMask, irq - 8)
    }

    /** enable_irq: clear the line's mask bit and send the new mask to that
        controller's data port.  The shift is defined for irq < 40. */
    method EnableIrq(irq: u32)
      requires irq < 40
      modifies this
      ensures irq < 8 ==> masterMask == Unmasked(old(masterMask), irq) && slaveMask == old(slaveMask)
      ensures irq < 8 ==> sent == old(sent) + [MaskByte(MasterData, masterMask)]
      ensures irq >= 8 ==> slaveMask == Unmasked(old(slaveMask), irq - 8) && masterMask == old(masterMask)
      ensures irq >= 8 ==> sent == old(sent) + [MaskByte(SlaveData, slaveMask)]
      ensures irq < 16 ==> Enabled(irq)
      ensures forall j :: 0 <= j < 16 && j != irq ==> Enabled(j) == old(Enabled(j))
    {
      var value: bv8;
      var port: Port;
      if irq < 8 {
        value := Unmasked(masterMask, irq);
        masterMask := value;
        port := MasterData;
      } else {
        var k := irq - 8;
        value := Unmasked(slaveMask, k);
        slaveMask := value;
        port := SlaveData;
      }
      sent := sent + [MaskByte(port, value)];
    }

    /** disable_irq: set the line's mask bit and send the new mask to that
        controller's data port. */
    method DisableIrq(irq: u32)
      requires irq < 40
      modifies this
      ensures irq < 8 ==> masterMask == Masked(old(masterMask), irq) && slaveMask == old(slaveMask)
      ensures irq < 8 ==> sent == old(sent) + [MaskByte(MasterData, masterMask)]
      ensures irq >= 8 ==> slaveMask == Masked(old(slaveMask), irq - 8) && masterMask == old(masterMask)
      ensures irq >= 8 ==> sent == old(sent) + [MaskByte(SlaveData, slaveMask)]
      ensures irq < 16 ==> !Enabled(irq)
      ensures forall j :: 0 <= j < 16 && j != irq ==> Enabled(j) == old(Enabled(j))
    {
      var value: bv8;
      var port: Port;
      if irq < 8 {
        value := Masked(masterMask, irq);
        masterMask := value;
        port := MasterData;
      } else {
        var k := irq - 8;
        value := Masked(slaveMask, k);
        slaveMask := value;
        port := SlaveData;
      }
      sent := sent + [MaskByte(port, value)];
    }

    /** send_eoi: end of interrupt to the slave first for lines 8 and up,
        then always to the master; the masks are untouched. */
    method SendEoi(irq: u32)
      modifies this
      ensures masterMask == old(masterMask) && slaveMask == old(slaveMask)
      ensures |sent| == |old(sent)| + (if irq >= 8 then 2 else 1) && sent[..|old(sent)|] == old(sent)
      ensures sent[|sent| - 1] == Eoi(MasterCommand)
      ensures irq >= 8 ==> sent[|old(sent)|] == Eoi(SlaveCommand)
    {
      if irq >= 8 {
        sent := sent + [Eoi(SlaveCommand)];
      }
      sent := sent + [Eoi(MasterCommand)];
    }
  }
}
