/**
 * The real-time-clock driver: register A's rate select (RS, bits 0-3) of
 * the MC146818, the rtc_interrupt flag, and the descriptor the RTC claims
 * when opened.  Under the MC146818 periodic-interrupt rule with a
 * 32.768 kHz time base, rate select RS in 3..15 gives 32768 >> (RS - 1)
 * interrupts a second.
 */
module Rtc {
  import opened Machine
  import opened Pcb
  import opened Pic

  /** The rate select rtc_open writes: 15, that is 2 Hz. */
  const INIT_RATE: int := 0x0F
  /** rtc_write's rate select is 16 - log2(rate). */
  const MAX_RATE: int := 16
  /** Flags rtc_open stores: in use, kind 0, traversal index 1. */
  const RTC_FILE_FLAGS: u32 := 0x101

  function Pow2(k: nat): (p: nat)
    ensures p >= 1
  {
    if k == 0 then 1 else 2 * Pow2(k - 1)
  }

  /** Interrupts per second for a rate select value, per the MC146818
      table: 0 none, 1 and 2 are 256 and 128 Hz, 3..15 give 32768 >> (RS - 1), with 32768 = 2^15. */
  function Frequency(rs: int): int
    requires 0 <= rs < 16
  {
    if rs == 0 then 0
    else if rs == 1 then 256
    else if rs == 2 then 128
    else Shr(Pow2(15), rs - 1)
  }

  /** x >> n. */
  function Shr(x: nat, n: nat): nat
  {
    if n == 0 then x else Shr(x / 2, n - 1)
  }

  /** C's & on non-negative integers, bit by bit from the lowest. */
  function And(a: nat, b: nat): nat
  {
    if a == 0 || b == 0 then 0
    else 2 * And(a / 2, b / 2) + (if a % 2 == 1 && b % 2 == 1 then 1 else 0)
  }

  /** n is 2^k for some k. */
  predicate IsPow2(n: nat)
  {
    n == 1 || (n >= 2 && n % 2 == 0 && IsPow2(n / 2))
  }

  /** How many times "n >>= 1" runs before n is 0: the bit length of n. */
  function Halvings(n: nat): nat
  {
    if n == 0 then 0 else 1 + Halvings(n / 2)
  }

  lemma {:induction false} AndSelf(n: nat)
    ensures And(n, n) == n
  {
    if n > 0 {
      AndSelf(n / 2);
    }
  }

  /** The test "n & (n - 1) == 0" holds for a positive n exactly when n is
      a power of two. */
  lemma {:induction false} AndPredecessor(n: nat)
    requires n >= 1
    ensures And(n, n - 1) == 0 <==> IsPow2(n)
  {
    if n == 1 {
    } else if n % 2 == 1 {
      AndSelf(n / 2);
      assert And(n, n - 1) == 2 * (n / 2);
    } else {
      AndPredecessor(n / 2);
      assert (n - 1) / 2 == n / 2 - 1;
      assert And(n, n - 1) == 2 * And(n / 2, n / 2 - 1);
    }
  }

  /** rtc_write's test "(r & (r - 1)) != 0" on a uint32_t holding a byte:
      it passes for 0 (whose predecessor wraps to 0xFFFFFFFF) and for the
      powers of two. */
  lemma {:induction false} PowerTest(rate: byte)
    ensures And(rate, (rate - 1) % 0x1_0000_0000) == 0 <==> rate == 0 || IsPow2(rate)
  {
    if rate != 0 {
      AndPredecessor(rate);
    }
  }

  /** For a power of two, the shift count rtc_write computes is its log2. */
  lemma {:induction false} Log2OfPow2(n: nat)
    requires IsPow2(n)
    ensures Pow2(Halvings(n / 2)) == n
  {
    if n > 1 {
      Log2OfPow2(n / 2);
    }
  }

  lemma {:induction false} Pow2Grows(k: nat)
    requires k >= 8
    ensures Pow2(k) >= 256
  {
    if k > 8 {
      Pow2Grows(k - 1);
    }
  }

  /** The rates rtc_write accepts: after the power-of-two test (which a 0
      also passes) and the log2 bound 2..10, a byte is one of 4..128. */
  lemma {:induction false} AcceptedRates(rate: byte)
    ensures ((rate == 0 || IsPow2(rate)) && 2 <= Halvings(rate / 2) <= 10) <==>
            rate in {4, 8, 16, 32, 64, 128}
  {
    if rate != 0 && IsPow2(rate) {
      var k := Halvings(rate / 2);
      Log2OfPow2(rate);
      if k >= 8 {
        Pow2Grows(k);
      }
      assert k < 8;
      if k == 0 {
      } else if k == 1 {
      } else if k == 2 {
      } else if k == 3 {
      } else if k == 4 {
      } else if k == 5 {
      } else if k == 6 {
      } else {
      }
    }
  }

  /** Shifting 2^(a+b) right by b leaves 2^a. */
  lemma {:induction false} ShrPow2(a: nat, b: nat)
    ensures Shr(Pow2(a + b), b) == Pow2(a)
  {
    if b > 0 {
      assert Pow2(a + b) / 2 == Pow2(a + (b - 1));
      ShrPow2(a, b - 1);
    }
  }

  /** Rate select 16 - k makes the clock interrupt 2^k times a second. */
  lemma {:induction false} FrequencyOfLog(k: nat)
    requires 1 <= k <= 12
    ensures Frequency(16 - k) == Pow2(k)
  {
    ShrPow2(k, 15 - k);
  }

  /** The loop "while (n >>= 1) base++" of rtc_write: it counts the shifts
      after the first that leave n nonzero. */
  method ShiftCount(n0: nat) returns (base: nat)
    ensures base == Halvings(n0 / 2)
  {
    var n: nat := n0 / 2;
    base := 0;
    while n != 0
      invariant base + Halvings(n) == Halvings(n0 / 2)
      decreases n
    {
      base := base + 1;
      n := n / 2;
    }
  }

  /** The rate select rtc_write stores for a rate byte: 16 - log2(rate)
      when the byte passes the power-of-two test and its log2 is 2..10;
      None when rtc_write returns -1. */
  function RateSelectFor(rate: byte): Option<int>
  {
    var base := Halvings(rate / 2);
    if And(rate, (rate - 1) % 0x1_0000_0000) != 0 || base < 2 || base > 10 then None
    else Some(MAX_RATE - base)
  }

  /** rtc_write accepts exactly the rates 4, 8, ..., 128, and the rate
      select it stores makes the clock interrupt `rate` times a second. */
  lemma {:induction false} RateSelectGivesRate(rate: byte)
    ensures RateSelectFor(rate).Some? <==> rate in {4, 8, 16, 32, 64, 128}
    ensures RateSelectFor(rate).Some? ==>
      0 <= RateSelectFor(rate).value < 16 && Frequency(RateSelectFor(rate).value) == rate
  {
    PowerTest(rate);
    AcceptedRates(rate);
    if RateSelectFor(rate).Some? {
      Log2OfPow2(rate);
      FrequencyOfLog(Halvings(rate / 2));
    }
  }

  /** Register A with its high nibble kept and its rate select set to rs:
      "(prev & 0xF0) | (rs & 0x0F)". */
  function WithRateSelect(prev: byte, rs: int): (a: byte)
    ensures a / 16 == prev / 16 && a % 16 == rs % 16
  {
    (prev / 16) * 16 + rs % 16
  }

  class RtcDevice {
    /** The clock's register A. */
    var regA: byte
    /** Set by the interrupt handler, cleared by open and by read. */
    var interrupt: int

    constructor (regA: byte)
      ensures this.regA == regA && interrupt == 0
    {
      this.regA := regA;
      interrupt := 0;
    }

    /** rtc_write: set the rate select rtc_write's checks choose for the
        rate byte, or leave the clock as it was and return -1. */
    method RtcWrite(rate: byte) returns (r: int)
      modifies this
      ensures r == 0 <==> RateSelectFor(rate).Some?
      ensures r == 0 || r == -1
      ensures regA == if r == 0 then WithRateSelect(old(regA), RateSelectFor(rate).value) else old(regA)
      ensures interrupt == old(interrupt)
    {
      var inputRate: nat := rate;
      var inputBase: nat;
      if And(inputRate, (inputRate - 1) % 0x1_0000_0000) != 0 {
        return -1;
      }
      inputBase := ShiftCount(inputRate);
      if inputBase < 2 || inputBase > 10 {
        return -1;
      }
      regA := WithRateSelect(regA, MAX_RATE - inputBase);
      r := 0;
    }

    /** rtc_read once the interrupt has arrived: clear the flag, return 0. */
    method RtcRead() returns (r: int)
      modifies this
      ensures r == 0 && interrupt == 0 && regA == old(regA)
    {
      interrupt := 0;
      r := 0;
    }

    /** rtc_open: set 2 Hz, unmask lines 2 and 8, clear the interrupt flag,
        then claim the lowest free slot 2-7 as an RTC descriptor.  With no
        free slot it returns -1 after the clock and the masks have changed. */
    method RtcOpen(pic: Controllers, files: array<FileDesc>) returns (r: int)
      requires files.Length == FD_COUNT
      modifies this, pic, files
      ensures regA == WithRateSelect(old(regA), INIT_RATE) && interrupt == 0
      ensures pic.masterMask == Unmasked(old(pic.masterMask), 2) && pic.slaveMask == Unmasked(old(pic.slaveMask), 0)
      ensures pic.sent == old(pic.sent) + [MaskByte(MasterData, pic.masterMask), MaskByte(SlaveData, pic.slaveMask)]
      ensures r == 0 <==> LowestFree(old(files[..])) != -1
      ensures r == 0 || r == -1
      ensures r != 0 ==> files[..] == old(files[..])
      ensures r == 0 ==> var i := LowestFree(old(files[..]));
        files[..] == old(files[..])[i := old(files[i]).(inode := 0, filePos := 0, flags := RTC_FILE_FLAGS)]
      ensures r == 0 ==> var i := LowestFree(old(files[..]));
        InUse(files[i].flags) && KindOf(files[i].flags) == RTC_FILE
    {
      regA := WithRateSelect(regA, INIT_RATE);
      pic.EnableIrq(2);
      pic.EnableIrq(8);
      interrupt := 0;
      var i := FindFree(files);
      if i == -1 {
        return -1;
      }
      RtcFlagsFields();
      files[i] := files[i].(inode := 0, filePos := 0, flags := RTC_FILE_FLAGS);
      r := 0;
    }
  }

  /** The rate select rtc_open stores runs the clock at 2 Hz. */
  lemma {:induction false} InitRateIs2Hz()
    ensures Frequency(INIT_RATE) == 2
  {
    FrequencyOfLog(1);
  }

  /** The fields of the flags word rtc_open stores. */
  lemma RtcFlagsFields()
    ensures InUse(RTC_FILE_FLAGS) && KindOf(RTC_FILE_FLAGS) == RTC_FILE && TraversalIdx(RTC_FILE_FLAGS) == 1
  {
  }

  /** rtc_close: release an RTC slot among 2-7. */
  method RtcClose(fd: int, files: array<FileDesc>) returns (r: int)
    requires files.Length == FD_COUNT
    modifies files
    ensures r == 0 || r == -1
    ensures r == 0 <==> 2 <= fd < FD_COUNT && KindOf(old(files[fd].flags)) == RTC_FILE && InUse(old(files[fd].flags))
    ensures r != 0 ==> files[..] == old(files[..])
    ensures r == 0 ==> files[..] == old(files[..])[fd := old(files[fd]).(flags := 0)]
    ensures r == 0 ==> 2 <= LowestFree(files[..]) <= fd
  {
    if fd <= 1 || fd >= FD_COUNT {
      return -1;
    }
    if KindOf(files[fd].flags) != RTC_FILE {
      return -1;
    }
    if !InUse(files[fd].flags) {
      return -1;
    }
    files[fd] := files[fd].(flags := 0);
    r := 0;
  }
}
