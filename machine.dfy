/**
 * Machine-level vocabulary shared by every part of the kernel model:
 * bytes, 32-bit words, little-endian byte extraction, C-string views of
 * byte sequences, and the Option type used for NULL pointers and absent
 * lookups.
 */
module Machine {

  type byte = x: int | 0 <= x < 256
  type u32 = x: int | 0 <= x < 0x1_0000_0000

  const FOUR_KB: int := 0x1000
  const EIGHT_KB: int := 0x2000
  const FOUR_MB: int := 0x40_0000
  const EIGHT_MB: int := 0x80_0000

  datatype Option<T> = None | Some(value: T)

  function Min(a: int, b: int): int { if a <= b then a else b }
  function Max(a: int, b: int): int { if a <= b then b else a }

  /** Byte k (0 = least significant) of a 32-bit word, as a little-endian
      load from memory sees it. */
  function ByteOf(w: u32, k: int): (b: byte)
    requires 0 <= k < 4
    ensures k == 0 ==> b == w % 0x100
  {
    if k == 0 then w % 0x100
    else if k == 1 then (w / 0x100) % 0x100
    else if k == 2 then (w / 0x1_0000) % 0x100
    else w / 0x100_0000
  }

  /** The 32-bit word a little-endian load of four bytes yields. */
  function WordOf(b0: byte, b1: byte, b2: byte, b3: byte): (w: u32)
  {
    b0 + b1 * 0x100 + b2 * 0x1_0000 + b3 * 0x100_0000
  }

  lemma {:induction false} WordOfBytes(w: u32)
    ensures WordOf(ByteOf(w, 0), ByteOf(w, 1), ByteOf(w, 2), ByteOf(w, 3)) == w
  {
    var b0, b1, b2, b3 := w % 0x100, (w / 0x100) % 0x100, (w / 0x1_0000) % 0x100, w / 0x100_0000;
    assert w / 0x100 == b1 + (w / 0x1_0000) * 0x100;
    assert w / 0x1_0000 == b2 + b3 * 0x100;
  }

  /** Unsigned 32-bit addition with wrap-around, as C's uint32_t "+=" behaves
      when a signed int32 is added to it. */
  function AddWrap(a: u32, d: int): (r: u32)
    ensures 0 <= a + d < 0x1_0000_0000 ==> r == a + d
    ensures a + d < 0 && a + d >= -0x1_0000_0000 ==> r == a + d + 0x1_0000_0000
  {
    (a + d) % 0x1_0000_0000
  }

  /** A value an int32_t can hold. */
  predicate IsInt32(x: int) { -0x8000_0000 <= x < 0x8000_0000 }

  /** The int32_t a uint32_t converts to (two's complement). */
  function ToInt32(w: u32): (x: int)
    ensures IsInt32(x) && (x == w || x == w - 0x1_0000_0000)
    ensures w < 0x8000_0000 <==> x == w
  {
    if w < 0x8000_0000 then w else w - 0x1_0000_0000
  }

  /** The uint32_t an int32_t converts to. */
  function ToU32(x: int): (w: u32)
    requires IsInt32(x)
    ensures x >= 0 ==> w == x
    ensures x < 0 ==> w == x + 0x1_0000_0000
  {
    if x >= 0 then x else x + 0x1_0000_0000
  }

  /** Index of the first zero byte of s, or |s| when there is none: what
      strlen sees when the sequence is followed by a terminator. */
  function CLen(s: seq<byte>): (n: nat)
    ensures n <= |s|
    ensures forall i :: 0 <= i < n ==> s[i] != 0
    ensures n < |s| ==> s[n] == 0
  {
    if |s| == 0 || s[0] == 0 then 0 else 1 + CLen(s[1..])
  }

  /** The C string stored at the front of s. */
  function CStr(s: seq<byte>): (c: seq<byte>)
    ensures |c| <= |s| && c == s[..|c|]
    ensures forall i :: 0 <= i < |c| ==> c[i] != 0
  {
    s[..CLen(s)]
  }

  /** A sequence whose bytes are all non-zero is its own C string. */
  lemma {:induction false} CStrOfNonZero(s: seq<byte>)
    requires forall i :: 0 <= i < |s| ==> s[i] != 0
    ensures CStr(s) == s
  {
    if |s| > 0 {
      CStrOfNonZero(s[1..]);
    }
  }

  /** n zero bytes. */
  function Zeros(n: nat): (s: seq<byte>)
    ensures |s| == n && forall k :: 0 <= k < n ==> s[k] == 0
  {
    if n == 0 then [] else [0] + Zeros(n - 1)
  }
}
