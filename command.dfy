/**
 * The command line a program is started with.  execute takes the program
 * name from the front of the line (up to 33 bytes, ending at a space, a
 * newline or the terminator) and stores the whole line in the new PCB;
 * getargs later hands the program the text after the first space.
 */
module Command {
  import opened Machine

  /** Length of execute's file_name scan. */
  const NAME_SCAN: int := 33
  /** Size of a PCB's input buffer. */
  const INPUT_SIZE: int := 1024
  const SPACE: byte := 0x20
  const NEWLINE: byte := 0x0A

  /** Byte i of a C string held as a sequence: past the end it reads as the
      terminator. */
  function At(s: seq<byte>, i: int): byte
  {
    if 0 <= i < |s| then s[i] else 0
  }

  /** The bytes that end the program name. */
  predicate EndsName(b: byte)
  {
    b == SPACE || b == 0 || b == NEWLINE
  }

  /** The name bytes execute copies from position i on. */
  function NameFrom(c: seq<byte>, i: int): (t: seq<byte>)
    requires 0 <= i <= NAME_SCAN
    decreases NAME_SCAN - i
    ensures |t| <= NAME_SCAN - i
    ensures forall k :: 0 <= k < |t| ==> t[k] == At(c, i + k) && !EndsName(t[k])
    ensures i + |t| < NAME_SCAN ==> EndsName(At(c, i + |t|))
  {
    if i == NAME_SCAN || EndsName(At(c, i)) then []
    else [At(c, i)] + NameFrom(c, i + 1)
  }

  /** The program name of a command line: its longest prefix of at most 33
      bytes free of spaces, newlines and terminators. */
  function ProgramName(c: seq<byte>): (t: seq<byte>)
    ensures |t| <= NAME_SCAN
    ensures forall k :: 0 <= k < |t| ==> t[k] == At(c, k) && !EndsName(t[k])
    ensures |t| < NAME_SCAN ==> EndsName(At(c, |t|))
  {
    NameFrom(c, 0)
  }

  /** The program name is the only sequence of at most 33 bytes that
      matches the line byte for byte, holds no space, newline or
      terminator, and (when shorter than 33) stops at one. */
  lemma {:induction false} NameUnique(c: seq<byte>, t: seq<byte>)
    requires |t| <= NAME_SCAN
    requires forall k :: 0 <= k < |t| ==> t[k] == At(c, k) && !EndsName(t[k])
    requires |t| < NAME_SCAN ==> EndsName(At(c, |t|))
    ensures t == ProgramName(c)
  {
    var p := ProgramName(c);
    NoStopBefore(c, p, |t|);
    NoStopBefore(c, t, |p|);
    assert |t| == |p|;
    assert forall k :: 0 <= k < |t| ==> t[k] == p[k];
  }

  /** A name that matches the line byte for byte does not stop inside
      itself. */
  lemma NoStopBefore(c: seq<byte>, s: seq<byte>, n: nat)
    requires forall k :: 0 <= k < |s| ==> s[k] == At(c, k) && !EndsName(s[k])
    ensures n < |s| ==> !EndsName(At(c, n))
  {
    if n < |s| {
      assert s[n] == At(c, n);
    }
  }

  /** execute's scan into file_name, with the terminator it stores after
      the name. */
  method ParseName(command: seq<byte>) returns (name: seq<byte>)
    ensures name == ProgramName(command) + [0]
  {
    var idx := 0;
    name := [];
    while idx < NAME_SCAN
      invariant 0 <= idx <= NAME_SCAN && |name| == idx
      invariant forall k :: 0 <= k < idx ==> name[k] == At(command, k) && !EndsName(name[k])
    {
      var b := if idx < |command| then command[idx] else 0;
      if EndsName(b) {
        break;
      }
      name := name + [b];
      idx := idx + 1;
    }
    NameUnique(command, name);
    name := name + [0];
  }

  /** A name of at most 32 ordinary bytes followed by a space, a newline or
      the end of the line is exactly what execute looks up. */
  lemma {:induction false} NameOfCommand(name: seq<byte>, rest: seq<byte>)
    requires |name| < NAME_SCAN
    requires forall k :: 0 <= k < |name| ==> !EndsName(name[k])
    requires rest == [] || EndsName(rest[0])
    ensures ProgramName(name + rest) == name
  {
    var c := name + rest;
    assert forall k :: 0 <= k < |name| ==> At(c, k) == name[k];
    NameUnique(c, name);
  }

  /** The position of the first space in a line that has one. */
  function SpaceIndex(s: seq<byte>): (k: nat)
    requires SPACE in s
    ensures k < |s| && s[k] == SPACE
    ensures forall j :: 0 <= j < k ==> s[j] != SPACE
  {
    if s[0] == SPACE then 0 else 1 + SpaceIndex(s[1..])
  }

  /** Where getargs starts copying: just after the first space. */
  function ArgStart(input: seq<byte>): (k: nat)
    requires SPACE in input
    ensures 0 < k <= |input|
  {
    SpaceIndex(input) + 1
  }

  /** The line getargs walks: the stored C string and its terminator. */
  function Line(input: seq<byte>): seq<byte>
  {
    input + [0]
  }

  /** "nbytes - in_idx" on 32-bit unsigned words, with in_idx just after
      the first space: a buffer shorter than the skipped name wraps to a
      huge value. */
  function ArgLimit(input: seq<byte>, nbytes: int): (l: int)
    requires SPACE in input && IsInt32(nbytes)
    ensures 0 <= l < 0x1_0000_0000
  {
    (ToU32(nbytes) - ArgStart(input)) % 0x1_0000_0000
  }

  /** How many bytes getargs' loop as written may copy.  The test
      "idx < nbytes - in_idx" is re-evaluated with in_idx advancing
      together with idx, so it reads idx < ArgLimit - idx and the copy
      stops after half the room, rounded up. */
  function HalfLimit(input: seq<byte>, nbytes: int): (h: int)
    requires SPACE in input && IsInt32(nbytes)
    ensures 0 <= h && (h == 0 <==> ArgLimit(input, nbytes) == 0)
  {
    (ArgLimit(input, nbytes) + 1) / 2
  }

  /** The bytes getargs' loop as written stores: the line after the first
      space, with its terminator, cut after HalfLimit bytes. */
  function ArgBytesAsWritten(input: seq<byte>, nbytes: int): (a: seq<byte>)
    requires SPACE in input && IsInt32(nbytes)
    ensures |a| == Min(HalfLimit(input, nbytes), |input| - ArgStart(input) + 1)
  {
    var k := ArgStart(input);
    Line(input)[k..k + Min(HalfLimit(input, nbytes), |input| - k + 1)]
  }

  /** Subtracting a small d from a 32-bit difference does not wrap. */
  lemma WordMinus(a: int, d: int)
    requires 0 <= d <= a % 0x1_0000_0000
    ensures (a - d) % 0x1_0000_0000 == a % 0x1_0000_0000 - d
  {
    var m := 0x1_0000_0000;
    assert a - d == (a / m) * m + (a % m - d);
  }

  /** The loop test as written, "idx < nbytes - in_idx" with in_idx at
      the argument start plus idx, holds exactly below the halved room. */
  lemma HalvedTest(input: seq<byte>, nbytes: int, idx: int)
    requires SPACE in input && IsInt32(nbytes)
    requires 0 <= idx <= HalfLimit(input, nbytes)
    ensures idx < (ToU32(nbytes) - (ArgStart(input) + idx)) % 0x1_0000_0000 <==> idx < HalfLimit(input, nbytes)
  {
    WordMinus(ToU32(nbytes) - ArgStart(input), idx);
  }

  /** getargs' first loop: step past the first space of the line. */
  method SkipName(input: seq<byte>) returns (inIdx: int)
    requires SPACE in input
    ensures inIdx == ArgStart(input)
  {
    inIdx := 0;
    while input[inIdx] != SPACE
      invariant 0 <= inIdx <= SpaceIndex(input)
      decreases SpaceIndex(input) - inIdx
    {
      inIdx := inIdx + 1;
    }
    inIdx := inIdx + 1;
  }

  /** getargs' two loops exactly as written, on a line without zero bytes
      before its terminator.  idx ends at 0, the -1 case, when the halved
      room is 0 or the line ends right after the space. */
  method CopyArgsAsWritten(input: seq<byte>, nbytes: int) returns (stored: seq<byte>, idx: int)
    requires SPACE in input && IsInt32(nbytes)
    requires forall i :: 0 <= i < |input| ==> input[i] != 0
    ensures stored == ArgBytesAsWritten(input, nbytes)
    ensures idx == 0 <==> HalfLimit(input, nbytes) == 0 || ArgStart(input) == |input|
  {
    var line := Line(input);
    var inIdx := SkipName(input);
    ghost var k := ArgStart(input);
    idx := 0;
    stored := [];
    while (HalvedTest(input, nbytes, idx); idx < (ToU32(nbytes) - inIdx) % 0x1_0000_0000)
      invariant inIdx == k + idx && 0 <= idx <= HalfLimit(input, nbytes) && idx <= |input| - k
      invariant stored == line[k..k + idx]
      decreases HalfLimit(input, nbytes) - idx
    {
      stored := stored + [line[inIdx]];
      if line[inIdx] == 0 {
        break;
      }
      idx := idx + 1;
      inIdx := inIdx + 1;
    }
  }

  /** For the line "name args", the argument bytes start just after the
      name and its space. */
  lemma {:induction false} CommandArgStart(name: seq<byte>, args: seq<byte>)
    requires SPACE !in name
    ensures var line := name + [SPACE] + args;
      SPACE in line && ArgStart(line) == |name| + 1 && Line(line)[|name| + 1..] == args + [0]
  {
    var line := name + [SPACE] + args;
    assert line[|name|] == SPACE;
    assert forall j :: 0 <= j < |name| ==> line[j] == name[j];
    assert SpaceIndex(line) == |name|;
    assert Line(line)[|name| + 1..] == args + [0];
  }

  /** As written, getargs for "name args" with an nbytes-byte buffer
      (larger than the name) stores only the first (nbytes - |name|) / 2
      bytes of the arguments and their terminator. */
  lemma {:induction false} ArgsOfCommandAsWritten(name: seq<byte>, args: seq<byte>, nbytes: int)
    requires SPACE !in name
    requires IsInt32(nbytes) && nbytes > |name|
    ensures var line := name + [SPACE] + args;
      ArgBytesAsWritten(line, nbytes) == (args + [0])[..Min((nbytes - |name|) / 2, |args| + 1)]
  {
    CommandArgStart(name, args);
  }

  /** "cat" and "frame0.txt". */
  const Cat: seq<byte> := [0x63, 0x61, 0x74]
  const Frame0: seq<byte> := [0x66, 0x72, 0x61, 0x6D, 0x65, 0x30, 0x2E, 0x74, 0x78, 0x74]

  /** getargs(buf, 12) after "cat frame0.txt": as written it stores "fram"
      with no terminator (and reports success), though the whole argument
      and its terminator fit in the 12 bytes. */
  lemma GetargsAsWrittenTruncates()
    ensures var line := Cat + [SPACE] + Frame0;
      && SPACE in line
      && ArgBytesAsWritten(line, 12) == Frame0[..4] && 0 !in ArgBytesAsWritten(line, 12)
      && !ArgsFail(line, 12) && ArgBytes(line, 12) == Frame0 + [0]
  {
    ArgsOfCommandAsWritten(Cat, Frame0, 12);
    ArgsOfCommand(Cat, Frame0, 12);
    assert (Frame0 + [0])[..4] == Frame0[..4];
  }

  /** The bytes getargs evidently means to store: the line after the first
      space, with its terminator, at most nbytes of them (the size of the
      caller's buffer, compared as in "idx < nbytes" on unsigned words). */
  function ArgBytes(input: seq<byte>, nbytes: int): (a: seq<byte>)
    requires SPACE in input && IsInt32(nbytes)
    ensures |a| == Min(ToU32(nbytes), |input| - ArgStart(input) + 1)
  {
    var k := ArgStart(input);
    Line(input)[k..k + Min(ToU32(nbytes), |input| - k + 1)]
  }

  /** getargs answers -1 when it stored nothing but (at most) a
      terminator: no room, or the line ends at its first space. */
  predicate ArgsFail(input: seq<byte>, nbytes: int)
    requires SPACE in input && IsInt32(nbytes)
  {
    ToU32(nbytes) == 0 || ArgStart(input) == |input|
  }

  /** The copy loop of getargs with the bound it evidently means: the idx
      it stops at, and what it stored in buf. */
  method CopyArgs(input: seq<byte>, nbytes: int, buf: array<byte>) returns (idx: int)
    requires SPACE in input && IsInt32(nbytes)
    requires forall i :: 0 <= i < |input| ==> input[i] != 0
    requires buf.Length >= |ArgBytes(input, nbytes)|
    modifies buf
    ensures idx == 0 <==> ArgsFail(input, nbytes)
    ensures var a := ArgBytes(input, nbytes);
      buf[..|a|] == a && buf[|a|..] == old(buf[|a|..])
  {
    var line := Line(input);
    var inIdx := SkipName(input);
    ghost var k := ArgStart(input);
    idx := 0;
    while idx < ToU32(nbytes)
      invariant inIdx == k + idx && 0 <= idx <= ToU32(nbytes) && idx <= |input| - k
      invariant forall j :: 0 <= j < idx ==> buf[j] == line[k + j]
      invariant forall j :: idx <= j < buf.Length ==> buf[j] == old(buf[j])
    {
      buf[idx] := line[inIdx];
      if line[inIdx] == 0 {
        assert forall j :: 0 <= j <= idx ==> buf[j] == line[k + j];
        break;
      }
      idx := idx + 1;
      inIdx := inIdx + 1;
    }
  }

  /** For the line "name args" that execute stored, getargs with an
      n-byte buffer hands back the first n bytes of the arguments and
      their terminator; with room for all of them it is the arguments,
      terminated; it fails exactly when there is no room or there are no
      arguments. */
  lemma {:induction false} ArgsOfCommand(name: seq<byte>, args: seq<byte>, nbytes: int)
    requires SPACE !in name
    requires IsInt32(nbytes) && nbytes >= 0
    ensures var line := name + [SPACE] + args;
      && ArgBytes(line, nbytes) == (args + [0])[..Min(nbytes, |args| + 1)]
      && (nbytes >= |args| + 1 ==> ArgBytes(line, nbytes) == args + [0])
      && (ArgsFail(line, nbytes) <==> nbytes == 0 || args == [])
  {
    CommandArgStart(name, args);
  }
}
