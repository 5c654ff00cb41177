/**
 * The keyboard driver and the terminal operations: the 128-byte line
 * buffer key_buf with its index, the modifier state (shift, caps lock,
 * ctrl) that picks one of three scancode tables, the enter flag a
 * terminal read waits for, and what is sent to the screen.
 *
 * Scancodes below 0x80 are presses, 0x80 and up releases.  The scancode
 * tables are a parameter; the handler relies only on '\b' being the symbol
 * of scancode 0x0E and '\n' that of 0x1C, in every table.
 */
module Keyboard {
  import opened Machine
  import opened Pcb
  import opened Pic

  const KEY_BUF_SIZE: int := 128

  const LSHIFT_PRESSED: int := 0x2A
  const LSHIFT_RELEASED: int := 0xAA
  const RSHIFT_PRESSED: int := 0x36
  const RSHIFT_RELEASED: int := 0xB6
  const CTRL_PRESSED: int := 0x1D
  const CTRL_RELEASED: int := 0x9D
  const CAPS_PRESSED: int := 0x3A
  const BACKSPACE: int := 0x0E
  const ENTER: int := 0x1C

  const BS_SYMBOL: byte := 8
  const NL_SYMBOL: byte := 10
  const LOWER_L: byte := 0x6C
  const UPPER_L: byte := 0x4C

  const STDIN: int := 0
  const STDOUT: int := 1

  /** What the driver sends to the screen: a character, the erasure of a
      character, or a cleared screen. */
  datatype Echo = Put(ch: byte) | Erase(ch: byte) | ClearScreen

  /** key_array: three tables (plain, shifted, caps lock) of 128 symbols;
      '\b' is the symbol of 0x0E and '\n' that of 0x1C, and of nothing else. */
  ghost predicate KeyMapShape(m: seq<seq<byte>>)
  {
    |m| == 3 && (forall d :: 0 <= d < 3 ==> |m[d]| == KEY_BUF_SIZE) &&
    forall d, c :: 0 <= d < 3 && 0 <= c < KEY_BUF_SIZE ==>
      (m[d][c] == BS_SYMBOL <==> c == BACKSPACE) && (m[d][c] == NL_SYMBOL <==> c == ENTER)
  }

  /** The driver's globals: key_buf, key_buf_index, enter_flag, shift_mode,
      caps_mode, ctrl_mode, dict, and the screen output so far. */
  datatype KeyState = KeyState(buf: seq<byte>, index: int, enter: int, shift: int, caps: int,
                               ctrl: int, dict: int, screen: seq<Echo>)

  /** C's ~ on an int. */
  function BitNot(x: int): int { -x - 1 }

  /** The table the handler selects: shift and caps together give 0, shift
      alone 1, caps alone 2, neither 0 (tested with C truth values and ~). */
  function DictFor(shift: int, caps: int): int
  {
    if shift != 0 && caps != 0 then 0
    else if shift != 0 && BitNot(caps) != 0 then 1
    else if BitNot(shift) != 0 && caps != 0 then 2
    else 0
  }

  /** With shift in {0, 1} and caps in {0, ~0}, the table is 1 exactly for
      shift without caps and 2 exactly for caps without shift. */
  lemma DictRule(shift: int, caps: int)
    requires shift == 0 || shift == 1
    requires caps == 0 || caps == -1
    ensures DictFor(shift, caps) == 1 <==> shift == 1 && caps == 0
    ensures DictFor(shift, caps) == 2 <==> shift == 0 && caps == -1
    ensures DictFor(shift, caps) == 0 <==> shift + caps == 0
  {
  }

  /** key_array[dict][input] for a press; a release reads past the table
      row, and that value is never used. */
  function Symbol(m: seq<seq<byte>>, dict: int, input: byte): byte
    requires KeyMapShape(m)
  {
    if 0 <= dict < 3 && input < KEY_BUF_SIZE then m[dict][input] else 0
  }

  /** add_to_buffer: append while the buffer has room. */
  function Appended(s: KeyState, symbol: byte): (t: KeyState)
    requires 0 <= s.index <= |s.buf|
    ensures s.index < |s.buf| ==> t == s.(buf := s.buf[s.index := symbol], index := s.index + 1)
    ensures s.index == |s.buf| ==> t == s
  {
    if s.index < |s.buf| then s.(buf := s.buf[s.index := symbol], index := s.index + 1) else s
  }

  /** process_to_buffer: with ctrl held, only ctrl+L has an effect (it
      clears the screen); otherwise the symbol is echoed and appended while
      there is room. */
  function Processed(s: KeyState, m: seq<seq<byte>>, input: byte): KeyState
    requires KeyMapShape(m) && 0 <= s.index <= |s.buf| == KEY_BUF_SIZE
  {
    var symbol := Symbol(m, s.dict, input);
    if s.ctrl != 0 then
      (if symbol == LOWER_L || symbol == UPPER_L then s.(screen := s.screen + [ClearScreen]) else s)
    else if s.index < KEY_BUF_SIZE then
      Appended(s.(screen := s.screen + [Put(symbol)]), symbol)
    else s
  }

  /** Backspace: erase the last character on the screen, zero its slot and
      lower the index.  The handler as written zeroes the slot at the old
      index instead (BackspaceAsWritten). */
  function Backspace(s: KeyState): KeyState
    requires 0 <= s.index <= |s.buf|
  {
    if s.index > 0 then
      s.(screen := s.screen + [Erase(s.buf[s.index - 1])], buf := s.buf[s.index - 1 := 0], index := s.index - 1)
    else s
  }

  /** The buffer store of the backspace branch as written,
      "key_buf[key_buf_index] = 0" with the old index; None when that slot
      lies past the end of the buffer. */
  function BackspaceAsWritten(buf: seq<byte>, index: int): (r: Option<seq<byte>>)
    requires 0 < index <= |buf|
    ensures r.Some? <==> index < |buf|
    ensures r.Some? ==> |r.value| == |buf| && r.value[index - 1] == buf[index - 1]
  {
    if index < |buf| then Some(buf[index := 0]) else None
  }

  /** With a full buffer, the backspace as written stores one byte past the
      128-byte key buffer, and at any index it leaves the erased character
      in place. */
  lemma BackspaceAsWrittenOverruns(buf: seq<byte>, index: int)
    requires |buf| == KEY_BUF_SIZE && 0 < index <= KEY_BUF_SIZE
    ensures index == KEY_BUF_SIZE ==> BackspaceAsWritten(buf, index).None?
    ensures index < KEY_BUF_SIZE ==> BackspaceAsWritten(buf, index).value[index - 1] == buf[index - 1]
  {
  }

  /** The corrected backspace stays inside the buffer, erases exactly the
      last character and keeps everything before it. */
  lemma BackspaceErasesLast(s: KeyState)
    requires 0 < s.index <= |s.buf| == KEY_BUF_SIZE
    ensures var t := Backspace(s);
      t.index == s.index - 1 && |t.buf| == KEY_BUF_SIZE && t.buf[t.index] == 0 &&
      t.buf[..t.index] == s.buf[..t.index] && t.buf[s.index..] == s.buf[s.index..] &&
      t.screen == s.screen + [Erase(s.buf[s.index - 1])]
  {
  }

  /** The modifier updates of the handler and whether the scancode was a
      modifier key (mode_flag). */
  function Modes(s: KeyState, input: byte): (KeyState, bool)
  {
    var s1 := if input == RSHIFT_PRESSED || input == LSHIFT_PRESSED then s.(shift := 1)
              else if input == RSHIFT_RELEASED || input == LSHIFT_RELEASED then s.(shift := 0)
              else s;
    var s2 := if input == CAPS_PRESSED then s1.(caps := BitNot(s1.caps)) else s1;
    var s3 := if input == CTRL_PRESSED then s2.(ctrl := 1)
              else if input == CTRL_RELEASED then s2.(ctrl := 0)
              else s2;
    var flag := input in {RSHIFT_PRESSED, LSHIFT_PRESSED, RSHIFT_RELEASED, LSHIFT_RELEASED,
                          CAPS_PRESSED, CTRL_PRESSED, CTRL_RELEASED};
    (s3, flag)
  }

  /** key_handler for one scancode: clear the enter flag, update the
      modifiers and the table, then ignore releases and modifier keys,
      handle backspace, or set the enter flag for '\n' and pass the key to
      process_to_buffer.  The symbol tested is looked up before the table
      is recomputed, as in the handler. */
  function KeyStep(s: KeyState, m: seq<seq<byte>>, input: byte): KeyState
    requires KeyMapShape(m) && 0 <= s.index <= |s.buf| == KEY_BUF_SIZE
  {
    var symbol := Symbol(m, s.dict, input);
    var (s1, modeFlag) := Modes(s.(enter := 0), input);
    var s2 := s1.(dict := DictFor(s1.shift, s1.caps));
    if input >= 0x80 || modeFlag then s2
    else if symbol == BS_SYMBOL then Backspace(s2)
    else Processed(if symbol == NL_SYMBOL then s2.(enter := 1) else s2, m, input)
  }

  /** The handler's invariant: the index stays within 0..128 and the
      modifier variables keep their two values each, with the table
      matching them. */
  ghost predicate Sane(s: KeyState)
  {
    |s.buf| == KEY_BUF_SIZE && 0 <= s.index <= KEY_BUF_SIZE &&
    (s.shift == 0 || s.shift == 1) && (s.caps == 0 || s.caps == -1) && (s.ctrl == 0 || s.ctrl == 1) &&
    s.dict == DictFor(s.shift, s.caps) && (s.enter == 0 || s.enter == 1)
  }

  lemma KeyStepSane(s: KeyState, m: seq<seq<byte>>, input: byte)
    requires KeyMapShape(m) && Sane(s)
    ensures Sane(KeyStep(s, m, input))
  {
    var symbol := Symbol(m, s.dict, input);
    var (s1, modeFlag) := Modes(s.(enter := 0), input);
    var s2 := s1.(dict := DictFor(s1.shift, s1.caps));
    ModesSane(s, input);
    if input < 0x80 && !modeFlag {
      if symbol == BS_SYMBOL {
        assert Sane(Backspace(s2));
      } else {
        var s3 := if symbol == NL_SYMBOL then s2.(enter := 1) else s2;
        ProcessedSane(s3, m, input);
      }
    }
  }

  /** The modifier updates keep the modifier variables two-valued. */
  lemma ModesSane(s: KeyState, input: byte)
    requires Sane(s)
    ensures var s1 := Modes(s.(enter := 0), input).0;
      Sane(s1.(dict := DictFor(s1.shift, s1.caps)))
  {
  }

  /** process_to_buffer keeps the index within the buffer. */
  lemma ProcessedSane(s: KeyState, m: seq<seq<byte>>, input: byte)
    requires KeyMapShape(m) && Sane(s)
    ensures Sane(Processed(s, m, input))
  {
  }

  /** Releases and modifier presses never touch the buffer or its index;
      shift and ctrl presses and releases set and clear their modes, and a
      caps press toggles caps between 0 and ~0. */
  lemma ModifierKeys(s: KeyState, m: seq<seq<byte>>, input: byte)
    requires KeyMapShape(m) && Sane(s)
    requires input >= 0x80 || input in {LSHIFT_PRESSED, RSHIFT_PRESSED, CTRL_PRESSED, CAPS_PRESSED}
    ensures var t := KeyStep(s, m, input);
      t.buf == s.buf && t.index == s.index && t.screen == s.screen && t.enter == 0 &&
      (input == LSHIFT_PRESSED || input == RSHIFT_PRESSED ==> t.shift == 1) &&
      (input == LSHIFT_RELEASED || input == RSHIFT_RELEASED ==> t.shift == 0) &&
      (input == CTRL_PRESSED ==> t.ctrl == 1) && (input == CTRL_RELEASED ==> t.ctrl == 0) &&
      (input == CAPS_PRESSED ==> t.caps == -1 - s.caps && t.caps != s.caps)
  {
  }

  /** Every handled scancode clears the enter flag first, and only an Enter
      press sets it again. */
  lemma EnterFlag(s: KeyState, m: seq<seq<byte>>, input: byte)
    requires KeyMapShape(m) && Sane(s)
    ensures KeyStep(s, m, input).enter == (if input == ENTER then 1 else 0)
  {
    if input < 0x80 {
      assert Symbol(m, s.dict, input) == m[s.dict][input];
    }
  }

  /** A Backspace press with characters in the buffer removes the last one;
      with an empty buffer it changes neither the buffer nor the index. */
  lemma BackspaceKey(s: KeyState, m: seq<seq<byte>>)
    requires KeyMapShape(m) && Sane(s)
    ensures var t := KeyStep(s, m, BACKSPACE as byte);
      (s.index == 0 ==> t.buf == s.buf && t.index == 0) &&
      (s.index > 0 ==> t.index == s.index - 1 && t.buf == s.buf[s.index - 1 := 0])
  {
    assert Symbol(m, s.dict, BACKSPACE as byte) == BS_SYMBOL;
  }

  /** Any other press: with ctrl held it never enters the buffer; without
      ctrl its symbol (even a 0 one) is appended while there is room. */
  lemma OtherKeys(s: KeyState, m: seq<seq<byte>>, input: byte)
    requires KeyMapShape(m) && Sane(s)
    requires input < 0x80 && input != BACKSPACE
    requires input !in {LSHIFT_PRESSED, RSHIFT_PRESSED, CTRL_PRESSED, CAPS_PRESSED}
    ensures var t := KeyStep(s, m, input);
      (s.ctrl == 1 ==> t.buf == s.buf && t.index == s.index) &&
      (s.ctrl == 0 && s.index < KEY_BUF_SIZE ==>
        t.buf == s.buf[s.index := m[s.dict][input]] && t.index == s.index + 1) &&
      (s.index == KEY_BUF_SIZE ==> t.buf == s.buf && t.index == s.index)
  {
    assert Symbol(m, s.dict, input) == m[s.dict][input] != BS_SYMBOL;
  }

  /** clear_key_buffer's effect on the state. */
  function Cleared(s: KeyState): (t: KeyState)
    ensures |t.buf| == KEY_BUF_SIZE && t.index == 0 && forall k :: 0 <= k < KEY_BUF_SIZE ==> t.buf[k] == 0
  {
    s.(buf := Zeros(KEY_BUF_SIZE), index := 0)
  }

  /** The state once terminal_read's wait ends: the scancodes in keys are
      handled one by one until the enter flag is set. */
  ghost function Waited(s: KeyState, m: seq<seq<byte>>, keys: seq<byte>): (t: KeyState)
    requires KeyMapShape(m) && Sane(s)
    ensures Sane(t) && (s.enter == 1 || ENTER as byte in keys ==> t.enter == 1)
    decreases |keys|
  {
    if s.enter == 1 || |keys| == 0 then s
    else
      KeyStepSane(s, m, keys[0]);
      Waited(KeyStep(s, m, keys[0]), m, keys[1..])
  }

  /** A wait that starts with the flag clear ends exactly after the first
      Enter press: the line read is what the keys up to and including it
      leave in the buffer. */
  lemma {:induction false} WaitEndsAtFirstEnter(s: KeyState, m: seq<seq<byte>>, keys: seq<byte>, n: nat)
    requires KeyMapShape(m) && Sane(s) && s.enter == 0
    requires n < |keys| && keys[n] == ENTER as byte && ENTER as byte !in keys[..n]
    ensures Sane(Waited(s, m, keys)) && Waited(s, m, keys).enter == 1
    ensures Waited(s, m, keys) == Feed(s, m, keys[..n + 1])
    decreases n
  {
    KeyStepSane(s, m, keys[0]);
    EnterFlag(s, m, keys[0]);
    var t := KeyStep(s, m, keys[0]);
    if n == 0 {
      assert keys[..1] == [keys[0]];
      assert Feed(t, m, []) == t;
    } else {
      assert keys[0] != ENTER as byte by { assert keys[0] == keys[..n][0]; }
      assert keys[1..][..n - 1] == keys[1..n];
      assert keys[..n + 1][1..] == keys[1..][..n];
      WaitEndsAtFirstEnter(t, m, keys[1..], n - 1);
    }
  }

  /** The state after handling every scancode in keys. */
  ghost function Feed(s: KeyState, m: seq<seq<byte>>, keys: seq<byte>): (t: KeyState)
    requires KeyMapShape(m) && Sane(s)
    ensures Sane(t)
    decreases |keys|
  {
    if |keys| == 0 then s
    else
      KeyStepSane(s, m, keys[0]);
      Feed(KeyStep(s, m, keys[0]), m, keys[1..])
  }

  /** The screen output of writing the bytes s. */
  function Puts(s: seq<byte>): (e: seq<Echo>)
    ensures |e| == |s| && forall i :: 0 <= i < |s| ==> e[i] == Put(s[i])
  {
    seq(|s|, i requires 0 <= i < |s| => Put(s[i]))
  }

  class Terminal {
    /** key_array. */
    const keyMap: seq<seq<byte>>
    /** key_buf. */
    const keyBuf: array<byte>
    var keyIndex: int
    var enterFlag: int
    var shiftMode: int
    var capsMode: int
    var ctrlMode: int
    var dict: int
    var screen: seq<Echo>

    ghost function State(): KeyState
      reads this, keyBuf
    {
      KeyState(keyBuf[..], keyIndex, enterFlag, shiftMode, capsMode, ctrlMode, dict, screen)
    }

    ghost predicate Valid()
      reads this, keyBuf
    {
      keyBuf.Length == KEY_BUF_SIZE && KeyMapShape(keyMap) && Sane(State())
    }

    /** The zero-initialised globals. */
    constructor (m: seq<seq<byte>>)
      requires KeyMapShape(m)
      ensures Valid() && fresh(keyBuf) && keyMap == m
      ensures State() == KeyState(Zeros(KEY_BUF_SIZE), 0, 0, 0, 0, 0, 0, [])
    {
      keyMap := m;
      keyBuf := new byte[KEY_BUF_SIZE](_ => 0);
      keyIndex, enterFlag, shiftMode, capsMode, ctrlMode, dict := 0, 0, 0, 0, 0, 0;
      screen := [];
      new;
      assert keyBuf[..] == Zeros(KEY_BUF_SIZE);
    }

    /** key_handler: the handler's effect on the driver state is KeyStep
        (the interrupt-flag and end-of-interrupt steps are not modelled). */
    method KeyHandler(input: byte)
      requires Valid()
      modifies this, keyBuf
      ensures Valid()
      ensures State() == KeyStep(old(State()), keyMap, input)
    {
      ghost var s := State();
      var symbol: byte := if input < KEY_BUF_SIZE then keyMap[dict][input] else 0;
      enterFlag := 0;
      var modeFlag := false;
      if input == RSHIFT_PRESSED || input == LSHIFT_PRESSED {
        shiftMode := 1;
        modeFlag := true;
      } else if input == RSHIFT_RELEASED || input == LSHIFT_RELEASED {
        shiftMode := 0;
        modeFlag := true;
      }
      if input == CAPS_PRESSED {
        capsMode := BitNot(capsMode);
        modeFlag := true;
      }
      if input == CTRL_PRESSED {
        ctrlMode := 1;
        modeFlag := true;
      } else if input == CTRL_RELEASED {
        ctrlMode := 0;
        modeFlag := true;
      }
      dict := DictFor(shiftMode, capsMode);
      assert (State(), modeFlag) == (Modes(s.(enter := 0), input).0.(dict := dict), Modes(s.(enter := 0), input).1);
      if input >= 0x80 || modeFlag {
      } else if symbol == BS_SYMBOL {
        if keyIndex > 0 {
          screen := screen + [Erase(keyBuf[keyIndex - 1])];
          keyBuf[keyIndex - 1] := 0;
          keyIndex := keyIndex - 1;
        }
      } else {
        if symbol == NL_SYMBOL {
          enterFlag := 1;
        }
        ProcessToBuffer(input);
      }
    }

    /** process_to_buffer. */
    method ProcessToBuffer(input: byte)
      requires Valid() && input < 0x80
      modifies this, keyBuf
      ensures Valid()
      ensures State() == Processed(old(State()), keyMap, input)
    {
      var symbol := keyMap[dict][input];
      if ctrlMode != 0 {
        if symbol == LOWER_L || symbol == UPPER_L {
          screen := screen + [ClearScreen];
        }
      } else if keyIndex < KEY_BUF_SIZE {
        screen := screen + [Put(symbol)];
        AddToBuffer(symbol);
      }
    }

    /** add_to_buffer. */
    method AddToBuffer(symbol: byte)
      requires Valid()
      modifies this, keyBuf
      ensures Valid()
      ensures State() == Appended(old(State()), symbol)
    {
      if keyIndex < KEY_BUF_SIZE {
        keyBuf[keyIndex] := symbol;
        keyIndex := keyIndex + 1;
      }
    }

    /** clear_key_buffer: zero all 128 bytes and reset the index. */
    method ClearKeyBuffer()
      requires Valid()
      modifies this, keyBuf
      ensures Valid()
      ensures State() == Cleared(old(State()))
    {
      var i := 0;
      while i < KEY_BUF_SIZE
        invariant 0 <= i <= KEY_BUF_SIZE
        invariant forall k :: 0 <= k < i ==> keyBuf[k] == 0
        invariant keyIndex == old(keyIndex) && enterFlag == old(enterFlag) && screen == old(screen)
        invariant shiftMode == old(shiftMode) && capsMode == old(capsMode) && ctrlMode == old(ctrlMode) && dict == old(dict)
      {
        keyBuf[i] := 0;
        i := i + 1;
      }
      keyIndex := 0;
      assert keyBuf[..] == Zeros(KEY_BUF_SIZE);
    }

    /** keyboard_environment: unmask IRQ 1 and reset the table and the
        modifiers (the buffer is left as it is). */
    method KeyboardEnvironment(pic: Controllers)
      requires Valid()
      modifies this, pic
      ensures Valid()
      ensures State() == old(State()).(dict := 0, caps := 0, shift := 0, ctrl := 0)
      ensures pic.masterMask == Unmasked(old(pic.masterMask), 1) && pic.slaveMask == old(pic.slaveMask)
      ensures pic.sent == old(pic.sent) + [MaskByte(MasterData, pic.masterMask)]
    {
      pic.EnableIrq(1);
      dict, capsMode, shiftMode, ctrlMode := 0, 0, 0, 0;
    }

    /** terminal_open: set up the keyboard; always 0. */
    method TerminalOpen(pic: Controllers) returns (r: int)
      requires Valid()
      modifies this, pic
      ensures Valid() && r == 0
      ensures State() == old(State()).(dict := 0, caps := 0, shift := 0, ctrl := 0)
      ensures pic.masterMask == Unmasked(old(pic.masterMask), 1) && pic.slaveMask == old(pic.slaveMask)
      ensures pic.sent == old(pic.sent) + [MaskByte(MasterData, pic.masterMask)]
    {
      KeyboardEnvironment(pic);
      r := 0;
    }

    /** terminal_read: clear the buffer, let the keyboard interrupts in keys
        arrive until the enter flag is seen, copy key_buf_index bytes
        (whatever nbytes is), clear the flag and the buffer, and return the
        count.  The read only returns once the flag is set, so keys must
        hold an Enter press unless the flag is already set. */
    method TerminalRead(fd: int, buf: array<byte>, nbytes: int, keys: seq<byte>) returns (r: int)
      requires Valid()
      requires fd == STDIN ==> enterFlag == 1 || ENTER as byte in keys
      requires fd == STDIN ==> buf != keyBuf && buf.Length >= Waited(Cleared(State()), keyMap, keys).index
      modifies this, keyBuf, buf
      ensures Valid()
      ensures fd != STDIN ==> r == -1 && State() == old(State()) && buf[..] == old(buf[..])
      ensures fd == STDIN ==>
        var w := Waited(Cleared(old(State())), keyMap, keys);
        && r == w.index
        && buf[..r] == w.buf[..r] && buf[r..] == old(buf[r..])
        && State() == Cleared(w).(enter := 0)
    {
      if fd != STDIN {
        return -1;
      }
      ClearKeyBuffer();
      WaitForEnter(keys);
      r := CopyLine(buf);
      enterFlag := 0;
      ClearKeyBuffer();
    }

    /** The busy-wait of terminal_read, with the interrupts that arrive
        during it. */
    method WaitForEnter(keys: seq<byte>)
      requires Valid()
      requires enterFlag == 1 || ENTER as byte in keys
      modifies this, keyBuf
      ensures Valid() && enterFlag == 1
      ensures State() == Waited(old(State()), keyMap, keys)
    {
      var j := 0;
      while enterFlag != 1
        invariant Valid() && 0 <= j <= |keys|
        invariant enterFlag == 1 || ENTER as byte in keys[j..]
        invariant Waited(State(), keyMap, keys[j..]) == Waited(old(State()), keyMap, keys)
        decreases |keys| - j
      {
        ghost var s := State();
        assert keys[j..][1..] == keys[j + 1..];
        EnterFlag(s, keyMap, keys[j]);
        KeyHandler(keys[j]);
        j := j + 1;
      }
    }

    /** The copy loop of terminal_read. */
    method CopyLine(buf: array<byte>) returns (i: int)
      requires Valid() && buf != keyBuf && buf.Length >= keyIndex
      modifies buf
      ensures i == keyIndex
      ensures buf[..i] == keyBuf[..i] && buf[i..] == old(buf[i..])
    {
      i := 0;
      while i < keyIndex
        invariant 0 <= i <= keyIndex
        invariant forall k :: 0 <= k < i ==> buf[k] == keyBuf[k]
        invariant forall k :: i <= k < buf.Length ==> buf[k] == old(buf[k])
      {
        buf[i] := keyBuf[i];
        i := i + 1;
      }
    }

    /** terminal_write: send nbytes bytes of buf to the screen and return
        how many were sent (0 for a negative count). */
    method TerminalWrite(fd: int, buf: array<byte>, nbytes: int) returns (r: int)
      requires Valid()
      requires fd == STDOUT ==> buf.Length >= nbytes
      modifies this
      ensures Valid()
      ensures fd != STDOUT ==> r == -1 && State() == old(State())
      ensures fd == STDOUT ==>
        && r == Max(nbytes, 0)
        && State() == old(State()).(screen := old(screen) + Puts(buf[..r]))
    {
      if fd != STDOUT {
        return -1;
      }
      var index := 0;
      while index < nbytes
        invariant 0 <= index <= Max(nbytes, 0)
        invariant screen == old(screen) + Puts(buf[..index])
        invariant State() == old(State()).(screen := screen)
      {
        screen := screen + [Put(buf[index])];
        assert buf[..index + 1] == buf[..index] + [buf[index]];
        index := index + 1;
      }
      r := index;
    }

    /** terminal_close: release descriptor 0 or 1 if it is in use. */
    method TerminalClose(fd: int, files: array<FileDesc>) returns (r: int)
      requires files.Length == FD_COUNT
      modifies files
      ensures r == 0 || r == -1
      ensures r == 0 <==> 0 <= fd <= 1 && InUse(old(files[fd].flags))
      ensures r != 0 ==> files[..] == old(files[..])
      ensures r == 0 ==> files[..] == old(files[..])[fd := old(files[fd]).(flags := 0)]
    {
      if fd < 0 || fd > 1 {
        return -1;
      }
      if !InUse(files[fd].flags) {
        return -1;
      }
      files[fd] := files[fd].(flags := 0);
      r := 0;
    }
  }
}
