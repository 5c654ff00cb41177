/**
 * The system-call layer: halt and execute, which start and end nested
 * programs, and read, write, open and close, which dispatch through the
 * operation table of a descriptor in the current PCB; getargs, vidmap and
 * the two signal stubs.  The kernel's globals (process_number, cur_pcb,
 * tss.esp0, the page directory) are the fields of one Kernel object.
 */
module SysCalls {
  import opened Machine
  import opened Pcb
  import opened FsImage
  import opened FileSys
  import opened Paging
  import opened Keyboard
  import opened Rtc
  import opened Pic
  import opened Process
  import opened Command

  /** Virtual address programs are loaded at (inside directory slot 32). */
  const USER_PROG: int := 0x0804_8000
  /** The user stack pointer execute enters with: USER_PROG | (4 MB - 4). */
  const USER_ESP: int := 0x083F_FFFC
  /** The address vidmap hands out: slot 33, page 0xB8. */
  const VIDMAP_ADDR: int := 0x084B_8000
  /** The vidmap address is "(USER_VMEM << 22) | VID_ADDR": it lies in
      directory slot 33, at page 0xB8 of that slot, offset 0. */
  lemma VidmapAddress()
    ensures VIDMAP_ADDR / FOUR_MB == USER_VMEM_SLOT
    ensures (VIDMAP_ADDR % FOUR_MB) / FOUR_KB == VIDEO_PAGE && VIDMAP_ADDR % FOUR_KB == 0
    ensures VIDMAP_ADDR == USER_VMEM_SLOT * FOUR_MB + VIDEO_PAGE * FOUR_KB
  {
  }

  /** Length of the executable header execute reads. */
  const HEADER_LEN: int := 32
  /** The executable magic "\x7fELF". */
  const ELF_MAGIC: seq<byte> := [0x7F, 0x45, 0x4C, 0x46]

  /** Where execute's iret lands: the header's entry point and the user
      stack pointer. */
  datatype UserEntry = UserEntry(eip: int, esp: int)

  /** A descriptor slot agrees with its operation table: a slot in use has
      a table, the terminal table only in slots 0 and 1, and the RTC,
      directory and file tables only in slots 2-7 with the matching kind
      in the flags. */
  predicate SlotOk(fd: int, f: FileDesc)
  {
    InUse(f.flags) ==>
      match f.ops
      case NoTable => false
      case RtcTable => fd >= 2 && KindOf(f.flags) == RTC_FILE
      case DirTable => fd >= 2 && KindOf(f.flags) == DIR_FILE
      case FileTable => fd >= 2 && KindOf(f.flags) == REG_FILE
      case TerminalTable => fd <= 1
  }

  /** The descriptor execute gives stdin and stdout. */
  const TerminalFd: FileDesc := FileDesc(TerminalTable, 0, 0, TERMINAL_FILE_FLAGS)

  /** Every slot of a descriptor table agrees with its operation table. */
  predicate SlotsAgree(s: seq<FileDesc>)
  {
    forall fd :: 0 <= fd < |s| ==> SlotOk(fd, s[fd])
  }

  ghost predicate TableOk(files: array<FileDesc>)
    reads files
  {
    SlotsAgree(files[..])
  }

  /** Storing a descriptor that agrees with its table keeps a table in
      agreement. */
  lemma AgreeAfterStore(s: seq<FileDesc>, i: int, e: FileDesc)
    requires SlotsAgree(s) && 0 <= i < |s| && SlotOk(i, e)
    ensures SlotsAgree(s[i := e])
  {
  }

  /** Slot fd of a new program's descriptor table: the terminal at 0 and 1,
      the rest cleared. */
  function FreshFd(fd: int): (f: FileDesc)
    ensures SlotOk(fd, f) && (InUse(f.flags) <==> 0 <= fd <= 1)
  {
    if 0 <= fd <= 1 then TerminalFd else ClearFd
  }

  /** execute's set-up of a new descriptor table: stdin and stdout on the
      terminal, slots 2-7 cleared. */
  method InitFiles(files: array<FileDesc>)
    requires files.Length == FD_COUNT
    modifies files
    ensures forall fd :: 0 <= fd < FD_COUNT ==> files[fd] == FreshFd(fd)
    ensures TableOk(files)
  {
    files[0] := TerminalFd;
    files[1] := TerminalFd;
    var fd := 2;
    while fd < FD_COUNT
      invariant 2 <= fd <= FD_COUNT
      invariant forall k :: 0 <= k < fd ==> files[k] == FreshFd(k)
    {
      files[fd] := ClearFd;
      fd := fd + 1;
    }
  }

  /** A descriptor after halt's close loop: released if it was in use. */
  function Shut(f: FileDesc): FileDesc
  {
    if InUse(f.flags) then f.(flags := 0) else f
  }

  /** The 32 header bytes execute reads from the start of a file (into a
      buffer this model starts at zero). */
  function LoadedHeader(img: seq<u32>, bb: BootBlock, inode: int): (h: seq<byte>)
    ensures |h| == HEADER_LEN
  {
    var o := ReadDataSpec(img, bb, true, inode, 0, 0, HEADER_LEN);
    assert |Written(o)| <= HEADER_LEN;
    Overlay(Zeros(HEADER_LEN), Written(o))
  }

  /** The entry point in header bytes 24-27, little-endian. */
  function EntryPoint(h: seq<byte>): int
    requires |h| == HEADER_LEN
  {
    WordOf(h[24], h[25], h[26], h[27])
  }

  /** The directory entry execute finds for a command line. */
  function ProgramEntry(img: seq<u32>, bb: BootBlock, command: seq<byte>): Option<nat>
  {
    Lookup(img, bb, Some(ProgramName(command) + [0]))
  }

  /** execute accepts a command line whose program name names a regular
      file with a valid inode whose first four bytes are the magic. */
  predicate Runnable(img: seq<u32>, bb: BootBlock, command: seq<byte>)
  {
    var m := ProgramEntry(img, bb, command);
    m.Some? && EntryKind(img, m.value) == REGULAR_KIND && EntryInode(img, m.value) < bb.inodes &&
    LoadedHeader(img, bb, EntryInode(img, m.value))[..4] == ELF_MAGIC
  }

  /** open_dentry after execute's lookup of the program name: on a match
      read_dentry_by_name copies the entry's name into it. */
  function AfterProgramLookup(d: Dentry, img: seq<u32>, bb: BootBlock, command: seq<byte>): Dentry
    requires |d.name| == NAME_LEN
  {
    match ProgramEntry(img, bb, command)
    case Some(m) => StashName(d, img, m)
    case None => d
  }

  /** A descriptor table holds an open regular file. */
  predicate HoldsFile(s: seq<FileDesc>)
  {
    exists k :: 0 <= k < |s| && InUse(s[k].flags) && s[k].ops == FileTable
  }

  /** A dentry record after halt's close loop over the table s: file_close
      zeroes its name once any regular file is closed. */
  function AfterCloseAll(d: Dentry, s: seq<FileDesc>): Dentry
  {
    if HoldsFile(s) then d.(name := ZeroName) else d
  }

  /** The close loop's step: one more descriptor looked at. */
  lemma CloseAllStep(d: Dentry, s: seq<FileDesc>, f: FileDesc)
    ensures AfterCloseAll(d, s + [f]) ==
      if InUse(f.flags) && f.ops == FileTable then AfterCloseAll(d, s).(name := ZeroName) else AfterCloseAll(d, s)
  {
    if InUse(f.flags) && f.ops == FileTable {
      assert (s + [f])[|s|] == f;
    } else if HoldsFile(s + [f]) {
      var k :| 0 <= k < |s + [f]| && InUse((s + [f])[k].flags) && (s + [f])[k].ops == FileTable;
      assert s[k] == (s + [f])[k];
    }
    if HoldsFile(s) {
      var k :| 0 <= k < |s| && InUse(s[k].flags) && s[k].ops == FileTable;
      assert (s + [f])[k] == s[k];
    }
  }

  /** The bytes execute loads for a program: read_data of up to 4 MB from
      the start of the file. */
  function Image(img: seq<u32>, bb: BootBlock, inode: int): seq<byte>
  {
    Delivered(ReadDataSpec(img, bb, true, inode, 0, 0, FOUR_MB))
  }

  /** set_handler: signals are not supported. */
  function SetHandler(signum: int, handlerAddress: int): (r: int)
    ensures r == -1
  {
    -1
  }

  /** sigreturn: signals are not supported. */
  function Sigreturn(): (r: int)
    ensures r == -1
  {
    -1
  }

  /** execute's lookup of the program name, into a record of its own. */
  method FindProgram(fs: FileSystem, command: seq<byte>) returns (found: bool, kind: u32, inode: u32)
    requires fs.Valid()
    modifies fs
    ensures fs.Valid()
    ensures found <==> ProgramEntry(fs.img, fs.boot, command).Some?
    ensures found ==> var m := ProgramEntry(fs.img, fs.boot, command).value;
      kind == EntryKind(fs.img, m) && (kind == REGULAR_KIND ==> inode == EntryInode(fs.img, m))
    ensures fs.openDentry == AfterProgramLookup(old(fs.openDentry), fs.img, fs.boot, command)
    ensures fs.readDentry == old(fs.readDentry)
  {
    var name := ParseName(command);
    var r, rec := fs.ReadDentryByName(Some(name), Caller(ZeroDentry));
    found, kind, inode := r == 0, rec.kind, rec.inode;
  }

  /** execute's read of the 32-byte header; it fails only for an inode
      number beyond the image's count. */
  method ReadHeader(fs: FileSystem, inode: u32) returns (ok: bool, header: seq<byte>)
    ensures ok <==> inode < fs.boot.inodes
    ensures ok ==> header == LoadedHeader(fs.img, fs.boot, inode)
  {
    var buf := new byte[HEADER_LEN](_ => 0);
    var scratch := new FileDesc[FD_COUNT](_ => ClearFd);
    var n := fs.ReadData(inode, 0, buf, HEADER_LEN, -1, scratch);
    ok, header := n != -1, buf[..];
  }

  /** execute's checks on the program file: the lookup, the kind, the
      header read and the magic.  Answers the inode and the header, or -1. */
  method CheckProgram(fs: FileSystem, command: seq<byte>) returns (inode: int, header: seq<byte>)
    requires fs.Valid()
    modifies fs
    ensures fs.Valid()
    ensures inode != -1 <==> Runnable(fs.img, fs.boot, command)
    ensures inode != -1 ==>
      && inode == EntryInode(fs.img, ProgramEntry(fs.img, fs.boot, command).value)
      && 0 <= inode < fs.boot.inodes
      && header == LoadedHeader(fs.img, fs.boot, inode)
    ensures fs.openDentry == AfterProgramLookup(old(fs.openDentry), fs.img, fs.boot, command)
    ensures fs.readDentry == old(fs.readDentry)
  {
    var found, kind, ino := FindProgram(fs, command);
    if !found || kind != REGULAR_KIND {
      return -1, [];
    }
    var ok, h := ReadHeader(fs, ino);
    if !ok || h[..4] != ELF_MAGIC {
      return -1, [];
    }
    return ino, h;
  }

  /** The six PCB slots at their addresses, with cleared descriptor
      tables. */
  method NewArena() returns (a: seq<Pcb>)
    ensures |a| == MAX_PROCESSES
    ensures forall d :: 0 <= d < MAX_PROCESSES ==>
      && fresh(a[d].files) && a[d].address == PcbAddress(d)
      && a[d].files.Length == FD_COUNT && TableOk(a[d].files)
    ensures forall d, e :: 0 <= d < e < MAX_PROCESSES ==> a[d].files != a[e].files
  {
    a := [];
    while |a| < MAX_PROCESSES
      invariant |a| <= MAX_PROCESSES
      invariant forall d :: 0 <= d < |a| ==>
        && fresh(a[d].files) && a[d].address == PcbAddress(d)
        && a[d].files.Length == FD_COUNT && TableOk(a[d].files)
      invariant forall d, e :: 0 <= d < e < |a| ==> a[d].files != a[e].files
    {
      var p := new Pcb(PcbAddress(|a|));
      a := a + [p];
    }
  }

  /** The room a read through descriptor fd (holding d) needs: a file read
      writes at most nbytes bytes, a directory read the entry's name bytes
      and possibly a terminator, a keyboard read the whole line typed. */
  ghost predicate ReadRoom(img: seq<u32>, bb: BootBlock, term: Terminal, fd: int, d: FileDesc,
                           buf: array<byte>, nbytes: int, keys: seq<byte>)
    requires term.Valid()
    reads term, term.keyBuf
  {
    && buf != term.keyBuf
    && match d.ops
       case FileTable => buf.Length >= nbytes
       case DirTable =>
         d.filePos < bb.dirEntries ==> buf.Length >= |DirBytes(EntryName(img, d.filePos), nbytes)|
       case TerminalTable =>
         fd == STDIN ==>
           (term.enterFlag == 1 || ENTER as byte in keys) &&
           buf.Length >= Waited(Cleared(term.State()), term.keyMap, keys).index
       case _ => true
  }

  /** What the read routine of d's table does through descriptor fd: the
      slot goes from d to e, the buffer from b to b', the keyboard state
      from s to t and the clock's interrupt flag from i to i'. */
  ghost predicate ReadEffect(img: seq<u32>, bb: BootBlock, m: seq<seq<byte>>, keys: seq<byte>,
                             fd: int, nbytes: int, r: int, d: FileDesc, e: FileDesc,
                             b: seq<byte>, b': seq<byte>, s: KeyState, t: KeyState, i: int, i': int)
    requires KeyMapShape(m) && Sane(s) && IsInt32(nbytes)
  {
    match d.ops
    case NoTable => false
    case RtcTable =>
      r == 0 && e == d && b' == b && t == s && i' == 0
    case TerminalTable =>
      e == d && i' == i &&
      if fd == STDIN then
        var w := Waited(Cleared(s), m, keys);
        && r == w.index <= |b'| == |b|
        && b'[..r] == w.buf[..r] && b'[r..] == b[r..]
        && t == Cleared(w).(enter := 0)
      else
        r == -1 && b' == b && t == s
    case FileTable =>
      var o := ReadDataSpec(img, bb, true, d.inode, d.filePos, TraversalIdx(d.flags), ToU32(nbytes));
      && r == Count(o) && t == s && i' == i
      && |Written(o)| <= |b| && b' == Overlay(b, Written(o))
      && (o.Walked? && o.w.Complete? ==> 0 <= o.w.idx < IDX_LIMIT) && e == AfterRead(d, o)
    case DirTable =>
      t == s && i' == i &&
      if d.filePos >= bb.dirEntries then
        r == 0 && e == d && b' == b
      else
        var n := EntryName(img, d.filePos);
        && r == DirCount(|n|, nbytes)
        && |DirBytes(n, nbytes)| <= |b| && b' == Overlay(b, DirBytes(n, nbytes))
        && e == d.(filePos := d.filePos + 1)
  }

  /** sys_read's jump through the operation table of a descriptor in use. */
  method ReadThrough(fs: FileSystem, rtc: RtcDevice, term: Terminal, fd: int, buf: array<byte>,
                     nbytes: int, keys: seq<byte>, files: array<FileDesc>) returns (r: int)
    requires fs.Valid() && term.Valid() && files.Length == FD_COUNT && 0 <= fd < FD_COUNT
    requires InUse(files[fd].flags) && TableOk(files) && IsInt32(nbytes) && 0 <= nbytes
    requires ReadRoom(fs.img, fs.boot, term, fd, files[fd], buf, nbytes, keys)
    modifies fs, rtc, term, term.keyBuf, buf, files
    ensures fs.Valid() && term.Valid() && TableOk(files) && rtc.regA == old(rtc.regA)
    ensures forall k :: 0 <= k < FD_COUNT && k != fd ==> files[k] == old(files[k])
    ensures ReadEffect(fs.img, fs.boot, term.keyMap, keys, fd, nbytes, r, old(files[fd]), files[fd],
                       old(buf[..]), buf[..], old(term.State()), term.State(), old(rtc.interrupt), rtc.interrupt)
  {
    ghost var d := files[fd];
    assert SlotOk(fd, d);
    match files[fd].ops {
      case NoTable =>
        assert false;
      case RtcTable =>
        r := rtc.RtcRead();
      case TerminalTable =>
        r := term.TerminalRead(fd, buf, nbytes, keys);
      case FileTable =>
        r := fs.FileRead(fd, buf, nbytes, files);
      case DirTable =>
        r := fs.DirRead(fd, buf, nbytes, files);
    }
    assert SlotOk(fd, files[fd]);
    assert files[..] == old(files[..])[fd := files[fd]];
    AgreeAfterStore(old(files[..]), fd, files[fd]);
  }

  /** The bytes a write through descriptor fd (holding d) reads from the
      buffer: rtc_write the rate byte, terminal_write nbytes bytes. */
  predicate WriteRoom(fd: int, d: FileDesc, buf: array<byte>, nbytes: int)
  {
    match d.ops
    case RtcTable => buf.Length >= 1
    case TerminalTable => fd == STDOUT ==> buf.Length >= nbytes
    case _ => true
  }

  /** What the write routine of d's table does through descriptor fd with
      the bytes b: register A goes from a to a' and the keyboard and screen
      state from s to t. */
  ghost predicate WriteEffect(fd: int, nbytes: int, r: int, d: FileDesc, b: seq<byte>,
                              a: byte, a': byte, s: KeyState, t: KeyState)
  {
    match d.ops
    case NoTable => false
    case RtcTable =>
      && |b| >= 1 && t == s && (r == 0 || r == -1)
      && (r == 0 <==> RateSelectFor(b[0]).Some?)
      && a' == if r == 0 then WithRateSelect(a, RateSelectFor(b[0]).value) else a
    case DirTable => r == -1 && a' == a && t == s
    case FileTable => r == -1 && a' == a && t == s
    case TerminalTable =>
      a' == a &&
      if fd == STDOUT then
        r == Max(nbytes, 0) <= |b| && t == s.(screen := s.screen + Puts(b[..r]))
      else
        r == -1 && t == s
  }

  /** sys_write's jump through the operation table of a descriptor in use. */
  method WriteThrough(rtc: RtcDevice, term: Terminal, fd: int, d: FileDesc, buf: array<byte>, nbytes: int)
    returns (r: int)
    requires term.Valid() && 0 <= fd < FD_COUNT && InUse(d.flags) && SlotOk(fd, d)
    requires WriteRoom(fd, d, buf, nbytes)
    modifies rtc, term
    ensures term.Valid() && rtc.interrupt == old(rtc.interrupt)
    ensures WriteEffect(fd, nbytes, r, d, buf[..], old(rtc.regA), rtc.regA, old(term.State()), term.State())
  {
    match d.ops {
      case NoTable =>
        assert false;
      case RtcTable =>
        r := rtc.RtcWrite(buf[0]);
      case DirTable =>
        r := DirWrite(fd, Some(buf[..]), nbytes);
      case FileTable =>
        r := FileWrite(fd, Some(buf[..]), nbytes);
      case TerminalTable =>
        r := term.TerminalWrite(fd, buf, nbytes);
    }
  }

  /** The slot sys_open leaves behind for an entry of kind k and inode n:
      the table the kind selects, with what that table's open routine
      stores.  Any kind but 0-2 gets the terminal table, whose open routine
      stores nothing. */
  function OpenedFd(d: FileDesc, k: int, n: u32): (e: FileDesc)
    requires !InUse(d.flags)
    ensures InUse(e.flags) <==> 0 <= k <= 2
    ensures InUse(e.flags) ==> KindOf(e.flags) == k && e.ops != TerminalTable && e.filePos == 0
    ensures !InUse(e.flags) ==> e == d.(ops := TerminalTable)
  {
    RtcFlagsFields();
    OpenFlagsFields();
    if k == RTC_FILE then d.(ops := RtcTable, inode := 0, filePos := 0, flags := RTC_FILE_FLAGS)
    else if k == DIR_FILE then d.(ops := DirTable, inode := 0, filePos := 0, flags := OPEN_DIR_FLAGS)
    else if k == REG_FILE then d.(ops := FileTable, inode := n, filePos := 0, flags := OPEN_FILE_FLAGS)
    else d.(ops := TerminalTable)
  }

  /** sys_open's read_dentry_by_name into its local dentry: whether the
      name is found, and the entry's kind. */
  method FindEntry(fs: FileSystem, filename: Option<seq<byte>>) returns (found: bool, kind: u32)
    requires fs.Valid()
    modifies fs
    ensures fs.Valid()
    ensures found <==> Lookup(fs.img, fs.boot, filename).Some?
    ensures found ==> kind == EntryKind(fs.img, Lookup(fs.img, fs.boot, filename).value)
  {
    var res, dentry := fs.ReadDentryByName(filename, Caller(ZeroDentry));
    found := res != -1;
    kind := dentry.kind;
  }

  /** The second half of sys_open: install the table for the entry's kind
      in slot i (the lowest free one) and call that table's open routine,
      which claims the same slot. */
  method OpenThrough(fs: FileSystem, rtc: RtcDevice, term: Terminal, pic: Controllers,
                     filename: Option<seq<byte>>, files: array<FileDesc>, i: int, kind: u32)
    requires fs.Valid() && term.Valid() && files.Length == FD_COUNT && TableOk(files)
    requires Lookup(fs.img, fs.boot, filename).Some?
    requires kind == EntryKind(fs.img, Lookup(fs.img, fs.boot, filename).value)
    requires i == LowestFree(files[..]) != -1
    modifies fs, rtc, term, pic, files
    ensures fs.Valid() && term.Valid() && TableOk(files)
    ensures var j := Lookup(fs.img, fs.boot, filename).value;
      files[..] == old(files[..])[i := OpenedFd(old(files[i]), kind as int, EntryInode(fs.img, j))]
    ensures kind as int == RTC_FILE ==> rtc.regA == WithRateSelect(old(rtc.regA), INIT_RATE) && rtc.interrupt == 0
  {
    ghost var before := files[..];
    var table := if kind as int == RTC_FILE then RtcTable
      else if kind as int == DIR_FILE then DirTable
      else if kind as int == REG_FILE then FileTable
      else TerminalTable;
    files[i] := files[i].(ops := table);
    FreeFromFlags(before, files[..], 2);
    match table {
      case RtcTable =>
        var _ := rtc.RtcOpen(pic, files);
      case DirTable =>
        var _ := fs.DirOpen(filename, files);
      case FileTable =>
        var _ := fs.FileOpen(filename, files);
      case TerminalTable =>
        var _ := term.TerminalOpen(pic);
    }
    ghost var e := OpenedFd(before[i], kind as int, EntryInode(fs.img, Lookup(fs.img, fs.boot, filename).value));
    assert files[..] == before[i := e];
    AgreeAfterStore(before, i, e);
  }

  /** Every descriptor after halt's close loop. */
  function ShutAll(s: seq<FileDesc>): (t: seq<FileDesc>)
    ensures |t| == |s| && forall k :: 0 <= k < |s| ==> t[k] == Shut(s[k])
  {
    if s == [] then [] else [Shut(s[0])] + ShutAll(s[1..])
  }

  /** The descriptor table execute gives a new program. */
  const FreshTable: seq<FileDesc> := [TerminalFd, TerminalFd, ClearFd, ClearFd, ClearFd, ClearFd, ClearFd, ClearFd]

  /** What execute and halt act on, apart from the file system's two
      records: the process state, each PCB's descriptor table and command
      line by depth, the page directory, the images loaded into the program
      frames, where user mode was last entered, the keyboard, and the PIC's
      masks and port writes. */
  datatype View = View(procs: Procs, tables: seq<seq<FileDesc>>, inputs: seq<seq<byte>>, dir: seq<Pde>,
                       loaded: map<int, seq<byte>>, entered: Option<UserEntry>, keys: KeyState,
                       masterMask: bv8, slaveMask: bv8, sent: seq<PortWrite>)

  /** Six tables and command lines, and a full directory whose slot 32 is
      a 4 MB page. */
  predicate Shaped(v: View)
  {
    |v.tables| == |v.inputs| == MAX_PROCESSES && |v.dir| == ENTRIES && v.dir[PROGRAM_SLOT].BigPage?
  }

  /** A successful execute of `command` that loaded `image` and enters user
      mode at eip: the next PCB gets fresh descriptors and the command line
      and saves the running process; slot 32 moves to the child's frame,
      which holds the image; terminal_open resets the keyboard's table and
      modifiers and unmasks IRQ 1.  Nothing else changes. */
  function Launched(v: View, command: seq<byte>, image: seq<byte>, eip: int): View
    requires Shaped(v) && 0 <= v.procs.count < MAX_PROCESSES
  {
    var n := v.procs.count;
    var mask := Unmasked(v.masterMask, 1);
    v.(procs := ExecTransition(v.procs),
       tables := v.tables[n := FreshTable],
       inputs := v.inputs[n := CStr(command)],
       dir := v.dir[PROGRAM_SLOT := v.dir[PROGRAM_SLOT].(frame := ProgramFrame(n))],
       loaded := v.loaded[ProgramFrame(n) := image],
       entered := Some(UserEntry(eip, USER_ESP)),
       keys := v.keys.(dict := 0, caps := 0, shift := 0, ctrl := 0),
       masterMask := mask,
       sent := v.sent + [MaskByte(MasterData, mask)])
  }

  /** execute's first phase, the next PCB at depth n = v.procs.count:
      fresh descriptors, the command line, the running process's cur_pcb,
      frame and esp0 saved, and terminal_open's effect. */
  function Prepared(v: View, command: seq<byte>): View
    requires Shaped(v) && 0 <= v.procs.count < MAX_PROCESSES && |v.procs.saved| == MAX_PROCESSES
  {
    var n, p := v.procs.count, v.procs;
    var mask := Unmasked(v.masterMask, 1);
    v.(procs := p.(saved := p.saved[n := Saved(p.cur, p.frame, p.esp0)]),
       tables := v.tables[n := FreshTable],
       inputs := v.inputs[n := CStr(command)],
       keys := v.keys.(dict := 0, caps := 0, shift := 0, ctrl := 0),
       masterMask := mask,
       sent := v.sent + [MaskByte(MasterData, mask)])
  }

  /** execute's second phase: slot 32 moves to frame n's image and the
      PCB of depth n becomes current with its own kernel stack. */
  function Entered(v: View, image: seq<byte>, eip: int): View
    requires Shaped(v) && 0 <= v.procs.count < MAX_PROCESSES
  {
    var n := v.procs.count;
    v.(procs := v.procs.(count := n + 1, cur := PcbAddress(n), frame := ProgramFrame(n),
                         esp0 := EIGHT_MB - (n + 1) * EIGHT_KB),
       dir := v.dir[PROGRAM_SLOT := v.dir[PROGRAM_SLOT].(frame := ProgramFrame(n))],
       loaded := v.loaded[ProgramFrame(n) := image],
       entered := Some(UserEntry(eip, USER_ESP)))
  }

  /** The two phases make up a successful execute. */
  lemma LaunchPhases(v: View, command: seq<byte>, image: seq<byte>, eip: int)
    requires Shaped(v) && 0 <= v.procs.count < MAX_PROCESSES && |v.procs.saved| == MAX_PROCESSES
    ensures Shaped(Prepared(v, command)) && Prepared(v, command).procs.count == v.procs.count
    ensures Entered(Prepared(v, command), image, eip) == Launched(v, command, image, eip)
  {
  }

  /** halt's first phase: the descriptors in use at depth d are released. */
  function Closed(v: View, d: int): View
    requires Shaped(v) && 0 <= d < MAX_PROCESSES
  {
    v.(tables := v.tables[d := ShutAll(v.tables[d])])
  }

  /** halt's second phase: the parent's cur_pcb, frame and esp0 come back
      and slot 32 moves back to the parent's frame. */
  function Returned(v: View): View
    requires Shaped(v)
  {
    var p := HaltTransition(v.procs);
    v.(procs := p, dir := v.dir[PROGRAM_SLOT := v.dir[PROGRAM_SLOT].(frame := p.frame)])
  }

  /** A successful halt: the halting program's descriptors in use are
      released, then its parent comes back.  Nothing else changes. */
  function Halted(v: View): View
    requires Shaped(v) && 0 < v.procs.count <= MAX_PROCESSES
  {
    Returned(Closed(v, v.procs.count - 1))
  }

  /** halt after a successful execute gives back the process stack, the
      page directory and every older PCB's descriptors and command line;
      the child's image stays in its frame. */
  lemma HaltUndoesLaunch(v: View, command: seq<byte>, image: seq<byte>, eip: int)
    requires Shaped(v) && Nested(v.procs) && v.procs.count < MAX_PROCESSES
    requires v.dir[PROGRAM_SLOT].frame == v.procs.frame
    ensures var n, w := v.procs.count, Halted(Launched(v, command, image, eip));
      && SameStack(w.procs, v.procs) && w.dir == v.dir
      && w.tables[..n] == v.tables[..n] && w.inputs[..n] == v.inputs[..n]
      && w.loaded == v.loaded[ProgramFrame(n) := image]
  {
    HaltUndoesExec(v.procs);
    var n, u := v.procs.count, Launched(v, command, image, eip);
    assert u.procs == ExecTransition(v.procs);
  }

  class Kernel {
    const fs: FileSystem
    const paging: PageDirectory
    const term: Terminal
    const rtc: RtcDevice
    const pic: Controllers
    /** The six PCB slots; the one of depth d lives at PcbAddress(d). */
    const arena: seq<Pcb>
    /** process_number: how many programs are running. */
    var processNumber: int
    /** cur_pcb: the address of the running program's PCB, 0 for NULL. */
    var curPcb: int
    /** tss.esp0. */
    var esp0: int
    /** For each physical frame, the bytes execute last loaded at USER_PROG
        while slot 32 pointed at it. */
    var loaded: map<int, seq<byte>>
    /** Where the last execute entered user mode. */
    var entered: Option<UserEntry>

    /** The descriptor tables of all six PCBs. */
    ghost function FdTables(): set<array<FileDesc>>
    {
      set d | 0 <= d < |arena| :: arena[d].files
    }

    /** The fixed shape of the PCB arena. */
    ghost predicate Layout()
    {
      && |arena| == MAX_PROCESSES
      && (forall d :: 0 <= d < MAX_PROCESSES ==> arena[d].address == PcbAddress(d) && arena[d].files.Length == FD_COUNT)
      && (forall d, e :: 0 <= d < e < MAX_PROCESSES ==> arena[d].files != arena[e].files)
    }

    /** The running program's PCB. */
    ghost function Cur(): Pcb
      requires Layout() && IsPcbAddress(curPcb)
      reads this
    {
      arena[Depth(curPcb)]
    }

    /** Every PCB's descriptor table agrees with its operation tables. */
    ghost predicate SlotsOk()
      reads FdTables()
    {
      forall t :: t in FdTables() ==> TableOk(t)
    }

    /** The process state as Process models it. */
    ghost function State(): Procs
      requires Layout() && paging.Valid() && paging.dir[PROGRAM_SLOT].BigPage?
      reads this, paging, paging.dir, arena
    {
      Procs(processNumber, curPcb, paging.dir[PROGRAM_SLOT].frame, esp0,
            [Saved(arena[0].parent, arena[0].oldFrame, arena[0].oldEsp0),
             Saved(arena[1].parent, arena[1].oldFrame, arena[1].oldEsp0),
             Saved(arena[2].parent, arena[2].oldFrame, arena[2].oldEsp0),
             Saved(arena[3].parent, arena[3].oldFrame, arena[3].oldEsp0),
             Saved(arena[4].parent, arena[4].oldFrame, arena[4].oldEsp0),
             Saved(arena[5].parent, arena[5].oldFrame, arena[5].oldEsp0)])
    }

    /** The drivers' own invariants. */
    ghost predicate Drivers()
      reads fs, paging, term, term.keyBuf
    {
      fs.Valid() && paging.Valid() && term.Valid()
    }

    /** Slot 32 stays a 4 MB page, slot 33 keeps referencing page table 1,
        and while the program window is present the process stack is
        nested. */
    ghost predicate ProcsOk()
      reads this, paging, paging.dir, arena
    {
      && Layout() && paging.Valid()
      && 0 <= processNumber <= MAX_PROCESSES
      && paging.dir[PROGRAM_SLOT].BigPage?
      && paging.dir[USER_VMEM_SLOT] == UserVideoTablePde(paging.table1Base)
      && (Present(paging.dir[PROGRAM_SLOT]) ==> Nested(State()))
    }

    ghost predicate Valid()
      reads this, fs, paging, paging.dir, term, term.keyBuf, arena, FdTables()
    {
      Layout() && Drivers() && SlotsOk() && ProcsOk()
    }

    /** The six PCBs' descriptor tables, by depth. */
    ghost function Tables(): (t: seq<seq<FileDesc>>)
      requires Layout()
      reads arena, FdTables()
      ensures |t| == MAX_PROCESSES
    {
      assert forall d :: 0 <= d < MAX_PROCESSES ==> arena[d].files in FdTables();
      [arena[0].files[..], arena[1].files[..], arena[2].files[..],
       arena[3].files[..], arena[4].files[..], arena[5].files[..]]
    }

    /** The six PCBs' command lines, by depth. */
    ghost function Inputs(): (t: seq<seq<byte>>)
      requires Layout()
      reads arena
      ensures |t| == MAX_PROCESSES
    {
      [arena[0].input, arena[1].input, arena[2].input, arena[3].input, arena[4].input, arena[5].input]
    }

    /** Entry d of Tables and Inputs is PCB d's. */
    lemma TablesAt(d: int)
      requires Layout() && 0 <= d < MAX_PROCESSES
      ensures Tables()[d] == arena[d].files[..] && Inputs()[d] == arena[d].input
    {
      if d == 0 {} else if d == 1 {} else if d == 2 {} else if d == 3 {} else if d == 4 {} else {}
    }

    /** A change to PCB d and its table alone moves only entry d of Tables
        and Inputs. */
    twostate lemma OnlyPcbChanged(d: int)
      requires Layout() && 0 <= d < MAX_PROCESSES
      requires forall e :: 0 <= e < MAX_PROCESSES && e != d ==> unchanged(arena[e], arena[e].files)
      ensures Tables() == old(Tables())[d := arena[d].files[..]]
      ensures Inputs() == old(Inputs())[d := arena[d].input]
    {
      forall e | 0 <= e < MAX_PROCESSES && e != d
        ensures Tables()[e] == old(Tables())[e] && Inputs()[e] == old(Inputs())[e]
      {
        assert arena[e].files[..] == old(arena[e].files[..]);
        if e == 0 {} else if e == 1 {} else if e == 2 {} else if e == 3 {} else if e == 4 {} else {}
      }
      TablesAt(d);
    }

    /** Everything execute and halt act on, apart from the file system's
        records. */
    ghost function Snapshot(): (v: View)
      requires Layout() && paging.Valid() && paging.dir[PROGRAM_SLOT].BigPage?
      reads this, paging, paging.dir, arena, FdTables(), term, term.keyBuf, pic
      ensures Shaped(v) && v.procs == State()
    {
      View(State(), Tables(), Inputs(), paging.dir[..], loaded, entered, term.State(),
           pic.masterMask, pic.slaveMask, pic.sent)
    }

    /** A change to the file system alone (execute's checks) keeps the
        snapshot. */
    twostate lemma OnlyFsChanged()
      requires old(Valid()) && Valid()
      requires unchanged(this, paging, paging.dir, term, term.keyBuf, pic) && unchanged(arena) && unchanged(FdTables())
      ensures Snapshot() == old(Snapshot())
    {
    }

    /** Allocation alone (execute's load into a fresh buffer) keeps the
        invariant and the snapshot. */
    twostate lemma OnlyAllocated()
      requires old(Valid())
      requires unchanged(this, fs, paging, paging.dir, term, term.keyBuf, pic) && unchanged(arena) && unchanged(FdTables())
      ensures Valid() && Snapshot() == old(Snapshot())
    {
    }

    /** A change to one descriptor table alone (halt's closes) moves the
        snapshot by that table. */
    twostate lemma OnlyTableChanged(d: int)
      requires old(Valid()) && Valid() && 0 <= d < MAX_PROCESSES
      requires unchanged(this, paging, paging.dir, term, term.keyBuf, pic) && unchanged(arena)
      requires Tables() == old(Tables())[d := ShutAll(old(Tables())[d])]
      ensures Snapshot() == Closed(old(Snapshot()), d)
    {
    }

    /** A change to the process state and the program window that keeps
        ProcsOk (execute's switch) keeps the invariant. */
    twostate lemma OnlyProcsChanged()
      requires old(Valid()) && ProcsOk()
      requires unchanged(fs, paging, term, term.keyBuf) && unchanged(FdTables())
      ensures Valid()
    {
    }

    /** What execute's terminal_open does to the drivers: the keyboard's
        table and modifiers reset, IRQ 1 unmasked and the master's new mask
        sent. */
    twostate predicate TerminalOpened()
      reads term, term.keyBuf, pic
    {
      && term.State() == old(term.State()).(dict := 0, caps := 0, shift := 0, ctrl := 0)
      && pic.masterMask == Unmasked(old(pic.masterMask), 1) && pic.slaveMask == old(pic.slaveMask)
      && pic.sent == old(pic.sent) + [MaskByte(MasterData, pic.masterMask)]
    }

    /** A change to the drivers and to one descriptor table that keeps
        their invariants keeps the kernel's. */
    twostate lemma TableChangeKeepsValid(files: array<FileDesc>)
      requires old(SlotsOk()) && old(ProcsOk()) && files in FdTables() && TableOk(files)
      requires fs.Valid() && term.Valid()
      requires unchanged(this, paging, paging.dir) && unchanged(arena)
      requires forall t :: t in FdTables() && t != files ==> unchanged(t)
      ensures Valid()
    {
      forall t | t in FdTables()
        ensures TableOk(t)
      {
        if t != files {
          assert old(TableOk(t));
        }
      }
    }

    /** The kernel as boot leaves it: no program, cur_pcb NULL, tss.esp0 at
        8 MB, the directory's slots 32 and 33 as init_paging sets them. */
    constructor (fs: FileSystem, paging: PageDirectory, term: Terminal, rtc: RtcDevice, pic: Controllers)
      requires fs.Valid() && paging.Valid() && term.Valid()
      requires paging.dir[PROGRAM_SLOT] == ProgramPde
      requires paging.dir[USER_VMEM_SLOT] == UserVideoTablePde(paging.table1Base)
      ensures Valid() && this.fs == fs && this.paging == paging && this.term == term
      ensures this.rtc == rtc && this.pic == pic
      ensures State() == Procs(0, 0, 0, BOOT_ESP0, State().saved)
      ensures loaded == map[] && entered == None
    {
      this.fs := fs;
      this.paging := paging;
      this.term := term;
      this.rtc := rtc;
      this.pic := pic;
      var pcbs := NewArena();
      arena := pcbs;
      processNumber := 0;
      curPcb := 0;
      esp0 := BOOT_ESP0;
      loaded := map[];
      entered := None;
      new;
      assert SlotsOk();
      BootNested(State().saved);
    }

    /** The close routine of a descriptor's table, for a slot in use: it
        always succeeds and releases the slot. */
    method Release(fd: int, files: array<FileDesc>) returns (r: int)
      requires fs.Valid() && files.Length == FD_COUNT && 0 <= fd < FD_COUNT
      requires InUse(files[fd].flags) && SlotOk(fd, files[fd])
      modifies fs, files
      ensures fs.Valid() && r == 0
      ensures files[..] == old(files[..])[fd := old(files[fd]).(flags := 0)]
      ensures var z := old(files[fd]).ops == FileTable;
        && fs.openDentry == (if z then old(fs.openDentry).(name := ZeroName) else old(fs.openDentry))
        && fs.readDentry == (if z then old(fs.readDentry).(name := ZeroName) else old(fs.readDentry))
    {
      match files[fd].ops {
        case NoTable =>
          assert false;
        case RtcTable =>
          r := RtcClose(fd, files);
        case DirTable =>
          r := fs.DirClose(fd, files);
        case FileTable =>
          r := fs.FileClose(fd, files);
        case TerminalTable =>
          r := term.TerminalClose(fd, files);
      }
    }

    /** Closing descriptor fd of PCB d, which is in use. */
    method Close(d: int, fd: int) returns (r: int)
      requires Valid() && 0 <= d < MAX_PROCESSES && 0 <= fd < FD_COUNT
      requires InUse(arena[d].files[fd].flags)
      modifies fs, arena[d].files
      ensures Valid() && r == 0
      ensures arena[d].files[..] == old(arena[d].files[..])[fd := old(arena[d].files[fd]).(flags := 0)]
      ensures var z := old(arena[d].files[fd]).ops == FileTable;
        && fs.openDentry == (if z then old(fs.openDentry).(name := ZeroName) else old(fs.openDentry))
        && fs.readDentry == (if z then old(fs.readDentry).(name := ZeroName) else old(fs.readDentry))
    {
      var files := arena[d].files;
      assert files in FdTables() && TableOk(files);
      r := Release(fd, files);
      AgreeAfterStore(old(files[..]), fd, files[fd]);
      TableChangeKeepsValid(files);
    }

    /** halt's loop: close every descriptor of PCB d that is in use. */
    method CloseAll(d: int)
      requires Valid() && 0 <= d < MAX_PROCESSES
      modifies fs, arena[d].files
      ensures Valid()
      ensures Tables() == old(Tables())[d := ShutAll(old(Tables())[d])]
      ensures fs.openDentry == AfterCloseAll(old(fs.openDentry), old(arena[d].files[..]))
      ensures fs.readDentry == AfterCloseAll(old(fs.readDentry), old(arena[d].files[..]))
    {
      TablesAt(d);
      var files := arena[d].files;
      var fd := 0;
      while fd < FD_COUNT
        invariant 0 <= fd <= FD_COUNT && Valid()
        invariant forall k :: 0 <= k < fd ==> files[k] == Shut(old(files[k]))
        invariant forall k :: fd <= k < FD_COUNT ==> files[k] == old(files[k])
        invariant fs.openDentry == AfterCloseAll(old(fs.openDentry), old(files[..])[..fd])
        invariant fs.readDentry == AfterCloseAll(old(fs.readDentry), old(files[..])[..fd])
      {
        CloseAllStep(old(fs.openDentry), old(files[..])[..fd], files[fd]);
        CloseAllStep(old(fs.readDentry), old(files[..])[..fd], files[fd]);
        assert old(files[..])[..fd + 1] == old(files[..])[..fd] + [files[fd]];
        if InUse(files[fd].flags) {
          var _ := Close(d, fd);
        }
        fd := fd + 1;
      }
      assert old(files[..])[..FD_COUNT] == old(files[..]);
      assert files[..] == ShutAll(old(files[..]));
      OnlyPcbChanged(d);
    }

    /** halt: end the running program.  With none running it answers -1.
        Otherwise process_number drops first; if the program window is
        missing it answers -1 there; else every descriptor in use is
        closed, the parent's kernel stack, program frame and PCB are
        restored and the status byte is returned.  The file system's
        records lose their names when a regular file is closed. */
    method Halt(status: byte) returns (r: int)
      requires Valid()
      modifies this, fs, paging.dir, FdTables()
      ensures Valid()
      ensures old(processNumber) <= 0 ==> r == -1 && Snapshot() == old(Snapshot())
      ensures old(processNumber) > 0 && !Present(old(paging.dir[PROGRAM_SLOT])) ==>
        r == -1 && Snapshot() == old(Snapshot()).(procs := old(State()).(count := old(processNumber) - 1))
      ensures old(processNumber) > 0 && Present(old(paging.dir[PROGRAM_SLOT])) ==>
        r == status as int && Snapshot() == Halted(old(Snapshot()))
      ensures old(processNumber) > 0 && Present(old(paging.dir[PROGRAM_SLOT])) ==>
        && fs.openDentry == AfterCloseAll(old(fs.openDentry), old(arena[processNumber - 1].files[..]))
        && fs.readDentry == AfterCloseAll(old(fs.readDentry), old(arena[processNumber - 1].files[..]))
      ensures !(old(processNumber) > 0 && Present(old(paging.dir[PROGRAM_SLOT]))) ==>
        fs.openDentry == old(fs.openDentry) && fs.readDentry == old(fs.readDentry)
    {
      if processNumber <= 0 {
        return -1;
      }
      // process_number drops before the window check; the store is made
      // at each of the two exits below.
      if BigPageEntry(paging.dir[..], PROGRAM_SLOT).None? {
        processNumber := processNumber - 1;
        return -1;
      }
      HaltRunning();
      r := status as int;
    }

    /** halt of a running program whose window is present: close its
        descriptors and give control back to the parent. */
    method HaltRunning()
      requires Valid() && processNumber > 0 && Present(paging.dir[PROGRAM_SLOT])
      modifies this, fs, paging.dir, FdTables()
      ensures Valid() && Snapshot() == Halted(old(Snapshot()))
      ensures fs.openDentry == AfterCloseAll(old(fs.openDentry), old(arena[processNumber - 1].files[..]))
      ensures fs.readDentry == AfterCloseAll(old(fs.readDentry), old(arena[processNumber - 1].files[..]))
    {
      HaltNested(State());
      var d := Depth(curPcb);
      label Running:
      CloseAll(d);
      OnlyTableChanged@Running(d);
      label Closing:
      Restore(d);
      OnlyProcsChanged@Closing();
    }

    /** The end of halt: one process fewer, and the parent's kernel stack,
        program frame and PCB come back from the halting program's PCB. */
    method Restore(d: int)
      requires ProcsOk() && Present(paging.dir[PROGRAM_SLOT])
      requires processNumber > 0 && IsPcbAddress(curPcb) && d == Depth(curPcb)
      modifies this, paging.dir
      ensures ProcsOk() && Snapshot() == Returned(old(Snapshot()))
    {
      ghost var before := State();
      HaltNested(before);
      var p := arena[d];
      processNumber := processNumber - 1;
      esp0 := p.oldEsp0;
      paging.dir[PROGRAM_SLOT] := paging.dir[PROGRAM_SLOT].(frame := p.oldFrame);
      curPcb := p.parent;
      assert State() == HaltTransition(before);
    }

    /** execute's load: read_data of up to 4 MB from the start of the file
        into the program window (fd -1 touches no descriptor). */
    method LoadProgram(inode: int) returns (image: seq<byte>)
      requires 0 <= inode < fs.boot.inodes
      ensures image == Image(fs.img, fs.boot, inode)
    {
      var window := new byte[FOUR_MB](_ => 0);
      var scratch := new FileDesc[FD_COUNT](_ => ClearFd);
      var n := fs.ReadData(inode, 0, window, FOUR_MB, -1, scratch);
      image := window[..n];
    }

    /** execute's new PCB: the terminal at descriptors 0 and 1 (opened), the
        other six cleared, and what halt restores. */
    method SetUpPcb(d: int, command: seq<byte>, frame: int)
      requires Layout() && term.Valid() && 0 <= d < MAX_PROCESSES
      modifies arena[d], arena[d].files, term, pic
      ensures term.Valid() && TableOk(arena[d].files)
      ensures Tables() == old(Tables())[d := FreshTable] && Inputs() == old(Inputs())[d := CStr(command)]
      ensures arena[d].parent == curPcb && arena[d].oldEsp0 == esp0 && arena[d].oldFrame == frame
      ensures TerminalOpened()
    {
      var p := arena[d];
      p.input := CStr(command);
      p.oldFrame := frame;
      InitFiles(p.files);
      var _ := term.TerminalOpen(pic);
      p.parent := curPcb;
      p.oldEsp0 := esp0;
      assert p.files[..] == FreshTable;
      OnlyPcbChanged(d);
    }

    /** execute: start the program named at the front of the command line
        as a child of the running one, in the next PCB slot and the next
        program frame, and enter it at its header's entry point.  The
        program name's lookup stores the matched name in open_dentry. */
    method Execute(command: seq<byte>) returns (r: int)
      requires Valid() && |CStr(command)| < INPUT_SIZE
      modifies this, fs, paging.dir, term, pic, arena, FdTables()
      ensures Valid()
      ensures r == 0 || r == -1
      ensures r == 0 <==>
        old(processNumber) < MAX_PROCESSES && Runnable(fs.img, fs.boot, command) &&
        Present(old(paging.dir[PROGRAM_SLOT]))
      ensures r == -1 ==> Snapshot() == old(Snapshot())
      ensures r == 0 ==>
        var inode := EntryInode(fs.img, ProgramEntry(fs.img, fs.boot, command).value);
        Snapshot() == Launched(old(Snapshot()), command, Image(fs.img, fs.boot, inode),
                               EntryPoint(LoadedHeader(fs.img, fs.boot, inode)))
      ensures fs.readDentry == old(fs.readDentry)
      ensures old(processNumber) < MAX_PROCESSES ==>
        fs.openDentry == AfterProgramLookup(old(fs.openDentry), fs.img, fs.boot, command)
      ensures old(processNumber) >= MAX_PROCESSES ==> fs.openDentry == old(fs.openDentry)
    {
      if processNumber >= MAX_PROCESSES {
        return -1;
      }
      r := Checked(command);
    }

    /** execute once a PCB slot is free: the checks on the program file,
        then the launch. */
    method Checked(command: seq<byte>) returns (r: int)
      requires Valid() && processNumber < MAX_PROCESSES && |CStr(command)| < INPUT_SIZE
      modifies this, fs, paging.dir, term, pic, arena, FdTables()
      ensures Valid() && (r == 0 || r == -1)
      ensures r == 0 <==> Runnable(fs.img, fs.boot, command) && Present(old(paging.dir[PROGRAM_SLOT]))
      ensures r == -1 ==> Snapshot() == old(Snapshot())
      ensures r == 0 ==>
        var inode := EntryInode(fs.img, ProgramEntry(fs.img, fs.boot, command).value);
        Snapshot() == Launched(old(Snapshot()), command, Image(fs.img, fs.boot, inode),
                               EntryPoint(LoadedHeader(fs.img, fs.boot, inode)))
      ensures fs.readDentry == old(fs.readDentry)
      ensures fs.openDentry == AfterProgramLookup(old(fs.openDentry), fs.img, fs.boot, command)
    {
      var inode, header := CheckProgram(fs, command);
      OnlyFsChanged();
      if inode == -1 {
        return -1;
      }
      r := Launch(command, inode, header);
    }

    /** execute after the program checks: the window check, the read of
        the program's bytes, then the start of the program. */
    method Launch(command: seq<byte>, inode: int, header: seq<byte>) returns (r: int)
      requires Valid() && processNumber < MAX_PROCESSES
      requires |CStr(command)| < INPUT_SIZE && 0 <= inode < fs.boot.inodes && |header| == HEADER_LEN
      modifies this, paging.dir, term, pic, arena, FdTables()
      ensures Valid() && (r == 0 || r == -1)
      ensures r == 0 <==> Present(old(paging.dir[PROGRAM_SLOT]))
      ensures r == -1 ==> Snapshot() == old(Snapshot())
      ensures r == 0 ==> Snapshot() == Launched(old(Snapshot()), command, Image(fs.img, fs.boot, inode), EntryPoint(header))
      ensures fs.openDentry == old(fs.openDentry) && fs.readDentry == old(fs.readDentry)
    {
      if BigPageEntry(paging.dir[..], PROGRAM_SLOT).None? {
        return -1;
      }
      label Checked:
      var image := LoadProgram(inode);
      OnlyAllocated@Checked();
      Start(command, image, header);
      r := 0;
    }

    /** The part of execute after the image is read: set up the next PCB,
        then switch to the image in the next frame. */
    method Start(command: seq<byte>, image: seq<byte>, header: seq<byte>)
      requires Valid() && processNumber < MAX_PROCESSES && Present(paging.dir[PROGRAM_SLOT])
      requires |CStr(command)| < INPUT_SIZE && |header| == HEADER_LEN
      modifies this, paging.dir, term, pic, arena, FdTables()
      ensures Valid() && Snapshot() == Launched(old(Snapshot()), command, image, EntryPoint(header))
    {
      ghost var before := Snapshot();
      NewPcb(command);
      ExecIgnoresNextSlot(before.procs, State().saved[processNumber]);
      label Built:
      Switch(image, header);
      OnlyProcsChanged@Built();
      LaunchPhases(before, command, image, EntryPoint(header));
    }

    /** The next PCB, filled in while the running process is still current:
        fresh descriptors, the command line, and what halt restores. */
    method NewPcb(command: seq<byte>)
      requires Valid() && processNumber < MAX_PROCESSES && |CStr(command)| < INPUT_SIZE
      modifies arena[processNumber], arena[processNumber].files, term, pic
      ensures Valid() && Snapshot() == Prepared(old(Snapshot()), command)
    {
      ghost var before := State();
      var files := arena[processNumber].files;
      SetUpPcb(processNumber, command, paging.dir[PROGRAM_SLOT].frame);
      assert SlotsOk() by {
        forall t | t in FdTables()
          ensures TableOk(t)
        {
          if t != files {
            assert old(TableOk(t));
          }
        }
      }
      assert State() == before.(saved := before.saved[processNumber := Saved(curPcb, paging.dir[PROGRAM_SLOT].frame, esp0)]);
    }

    /** The switch to the new program: slot 32 at the next frame holding the
        loaded image, the new PCB current, its kernel stack in tss.esp0. */
    method Switch(image: seq<byte>, header: seq<byte>)
      requires ProcsOk() && processNumber < MAX_PROCESSES && Present(paging.dir[PROGRAM_SLOT])
      requires State().saved[processNumber] == Saved(curPcb, paging.dir[PROGRAM_SLOT].frame, esp0)
      requires |header| == HEADER_LEN
      modifies this, paging.dir
      ensures ProcsOk() && Snapshot() == Entered(old(Snapshot()), image, EntryPoint(header))
    {
      ghost var before := State();
      ExecNested(before);
      var pn := processNumber;
      var frame := ProgramFrame(pn);
      paging.dir[PROGRAM_SLOT] := paging.dir[PROGRAM_SLOT].(frame := frame);
      loaded := loaded[frame := image];
      curPcb := PcbAddress(pn);
      processNumber := pn + 1;
      esp0 := EIGHT_MB - processNumber * EIGHT_KB;
      entered := Some(UserEntry(EntryPoint(header), USER_ESP));
      assert State() == ExecTransition(before);
    }

    /** read: -1 for a descriptor outside 0-7, a NULL buffer, a negative
        count or a free slot; otherwise the read routine of the slot's table
        does the read, on the running program's descriptor table. */
    method SysRead(fd: int, buf: array?<byte>, nbytes: int, keys: seq<byte>) returns (r: int)
      requires Valid() && IsPcbAddress(curPcb) && IsInt32(nbytes)
      requires buf != null && 0 <= fd < FD_COUNT && 0 <= nbytes ==>
        ReadRoom(fs.img, fs.boot, term, fd, Cur().files[fd], buf, nbytes, keys)
      modifies fs, rtc, term, term.keyBuf, buf, Cur().files
      ensures Valid() && rtc.regA == old(rtc.regA)
      ensures var files := Cur().files;
        !(0 <= fd < FD_COUNT && buf != null && 0 <= nbytes && InUse(old(files[fd].flags))) ==>
          && r == -1 && files[..] == old(files[..]) && term.State() == old(term.State())
          && rtc.interrupt == old(rtc.interrupt) && (buf != null ==> buf[..] == old(buf[..]))
      ensures var files := Cur().files;
        0 <= fd < FD_COUNT && buf != null && 0 <= nbytes && InUse(old(files[fd].flags)) ==>
          && (forall k :: 0 <= k < FD_COUNT && k != fd ==> files[k] == old(files[k]))
          && ReadEffect(fs.img, fs.boot, term.keyMap, keys, fd, nbytes, r, old(files[fd]), files[fd],
                        old(buf[..]), buf[..], old(term.State()), term.State(),
                        old(rtc.interrupt), rtc.interrupt)
    {
      if fd < 0 || fd > FD_COUNT - 1 || buf == null || nbytes < 0 {
        return -1;
      }
      var files := arena[Depth(curPcb)].files;
      if !InUse(files[fd].flags) {
        return -1;
      }
      r := ReadOpen(fd, buf, nbytes, keys);
    }

    /** The read of a checked call on a descriptor in use. */
    method ReadOpen(fd: int, buf: array<byte>, nbytes: int, keys: seq<byte>) returns (r: int)
      requires Valid() && IsPcbAddress(curPcb) && IsInt32(nbytes) && 0 <= nbytes && 0 <= fd < FD_COUNT
      requires InUse(Cur().files[fd].flags)
      requires ReadRoom(fs.img, fs.boot, term, fd, Cur().files[fd], buf, nbytes, keys)
      modifies fs, rtc, term, term.keyBuf, buf, Cur().files
      ensures Valid() && rtc.regA == old(rtc.regA)
      ensures var files := Cur().files;
        && (forall k :: 0 <= k < FD_COUNT && k != fd ==> files[k] == old(files[k]))
        && ReadEffect(fs.img, fs.boot, term.keyMap, keys, fd, nbytes, r, old(files[fd]), files[fd],
                      old(buf[..]), buf[..], old(term.State()), term.State(),
                      old(rtc.interrupt), rtc.interrupt)
    {
      var files := arena[Depth(curPcb)].files;
      assert files in FdTables();
      r := ReadThrough(fs, rtc, term, fd, buf, nbytes, keys, files);
      TableChangeKeepsValid(files);
    }

    /** write: the same checks as read, then the write routine of the
        slot's table; no descriptor changes. */
    method SysWrite(fd: int, buf: array?<byte>, nbytes: int) returns (r: int)
      requires Valid() && IsPcbAddress(curPcb)
      requires buf != null && 0 <= fd < FD_COUNT ==> WriteRoom(fd, Cur().files[fd], buf, nbytes)
      modifies rtc, term
      ensures Valid() && rtc.interrupt == old(rtc.interrupt)
      ensures !(0 <= fd < FD_COUNT && buf != null && 0 <= nbytes && InUse(Cur().files[fd].flags)) ==>
          r == -1 && rtc.regA == old(rtc.regA) && term.State() == old(term.State())
      ensures 0 <= fd < FD_COUNT && buf != null && 0 <= nbytes && InUse(Cur().files[fd].flags) ==>
        WriteEffect(fd, nbytes, r, Cur().files[fd], buf[..], old(rtc.regA), rtc.regA,
                    old(term.State()), term.State())
    {
      if fd < 0 || fd > FD_COUNT - 1 || buf == null || nbytes < 0 {
        return -1;
      }
      var d := arena[Depth(curPcb)].files[fd];
      if !InUse(d.flags) {
        return -1;
      }
      assert arena[Depth(curPcb)].files in FdTables();
      r := WriteThrough(rtc, term, fd, d, buf, nbytes);
    }

    /** open: -1 for a NULL name, a name no entry has, or a full table;
        otherwise the lowest free slot 2-7 gets the table the entry's kind
        selects and that table's open routine, and its index is returned. */
    method SysOpen(filename: Option<seq<byte>>) returns (r: int)
      requires Valid() && IsPcbAddress(curPcb)
      modifies fs, rtc, term, pic, Cur().files
      ensures Valid()
      ensures var files, m := Cur().files, Lookup(fs.img, fs.boot, filename);
        && (r == -1 <==> m.None? || LowestFree(old(files[..])) == -1)
        && (r == -1 ==> files[..] == old(files[..]))
        && (r != -1 ==>
              && r == LowestFree(old(files[..]))
              && files[..] == old(files[..])[r := OpenedFd(old(files[r]), EntryKind(fs.img, m.value) as int,
                                                           EntryInode(fs.img, m.value))])
    {
      if filename.None? {
        return -1;
      }
      var found, kind := FindEntry(fs, filename);
      assert arena[Depth(curPcb)].files in FdTables();
      TableChangeKeepsValid(arena[Depth(curPcb)].files);
      if !found {
        return -1;
      }
      r := OpenFree(filename, kind);
    }

    /** open once the name is found: claim the lowest free slot 2-7. */
    method OpenFree(filename: Option<seq<byte>>, kind: u32) returns (r: int)
      requires Valid() && IsPcbAddress(curPcb) && Lookup(fs.img, fs.boot, filename).Some?
      requires kind == EntryKind(fs.img, Lookup(fs.img, fs.boot, filename).value)
      modifies fs, rtc, term, pic, Cur().files
      ensures Valid()
      ensures var files, m := Cur().files, Lookup(fs.img, fs.boot, filename);
        && (r == -1 <==> LowestFree(old(files[..])) == -1)
        && (r == -1 ==> files[..] == old(files[..]))
        && (r != -1 ==>
              && r == LowestFree(old(files[..]))
              && files[..] == old(files[..])[r := OpenedFd(old(files[r]), kind as int, EntryInode(fs.img, m.value))])
    {
      var i := FindFree(arena[Depth(curPcb)].files);
      if i == -1 {
        return -1;
      }
      OpenAt(filename, kind, i);
      r := i;
    }

    /** open's claim of the free slot i. */
    method OpenAt(filename: Option<seq<byte>>, kind: u32, i: int)
      requires Valid() && IsPcbAddress(curPcb) && Lookup(fs.img, fs.boot, filename).Some?
      requires kind == EntryKind(fs.img, Lookup(fs.img, fs.boot, filename).value)
      requires i == LowestFree(Cur().files[..]) != -1
      modifies fs, rtc, term, pic, Cur().files
      ensures Valid()
      ensures var files, m := Cur().files, Lookup(fs.img, fs.boot, filename);
        files[..] == old(files[..])[i := OpenedFd(old(files[i]), kind as int, EntryInode(fs.img, m.value))]
    {
      var files := arena[Depth(curPcb)].files;
      assert files in FdTables();
      OpenThrough(fs, rtc, term, pic, filename, files, i, kind);
      TableChangeKeepsValid(files);
    }

    /** close: -1 for a descriptor outside 2-7 or a free slot; otherwise
        the close routine of the slot's table releases it. */
    method SysClose(fd: int) returns (r: int)
      requires Valid() && IsPcbAddress(curPcb)
      modifies fs, Cur().files
      ensures Valid() && (r == 0 || r == -1)
      ensures var files := Cur().files;
        r == 0 <==> 2 <= fd < FD_COUNT && InUse(old(files[fd].flags))
      ensures var files := Cur().files;
        r == -1 ==> files[..] == old(files[..])
      ensures var files := Cur().files;
        r == 0 ==> files[..] == old(files[..])[fd := old(files[fd]).(flags := 0)]
    {
      if fd < 2 || fd > FD_COUNT - 1 {
        return -1;
      }
      var d := Depth(curPcb);
      if !InUse(arena[d].files[fd].flags) {
        return -1;
      }
      r := Close(d, fd);
    }

    /** getargs: copy the running program's arguments (the command line
        after its first space, with its terminator) into buf, at most
        nbytes bytes; -1 when nbytes is 0 or there are no arguments. */
    method Getargs(buf: array<byte>, nbytes: int) returns (r: int)
      requires Valid() && IsPcbAddress(curPcb) && IsInt32(nbytes)
      requires SPACE in CStr(Cur().input) && buf != term.keyBuf
      requires buf.Length >= |ArgBytes(CStr(Cur().input), nbytes)|
      modifies buf
      ensures Valid() && (r == 0 || r == -1)
      ensures var input := CStr(Cur().input); var a := ArgBytes(input, nbytes);
        && (r == -1 <==> ArgsFail(input, nbytes))
        && buf[..|a|] == a && buf[|a|..] == old(buf[|a|..])
    {
      var input := CStr(arena[Depth(curPcb)].input);
      var idx := CopyArgs(input, nbytes, buf);
      r := if idx == 0 then -1 else 0;
    }

    /** vidmap: for a pointer above 4 MB, and while page 0xB8 of slot 33
        is mapped, the address stored through screen_start; otherwise -1
        and nothing is stored. */
    method Vidmap(screenStart: u32) returns (r: int, stored: Option<int>)
      requires Valid()
      ensures r == 0 || r == -1
      ensures r == 0 <==> screenStart as int > FOUR_MB && paging.table1[VIDEO_PAGE].present
      ensures stored.Some? <==> r == 0
      ensures stored.Some? ==> stored.value == VIDMAP_ADDR
    {
      if screenStart == 0 || screenStart as int <= FOUR_MB {
        return -1, None;
      }
      var entry := PageTableEntry(paging.dir[..], paging.table0[..], paging.table1[..],
                                  paging.table0Base, paging.table1Base, USER_VMEM_SLOT as u32, VIDEO_PAGE as u32);
      if entry.NullEntry? {
        return -1, None;
      }
      return 0, Some(VIDMAP_ADDR);
    }
  }
}
