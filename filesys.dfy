/**
 * The read-only file-system driver: the mounted image, the two records
 * open_dentry and read_dentry the lookups fill, the streaming reader
 * read_data, and the regular-file and directory drivers that work on the
 * current process's descriptor table.
 */
module FileSys {
  import opened Machine
  import opened Pcb
  import opened FsImage

  /** Flags file_open stores: in use, kind regular, traversal index 1. */
  const OPEN_FILE_FLAGS: u32 := 0x105
  /** Flags dir_open stores: in use, kind directory. */
  const OPEN_DIR_FLAGS: u32 := 0x3

  /** The record pointer a lookup writes through. */
  datatype DentryPtr = NullPtr | OpenDentryPtr | ReadDentryPtr | Caller(rec: Dentry)

  /** The caller's record as the pointer holds it before the call. */
  function CallerRecord(dest: DentryPtr): Dentry
  {
    if dest.Caller? then dest.rec else ZeroDentry
  }

  /** The bytes s written over the front of b. */
  function Overlay(b: seq<byte>, s: seq<byte>): (c: seq<byte>)
    requires |s| <= |b|
    ensures |c| == |b| && c[..|s|] == s && c[|s|..] == b[|s|..]
  {
    s + b[|s|..]
  }

  /** What read_data leaves in the buffer: the copied bytes, then a 0 after a
      short read. */
  function Written(o: ReadOutcome): seq<byte>
  {
    if o.Walked? then o.w.bytes + (if o.w.Stopped? then [0] else []) else []
  }

  /** The traversal index read_data starts from: flag bits 8-19 of the
      descriptor, or 0 for the loader's fd -1. */
  function StartIdx(files: seq<FileDesc>, fd: int): int
    requires fd == -1 || 0 <= fd < |files|
  {
    if fd == -1 then 0 else TraversalIdx(files[fd].flags)
  }

  /** The descriptor table after read_data: a complete read with fd != -1
      stores the loop's final traversal index in bits 8-19 of the slot. */
  function SaveIdx(files: seq<FileDesc>, fd: int, o: ReadOutcome): (t: seq<FileDesc>)
    requires fd == -1 || 0 <= fd < |files|
    requires o.Walked? && o.w.Complete? ==> 0 <= o.w.idx < IDX_LIMIT
    ensures |t| == |files|
  {
    if fd != -1 && o.Walked? && o.w.Complete? then
      files[fd := files[fd].(flags := WithTraversalIdx(files[fd].flags, o.w.idx))]
    else files
  }

  /** One loop iteration's prefix placed in front of the rest of the walk. */
  function Glue(s: seq<byte>, w: WalkResult): (r: WalkResult)
    ensures r.bytes == s + w.bytes
    ensures r.Complete? == w.Complete? && (r.Complete? ==> r.idx == w.idx)
  {
    match w
    case Complete(bs, i) => Complete(s + bs, i)
    case Stopped(bs) => Stopped(s + bs)
  }

  /** A walk with nothing left to read ends complete on its cursor's index. */
  lemma {:induction false} GlueDone(s: seq<byte>, v: InodeRef, c: Cursor)
    requires 0 <= c.idx < IDX_LIMIT
    ensures Glue(s, Walk(v, c, 0)) == Complete(s, c.idx)
  {
    assert s + [] == s;
  }

  lemma {:induction false} GlueEmpty(w: WalkResult)
    ensures Glue([], w) == w
  {
    assert [] + w.bytes == w.bytes;
  }

  lemma {:induction false} GluePrepend(s: seq<byte>, b: byte, w: WalkResult)
    ensures Glue(s, Prepend(b, w)) == Glue(s + [b], w)
  {
    assert s + ([b] + w.bytes) == (s + [b]) + w.bytes;
  }

  /** An iteration that finds the offset past the length word, or the
      traversal index at 1024, ends the walk with what was copied so far. */
  lemma {:induction false} StopHere(v: InodeRef, c: Cursor, m: nat, s: seq<byte>)
    requires 0 <= c.idx < IDX_LIMIT && m > 0
    requires c.offset >= Size(v) || Prepare(v, c).None?
    ensures Glue(s, Walk(v, c, m)) == Stopped(s)
  {
    assert s + [] == s;
  }

  /** An iteration that reaches a valid block copies the byte under the
      prepared pointer and moves one byte on. */
  lemma {:induction false} CopyOne(v: InodeRef, c: Cursor, p: Cursor, m: nat, s: seq<byte>)
    requires 0 <= c.idx < IDX_LIMIT && m > 0 && c.offset < Size(v) && Prepare(v, c) == Some(p)
    ensures Glue(s, Walk(v, c, m)) ==
      Glue(s + [ByteAt(v.img, p.ptr)], Walk(v, Cursor(p.offset + 1, p.idx, p.dnode, p.ptr + 1), m - 1))
  {
    WalkUnfold(v, c, m, p);
    GluePrepend(s, ByteAt(v.img, p.ptr), Walk(v, Cursor(p.offset + 1, p.idx, p.dnode, p.ptr + 1), m - 1));
  }

  lemma {:induction false} OverlayOf(b: seq<byte>, a: seq<byte>, w: seq<byte>)
    requires |w| <= |a| == |b|
    requires forall k :: 0 <= k < |w| ==> b[k] == w[k]
    requires forall k :: |w| <= k < |b| ==> b[k] == a[k]
    ensures b == Overlay(a, w)
  {
  }

  /** The number of name bytes dir_read copies: at most nbytes, stopping at
      the end of the name. */
  function DirCount(nameLen: int, nbytes: int): int
  {
    Min(Max(nbytes, 0), nameLen)
  }

  /** The bytes dir_read writes: the copied part of the name, then a 0 when
      the copy reached the end of the name. */
  function DirBytes(name: seq<byte>, nbytes: int): (s: seq<byte>)
    ensures |s| == DirCount(|name|, nbytes) + (if DirCount(|name|, nbytes) == |name| then 1 else 0)
  {
    var k := DirCount(|name|, nbytes);
    name[..k] + (if k == |name| then [0] else [])
  }

  /** A slot dir_read accepts: in use, with kind bit 1 set. */
  predicate DirReadable(d: FileDesc)
  {
    InUse(d.flags) && (d.flags / 2) % 2 == 1
  }

  /** A slot file_read accepts: in use and of regular kind. */
  predicate FileReadable(d: FileDesc)
  {
    InUse(d.flags) && KindOf(d.flags) == REG_FILE
  }

  /** The descriptor after file_read: read_data's saved traversal index,
      then the position advanced (mod 2^32) by what read_data returned. */
  function AfterRead(d: FileDesc, o: ReadOutcome): (e: FileDesc)
    requires o.Walked? && o.w.Complete? ==> 0 <= o.w.idx < IDX_LIMIT
    ensures e.ops == d.ops && e.inode == d.inode
    ensures InUse(e.flags) == InUse(d.flags) && KindOf(e.flags) == KindOf(d.flags)
    ensures TraversalIdx(e.flags) == SavedIdx(o, TraversalIdx(d.flags))
  {
    var f := if o.Walked? && o.w.Complete? then WithTraversalIdx(d.flags, o.w.idx) else d.flags;
    d.(flags := f, filePos := AddWrap(d.filePos, Count(o)))
  }

  /** A descriptor in step with a well-formed file: its position lies in
      the file and its saved traversal index is the one for that position. */
  ghost predicate InStep(img: seq<u32>, bb: BootBlock, d: FileDesc)
  {
    var v := InodeRef(img, bb, d.inode);
    WellFormed(v) && Synced(v, d.filePos, TraversalIdx(d.flags))
  }

  /** Reading n bytes through a descriptor in step delivers the next bytes
      of the file, moves the position past exactly those bytes (stopping at
      the end of the file) and leaves the descriptor in step, so a run of
      file_read calls streams the file in order. */
  lemma {:induction false} FileReadStreams(img: seq<u32>, bb: BootBlock, d: FileDesc, n: nat)
    requires InStep(img, bb, d)
    ensures var v := InodeRef(img, bb, d.inode);
      var o := ReadDataSpec(img, bb, true, d.inode, d.filePos, TraversalIdx(d.flags), n);
      Delivered(o) == FileBytes(v)[d.filePos..Min(d.filePos + n, Size(v))] &&
      AfterRead(d, o).filePos == Min(d.filePos + n, Size(v)) &&
      InStep(img, bb, AfterRead(d, o))
  {
    var v := InodeRef(img, bb, d.inode);
    ResumedRead(v, d.filePos, TraversalIdx(d.flags), n);
  }

  /** With room for a whole name, dir_read hands back entry pos's name and
      its terminator; that C string resolves back to entry pos when no
      earlier entry shares the name, so a listed name can be opened. */
  lemma {:induction false} DirReadNames(img: seq<u32>, bb: BootBlock, pos: nat, nbytes: int)
    requires pos < bb.dirEntries && nbytes >= NAME_LEN
    requires forall j :: 0 <= j < pos ==> EntryName(img, j) != EntryName(img, pos)
    ensures var n := EntryName(img, pos);
      DirCount(|n|, nbytes) == |n| && DirBytes(n, nbytes) == n + [0] &&
      Lookup(img, bb, Some(DirBytes(n, nbytes))) == Some(pos)
  {
    var n := EntryName(img, pos);
    var s := DirBytes(n, nbytes);
    assert s == n + [0];
    CLenStopsAtZero(s, |n|);
    assert CStr(s) == n;
    ListedNameResolves(img, bb, pos);
  }

  /** The fields of the two flags words the open routines store. */
  lemma OpenFlagsFields()
    ensures InUse(OPEN_FILE_FLAGS) && KindOf(OPEN_FILE_FLAGS) == REG_FILE && TraversalIdx(OPEN_FILE_FLAGS) == 1
    ensures InUse(OPEN_DIR_FLAGS) && KindOf(OPEN_DIR_FLAGS) == DIR_FILE && DirReadable(FileDesc(NoTable, 0, 0, OPEN_DIR_FLAGS))
  {
  }

  /** file_write: the file system is read-only. */
  function FileWrite(fd: int, buf: Option<seq<byte>>, nbytes: int): (r: int)
    ensures r == -1
  {
    -1
  }

  /** dir_write: refused for the same reason as file_write. */
  function DirWrite(fd: int, buf: Option<seq<byte>>, nbytes: int): (r: int)
    ensures r == -1
  {
    FileWrite(fd, buf, nbytes)
  }

  class FileSystem {
    /** The image filesys_ptr points at. */
    const img: seq<u32>
    /** The boot-block summary init_filesys copies. */
    const boot: BootBlock
    var openDentry: Dentry
    var readDentry: Dentry

    /** Both records keep their 32 name bytes. */
    ghost predicate Valid()
      reads this
    {
      |openDentry.name| == NAME_LEN && |readDentry.name| == NAME_LEN
    }

    /** init_filesys: read the boot block and zero both records. */
    constructor (image: seq<u32>)
      ensures img == image && boot == BootOf(image)
      ensures openDentry == ZeroDentry && readDentry == ZeroDentry
      ensures Valid()
    {
      img := image;
      boot := BootBlock(WordAt(image, 0), WordAt(image, 1), WordAt(image, 2));
      openDentry := ZeroDentry;
      readDentry := ZeroDentry;
    }

    /** get_file_size: -1 for a NULL record, 0 for a record that is not a
        regular file, else the inode's length word as an int32_t. */
    function GetFileSize(dentry: Option<Dentry>): (r: int)
      ensures dentry.None? ==> r == -1
      ensures dentry.Some? && dentry.value.kind != REGULAR_KIND ==> r == 0
      ensures dentry.Some? && dentry.value.kind == REGULAR_KIND ==>
        r == ToInt32(Size(InodeRef(img, boot, dentry.value.inode)))
    {
      if dentry.None? then -1
      else if dentry.value.kind != REGULAR_KIND then 0
      else ToInt32(WordAt(img, BLOCK_WORDS * (dentry.value.inode + 1)))
    }

    /** read_dentry_by_name: scan the entries for the first whose name is
        the C string at fname.  The matched name goes into open_dentry; the
        padding, kind and inode go through the record pointer. */
    method ReadDentryByName(fname: Option<seq<byte>>, dest: DentryPtr) returns (r: int, rec: Dentry)
      requires Valid()
      requires dest.Caller? ==> |dest.rec.name| == NAME_LEN
      modifies this
      ensures Valid()
      ensures r == -1 <==> dest.NullPtr? || Lookup(img, boot, fname).None?
      ensures r == -1 || r == 0
      ensures r == -1 ==> openDentry == old(openDentry) && readDentry == old(readDentry) && rec == CallerRecord(dest)
      ensures r == 0 && dest.OpenDentryPtr? ==>
        openDentry == Record(img, Lookup(img, boot, fname).value) &&
        readDentry == old(readDentry) && rec == CallerRecord(dest)
      ensures r == 0 && dest.ReadDentryPtr? ==>
        openDentry == StashName(old(openDentry), img, Lookup(img, boot, fname).value) &&
        readDentry == Fill(old(readDentry), img, Lookup(img, boot, fname).value) && rec == CallerRecord(dest)
      ensures r == 0 && dest.Caller? ==>
        openDentry == StashName(old(openDentry), img, Lookup(img, boot, fname).value) &&
        readDentry == old(readDentry) && rec == Fill(dest.rec, img, Lookup(img, boot, fname).value)
    {
      rec := CallerRecord(dest);
      if fname.None? || dest.NullPtr? {
        return -1, rec;
      }
      var name := CStr(fname.value);
      if |name| > NAME_LEN {
        return -1, rec;
      }
      var i := 0;
      while i < boot.dirEntries && EntryName(img, i) != name
        invariant 0 <= i <= boot.dirEntries
        invariant FindFrom(img, boot.dirEntries, name, i) == Lookup(img, boot, fname)
      {
        i := i + 1;
      }
      if i >= boot.dirEntries {
        return -1, rec;
      }
      openDentry := StashName(openDentry, img, i);
      match dest {
        case OpenDentryPtr =>
          StashThenFill(old(openDentry), img, i);
          openDentry := Fill(openDentry, img, i);
        case ReadDentryPtr =>
          readDentry := Fill(readDentry, img, i);
        case Caller(d) =>
          rec := Fill(d, img, i);
      }
      r := 0;
    }

    /** read_dentry_by_index: fill the record with entry `index`. */
    method ReadDentryByIndex(index: u32, dest: DentryPtr) returns (r: int, rec: Dentry)
      requires Valid()
      modifies this
      ensures Valid()
      ensures r == -1 <==> dest.NullPtr? || index >= boot.dirEntries
      ensures r == -1 || r == 0
      ensures r == 0 && dest.OpenDentryPtr? ==> openDentry == Record(img, index) && readDentry == old(readDentry)
      ensures r == 0 && dest.ReadDentryPtr? ==> readDentry == Record(img, index) && openDentry == old(openDentry)
      ensures r == 0 && dest.Caller? ==> rec == Record(img, index)
      ensures !(r == 0 && dest.Caller?) ==> rec == CallerRecord(dest)
      ensures !(r == 0 && dest.OpenDentryPtr?) ==> openDentry == old(openDentry)
      ensures !(r == 0 && dest.ReadDentryPtr?) ==> readDentry == old(readDentry)
    {
      rec := CallerRecord(dest);
      if dest.NullPtr? || index >= boot.dirEntries {
        return -1, rec;
      }
      match dest {
        case OpenDentryPtr => openDentry := Record(img, index);
        case ReadDentryPtr => readDentry := Record(img, index);
        case Caller(_) => rec := Record(img, index);
      }
      r := 0;
    }

    /** read_data: copy up to `length` bytes of inode `inode` from `offset`,
        resuming at the traversal index saved in descriptor fd (0 for fd
        -1).  The copy loop is specified by Walk. */
    method ReadData(inode: u32, offset: u32, buf: array?<byte>, length: u32, fd: int, files: array<FileDesc>)
      returns (r: int)
      requires files.Length == FD_COUNT && (fd == -1 || 0 <= fd < FD_COUNT)
      requires buf != null ==> buf.Length >= length
      modifies buf, files
      ensures var o := ReadDataSpec(img, boot, buf != null, inode, offset, StartIdx(old(files[..]), fd), length);
        r == Count(o) &&
        (buf != null ==> |Written(o)| <= buf.Length && buf[..] == Overlay(old(buf[..]), Written(o))) &&
        files[..] == SaveIdx(old(files[..]), fd, o)
    {
      if buf == null {
        return -1;
      }
      if inode >= boot.inodes {
        return -1;
      }
      var fileSize := WordAt(img, BLOCK_WORDS * (inode + 1));
      if offset >= fileSize {
        return 0;
      }
      var idx: int;
      if fd != -1 {
        idx := TraversalIdx(files[fd].flags);
      } else {
        idx := 0;
      }
      if idx >= IDX_LIMIT {
        return 0;
      }
      var dnode := WordAt(img, BLOCK_WORDS * (inode + 1) + idx);
      var ptr := BLOCK_SIZE * (boot.inodes + dnode + 1) + offset % BLOCK_SIZE;
      ghost var v := InodeRef(img, boot, inode);
      assert Cursor(offset, idx, dnode, ptr) == EntryCursor(v, offset, idx);
      ghost var whole := Walk(v, EntryCursor(v, offset, idx), length);
      var complete;
      r, complete, idx := CopyBytes(inode, fileSize, offset, idx, dnode, ptr, buf, length, whole);
      if complete && fd != -1 {
        files[fd] := files[fd].(flags := WithTraversalIdx(files[fd].flags, idx));
      }
    }

    /** The copy loop of read_data from the cursor it sets up; a short read
        leaves a 0 after the copied bytes. */
    method CopyBytes(inode: u32, fileSize: u32, offset: int, idx0: int, dnode0: u32, ptr0: int,
                     buf: array<byte>, length: u32, ghost whole: WalkResult)
      returns (it: int, complete: bool, idx: int)
      requires 0 <= idx0 < IDX_LIMIT && buf.Length >= length
      requires fileSize == Size(InodeRef(img, boot, inode))
      requires whole == Walk(InodeRef(img, boot, inode), Cursor(offset, idx0, dnode0, ptr0), length)
      modifies buf
      ensures it == |whole.bytes| && complete == whole.Complete? && (complete ==> idx == whole.idx)
      ensures |Written(Walked(whole))| <= buf.Length && buf[..] == Overlay(old(buf[..]), Written(Walked(whole)))
    {
      ghost var v := InodeRef(img, boot, inode);
      ghost var orig := buf[..];
      ghost var done: seq<byte> := [];
      GlueEmpty(whole);
      var off, dnode, ptr := offset, dnode0, ptr0;
      it, idx := 0, idx0;
      while it < length
        invariant 0 <= it <= length && 0 <= idx < IDX_LIMIT && |done| == it
        invariant whole == Glue(done, Walk(v, Cursor(off, idx, dnode, ptr), length - it))
        invariant buf[..] == Overlay(orig, done)
      {
        var ok;
        ok, idx, dnode, ptr, done := Step(inode, fileSize, off, idx, dnode, ptr, buf, it, length, whole, done, orig);
        if !ok {
          return it, false, idx;
        }
        it, off, ptr := it + 1, off + 1, ptr + 1;
      }
      GlueDone(done, v, Cursor(off, idx, dnode, ptr));
      complete := true;
    }

    /** One pass of the copy loop at buf[it]: the next byte of the file
        after the bytes `done`, or the 0 of a short read. */
    method Step(inode: u32, fileSize: u32, off: int, idx0: int, dnode0: u32, ptr0: int,
                buf: array<byte>, it: int, length: u32, ghost whole: WalkResult,
                ghost done: seq<byte>, ghost orig: seq<byte>)
      returns (ok: bool, idx: int, dnode: u32, ptr: int, ghost done': seq<byte>)
      requires 0 <= idx0 < IDX_LIMIT && 0 <= it < length <= buf.Length && |done| == it && |orig| == buf.Length
      requires fileSize == Size(InodeRef(img, boot, inode))
      requires whole == Glue(done, Walk(InodeRef(img, boot, inode), Cursor(off, idx0, dnode0, ptr0), length - it))
      requires buf[..] == Overlay(orig, done)
      modifies buf
      ensures 0 <= idx < IDX_LIMIT && |done'| == it + 1
      ensures ok ==> whole == Glue(done', Walk(InodeRef(img, boot, inode), Cursor(off + 1, idx, dnode, ptr + 1), length - (it + 1)))
      ensures ok ==> buf[..] == Overlay(orig, done')
      ensures !ok ==> whole == Stopped(done) && done' == done + [0] && buf[..] == Overlay(orig, done')
    {
      ok, idx, dnode, ptr := Iteration(inode, fileSize, off, idx0, dnode0, ptr0, whole, done, length - it);
      done' := Store(buf, it, if ok then ByteAt(img, ptr) else 0, done, orig);
    }

    /** One iteration of read_data's loop after the bytes `done`: either it
        prepares the pointer to the byte to copy next, or the file or the
        traversal index runs out and the walk ends with what was copied. */
    method Iteration(inode: u32, fileSize: u32, off: int, idx0: int, dnode0: u32, ptr0: int,
                     ghost whole: WalkResult, ghost done: seq<byte>, ghost m: nat)
      returns (ok: bool, idx: int, dnode: u32, ptr: int)
      requires 0 <= idx0 < IDX_LIMIT && m > 0
      requires fileSize == Size(InodeRef(img, boot, inode))
      requires whole == Glue(done, Walk(InodeRef(img, boot, inode), Cursor(off, idx0, dnode0, ptr0), m))
      ensures 0 <= idx < IDX_LIMIT
      ensures ok ==> whole == Glue(done + [ByteAt(img, ptr)], Walk(InodeRef(img, boot, inode), Cursor(off + 1, idx, dnode, ptr + 1), m - 1))
      ensures !ok ==> whole == Stopped(done)
    {
      ghost var v := InodeRef(img, boot, inode);
      ok := off < fileSize;
      idx, dnode, ptr := idx0, dnode0, ptr0;
      if ok {
        ok, idx, dnode, ptr := NextValid(inode, off, idx0, dnode0, ptr0);
      }
      if !ok {
        StopHere(v, Cursor(off, idx0, dnode0, ptr0), m, done);
        return;
      }
      CopyOne(v, Cursor(off, idx0, dnode0, ptr0), Cursor(off, idx, dnode, ptr), m, done);
    }

    /** Copy one byte to buf[it], after the bytes `done` over the original
        contents orig. */
    method Store(buf: array<byte>, it: int, b: byte, ghost done: seq<byte>, ghost orig: seq<byte>)
      returns (ghost done': seq<byte>)
      requires 0 <= it < buf.Length && |done| == it && |orig| == buf.Length
      requires buf[..] == Overlay(orig, done)
      modifies buf
      ensures done' == done + [b]
      ensures buf[..] == Overlay(orig, done')
    {
      buf[it] := b;
      done' := done + [b];
      assert buf[..] == done' + orig[it + 1..];
    }

    /** The part of a read_data iteration before the copy: at a nonzero
        multiple of 4096 step to the next traversal index, then step over
        block numbers that are not below D.  Not ok when the index reaches
        1024 first. */
    method NextValid(inode: u32, off: int, idx0: int, dnode0: u32, ptr0: int)
      returns (ok: bool, idx: int, dnode: u32, ptr: int)
      requires 0 <= idx0 < IDX_LIMIT
      ensures var p := Prepare(InodeRef(img, boot, inode), Cursor(off, idx0, dnode0, ptr0));
        (ok <==> p.Some?) && (ok ==> p.value == Cursor(off, idx, dnode, ptr)) && 0 <= idx < IDX_LIMIT
    {
      idx, dnode, ptr := idx0, dnode0, ptr0;
      if off != 0 && off % BLOCK_SIZE == 0 {
        if idx0 + 1 >= IDX_LIMIT {
          return false, idx0, dnode, ptr;
        }
        idx, dnode, ptr := NextBlock(inode, idx0);
      }
      ok, idx, dnode, ptr := SkipBlocks(inode, off, idx, dnode, ptr);
    }

    /** The inner loop of read_data: step over block numbers that are not
        below D; not ok when the index reaches 1024 first. */
    method SkipBlocks(inode: u32, off: int, idx0: int, dnode0: u32, ptr0: int)
      returns (ok: bool, idx: int, dnode: u32, ptr: int)
      requires 0 <= idx0 < IDX_LIMIT
      ensures var r := SkipInvalid(InodeRef(img, boot, inode), Cursor(off, idx0, dnode0, ptr0));
        (ok <==> r.Some?) && (ok ==> r.value == Cursor(off, idx, dnode, ptr)) && 0 <= idx < IDX_LIMIT
    {
      ghost var v := InodeRef(img, boot, inode);
      idx, dnode, ptr := idx0, dnode0, ptr0;
      while dnode >= boot.dataBlocks
        invariant 0 <= idx < IDX_LIMIT
        invariant SkipInvalid(v, Cursor(off, idx, dnode, ptr)) == SkipInvalid(v, Cursor(off, idx0, dnode0, ptr0))
        decreases IDX_LIMIT - idx
      {
        if idx + 1 >= IDX_LIMIT {
          return false, idx, dnode, ptr;
        }
        ghost var c := Cursor(off, idx, dnode, ptr);
        idx, dnode, ptr := NextBlock(inode, idx);
        assert Cursor(off, idx, dnode, ptr) == Reload(v, c, idx);
      }
      ok := true;
    }

    /** One step of the traversal index: the next block number and the
        pointer to the start of its block. */
    method NextBlock(inode: u32, idx0: int) returns (idx: int, dnode: u32, ptr: int)
      ensures idx == idx0 + 1
      ensures dnode == BlockWord(InodeRef(img, boot, inode), idx)
      ensures ptr == BlockStart(InodeRef(img, boot, inode), dnode as int)
    {
      idx := idx0 + 1;
      dnode := WordAt(img, BLOCK_WORDS * (inode + 1) + idx);
      ptr := BLOCK_SIZE * (boot.inodes + dnode + 1);
    }

    /** file_read: read through a regular-file descriptor from its position
        and advance the position by what read_data returns.  The descriptor
        index is not range-checked here; the system-call layer does that. */
    method FileRead(fd: int, buf: array?<byte>, nbytes: int, files: array<FileDesc>) returns (r: int)
      requires files.Length == FD_COUNT && 0 <= fd < FD_COUNT && IsInt32(nbytes)
      requires buf != null ==> buf.Length >= ToU32(nbytes)
      modifies buf, files
      ensures r == -1 || FileReadable(old(files[fd]))
      ensures buf == null || !FileReadable(old(files[fd])) ==> r == -1 && files[..] == old(files[..])
      ensures buf != null && !FileReadable(old(files[fd])) ==> buf[..] == old(buf[..])
      ensures buf != null && FileReadable(old(files[fd])) ==>
        var d := old(files[fd]);
        var o := ReadDataSpec(img, boot, true, d.inode, d.filePos, TraversalIdx(d.flags), ToU32(nbytes));
        r == Count(o) && |Written(o)| <= buf.Length && buf[..] == Overlay(old(buf[..]), Written(o)) &&
        files[..] == old(files[..])[fd := AfterRead(d, o)]
    {
      if buf == null {
        return -1;
      }
      if !InUse(files[fd].flags) || KindOf(files[fd].flags) != REG_FILE {
        return -1;
      }
      r := ReadData(files[fd].inode, files[fd].filePos, buf, ToU32(nbytes), fd, files);
      files[fd] := files[fd].(filePos := AddWrap(files[fd].filePos, r));
    }

    /** read_dentry_by_name called with &open_dentry, as both open routines
        call it: the lookup's record lands in open_dentry. */
    method LookupIntoOpen(filename: Option<seq<byte>>) returns (found: bool)
      requires Valid()
      modifies this
      ensures Valid() && readDentry == old(readDentry)
      ensures found <==> Lookup(img, boot, filename).Some?
      ensures found ==> openDentry == Record(img, Lookup(img, boot, filename).value)
      ensures !found ==> openDentry == old(openDentry)
    {
      var res, rec := ReadDentryByName(filename, OpenDentryPtr);
      found := res != -1;
    }

    /** file_open: claim the lowest free slot 2-7 for the regular file named
        by the C string at filename, positioned at 0 with traversal index 1.
        The lookup fills open_dentry even when the kind check then fails. */
    method FileOpen(filename: Option<seq<byte>>, files: array<FileDesc>) returns (r: int)
      requires Valid() && files.Length == FD_COUNT
      modifies this, files
      ensures Valid() && readDentry == old(readDentry)
      ensures r == -1 || r == 0
      ensures var i, m := LowestFree(old(files[..])), Lookup(img, boot, filename);
        r == 0 <==> i != -1 && m.Some? && EntryKind(img, m.value) == REGULAR_KIND
      ensures var i, m := LowestFree(old(files[..])), Lookup(img, boot, filename);
        openDentry == if i != -1 && m.Some? then Record(img, m.value) else old(openDentry)
      ensures r != 0 ==> files[..] == old(files[..])
      ensures r == 0 ==> var i, m := LowestFree(old(files[..])), Lookup(img, boot, filename);
        files[..] == old(files[..])[i := old(files[i]).(inode := EntryInode(img, m.value), filePos := 0, flags := OPEN_FILE_FLAGS)]
      ensures r == 0 ==> var i := LowestFree(old(files[..]));
        FileReadable(files[i]) && Synced(InodeRef(img, boot, files[i].inode), files[i].filePos, TraversalIdx(files[i].flags))
    {
      var i := FindFree(files);
      if i == -1 {
        return -1;
      }
      var found := LookupIntoOpen(filename);
      if !found {
        return -1;
      }
      if openDentry.kind != REG_FILE {
        return -1;
      }
      OpenFlagsFields();
      files[i] := files[i].(inode := openDentry.inode, filePos := 0, flags := OPEN_FILE_FLAGS);
      r := 0;
    }

    /** file_close: release a regular-file slot among 2-7 and zero the name
        bytes of both records. */
    method FileClose(fd: int, files: array<FileDesc>) returns (r: int)
      requires Valid() && files.Length == FD_COUNT
      modifies this, files
      ensures Valid()
      ensures r == -1 || r == 0
      ensures r == 0 <==> 2 <= fd < FD_COUNT && KindOf(old(files[fd].flags)) == REG_FILE && InUse(old(files[fd].flags))
      ensures r != 0 ==> files[..] == old(files[..]) && openDentry == old(openDentry) && readDentry == old(readDentry)
      ensures r == 0 ==> files[..] == old(files[..])[fd := old(files[fd]).(flags := 0)]
      ensures r == 0 ==> openDentry == old(openDentry).(name := ZeroName) && readDentry == old(readDentry).(name := ZeroName)
      ensures r == 0 ==> 2 <= LowestFree(files[..]) <= fd
    {
      if fd <= 1 || fd >= FD_COUNT {
        return -1;
      }
      if KindOf(files[fd].flags) != REG_FILE {
        return -1;
      }
      if !InUse(files[fd].flags) {
        return -1;
      }
      files[fd] := files[fd].(flags := 0);
      ClearNames();
      r := 0;
    }

    /** The loop of file_close that zeroes the 32 name bytes of open_dentry
        and read_dentry. */
    method ClearNames()
      requires Valid()
      modifies this
      ensures Valid()
      ensures openDentry == old(openDentry).(name := ZeroName)
      ensures readDentry == old(readDentry).(name := ZeroName)
    {
      var i := 0;
      while i < NAME_LEN
        invariant 0 <= i <= NAME_LEN && Valid()
        invariant openDentry.kind == old(openDentry).kind && openDentry.inode == old(openDentry).inode
        invariant readDentry.kind == old(readDentry).kind && readDentry.inode == old(readDentry).inode
        invariant forall k :: 0 <= k < i ==> openDentry.name[k] == 0 && readDentry.name[k] == 0
      {
        openDentry := openDentry.(name := openDentry.name[i := 0]);
        readDentry := readDentry.(name := readDentry.name[i := 0]);
        i := i + 1;
      }
      assert openDentry.name == ZeroName;
      assert readDentry.name == ZeroName;
    }

    /** dir_read: copy the name of entry file_pos into buf (at most nbytes
        bytes, with a terminator when the whole name fits) and move to the
        next entry; 0 once every entry has been read.  read_dentry_by_index
        cannot fail here, because the position is below the entry count, so
        its failure branch is not modelled. */
    method DirRead(fd: int, buf: array?<byte>, nbytes: int, files: array<FileDesc>) returns (r: int)
      requires Valid() && files.Length == FD_COUNT
      requires buf != null && 2 <= fd < FD_COUNT && DirReadable(files[fd]) && files[fd].filePos < boot.dirEntries ==>
        buf.Length >= |DirBytes(EntryName(img, files[fd].filePos), nbytes)|
      modifies this, buf, files
      ensures Valid() && openDentry == old(openDentry)
      ensures r == -1 <==> buf == null || !(2 <= fd < FD_COUNT) || !DirReadable(old(files[fd]))
      ensures r == -1 ==> files[..] == old(files[..]) && readDentry == old(readDentry)
      ensures r == -1 && buf != null ==> buf[..] == old(buf[..])
      ensures r != -1 && old(files[fd]).filePos >= boot.dirEntries ==>
        r == 0 && files[..] == old(files[..]) && buf[..] == old(buf[..]) && readDentry == old(readDentry)
      ensures r != -1 && old(files[fd]).filePos < boot.dirEntries ==>
        var pos := old(files[fd]).filePos;
        var n := EntryName(img, pos);
        r == DirCount(|n|, nbytes) && readDentry == Record(img, pos) &&
        buf[..] == Overlay(old(buf[..]), DirBytes(n, nbytes)) &&
        files[..] == old(files[..])[fd := old(files[fd]).(filePos := pos + 1)]
    {
      if buf == null {
        return -1;
      }
      if fd <= 1 || fd >= FD_COUNT {
        return -1;
      }
      if !InUse(files[fd].flags) || (files[fd].flags / 2) % 2 == 0 {
        return -1;
      }
      var pos := files[fd].filePos;
      if pos >= boot.dirEntries {
        return 0;
      }
      var res, rec := ReadDentryByIndex(pos, ReadDentryPtr);
      r := DirCopy(readDentry.name, buf, nbytes);
      files[fd] := files[fd].(filePos := pos + 1);
    }

    /** The copy loop of dir_read over a 32-byte record name, and the
        terminator it writes when the copy reached the end of the name. */
    method DirCopy(name: seq<byte>, buf: array<byte>, nbytes: int) returns (cnt: int)
      requires |name| == NAME_LEN && buf.Length >= |DirBytes(CStr(name), nbytes)|
      modifies buf
      ensures cnt == DirCount(|CStr(name)|, nbytes)
      ensures buf[..] == Overlay(old(buf[..]), DirBytes(CStr(name), nbytes))
    {
      ghost var n := CStr(name);
      ghost var orig := buf[..];
      cnt := 0;
      var idx := 0;
      while cnt < nbytes && idx < NAME_LEN
        invariant 0 <= idx == cnt <= |n| && idx <= Max(nbytes, 0)
        invariant forall k :: 0 <= k < idx ==> buf[k] == n[k]
        invariant forall k :: idx <= k < buf.Length ==> buf[k] == orig[k]
      {
        if name[idx] == 0 {
          break;
        }
        buf[idx] := name[idx];
        idx := idx + 1;
        cnt := cnt + 1;
      }
      if idx >= NAME_LEN || name[idx] == 0 {
        buf[idx] := 0;
      }
      OverlayOf(buf[..], orig, DirBytes(n, nbytes));
    }

    /** dir_open: claim the lowest free slot 2-7 for the directory named by
        the C string at filename, positioned at entry 0. */
    method DirOpen(filename: Option<seq<byte>>, files: array<FileDesc>) returns (r: int)
      requires Valid() && files.Length == FD_COUNT
      modifies this, files
      ensures Valid() && readDentry == old(readDentry)
      ensures r == -1 || r == 0
      ensures var i, m := LowestFree(old(files[..])), Lookup(img, boot, filename);
        r == 0 <==> i != -1 && m.Some? && EntryKind(img, m.value) == DIR_KIND
      ensures var i, m := LowestFree(old(files[..])), Lookup(img, boot, filename);
        openDentry == if i != -1 && m.Some? then Record(img, m.value) else old(openDentry)
      ensures r != 0 ==> files[..] == old(files[..])
      ensures r == 0 ==> var i := LowestFree(old(files[..]));
        files[..] == old(files[..])[i := old(files[i]).(inode := 0, filePos := 0, flags := OPEN_DIR_FLAGS)]
      ensures r == 0 ==> DirReadable(files[LowestFree(old(files[..]))])
    {
      if filename.None? {
        return -1;
      }
      var i := FindFree(files);
      if i == -1 {
        return -1;
      }
      var found := LookupIntoOpen(filename);
      if !found {
        return -1;
      }
      if openDentry.kind != DIR_FILE {
        return -1;
      }
      OpenFlagsFields();
      files[i] := files[i].(inode := openDentry.inode, filePos := 0, flags := OPEN_DIR_FLAGS);
      r := 0;
    }

    /** dir_close: release a directory slot among 2-7. */
    method DirClose(fd: int, files: array<FileDesc>) returns (r: int)
      requires files.Length == FD_COUNT
      modifies files
      ensures r == -1 || r == 0
      ensures r == 0 <==> 2 <= fd < FD_COUNT && KindOf(old(files[fd].flags)) == DIR_FILE && InUse(old(files[fd].flags))
      ensures r != 0 ==> files[..] == old(files[..])
      ensures r == 0 ==> files[..] == old(files[..])[fd := old(files[fd]).(flags := 0)]
      ensures r == 0 ==> 2 <= LowestFree(files[..]) <= fd
    {
      if fd <= 1 || fd >= FD_COUNT {
        return -1;
      }
      if KindOf(files[fd].flags) != DIR_FILE {
        return -1;
      }
      if !InUse(files[fd].flags) {
        return -1;
      }
      files[fd] := files[fd].(flags := 0);
      r := 0;
    }
  }
}
