/**
 * The read-only file-system image and what can be read from it.
 *
 * The image is a run of 4096-byte blocks, seen here as a sequence of
 * little-endian 32-bit words.  Block 0 is the boot block: the directory
 * entry count, the inode count N and the data-block count D in its first
 * three words, then 64-byte directory entries (a 32-byte name, a kind word
 * and an inode word) at byte 64*(i+1) for entry i.  Blocks 1..N are inodes
 * (a length word followed by data-block numbers); data block b starts at
 * block N+1+b.  Words past the end of the image read as 0.
 *
 * The streaming reader of read_data is specified here by Walk, a function
 * that follows the same cursor moves as the driver's loop.
 */
module FsImage {
  import opened Machine

  const BLOCK_SIZE: int := 4096
  const BLOCK_WORDS: int := 1024
  const NAME_LEN: int := 32
  const DENTRY_WORDS: int := 16
  /** The traversal index is a word index into an inode block. */
  const IDX_LIMIT: int := 1024

  const DEVICE_KIND: int := 0
  const DIR_KIND: int := 1
  const REGULAR_KIND: int := 2

  datatype BootBlock = BootBlock(dirEntries: u32, inodes: u32, dataBlocks: u32)

  /** A directory record as the driver fills it: 32 name bytes, kind, inode. */
  datatype Dentry = Dentry(name: seq<byte>, kind: u32, inode: u32)

  const ZeroName: seq<byte> := Zeros(NAME_LEN)
  const ZeroDentry: Dentry := Dentry(ZeroName, 0, 0)

  function WordAt(img: seq<u32>, w: int): u32
  {
    if 0 <= w < |img| then img[w] else 0
  }

  /** The byte at byte address a of the image. */
  function ByteAt(img: seq<u32>, a: int): byte
  {
    if a < 0 then 0 else ByteOf(WordAt(img, a / 4), a % 4)
  }

  /** The boot-block summary init_filesys copies from words 0, 1 and 2. */
  function BootOf(img: seq<u32>): (bb: BootBlock)
    ensures bb.dirEntries == WordAt(img, 0) && bb.inodes == WordAt(img, 1)
    ensures bb.dataBlocks == WordAt(img, 2)
  {
    BootBlock(WordAt(img, 0), WordAt(img, 1), WordAt(img, 2))
  }

  // ---------------------------------------------------------------------
  // Directory entries
  // ---------------------------------------------------------------------

  function NameByte(img: seq<u32>, i: nat, k: int): byte
  {
    ByteAt(img, 64 * (i + 1) + k)
  }

  /** The 32 name bytes of entry i. */
  function NameSlot(img: seq<u32>, i: nat): (s: seq<byte>)
    ensures |s| == NAME_LEN
    ensures forall k :: 0 <= k < NAME_LEN ==> s[k] == NameByte(img, i, k)
  {
    seq(NAME_LEN, k => NameByte(img, i, k))
  }

  /** The name of entry i: its name bytes up to the first zero, at most 32. */
  function EntryName(img: seq<u32>, i: nat): (n: seq<byte>)
    ensures |n| <= NAME_LEN
    ensures n == NameSlot(img, i)[..|n|]
    ensures forall k :: 0 <= k < |n| ==> n[k] != 0
    ensures |n| < NAME_LEN ==> NameSlot(img, i)[|n|] == 0
  {
    CStr(NameSlot(img, i))
  }

  function EntryKind(img: seq<u32>, i: nat): u32
  {
    WordAt(img, DENTRY_WORDS * (i + 1) + 8)
  }

  function EntryInode(img: seq<u32>, i: nat): u32
  {
    WordAt(img, DENTRY_WORDS * (i + 1) + 9)
  }

  /** A name of at most 32 bytes, zero-padded to 32. */
  function Pad(s: seq<byte>): (p: seq<byte>)
    requires |s| <= NAME_LEN
    ensures |p| == NAME_LEN && p[..|s|] == s
    ensures forall k :: |s| <= k < NAME_LEN ==> p[k] == 0
  {
    s + seq(NAME_LEN - |s|, _ => 0)
  }

  /** A padded name without interior zeros reads back as the name. */
  lemma {:induction false} PadReadsBack(s: seq<byte>)
    requires |s| <= NAME_LEN
    requires forall k :: 0 <= k < |s| ==> s[k] != 0
    ensures CStr(Pad(s)) == s
  {
    var p := Pad(s);
    CLenStopsAtZero(p, |s|);
  }

  lemma {:induction false} CLenStopsAtZero(s: seq<byte>, n: nat)
    requires n <= |s|
    requires forall k :: 0 <= k < n ==> s[k] != 0
    requires n < |s| ==> s[n] == 0
    ensures CLen(s) == n
  {
    if n > 0 {
      CLenStopsAtZero(s[1..], n - 1);
    }
  }

  /** The record the driver produces for entry i: padded name, kind, and
      the inode number only for a regular file. */
  function Record(img: seq<u32>, i: nat): (d: Dentry)
    ensures |d.name| == NAME_LEN && CStr(d.name) == EntryName(img, i)
    ensures d.kind == EntryKind(img, i)
    ensures d.inode == (if d.kind == REGULAR_KIND then EntryInode(img, i) else 0)
  {
    var n := EntryName(img, i);
    PadReadsBack(n);
    Dentry(Pad(n), EntryKind(img, i), if EntryKind(img, i) == REGULAR_KIND then EntryInode(img, i) else 0)
  }

  /** The first entry from `from` on, below count, whose name equals fname. */
  function FindFrom(img: seq<u32>, count: int, fname: seq<byte>, from: nat): (r: Option<nat>)
    decreases count - from
    ensures r.Some? ==> from <= r.value < count && EntryName(img, r.value) == fname
    ensures r.Some? ==> forall j :: from <= j < r.value ==> EntryName(img, j) != fname
    ensures r.None? ==> forall j :: from <= j < count ==> EntryName(img, j) != fname
  {
    if from >= count then None
    else if EntryName(img, from) == fname then Some(from)
    else FindFrom(img, count, fname, from + 1)
  }

  /** The entry read_dentry_by_name selects: None for a NULL name, a name
      longer than 32 bytes, or no entry of that name.  The name argument is
      the bytes at the pointer, read as a C string. */
  function Lookup(img: seq<u32>, bb: BootBlock, fname: Option<seq<byte>>): (r: Option<nat>)
    ensures fname.None? || |CStr(fname.value)| > NAME_LEN ==> r.None?
    ensures fname.Some? && |CStr(fname.value)| <= NAME_LEN ==>
      (r.Some? <==> exists j :: 0 <= j < bb.dirEntries && EntryName(img, j) == CStr(fname.value))
    ensures r.Some? ==> r.value < bb.dirEntries && EntryName(img, r.value) == CStr(fname.value)
    ensures r.Some? ==> forall j :: 0 <= j < r.value ==> EntryName(img, j) != CStr(fname.value)
  {
    if fname.None? || |CStr(fname.value)| > NAME_LEN then None
    else FindFrom(img, bb.dirEntries, CStr(fname.value), 0)
  }

  /** A name that a directory listing reports resolves back to its entry,
      provided no earlier entry carries the same name. */
  lemma {:induction false} ListedNameResolves(img: seq<u32>, bb: BootBlock, i: nat)
    requires i < bb.dirEntries
    requires forall j :: 0 <= j < i ==> EntryName(img, j) != EntryName(img, i)
    ensures Lookup(img, bb, Some(EntryName(img, i))) == Some(i)
  {
    var n := EntryName(img, i);
    CStrOfNonZero(n);
  }

  /** strncpy of the matched name into a record: the first |name| bytes are
      replaced and the rest of the 32 are kept. */
  function StashName(d: Dentry, img: seq<u32>, i: nat): (e: Dentry)
    requires |d.name| == NAME_LEN
    ensures |e.name| == NAME_LEN && e.kind == d.kind && e.inode == d.inode
    ensures e.name[..|EntryName(img, i)|] == EntryName(img, i)
    ensures e.name[|EntryName(img, i)|..] == d.name[|EntryName(img, i)|..]
  {
    var n := EntryName(img, i);
    d.(name := n + d.name[|n|..])
  }

  /** What the lookups write through their record pointer: the name bytes
      from the match length up to 32 are zeroed (the bytes before it are
      left as they were), then the kind and the inode are stored. */
  function Fill(d: Dentry, img: seq<u32>, i: nat): (e: Dentry)
    requires |d.name| == NAME_LEN
    ensures |e.name| == NAME_LEN
    ensures e.name[..|EntryName(img, i)|] == d.name[..|EntryName(img, i)|]
    ensures forall k :: |EntryName(img, i)| <= k < NAME_LEN ==> e.name[k] == 0
    ensures e.kind == Record(img, i).kind && e.inode == Record(img, i).inode
  {
    var n := EntryName(img, i);
    Dentry(Pad(d.name[..|n|]), EntryKind(img, i),
           if EntryKind(img, i) == REGULAR_KIND then EntryInode(img, i) else 0)
  }

  /** When the record handed to read_dentry_by_name is open_dentry itself,
      the name stashed there and the padding written through the pointer
      combine into exactly the entry's record, whatever it held before. */
  lemma {:induction false} StashThenFill(d: Dentry, img: seq<u32>, i: nat)
    requires |d.name| == NAME_LEN
    ensures Fill(StashName(d, img, i), img, i) == Record(img, i)
  {
    var n := EntryName(img, i);
    var s := StashName(d, img, i);
    assert s.name[..|n|] == n;
    assert Fill(s, img, i).name == Pad(n);
  }

  // ---------------------------------------------------------------------
  // Inodes and the read_data walk
  // ---------------------------------------------------------------------

  /** Inode `num` of an image, with the boot-block summary read at mount. */
  datatype InodeRef = InodeRef(img: seq<u32>, bb: BootBlock, num: int)

  /** The inode's length word. */
  function Size(v: InodeRef): u32
  {
    WordAt(v.img, BLOCK_WORDS * (v.num + 1))
  }

  /** Word idx of the inode block: 0 is the length, 1.. the block numbers. */
  function BlockWord(v: InodeRef, idx: int): u32
  {
    WordAt(v.img, BLOCK_WORDS * (v.num + 1) + idx)
  }

  /** Byte address of data block `dnode`. */
  function BlockStart(v: InodeRef, dnode: int): int
  {
    BLOCK_SIZE * (v.bb.inodes + dnode + 1)
  }

  /** The loop state of read_data: file offset, traversal index, current
      data-block number and byte pointer. */
  datatype Cursor = Cursor(offset: int, idx: int, dnode: int, ptr: int)

  /** The cursor read_data sets up before its loop. */
  function EntryCursor(v: InodeRef, offset: int, idx: int): (c: Cursor)
    ensures c.offset == offset && c.idx == idx && c.dnode == BlockWord(v, idx)
    ensures c.ptr == BlockStart(v, c.dnode) + offset % BLOCK_SIZE
  {
    Cursor(offset, idx, BlockWord(v, idx), BlockStart(v, BlockWord(v, idx)) + offset % BLOCK_SIZE)
  }

  /** Move to traversal index idx: new block number, pointer at its start. */
  function Reload(v: InodeRef, c: Cursor, idx: int): (d: Cursor)
    ensures d.offset == c.offset && d.idx == idx && d.dnode == BlockWord(v, idx)
    ensures d.ptr == BlockStart(v, d.dnode)
  {
    Cursor(c.offset, idx, BlockWord(v, idx), BlockStart(v, BlockWord(v, idx)))
  }

  /** The inner loop: step over block numbers that are not below D; None
      when the traversal index reaches 1024 first. */
  function SkipInvalid(v: InodeRef, c: Cursor): (r: Option<Cursor>)
    requires 0 <= c.idx < IDX_LIMIT
    decreases IDX_LIMIT - c.idx
    ensures r.Some? ==> r.value.offset == c.offset && c.idx <= r.value.idx < IDX_LIMIT
    ensures r.Some? ==> r.value.dnode < v.bb.dataBlocks
    ensures r.Some? && r.value.idx > c.idx ==> r.value == Reload(v, c, r.value.idx)
    ensures r.Some? && r.value.idx == c.idx ==> r.value == c
    ensures r.None? ==> forall j :: c.idx < j < IDX_LIMIT ==> BlockWord(v, j) >= v.bb.dataBlocks
  {
    if c.dnode < v.bb.dataBlocks then Some(c)
    else if c.idx + 1 >= IDX_LIMIT then None
    else SkipInvalid(v, Reload(v, c, c.idx + 1))
  }

  /** Everything the loop does before copying the byte at offset: at a
      nonzero multiple of 4096 advance the index, then skip invalid blocks. */
  function Prepare(v: InodeRef, c: Cursor): (r: Option<Cursor>)
    requires 0 <= c.idx < IDX_LIMIT
    ensures r.Some? ==> r.value.offset == c.offset && c.idx <= r.value.idx < IDX_LIMIT
    ensures r.Some? ==> r.value.dnode < v.bb.dataBlocks
  {
    if c.offset != 0 && c.offset % BLOCK_SIZE == 0 then
      if c.idx + 1 >= IDX_LIMIT then None else SkipInvalid(v, Reload(v, c, c.idx + 1))
    else SkipInvalid(v, c)
  }

  /** Outcome of a walk: all requested bytes, with the traversal index the
      loop ended on, or a short read. */
  datatype WalkResult = Complete(bytes: seq<byte>, idx: int) | Stopped(bytes: seq<byte>)

  function Prepend(b: byte, w: WalkResult): (r: WalkResult)
    ensures r.bytes == [b] + w.bytes
    ensures r.Complete? == w.Complete? && (r.Complete? ==> r.idx == w.idx)
  {
    match w
    case Complete(bs, i) => Complete([b] + bs, i)
    case Stopped(bs) => Stopped([b] + bs)
  }

  /** The bytes n more iterations of read_data's loop copy from cursor c. */
  function Walk(v: InodeRef, c: Cursor, n: nat): (r: WalkResult)
    requires 0 <= c.idx < IDX_LIMIT
    decreases n, 1
    ensures r.Complete? ==> |r.bytes| == n && c.idx <= r.idx < IDX_LIMIT
    ensures r.Stopped? ==> |r.bytes| < n
    ensures |r.bytes| <= Max(0, Size(v) - c.offset)
  {
    if n == 0 then Complete([], c.idx) else WalkOn(v, c, n)
  }

  /** One more iteration of the loop, with n > 0 bytes still wanted. */
  function WalkOn(v: InodeRef, c: Cursor, n: nat): (r: WalkResult)
    requires 0 <= c.idx < IDX_LIMIT && n > 0
    decreases n, 0
  {
    if c.offset >= Size(v) then Stopped([])
    else match Prepare(v, c)
      case None => Stopped([])
      case Some(p) =>
        Prepend(ByteAt(v.img, p.ptr), Walk(v, Cursor(p.offset + 1, p.idx, p.dnode, p.ptr + 1), n - 1))
  }

  /** How a call of read_data ends: -1, 0 before copying anything, or a walk. */
  datatype ReadOutcome = BadArgs | AtEnd | Walked(w: WalkResult)

  /** read_data's result for a buffer (present or NULL), an inode, an offset,
      the starting traversal index and a length. */
  function ReadDataSpec(img: seq<u32>, bb: BootBlock, bufPresent: bool, inode: int,
                        offset: int, idx0: int, length: nat): (o: ReadOutcome)
    ensures (!bufPresent || inode >= bb.inodes) <==> o.BadArgs?
    ensures o.AtEnd? <==>
      (bufPresent && inode < bb.inodes &&
       (offset >= Size(InodeRef(img, bb, inode)) || idx0 < 0 || idx0 >= IDX_LIMIT))
  {
    var v := InodeRef(img, bb, inode);
    if !bufPresent || inode >= bb.inodes then BadArgs
    else if offset >= Size(v) || idx0 < 0 || idx0 >= IDX_LIMIT then AtEnd
    else Walked(Walk(v, EntryCursor(v, offset, idx0), length))
  }

  /** The value read_data returns. */
  function Count(o: ReadOutcome): int
  {
    match o
    case BadArgs => -1
    case AtEnd => 0
    case Walked(w) => |w.bytes|
  }

  // ---------------------------------------------------------------------
  // Well-formed files
  // ---------------------------------------------------------------------

  /** Number of data blocks a file of `size` bytes occupies. */
  function NumBlocks(size: int): int
  {
    (size + BLOCK_SIZE - 1) / BLOCK_SIZE
  }

  /** An inode whose length fits its block list and whose block numbers up
      to that length are all valid data blocks. */
  ghost predicate WellFormed(v: InodeRef)
  {
    0 <= v.num < v.bb.inodes &&
    Size(v) <= (IDX_LIMIT - 1) * BLOCK_SIZE &&
    forall j :: 1 <= j <= NumBlocks(Size(v)) ==> ListedBlock(v, j) < v.bb.dataBlocks
  }

  /** Entry j of the inode's block list (inode word j). */
  function ListedBlock(v: InodeRef, j: int): (b: u32)
    ensures b == BlockWord(v, j)
  {
    BlockWord(v, j)
  }

  /** Image address of byte k of the file. */
  function FileAddr(v: InodeRef, k: int): int
  {
    BlockStart(v, BlockWord(v, 1 + k / BLOCK_SIZE)) + k % BLOCK_SIZE
  }

  function FileByte(v: InodeRef, k: int): byte
  {
    ByteAt(v.img, FileAddr(v, k))
  }

  /** The file's contents: byte k lives in the block named by inode word
      1 + k / 4096, at k % 4096. */
  function FileBytes(v: InodeRef): (s: seq<byte>)
    ensures |s| == Size(v)
  {
    seq(Size(v), k => FileByte(v, k))
  }

  /** The traversal index saved in a descriptor at file position pos: the
      inode word of the block that holds byte pos - 1 (1 at position 0). */
  function CursorIdx(pos: int): (i: int)
    ensures pos <= 0 ==> i == 1
    ensures pos > 0 ==> i == 1 + (pos - 1) / BLOCK_SIZE
  {
    if pos <= 0 then 1 else 1 + (pos - 1) / BLOCK_SIZE
  }

  /** A cursor positioned the way a descriptor resumed at its offset is. */
  ghost predicate OnTrack(v: InodeRef, c: Cursor)
  {
    1 <= c.idx < IDX_LIMIT && c.idx == CursorIdx(c.offset) && c.dnode == BlockWord(v, c.idx) &&
    ((c.offset == 0 || c.offset % BLOCK_SIZE != 0) ==> c.ptr == BlockStart(v, c.dnode) + c.offset % BLOCK_SIZE)
  }

  lemma {:induction false} ByteInListedBlock(k: int, size: int)
    requires 0 <= k < size
    ensures 1 <= 1 + k / BLOCK_SIZE <= NumBlocks(size)
    ensures size <= (IDX_LIMIT - 1) * BLOCK_SIZE ==> NumBlocks(size) < IDX_LIMIT
  {
    assert k / BLOCK_SIZE <= (size - 1) / BLOCK_SIZE;
    assert NumBlocks(size) == 1 + (size - 1) / BLOCK_SIZE;
  }

  /** On a well-formed file, the preparation step lands on the block that
      holds the byte at the cursor's offset. */
  lemma {:induction false} PrepareOnTrack(v: InodeRef, c: Cursor)
    requires WellFormed(v) && OnTrack(v, c) && 0 <= c.offset < Size(v)
    ensures var j := 1 + c.offset / BLOCK_SIZE;
      Prepare(v, c) == Some(Cursor(c.offset, j, BlockWord(v, j), BlockStart(v, BlockWord(v, j)) + c.offset % BLOCK_SIZE))
  {
    var j := 1 + c.offset / BLOCK_SIZE;
    ByteInListedBlock(c.offset, Size(v));
    assert ListedBlock(v, j) < v.bb.dataBlocks;
    if c.offset != 0 && c.offset % BLOCK_SIZE == 0 {
      assert c.idx + 1 == j;
    } else {
      assert c.idx == j;
    }
  }

  /** The cursor after copying the byte at c's offset of a well-formed file. */
  function Advance(v: InodeRef, c: Cursor): (a: Cursor)
    ensures a.offset == c.offset + 1
  {
    var j := 1 + c.offset / BLOCK_SIZE;
    Cursor(c.offset + 1, j, BlockWord(v, j), BlockStart(v, BlockWord(v, j)) + c.offset % BLOCK_SIZE + 1)
  }

  lemma {:induction false} NextInBlock(k: int)
    requires 0 <= k
    ensures (k + 1) % BLOCK_SIZE != 0 ==> (k + 1) % BLOCK_SIZE == k % BLOCK_SIZE + 1
    ensures CursorIdx(k + 1) == 1 + k / BLOCK_SIZE
  {
  }

  /** After a byte of a well-formed file is copied the cursor is on track
      for the next offset. */
  lemma {:induction false} AdvanceOnTrack(v: InodeRef, c: Cursor)
    requires WellFormed(v) && 0 <= c.offset < Size(v)
    ensures OnTrack(v, Advance(v, c)) && Advance(v, c).offset <= Size(v)
  {
    ByteInListedBlock(c.offset, Size(v));
    NextInBlock(c.offset);
  }

  /** One loop iteration copies the byte under the prepared pointer. */
  lemma {:induction false} WalkUnfold(v: InodeRef, c: Cursor, n: nat, p: Cursor)
    requires 0 <= c.idx < IDX_LIMIT && n > 0 && c.offset < Size(v) && Prepare(v, c) == Some(p)
    ensures Walk(v, c, n) == Prepend(ByteAt(v.img, p.ptr), Walk(v, Cursor(p.offset + 1, p.idx, p.dnode, p.ptr + 1), n - 1))
  {
  }

  /** One loop iteration on a well-formed file copies the file byte at the
      offset and leaves the cursor on track. */
  lemma {:induction false} WalkStep(v: InodeRef, c: Cursor, n: nat)
    requires WellFormed(v) && OnTrack(v, c) && 0 <= c.offset < Size(v) && n > 0
    ensures OnTrack(v, Advance(v, c))
    ensures Walk(v, c, n) == Prepend(FileByte(v, c.offset), Walk(v, Advance(v, c), n - 1))
  {
    PrepareOnTrack(v, c);
    var p := Prepare(v, c).value;
    assert p.ptr == FileAddr(v, c.offset);
    assert Cursor(p.offset + 1, p.idx, p.dnode, p.ptr + 1) == Advance(v, c);
    AdvanceOnTrack(v, c);
    WalkUnfold(v, c, n, p);
  }

  /** Reading n bytes at offset of a byte sequence one by one, stopping at
      its end; a complete read ends on the index for the new position. */
  function SeqWalk(s: seq<byte>, offset: nat, n: nat): WalkResult
    decreases n
  {
    if n == 0 then Complete([], CursorIdx(offset))
    else if offset >= |s| then Stopped([])
    else Prepend(s[offset], SeqWalk(s, offset + 1, n - 1))
  }

  /** SeqWalk delivers the next n bytes when that many remain. */
  lemma {:induction false} SeqWalkComplete(s: seq<byte>, offset: nat, n: nat)
    requires offset + n <= |s|
    decreases n
    ensures SeqWalk(s, offset, n) == Complete(s[offset..offset + n], CursorIdx(offset + n))
  {
    if n > 0 {
      SeqWalkComplete(s, offset + 1, n - 1);
      assert s[offset..offset + n] == [s[offset]] + s[offset + 1..offset + n];
    }
  }

  /** SeqWalk delivers the rest of the sequence when fewer than n remain. */
  lemma {:induction false} SeqWalkStopped(s: seq<byte>, offset: nat, n: nat)
    requires offset <= |s| < offset + n
    decreases n
    ensures SeqWalk(s, offset, n) == Stopped(s[offset..])
  {
    if offset < |s| {
      SeqWalkStopped(s, offset + 1, n - 1);
      assert s[offset..] == [s[offset]] + s[offset + 1..];
    }
  }

  /** Walking a well-formed file from a resumed cursor reads the file's own
      bytes, one per step, and ends on the index a descriptor at the new
      position holds. */
  lemma {:induction false} WalkReadsFile(v: InodeRef, c: Cursor, n: nat)
    requires WellFormed(v) && OnTrack(v, c) && 0 <= c.offset <= Size(v)
    decreases n
    ensures ReadsFile(v, c, n)
  {
    if n > 0 && c.offset < Size(v) {
      AdvanceOnTrack(v, c);
      WalkReadsFile(v, Advance(v, c), n - 1);
      JoinStep(v, c, n);
    }
  }

  /** n more loop iterations from c copy what SeqWalk reads from the file. */
  ghost predicate ReadsFile(v: InodeRef, c: Cursor, n: nat)
  {
    0 <= c.idx < IDX_LIMIT && 0 <= c.offset &&
    Walk(v, c, n) == SeqWalk(FileBytes(v), c.offset, n)
  }

  lemma {:induction false} JoinStep(v: InodeRef, c: Cursor, n: nat)
    requires WellFormed(v) && OnTrack(v, c) && 0 <= c.offset < Size(v) && n > 0
    requires ReadsFile(v, Advance(v, c), n - 1)
    ensures ReadsFile(v, c, n)
  {
    var s := FileBytes(v);
    assert s[c.offset] == FileByte(v, c.offset);
    assert SeqWalk(s, c.offset, n) == Prepend(s[c.offset], SeqWalk(s, c.offset + 1, n - 1));
    WalkStep(v, c, n);
  }

  /** A descriptor in step with its file: the saved traversal index is the
      one for its position, or it sits at the end of the file. */
  ghost predicate Synced(v: InodeRef, pos: int, idx: int)
  {
    0 <= pos <= Size(v) && (pos == Size(v) || idx == CursorIdx(pos))
  }

  /** The bytes a read outcome delivers into the buffer. */
  function Delivered(o: ReadOutcome): seq<byte>
  {
    if o.Walked? then o.w.bytes else []
  }

  /** The traversal index saved after a read that started from idx. */
  function SavedIdx(o: ReadOutcome, idx: int): int
  {
    if o.Walked? && o.w.Complete? then o.w.idx else idx
  }

  /** A read from a descriptor in step with a well-formed file delivers the
      next bytes of the file, advances the position by their number, and
      leaves the descriptor in step; so successive reads resume where the
      previous one stopped. */
  lemma {:induction false} ResumedRead(v: InodeRef, pos: int, idx: int, n: nat)
    requires WellFormed(v) && Synced(v, pos, idx)
    ensures var o := ReadDataSpec(v.img, v.bb, true, v.num, pos, idx, n);
      Delivered(o) == FileBytes(v)[pos..Min(pos + n, Size(v))] &&
      pos + Count(o) == Min(pos + n, Size(v)) &&
      Synced(v, pos + Count(o), SavedIdx(o, idx))
  {
    var o := ReadDataSpec(v.img, v.bb, true, v.num, pos, idx, n);
    if pos == Size(v) {
      assert o == AtEnd;
      assert FileBytes(v)[pos..pos] == [];
    } else {
      ResumedWalk(v, pos, idx, n);
      if pos + n <= Size(v) {
        SeqWalkComplete(FileBytes(v), pos, n);
      } else {
        SeqWalkStopped(FileBytes(v), pos, n);
      }
    }
  }

  /** Inside the file, read_data's walk from a descriptor in step is the
      walk over the file's own bytes. */
  lemma {:induction false} ResumedWalk(v: InodeRef, pos: int, idx: int, n: nat)
    requires WellFormed(v) && Synced(v, pos, idx) && pos < Size(v)
    ensures ReadDataSpec(v.img, v.bb, true, v.num, pos, idx, n) == Walked(SeqWalk(FileBytes(v), pos, n))
  {
    var c := EntryCursor(v, pos, idx);
    ByteInListedBlock(pos, Size(v));
    assert OnTrack(v, c);
    WalkReadsFile(v, c, n);
    assert ReadsFile(v, c, n);
  }

  /** read_data with fd -1 starts at inode word 0, the length word, and
      reaches the first data block only because the invalid-block skip steps
      over it.  When the length is at least D that skip happens and the
      loader reads the file from its first byte. */
  lemma {:induction false} LoaderReadsFile(v: InodeRef, n: nat)
    requires WellFormed(v) && Size(v) >= v.bb.dataBlocks && Size(v) > 0
    ensures var o := ReadDataSpec(v.img, v.bb, true, v.num, 0, 0, n);
      Delivered(o) == FileBytes(v)[..Min(n, Size(v))] && Count(o) == Min(n, Size(v))
  {
    ResumedRead(v, 0, 1, n);
    if n > 0 {
      LoaderSkip(v, n);
    }
    assert FileBytes(v)[..Min(n, Size(v))] == FileBytes(v)[0..Min(n, Size(v))];
  }

  /** The skip over the length word lands where a freshly opened
      descriptor starts. */
  lemma {:induction false} LoaderSkip(v: InodeRef, n: nat)
    requires WellFormed(v) && Size(v) >= v.bb.dataBlocks && Size(v) > 0 && n > 0
    ensures ReadDataSpec(v.img, v.bb, true, v.num, 0, 0, n) == ReadDataSpec(v.img, v.bb, true, v.num, 0, 1, n)
  {
    var c0 := EntryCursor(v, 0, 0);
    var c1 := EntryCursor(v, 0, 1);
    ByteInListedBlock(0, Size(v));
    assert Prepare(v, c0) == Prepare(v, c1);
    assert Walk(v, c0, n) == WalkOn(v, c0, n) == WalkOn(v, c1, n) == Walk(v, c1, n);
  }

  /** When the length word is a valid block number, the loader's first byte
      comes from the data block numbered by the file length instead. */
  lemma {:induction false} LoaderUsesLengthAsBlock(v: InodeRef, n: nat)
    requires 0 <= v.num < v.bb.inodes && 0 < Size(v) < v.bb.dataBlocks && n > 0
    ensures var o := ReadDataSpec(v.img, v.bb, true, v.num, 0, 0, n);
      o.Walked? && |o.w.bytes| > 0 && o.w.bytes[0] == ByteAt(v.img, BlockStart(v, Size(v)))
  {
    var c0 := EntryCursor(v, 0, 0);
    assert Prepare(v, c0) == Some(c0);
    WalkUnfold(v, c0, n, c0);
  }
}
