# A verified model of a teaching x86 kernel's core

The system is a small protected-mode kernel for 32-bit x86, written in C. Its
core is:

- a read-only file system image. It has a boot block, 4 KB inodes that list data
  block numbers, and 64-byte directory entries. The file system offers
  `read_dentry_by_name`, `read_dentry_by_index` and `read_data`, plus the file and
  directory drivers (open, read, write and close).
- ten system calls:
  - `halt` and `execute`, which run up to six nested programs. Each program has its
    own PCB, an 8 KB block below 8 MB, and a 4 MB program page at virtual 128 MB.
  - `read`, `write`, `open` and `close`, which dispatch through the operation table
    of one of the eight descriptors in the running PCB.
  - `getargs` and `vidmap`.
  - two signal stubs.
- paging: one page directory and two 4 KB page tables, together with the lookups
  `get_pageTable_entry` and `get_bigPage`.
- the keyboard driver and terminal. These hold a 128-byte line buffer, the
  shift/caps/ctrl modifier state and an enter flag that `terminal_read` waits for.
- the RTC driver: its rate selection is a power-of-two test and a base-2 logarithm.
- the 8259 interrupt-mask bookkeeping.
- `set_idt_entry`, and the boot order in which the kernel masks the interrupt lines
  and fills the interrupt descriptor table.

Each C file becomes one Dafny module:

| C file | Dafny module |
|---|---|
| `filesys.c` (image layout and lookups) | `FsImage` |
| `filesys.c` (drivers, class `FileSystem`) | `FileSys` |
| `sys_calls.c` | `SysCalls`, `Command` and `Process` |
| `paging_c.c` | `Paging` |
| `key_driver.c` | `Keyboard` |
| `rtc_driver.c` | `Rtc` |
| `i8259.c` | `Pic` |
| `kernel.c` | `Idt` |
| `pcb.h` | `Pcb` |

`Machine` holds the shared words, bytes and C strings.

Each piece takes the same form as the code it models:

- The file system's two dentry records, the key buffer and the keyboard globals,
  the page directory and tables, the PIC masks, the RTC registers, the PCBs and the
  kernel globals (`process_number`, `cur_pcb`, `tss.esp0`) are fields of classes.
- The tables and buffers that are rewritten in place are arrays.
- `Kernel.Snapshot()` packs the kernel state into one `View` value: the process
  state, every PCB's descriptor table and command line, the page directory, the
  loaded images, the user entry, the keyboard state and the PIC masks. `execute`
  and `halt` are specified as functions on that value (`Launched`, `Halted`), so
  everything a call leaves alone is stated to be unchanged.
- Each loop in the source is a `method` with a `while` loop. Each such method is
  proved against a function that specifies it:
  - the `read_data` copy loop against `Walk`;
  - `dir_read`'s copy against `DirBytes`;
  - `execute`'s name scan against `ProgramName`;
  - `getargs` against `ArgBytes`;
  - the open routines' free-slot scan against `LowestFree`;
  - the boot loops against `Filled` and `BootDirectory`;
  - `terminal_read`'s wait against `Waited`.
- The properties of those functions are lemmas:
  - a read from an in-step descriptor streams the file's own bytes;
  - a listed name resolves back to its entry;
  - halt undoes execute: the process stack, the page directory and every older PCB's descriptors and command line come back (`HaltUndoesLaunch`);
  - the keyboard state invariant holds after every scancode;
  - the boot IDT has exactly the expected present gates.

Some inputs the code cannot see are parameters of the model:
- the file system image, as a sequence of 32-bit words;
- the keyboard tables;
- the link addresses of the page tables;
- the scancodes that arrive while `terminal_read` waits;
- the initial RTC register A.

Behaviour that follows the code rather than the comments:

- `execute` loads the program with `read_data(inode, 0, ..., -1)`, which starts at
  inode word 0, the length word. It reaches the first data block only because the
  loop skips a block number that is not below the data-block count. So a file
  whose length is at least that count loads correctly (`FsImage.LoaderReadsFile`).
  A shorter file is read from the block its length names
  (`FsImage.LoaderUsesLengthAsBlock`). The model keeps this behaviour.
- `halt` decrements `process_number` before checking for the program page. The
  model keeps that order, including the path where it then answers -1.

## Model

| member | source | states |
|---|---|---|
| Machine.WordOfBytes | student-distrib/sys_calls.c:145 | reassembling a word's four little-endian bytes gives the word back |
| Machine.ToInt32 | student-distrib/filesys.c:105 | a 32-bit word read as `int32_t` is the word, or the word minus 2^32 exactly when its top bit is set |
| Machine.ToU32 | student-distrib/sys_calls.c:298 | an int converted to a 32-bit unsigned word is unchanged when non-negative, else 2^32 is added |
| Machine.CLen | student-distrib/filesys.c:130 | `strlen`: the length is the position of the first zero byte, or the whole sequence if there is none |
| Machine.CStr | student-distrib/sys_calls.c:81 | the C string a buffer holds is its prefix up to the first zero byte, and it contains no zero |
| Machine.CStrOfNonZero | student-distrib/sys_calls.c:81 | a buffer without zero bytes is its own C string |
| Pcb.KindOf | student-distrib/filesys.c:428 | the type field, flag bits 1-2, is one of four kinds |
| Pcb.TraversalIdx | student-distrib/filesys.c:264 | the traversal index, flag bits 8-19, lies in 0..4095 |
| Pcb.WithTraversalIdx | student-distrib/filesys.c:330-331 | storing a traversal index changes bits 8-19 only: the in-use bit, the kind and the other bits are kept |
| Pcb.FlagsSplit | student-distrib/pcb.h:13-21 | a flags word is the sum of its high bits, its traversal index field and its low byte |
| Pcb.FlagsFields | student-distrib/pcb.h:13-21 | a flags word assembled from its three fields reads those fields back |
| Pcb.FreeFrom | student-distrib/sys_calls.c:237-246 | the scan from slot j answers the first free slot at or after j, or -1 exactly when every slot from j on is in use |
| Pcb.LowestFree | student-distrib/sys_calls.c:237-246 | the lowest free slot among 2-7, or -1 exactly when all six are in use |
| Pcb.FreeFromFlags | student-distrib/sys_calls.c:239 | the free-slot scan depends only on the in-use bits of the flags |
| Pcb.FindFree | student-distrib/sys_calls.c:237-246 | the loop over slots 2-7 returns LowestFree of the table |
| Pcb.Pcb.constructor | student-distrib/pcb.h:23-30 | a PCB at a given address with an eight-slot descriptor table |
| FsImage.BootOf | student-distrib/filesys.c:18-49 | the boot-block summary holds words 0, 1 and 2 of the image: directory entries, inodes and data blocks |
| FsImage.NameSlot | student-distrib/filesys.c:207 | the 32 name bytes of directory entry i, at byte 64*(i+1) of the image |
| FsImage.EntryName | student-distrib/filesys.c:207-212 | an entry's name is the prefix of its 32 name bytes up to the first zero, of at most 32 bytes |
| FsImage.Pad | student-distrib/filesys.c:210-212 | a name zero-padded to 32 bytes keeps the name in front and zeros after it |
| FsImage.PadReadsBack | student-distrib/filesys.c:210-212 | reading a padded name as a C string gives the name back |
| FsImage.CLenStopsAtZero | student-distrib/filesys.c:207 | `strlen` stops at the first zero |
| FsImage.Record | student-distrib/filesys.c:184-225 | the record read_dentry_by_index fills: the padded name, the kind, and the inode number only for regular files (0 otherwise) |
| FsImage.FindFrom | student-distrib/filesys.c:135-150 | the directory scan answers the first entry below the count whose name equals fname, or None when no entry there has that name |
| FsImage.Lookup | student-distrib/filesys.c:116-174 | read_dentry_by_name finds nothing for a NULL name or one longer than 32 bytes; otherwise it finds the first entry whose name equals the C string given |
| FsImage.ListedNameResolves | student-distrib/filesys.c:116-225 | looking up the name of entry i finds entry i when no earlier entry has that name |
| FsImage.StashName | student-distrib/filesys.c:157 | the strncpy of the matched name copies the name's bytes and leaves the rest of the record |
| FsImage.Fill | student-distrib/filesys.c:157-170 | what read_dentry_by_name writes through its record pointer: the record's own first \|name\| bytes kept (the name itself goes to open_dentry), zeros from \|name\| to 32, and the kind and inode of Record |
| FsImage.StashThenFill | student-distrib/filesys.c:157-170 | when the record is open_dentry itself, the lookup leaves exactly Record |
| FsImage.EntryCursor | student-distrib/filesys.c:273-277 | the loop starts at the block number at the traversal index, with the pointer at offset mod 4 KB in that block |
| FsImage.Reload | student-distrib/filesys.c:297-301 | moving to a traversal index loads its block number and points at the block's start |
| FsImage.SkipInvalid | student-distrib/filesys.c:305-319 | the inner loop stops at the first index whose block number is below D, or fails exactly when no later index has one |
| FsImage.Prepare | student-distrib/filesys.c:286-319 | before a byte is copied, the cursor moves to the next block at a 4 KB boundary and skips invalid blocks; the result is a valid block or a stop |
| FsImage.Walk | student-distrib/filesys.c:280-322 | n loop iterations copy n bytes and end on an index below 1024, or stop early with fewer bytes, never more than the rest of the file |
| FsImage.ReadDataSpec | student-distrib/filesys.c:238-335 | read_data fails exactly for a NULL buffer or an inode beyond the count; it returns 0 at or past the file's end or for an index of 1024 or more; otherwise it walks |
| FsImage.FileBytes | student-distrib/filesys.c:274-277 | the reference contents of a file: byte k lies in the block listed at inode word 1 + k/4096, and there are as many bytes as the length word says |
| FsImage.CursorIdx | student-distrib/filesys.c:288-291 | the traversal index for a file position: 1 at the start, and after that the index of the block holding the previous byte |
| FsImage.ByteInListedBlock | student-distrib/filesys.c:274 | every byte of a file lies in one of the blocks its length needs, below index 1024 |
| FsImage.PrepareOnTrack | student-distrib/filesys.c:286-319 | on a well-formed file the preparation lands on the block that holds the byte at the offset |
| FsImage.Advance | student-distrib/filesys.c:280 | copying a byte moves the offset on by one |
| FsImage.NextInBlock | student-distrib/filesys.c:288 | within a block the next byte follows, and the traversal index of the next offset is that of this byte's block |
| FsImage.AdvanceOnTrack | student-distrib/filesys.c:280-302 | after a byte of a well-formed file is copied, the cursor is still on its track |
| FsImage.WalkUnfold | student-distrib/filesys.c:280-322 | one loop iteration copies the byte under the prepared pointer and continues from the next one |
| FsImage.WalkStep | student-distrib/filesys.c:280-322 | on a well-formed file, one iteration copies the file's byte at the offset |
| FsImage.SeqWalkComplete | student-distrib/filesys.c:280-285 | reading n bytes of a byte sequence at an offset, with n bytes left, gives those bytes |
| FsImage.SeqWalkStopped | student-distrib/filesys.c:280-285 | with fewer than n bytes left, reading gives the rest of the sequence and stops |
| FsImage.WalkReadsFile | student-distrib/filesys.c:280-322 | the loop over a well-formed file from a resumed cursor reads exactly what reading FileBytes reads |
| FsImage.JoinStep | student-distrib/filesys.c:280-322 | one iteration followed by the rest of the walk reads the file, given the rest does |
| FsImage.ResumedRead | student-distrib/filesys.c:238-335 | a read from a descriptor in step with a well-formed file delivers the next bytes of the file, advances by their number and stays in step, so successive reads resume where the last one stopped |
| FsImage.ResumedWalk | student-distrib/filesys.c:238-335 | inside the file, read_data from a descriptor in step is the walk over the file's own bytes |
| FsImage.LoaderReadsFile | student-distrib/filesys.c:263-277 | with fd -1 and a length word of at least D, read_data from 0 delivers the file's first bytes |
| FsImage.LoaderSkip | student-distrib/filesys.c:263-277 | with fd -1 the skip over the length word reaches the cursor a fresh descriptor starts from |
| FsImage.LoaderUsesLengthAsBlock | student-distrib/filesys.c:263-277 | with fd -1 and a length word below D, the first byte read comes from the block numbered by the file's length |
| FileSys.Overlay | student-distrib/filesys.c:321 | the bytes written over the front of a buffer, with the rest kept |
| FileSys.SaveIdx | student-distrib/filesys.c:329-332 | read_data stores the traversal index back in descriptor fd after a complete read, and leaves every other slot alone |
| FileSys.AfterRead | student-distrib/filesys.c:344-360 | file_read keeps the descriptor's table, inode, in-use bit and kind, and saves read_data's traversal index |
| FileSys.FileReadStreams | student-distrib/filesys.c:344-360 | reading n bytes through a descriptor in step with a well-formed file returns the next bytes of the file and leaves the descriptor in step at the advanced position |
| FileSys.DirBytes | student-distrib/filesys.c:487-501 | dir_read writes the first min(nbytes, name length) name bytes, then a terminator when the whole name fitted |
| FileSys.DirReadNames | student-distrib/filesys.c:457-506 | with room for a whole name, dir_read hands back entry pos's name and its terminator, and that string opens entry pos again when no earlier entry shares the name |
| FileSys.OpenFlagsFields | student-distrib/filesys.c:409-411 | the flags file_open and dir_open store are in use, of regular or directory kind, with traversal index 1 for a file |
| FileSys.FileWrite | student-distrib/filesys.c:371-373 | writing a file always fails (the file system is read-only) |
| FileSys.DirWrite | student-distrib/filesys.c:517-519 | writing a directory always fails, as writing a file does |
| FileSys.FileSystem.constructor | student-distrib/filesys.c:18-49 | mounting reads the boot block and clears both dentry records |
| FileSys.FileSystem.GetFileSize | student-distrib/filesys.c:92-106 | -1 for NULL, 0 for a record that is not a regular file, else the inode's length word as `int32_t` |
| FileSys.FileSystem.ReadDentryByName | student-distrib/filesys.c:116-174 | -1 exactly for a NULL record or a failed Lookup; on success the target record holds what Fill gives; on failure both records are unchanged |
| FileSys.FileSystem.ReadDentryByIndex | student-distrib/filesys.c:184-225 | -1 exactly for a NULL record or an index at or past the count; on success the target record is Record(index); the other record is unchanged |
| FileSys.FileSystem.ReadData | student-distrib/filesys.c:238-335 | the return value, the buffer and the saved traversal index are those of ReadDataSpec, and the buffer gets a 0 after a short read |
| FileSys.FileSystem.CopyBytes | student-distrib/filesys.c:280-326 | the copy loop writes exactly Walk's bytes (and a terminator after a stop) over the front of the buffer |
| FileSys.FileSystem.Step | student-distrib/filesys.c:280-322 | one pass: either the byte copied continues the walk, or the walk stops here with a 0 stored |
| FileSys.FileSystem.Iteration | student-distrib/filesys.c:282-319 | the steps of one pass before the copy agree with Walk |
| FileSys.FileSystem.NextValid | student-distrib/filesys.c:286-319 | the boundary step and the skip agree with Prepare |
| FileSys.FileSystem.SkipBlocks | student-distrib/filesys.c:305-319 | the inner loop agrees with SkipInvalid |
| FileSys.FileSystem.NextBlock | student-distrib/filesys.c:297-301 | the next traversal index, its block number and that block's start |
| FileSys.FileSystem.FileRead | student-distrib/filesys.c:344-360 | -1 (nothing changed) for a NULL buffer or a slot that is not an open regular file; otherwise read_data from the file position, with the position advanced by the count |
| FileSys.FileSystem.LookupIntoOpen | student-distrib/filesys.c:398 | a lookup into open_dentry succeeds exactly when Lookup finds the name, leaving Record of that entry |
| FileSys.FileSystem.FileOpen | student-distrib/filesys.c:383-414 | -1 when no slot 2-7 is free, the name is not found or is not a regular file; otherwise the lowest free slot gets the entry's inode, position 0 and the regular-file flags |
| FileSys.FileSystem.FileClose | student-distrib/filesys.c:423-444 | 0 exactly for an open regular file among 2-7, which is released, with both records' names zeroed; the released slot becomes a candidate for the next open |
| FileSys.FileSystem.ClearNames | student-distrib/filesys.c:439-442 | both records' 32 name bytes become zero and nothing else changes |
| FileSys.FileSystem.DirRead | student-distrib/filesys.c:457-506 | -1 exactly for a NULL buffer, a slot outside 2-7 or one that is not an open directory; 0 at the end of the directory; otherwise DirBytes of entry file_pos, with file_pos advanced |
| FileSys.FileSystem.DirCopy | student-distrib/filesys.c:487-501 | the copy loop returns the count and writes exactly DirBytes over the front of the buffer |
| FileSys.FileSystem.DirOpen | student-distrib/filesys.c:528-565 | -1 when no slot is free or the name is not found; otherwise the lowest free slot becomes an open directory |
| FileSys.FileSystem.DirClose | student-distrib/filesys.c:574-592 | 0 exactly for an open directory among 2-7, which is released |
| Paging.BootDirectory | student-distrib/paging_c.c:47-159 | the directory init_paging builds: slot 0 references page table 0, slot 1 is the 4 MB kernel page, slot 32 the program page at frame 0, slot 33 references page table 1 for user video memory, and the other 1020 of the 1024 slots are clear |
| Paging.BootTable0 | student-distrib/paging_c.c:53-72 | page table 0 as init_paging builds it: of its 1024 entries only entry 0xB8, the supervisor video page, is present |
| Paging.PageTableEntry | student-distrib/paging_c.c:179-214 | NULL for an index of 1024 or more or a non-present directory slot; through a table reference to one of the two tables, an entry exactly when that table's entry is present |
| Paging.BigPageEntry | student-distrib/paging_c.c:225-246 | the directory slot exactly when the index is below 1024 and the slot's present bit is set |
| Paging.BootBigPages | student-distrib/paging_c.c:91-159 | after boot get_bigPage finds exactly slots 0, 1, 32 and 33; slot 1 is the global supervisor page at 4 MB and slot 32 the user page at frame 0 |
| Paging.BootSmallPages | student-distrib/paging_c.c:59-159 | after boot the only 4 KB mappings are page 0xB8 through slot 0 (supervisor) and through slot 33 (user), both at physical 0xB8000 |
| Paging.PageDirectory.constructor | student-distrib/paging_c.c:41-45 | the three static arrays start all zero |
| Paging.PageDirectory.InitPaging | student-distrib/paging_c.c:41-159 | the directory becomes BootDirectory and table 0 BootTable0, while table 1 only gains entry 0xB8 |
| Keyboard.DictRule | student-distrib/key_driver.c:199-211 | with shift in {0,1} and caps in {0,~0}: table 1 exactly for shift without caps, 2 exactly for caps without shift, 0 otherwise |
| Keyboard.Appended | student-distrib/key_driver.c:272-277 | add_to_buffer stores the symbol at the index and advances it while there is room, and changes nothing when full |
| Keyboard.BackspaceAsWritten | student-distrib/key_driver.c:224 | the backspace store as written exists only below the last slot and leaves the erased character in place |
| Keyboard.BackspaceAsWrittenOverruns | student-distrib/key_driver.c:221-226 | with a full buffer the store as written falls outside the 128-byte buffer; at any index the erased character stays |
| Keyboard.BackspaceErasesLast | student-distrib/key_driver.c:218-226 | the corrected backspace lowers the index, zeroes exactly the last character and keeps everything else |
| Keyboard.KeyStepSane | student-distrib/key_driver.c:162-242 | after any scancode, the index stays in 0..128, the modifiers stay two-valued and the table matches them |
| Keyboard.ModesSane | student-distrib/key_driver.c:171-211 | the modifier updates keep the modifiers two-valued |
| Keyboard.ProcessedSane | student-distrib/key_driver.c:250-264 | process_to_buffer keeps the index within the buffer |
| Keyboard.ModifierKeys | student-distrib/key_driver.c:175-197 | releases and modifier presses leave the buffer, index and screen alone; shift and ctrl set and clear, and caps toggles between 0 and ~0 |
| Keyboard.EnterFlag | student-distrib/key_driver.c:171-236 | after any scancode the enter flag is 1 exactly for an Enter press |
| Keyboard.BackspaceKey | student-distrib/key_driver.c:221-226 | the corrected backspace: it removes the last character and zeroes that character's slot, and does nothing on an empty buffer (the store as written is BackspaceAsWritten) |
| Keyboard.OtherKeys | student-distrib/key_driver.c:233-277 | with ctrl held, other keys never enter the buffer; without ctrl the symbol is appended while there is room |
| Keyboard.Cleared | student-distrib/key_driver.c:285-291 | clear_key_buffer leaves 128 zero bytes and index 0 |
| Keyboard.Waited | student-distrib/key_driver.c:342-351 | the wait keeps the invariant and ends with the flag set when an Enter press arrives |
| Keyboard.WaitEndsAtFirstEnter | student-distrib/key_driver.c:342-351 | a wait that starts with the flag clear ends right after the first Enter press |
| Keyboard.Feed | student-distrib/key_driver.c:162-242 | handling any sequence of scancodes keeps the invariant |
| Keyboard.Puts | student-distrib/key_driver.c:362-380 | writing bytes sends each of them to the screen, in order |
| Machine.Zeros | student-distrib/key_driver.c:285-291 | n zero bytes, the contents clear_key_buffer leaves in the key buffer (and the cleared dentry names) |
| Keyboard.Terminal.constructor | student-distrib/key_driver.h:23-33 | the driver's globals start at zero |
| Keyboard.Terminal.KeyHandler | student-distrib/key_driver.c:162-242 | the handler changes the driver state exactly as KeyStep does |
| Keyboard.Terminal.ProcessToBuffer | student-distrib/key_driver.c:250-264 | process_to_buffer as Processed |
| Keyboard.Terminal.AddToBuffer | student-distrib/key_driver.c:272-277 | add_to_buffer as Appended |
| Keyboard.Terminal.ClearKeyBuffer | student-distrib/key_driver.c:285-291 | clear_key_buffer as Cleared |
| Keyboard.Terminal.KeyboardEnvironment | student-distrib/key_driver.c:138-146 | unmasks IRQ 1 on the master and resets the table and the modifiers, leaving the buffer |
| Keyboard.Terminal.TerminalOpen | student-distrib/key_driver.c:298-301 | sets up the keyboard and returns 0 |
| Keyboard.Terminal.TerminalRead | student-distrib/key_driver.c:329-355 | -1 for fd other than 0; otherwise it returns the index reached by the wait, copies that many bytes of the line, and leaves the buffer cleared and the flag clear |
| Keyboard.Terminal.WaitForEnter | student-distrib/key_driver.c:343-351 | the busy-wait ends with the flag set, in state Waited |
| Keyboard.Terminal.CopyLine | student-distrib/key_driver.c:346-348 | copies exactly the key_buf_index bytes of the line and nothing more |
| Keyboard.Terminal.TerminalWrite | student-distrib/key_driver.c:362-380 | -1 for fd other than 1; otherwise it sends max(nbytes, 0) bytes to the screen and returns that count |
| Keyboard.Terminal.TerminalClose | student-distrib/key_driver.c:308-322 | 0 exactly for descriptor 0 or 1 in use, which is released |
| Rtc.AndSelf | student-distrib/rtc_driver.c:99 | x & x == x |
| Rtc.AndPredecessor | student-distrib/rtc_driver.c:99 | for positive n, n & (n-1) == 0 exactly when n is a power of two |
| Rtc.PowerTest | student-distrib/rtc_driver.c:99 | the test on 32-bit words passes exactly for 0 and powers of two |
| Rtc.Log2OfPow2 | student-distrib/rtc_driver.c:103-105 | the shift count of a power of two is its base-2 logarithm |
| Rtc.AcceptedRates | student-distrib/rtc_driver.c:98-108 | a byte passes both checks exactly when it is 4, 8, 16, 32, 64, 128 |
| Rtc.FrequencyOfLog | student-distrib/rtc_driver.c:115 | rate select 16 - k gives 2^k interrupts per second |
| Rtc.ShiftCount | student-distrib/rtc_driver.c:103-105 | the shift loop counts the halvings of the rate |
| Rtc.RateSelectGivesRate | student-distrib/rtc_driver.c:92-118 | a rate is accepted exactly when it is 4..128 and a power of two, and the rate select stored makes the clock tick at that rate |
| Rtc.WithRateSelect | student-distrib/rtc_driver.c:115 | register A keeps its top four bits and takes the rate select in its low four |
| Rtc.InitRateIs2Hz | student-distrib/rtc_driver.c:25 | the initial rate select gives 2 Hz |
| Rtc.RtcFlagsFields | student-distrib/rtc_driver.c:53-55 | the flags rtc_open stores are in use, of RTC kind, with traversal index 1 |
| Rtc.RtcClose | student-distrib/rtc_driver.c:65-84 | 0 exactly for an open RTC descriptor among 2-7, which is released |
| Rtc.RtcDevice.constructor | student-distrib/rtc_driver.c:11-16 | the clock with its register A and the flag clear |
| Rtc.RtcDevice.RtcWrite | student-distrib/rtc_driver.c:92-118 | 0 exactly for an accepted rate, which sets register A's rate select; otherwise -1, with register A kept |
| Rtc.RtcDevice.RtcRead | student-distrib/rtc_driver.c:125-138 | returns 0 after an interrupt, with the flag cleared |
| Rtc.RtcDevice.RtcOpen | student-distrib/rtc_driver.c:23-58 | sets 2 Hz, unmasks IRQ 2 and 8 and clears the flag; 0 exactly when a slot among 2-7 is free, and the lowest one becomes an RTC descriptor |
| Pic.Unmasked | student-distrib/i8259.c:54 | clears bit k of the mask and keeps the other bits; for k of 8 or more the byte is unchanged |
| Pic.Masked | student-distrib/i8259.c:78 | sets bit k and keeps the others |
| Pic.MaskIdempotent | student-distrib/i8259.c:49-88 | enabling or disabling a line twice is the same as once |
| Pic.MaskLastWins | student-distrib/i8259.c:49-88 | after enabling and disabling a line, the last call decides its state |
| Pic.Controllers.constructor | student-distrib/i8259.c:9-10 | both masks start zero and nothing is sent |
| Pic.Controllers.EnableIrq | student-distrib/i8259.c:49-64 | unmasks the line on its controller, sends the new mask to that controller's data port, and changes no other line |
| Pic.Controllers.DisableIrq | student-distrib/i8259.c:73-88 | masks the line, sends the new mask, and changes no other line |
| Pic.Controllers.SendEoi | student-distrib/i8259.c:97-102 | an EOI to the slave for lines 8 and up, then to the master; the masks are kept |
| Idt.NewGate | student-distrib/kernel.c:52-130 | a handler gets a present ring-0 interrupt gate; an exception its table's type and privilege (task gate via KERNEL_TSS only at 8); 0x80 a ring-3 trap gate to the system-call entry; an empty vector a non-present filler; any other vector is unchanged |
| Idt.ExceptionGates | student-distrib/kernel.c:39-44 | among the exceptions only 8 is a task gate and only 3-5 are reachable from ring 3 |
| Idt.SetIdtEntry | student-distrib/kernel.c:52-130 | rewrites only gate v, as NewGate |
| Idt.Filled | student-distrib/kernel.c:279-281 | the fill loop leaves gate v as NewGate of the gate there before |
| Idt.BootTable | student-distrib/kernel.c:268-281 | after boot the two handlers survive the fill; exactly the exceptions, 0x80 and the two handler vectors are present; and only 3, 4, 5 and 0x80 are reachable from ring 3 |
| Idt.InitInterrupts | student-distrib/kernel.c:268-281 | all sixteen lines are masked and the table is the handlers installed, then filled |
| Idt.MaskAll | student-distrib/kernel.c:268-270 | after the loop all sixteen lines are masked |
| Process.PcbAddresses | student-distrib/sys_calls.c:130 | the six PCB addresses are distinct, 8 KB apart, inside the 4-8 MB kernel page, and each names its own depth |
| Process.ProgramFrames | student-distrib/sys_calls.c:97 | the program of depth n gets frame 2 + n |
| Process.BootNested | student-distrib/kernel.c:268-281 | the boot state (no process) is a well-formed process stack |
| Process.ExecNested | student-distrib/sys_calls.c:124-147 | execute keeps the stack well formed; the count grows by one and tss.esp0 is the child's PCB address |
| Process.ExecIgnoresNextSlot | student-distrib/sys_calls.c:131 | execute overwrites the next PCB, so its old contents do not matter |
| Process.HaltNested | student-distrib/sys_calls.c:9-41 | halt finds a PCB at cur_pcb and keeps the stack well formed with one process fewer |
| Process.HaltUndoesExec | student-distrib/sys_calls.c:29-38 | halt after execute restores the count, cur_pcb, the frame and tss.esp0 |
| Process.ExecNNested | student-distrib/sys_calls.c:44-165 | n executes give the well-formed stack with n more processes, keeping the PCBs below |
| Process.NestedByCount | student-distrib/sys_calls.c:124-147 | two well-formed stacks with the same count agree on everything they depend on |
| Process.ExecsThenHalts | student-distrib/sys_calls.c:9-165 | up to six executes followed by as many halts return to the starting state |
| Process.HaltsNested | student-distrib/sys_calls.c:9-41 | n halts keep the stack well formed, with n processes fewer |
| Command.NameFrom | student-distrib/sys_calls.c:56-61 | the name bytes copied from a position: line bytes that end no name, stopping at a space, newline or zero |
| Command.ProgramName | student-distrib/sys_calls.c:56-61 | the program name is the line's longest prefix of at most 33 bytes with no space, newline or zero |
| Command.NameUnique | student-distrib/sys_calls.c:56-61 | the program name is the only sequence with those properties |
| Command.ParseName | student-distrib/sys_calls.c:56-62 | the scan leaves ProgramName followed by a terminator |
| Command.NameOfCommand | student-distrib/sys_calls.c:56-62 | a name of at most 32 ordinary bytes followed by a space, a newline or the end is what execute looks up |
| Command.SpaceIndex | student-distrib/sys_calls.c:292-294 | the position of the first space |
| Command.ArgStart | student-distrib/sys_calls.c:292-296 | getargs starts copying just after the first space |
| Command.ArgLimit | student-distrib/sys_calls.c:298 | `nbytes - in_idx` on 32-bit unsigned words |
| Command.HalfLimit | student-distrib/sys_calls.c:298 | the loop as written copies at most half the room, rounded up; none exactly when the room is 0 |
| Command.ArgBytesAsWritten | student-distrib/sys_calls.c:298-303 | what the loop as written stores: the arguments and terminator, cut after HalfLimit bytes |
| Command.HalvedTest | student-distrib/sys_calls.c:298 | the loop test as written holds exactly below HalfLimit |
| Command.SkipName | student-distrib/sys_calls.c:292-296 | the first loop ends at ArgStart |
| Command.CopyArgsAsWritten | student-distrib/sys_calls.c:288-310 | getargs as written stores ArgBytesAsWritten, and idx is 0 exactly when there is no room or no argument |
| Command.CommandArgStart | student-distrib/sys_calls.c:292-296 | for "name args" the arguments start just after the name and its space |
| Command.ArgsOfCommandAsWritten | student-distrib/sys_calls.c:298-303 | as written, "name args" with n bytes of room yields only (n - \|name\|)/2 bytes of the arguments and terminator |
| Command.GetargsAsWrittenTruncates | student-distrib/sys_calls.c:298-309 | as written, "cat frame0.txt" with 12 bytes stores "fram" without a terminator and succeeds, though "frame0.txt" and its terminator fit |
| Command.ArgBytes | student-distrib/sys_calls.c:288-310 | the intended result: the arguments and terminator, at most nbytes of them |
| Command.CopyArgs | student-distrib/sys_calls.c:288-310 | the corrected copy stores ArgBytes and leaves the rest of the buffer; idx is 0 exactly when getargs fails |
| Command.ArgsOfCommand | student-distrib/sys_calls.c:288-310 | for "name args", getargs hands back the first nbytes of the terminated arguments; with enough room, all of them; it fails exactly for no room or no arguments |
| SysCalls.VidmapAddress | student-distrib/sys_calls.c:325 | the vidmap address lies in directory slot 33 at page 0xB8, offset 0 |
| SysCalls.FreshFd | student-distrib/sys_calls.c:108-123 | a new program's slots 0 and 1 are the terminal, in use; the rest are cleared; every slot agrees with its table |
| SysCalls.InitFiles | student-distrib/sys_calls.c:108-123 | execute's set-up writes FreshFd into every slot |
| SysCalls.LoadedHeader | student-distrib/sys_calls.c:48-74 | execute's 32-byte header buffer after read_data: the bytes read_data copies from the start of the file, and zeros past them |
| SysCalls.SetHandler | student-distrib/sys_calls.c:331-333 | always -1 |
| SysCalls.Sigreturn | student-distrib/sys_calls.c:336-338 | always -1 |
| SysCalls.FindProgram | student-distrib/sys_calls.c:65-70 | the lookup succeeds exactly when the program name names an entry, and answers its kind and, for a regular file, its inode; open_dentry then holds that entry's name (AfterProgramLookup) and read_dentry is unchanged |
| SysCalls.ReadHeader | student-distrib/sys_calls.c:72-74 | the header read fails exactly for an inode beyond the count, and otherwise gives LoadedHeader |
| SysCalls.CheckProgram | student-distrib/sys_calls.c:64-77 | an inode is answered exactly for a runnable command line, and it is the entry's inode, with the header read from it; open_dentry holds the looked-up name whether or not the checks pass, and read_dentry is unchanged |
| SysCalls.NewArena | student-distrib/sys_calls.c:130 | six PCBs at their addresses, with distinct cleared descriptor tables |
| SysCalls.ReadThrough | student-distrib/sys_calls.c:191 | the read routine of the slot's table, as ReadEffect, touching no other slot |
| SysCalls.WriteThrough | student-distrib/sys_calls.c:218 | the write routine of the slot's table, as WriteEffect |
| SysCalls.OpenedFd | student-distrib/sys_calls.c:249-265 | the slot is in use exactly for kinds 0-2, with that kind and position 0; any other kind gets the terminal table and is not claimed |
| SysCalls.FindEntry | student-distrib/sys_calls.c:232 | the lookup succeeds exactly when Lookup finds the name, and gives that entry's kind |
| SysCalls.OpenThrough | student-distrib/sys_calls.c:249-265 | slot i becomes OpenedFd for the entry's kind and inode; an RTC open sets 2 Hz |
| SysCalls.Kernel.constructor | student-distrib/kernel.c:268-281 | the boot state: no program, cur_pcb NULL, tss.esp0 at 8 MB |
| SysCalls.Kernel.Release | student-distrib/sys_calls.c:284 | the close routine of a slot in use releases it and returns 0; file_close also zeroes the names in both dentry records when the slot held a regular file |
| SysCalls.Kernel.Close | student-distrib/sys_calls.c:25 | closing an in-use descriptor of a PCB releases it; both dentry records lose their names exactly when it was a regular file |
| SysCalls.Kernel.CloseAll | student-distrib/sys_calls.c:22-27 | halt's loop turns the PCB's table into ShutAll of itself, every descriptor in use released and the rest kept; every other PCB's table is unchanged; each dentry record loses its name exactly when some regular file was open (AfterCloseAll) |
| SysCalls.CloseAllStep | student-distrib/sys_calls.c:22-27 | closing one more descriptor zeroes the dentry names exactly when it is an open regular file |
| SysCalls.ShutAll | student-distrib/sys_calls.c:22-27 | every descriptor of a table released, in place |
| SysCalls.LaunchPhases | student-distrib/sys_calls.c:80-147 | execute's two phases, Prepared then Entered, make up Launched |
| SysCalls.HaltUndoesLaunch | student-distrib/sys_calls.c:9-165 | halt after a successful execute gives back the process stack, the whole page directory and every older PCB's descriptor table and command line; the child's image stays recorded in its frame |
| SysCalls.Kernel.Halt | student-distrib/sys_calls.c:9-41 | -1 with nothing changed when no program runs; -1 with only the count lowered when the program page is missing; otherwise the status byte, the whole state becomes Halted (descriptors closed, the parent restored as HaltTransition, slot 32 back at the parent's frame, nothing else), and the dentry records follow AfterCloseAll |
| SysCalls.Kernel.HaltRunning | student-distrib/sys_calls.c:21-40 | the whole state becomes Halted, and the dentry records follow AfterCloseAll of the closed table |
| SysCalls.Kernel.Restore | student-distrib/sys_calls.c:29-38 | the whole state becomes Returned: the parent's PCB, frame and tss.esp0 as HaltTransition, slot 32 back at the parent's frame, every other directory slot, PCB, table and driver unchanged |
| SysCalls.Kernel.LoadProgram | student-distrib/sys_calls.c:104 | the bytes loaded are read_data of up to 4 MB from the start of the file |
| SysCalls.Kernel.SetUpPcb | student-distrib/sys_calls.c:80-126 | the PCB at depth d gets FreshTable and the command line and saves the parent, esp0 and frame; no other PCB's table or line changes; terminal_open resets the modifier state and unmasks IRQ 1 (TerminalOpened) |
| SysCalls.Kernel.Execute | student-distrib/sys_calls.c:44-165 | 0 exactly when fewer than six programs run, the line is runnable and the program page is present. On 0 the whole state becomes Launched: ExecTransition, FreshTable and the command line at the new depth, slot 32 at the new frame holding the image, entry at the header's entry point, terminal_open's keyboard and PIC effects, and nothing else. On -1 the PCBs, tables, pages and drivers are unchanged, but open_dentry keeps the name the lookup copied into it (AfterProgramLookup). read_dentry never changes |
| SysCalls.Kernel.Checked | student-distrib/sys_calls.c:56-165 | with fewer than six programs running: 0 exactly for a runnable line and a present program page, with the same whole-state and dentry effects as Execute |
| SysCalls.Kernel.Launch | student-distrib/sys_calls.c:85-165 | 0 exactly when the program page is present: then the whole state becomes Launched, otherwise nothing changes; neither dentry record changes |
| SysCalls.Kernel.Start | student-distrib/sys_calls.c:106-147 | once the checks pass and the image is read: the whole state becomes Launched |
| SysCalls.Kernel.NewPcb | student-distrib/sys_calls.c:106-131 | the whole state becomes Prepared: the next PCB gets FreshTable and the command line and saves cur_pcb, the frame and tss.esp0, terminal_open's effects apply, and nothing else changes |
| SysCalls.Kernel.Switch | student-distrib/sys_calls.c:95-147 | the whole state becomes Entered: slot 32 at the next frame, which holds the image, the new PCB current, its kernel stack in tss.esp0, entry at the header's entry point, and nothing else changed |
| SysCalls.Kernel.SysRead | student-distrib/sys_calls.c:173-192 | -1 (nothing changed) for a descriptor outside 0-7, a NULL buffer, a negative count or a free slot; otherwise the slot's read routine, as ReadEffect |
| SysCalls.Kernel.ReadOpen | student-distrib/sys_calls.c:191 | the read of an in-use descriptor, as ReadEffect |
| SysCalls.Kernel.SysWrite | student-distrib/sys_calls.c:200-219 | the same checks as read, then the slot's write routine, as WriteEffect |
| SysCalls.Kernel.SysOpen | student-distrib/sys_calls.c:222-269 | -1 exactly for a name that is NULL or not found, or a full table; otherwise the lowest free slot is returned and holds OpenedFd |
| SysCalls.Kernel.OpenFree | student-distrib/sys_calls.c:236-268 | -1 exactly for a full table; otherwise the lowest free slot holds OpenedFd |
| SysCalls.Kernel.OpenAt | student-distrib/sys_calls.c:249-265 | slot i holds OpenedFd and nothing else in the table changes |
| SysCalls.Kernel.SysClose | student-distrib/sys_calls.c:272-285 | 0 exactly for an in-use descriptor among 2-7, which is released; otherwise -1 and nothing changes |
| SysCalls.Kernel.Getargs | student-distrib/sys_calls.c:288-310 | (corrected) the buffer receives ArgBytes of the running program's line; -1 exactly when there is no room or no argument |
| SysCalls.Kernel.Vidmap | student-distrib/sys_calls.c:313-328 | 0 exactly for a pointer above 4 MB while page 0xB8 of page table 1 is present; then the slot-33 video address is stored |

## Left out

- The assembly parts are not modelled: the context switch, `iret`, `lidt`, the
  control-register writes, saving `ebp`, and the system-call and interrupt entry
  stubs. `execute`'s jump is the `entered` field: the entry point and user stack
  pointer it would `iret` to.
- Port I/O is reduced to what changes state:
  - The PIC keeps its masks and a log of the bytes sent.
  - The RTC keeps register A and the interrupt flag.
  - The keyboard's port read is the scancode argument.
- `i8259_init` and `rtc_init` are only initialisation-word writes, so they are not
  modelled. Neither is `rtc_handler`, which sets the flag and sends EOI, nor
  `key_open`, which does nothing.
- Interrupt enable and disable (`cli`, `sti`) are not modelled, and neither are the
  end-of-interrupt sends inside `key_handler`.
- Busy-waits are not modelled as loops:
  - `terminal_read`'s wait takes the scancodes that arrive as a parameter.
  - `rtc_read` returns as soon as the interrupt flag it waits for is set.
- The exception handlers (`exceptions_c.c`), the screen driver (`lib.c`) and the
  boot entry outside lines 268-281 of `kernel.c` are not part of this model.
- Memory the code leaves uninitialised starts as zero: `execute`'s header buffer,
  the static page tables and key buffer, and the PCB memory. `init_paging` does not
  clear page table 1, and `InitPaging` keeps whatever that table held.
- The image is a sequence of 32-bit words; a word past its end reads as 0. A
  directory-entry name that fills all 32 bytes is taken to end there; `strlen`
  running on into the kind word is not modelled.
- Selectors, handler addresses, ports and the EOI byte come from headers that are
  not part of this model. They appear as symbolic values.
- SysCalls.Kernel.Execute: requires the command line's C string to fit the 1024-byte
  buffer that `strcpy` copies it into (`|CStr(command)| < INPUT_SIZE`). A longer line
  overruns the PCB in the source and is not modelled.
- SysCalls.Kernel.Execute: returns 0 and the state `Launched` for any runnable program,
  however large. In the source the load starts at 0x08048000 and the program page
  ends at 0x08400000, so a load of more than 0x3B8000 bytes (FOUR_MB - 0x48000)
  runs into the slot-33 range, where only page 0xB8 is mapped, and `execute`
  page-faults without returning. A file's 1023 block numbers allow up to 4,190,208
  bytes, so such files exist. The page fault is not modelled.
- SysCalls.Kernel.LoadProgram: reads up to FOUR_MB bytes into a buffer of its own. It
  does not model the page boundary 0x3B8000 bytes after the load address, or the
  fault a longer file causes there.
- `execute`'s `file_name` scan can store its terminator at index 33, one past the
  buffer's end. The model keeps the name and that terminator as a sequence.
- `dir_read` writes a terminator only when the whole name was copied. When the name
  is exactly `nbytes` long (32-byte names included), that terminator lands at
  `buf[nbytes]`, one past the count. When the name is longer than `nbytes`, no
  terminator is written. The model's caller supplies room for the byte at
  `buf[nbytes]` (`ReadRoom`).
- The program window at 128 MB is not modelled byte by byte. `Kernel.loaded` records
  the image each frame received.
- SysCalls.Kernel.Getargs: requires a space in the stored line. Without one, the
  source's first loop runs past the end of the line.
- SysCalls.Kernel.Getargs: uses the corrected copy (see Findings), not the halving
  loop as written.
- SysCalls.Kernel.Vidmap: models the store through `screen_start` as a returned
  value and does not model a user pointer that is not mapped.
- SysCalls.Kernel.SysOpen: does not state what the open routines leave in the two
  dentry records. It also does not state the keyboard and PIC effects of opening
  the terminal or the RTC, beyond keeping the drivers' invariants.
- SysCalls.Kernel.Halt: does not model restoring `ebp` or the return into the parent's
  `execute` call.
- Keyboard.Terminal.TerminalRead: requires the caller's buffer to hold the whole typed
  line (`Waited(...).index` bytes). The source copies `key_buf_index` bytes whatever
  `nbytes` is, so a shorter buffer is overrun; that copy past an `nbytes`-sized
  buffer is not modelled.
- SysCalls.Kernel.SysRead: on standard input it requires the same room for the whole
  typed line (`ReadRoom`), and does not model the copy past a shorter buffer.
- Keyboard.Terminal.KeyHandler: uses the corrected backspace (see Findings). The
  store at the old index, including the write past the buffer at index 128, is
  modelled only by BackspaceAsWritten.
- Keyboard.Terminal.KeyHandler: does not model the echo of characters beyond the
  `Echo` log, or the screen clear for ctrl+L beyond one `ClearScreen` entry.

## Findings

| source | as written | input that shows it | evidently intended | confidence | as-written member | corrected member |
|---|---|---|---|---|---|---|
| student-distrib/key_driver.c:224 | backspace zeroes `key_buf[key_buf_index]`, the slot after the character it erases, before lowering the index | any backspace with index 3 leaves `key_buf[2]` in place; with 128 characters typed it writes `key_buf[128]`, past the 128-byte buffer | zero `key_buf[key_buf_index - 1]`, the character removed from the screen | not executed | Keyboard.BackspaceAsWrittenOverruns | Keyboard.BackspaceErasesLast |
| student-distrib/sys_calls.c:298 | the loop test `idx < nbytes - in_idx` is re-evaluated as `in_idx` grows with `idx`, so the copy stops after about half the buffer | command line "cat frame0.txt", `getargs(buf, 12)`: it stores "fram" with no terminator and returns 0 | copy up to `nbytes` bytes of the arguments and their terminator | not executed | Command.GetargsAsWrittenTruncates | Command.ArgsOfCommand |
