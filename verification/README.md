# OS/161: file system, allocators, threads, disk driver, virtual memory and C library, verified

This project models parts of OS/161 in Dafny and proves what they keep. `dafny verify dfyconfig.toml`
checks everything. The statements below are proved of the model, which follows
the C code branch by branch, error returns included. Kernel data that the code updates in place is held in
classes whose methods update it in place; pointers into tables are indices or addresses, and the
global invariants range over plain values so that each step is a small lemma.

## What is proved

**SFS, the file system** (`Bytes`, `SfsFormat`, `Bitmap`, `Uio`, `SfsOwnership`, `SfsVolume`, `VnodeTable`,
`SfsState`, `SfsBmap`, `SfsIo`, `SfsTruncate`, `SfsVnodes`, `Directory`, `SfsDir`, `SfsNames`, `SfsOps`,
`SfsFiles`, `SfsMount`, `Mksfs`). A volume is the disk, the free map, the inodes as the kernel knows them
(in memory if loaded, else on disk), and a ghost map that gives every block in use its one role. Each operation,
whether it succeeds or fails, keeps the invariant that the marked blocks are exactly the blocks with a role and that
every pointer leads to the block with that role; that in-memory inodes are dirty if they differ from the
disk; that there is at most one vnode for each inode; that names are unique and link counts exact. A caller sees only
a *view*: names to inode numbers, inode numbers to byte strings. Reads and writes are proved to be
reads and writes of those byte strings, the directory a finite map, and a synced disk to determine the view.

**VFS** (`Vnodes`, `VfsPaths`, `Vfs`, `VfsRun`). The pathname calls on top of SFS: after every call, on
every exit path, each vnode's reference count is what handles, working directories, the boot file system and the
device table hold. `VfsRun.FromScratch` joins it all: format, mount, and then any sequence of calls.
`VfsRun.StoreFetchRemove` is the user's side of it: what is stored under a name comes back under it, until it is removed.

**Allocators** (`Malloc`, `Kheap`, `KheapRun`). The libc heap's boundary tags tile the heap, no two neighbours are
free, and allocation is first fit, for every size. The kernel heap's freelists, page lists and in-use bits stay exact,
and a page goes back exactly when its last block is freed. Both are carried to runs of any number of requests.

**Threads and processes** (`Queue`, `Threads`, `Processes`). A step machine over the sections that run with interrupts
off. Each live thread is in exactly one place, no wakeup is lost, threads run in the order they became runnable, and the
pid list, its semaphores and waitpid agree.

**Disk driver, virtual memory, libc** (`DiskDriver`, `DumbVm`, `Numerals`, `Printf`, `Random`). The handshake of
threads, disk and interrupt, which is safe and never stuck; the TLB as a cache of the address space, and isolation; what
every printf field means, and printf and atoi as inverses; the random number generator's pointers, state arrays and
trinomial rule.

`Basics` holds what several modules share.

## Where the code does less than it promises

Each of these is a lemma or a contract with the exact condition.

- Cutting a file short does not clear the rest of its last block, and from 15 blocks on `sfs_truncate`
  keeps one block too many (kern/fs/sfs/sfs_vnode.c:1124). A later write past the end, or a longer length, then brings
  old bytes back. `SfsNames.TruncateRefines`, `SfsFiles.TruncateFile` and `SfsFiles.WriteFile` say of every file exactly
  when; `SfsNames.CleanLengths` says which lengths are safe for all files. `SfsNames.TruncateNotClean`,
  `SfsNames.CutThenExtend` and `SfsNames.SixteenthBlock` are the examples. `VfsRun.Step` says when a call leaves such
  bytes, and `VfsRun.Run` that a run without such a call, as one that truncates only to safe lengths or to no less than
  the size, is not affected.
- A write that fails, or writes nothing, still extends the file to its offset, exactly if that is past the end
  (`SfsNames.NothingWritten`, `SfsFiles.WriteFile`); `SfsFiles.WriteAtLimit` is a call that returns EINVAL and leaves a
  file of the largest size.
- `vfs_open` with O_CREAT can fail and leave the new file behind: exactly if it is to append, or to truncate without
  writing (`Vfs.LeftBehind`, and `VfsRun.OpenLeaves` for every call with room for the file; `VfsRun.AppendNew` is the
  example, on a new volume).
- `vfs_setbootfs` means to allow a colon at the end of the name (kern/fs/vfs/vfslookup.c:65) and refuses it
  (`Vfs.ColonRefused`, `Vfs.Vfs.SetBootfs`).
- `malloc` of 0 bytes at the top of the heap gives a pointer that `free` refuses: exactly those without data and on top
  (`Malloc.InRange`, `Malloc.FreeZero`). Rounding up gives less than asked above 2^32 - 8 (`Malloc.RoundedUp`), and from
  2^31 - 15 up to there the heap is asked to shrink or to stay (`Malloc.AmountGrows`, `Malloc.AmountShrinks`), whereupon `malloc`
  writes past its top.
- `lock_release` does not look who calls it. A release keeps the lock to one thread if and only if its caller is the one
  inside, which the caller can tell from the lock (`Threads.ReleaseExact`, `Threads.ReleaseExcludes`,
  `Threads.Kernel.Release`); over any run each release by another thread lets one more in for good
  (`Threads.RunPlaces`, `Threads.RunExact`, `Processes.Run`). `Threads.StrayRelease` and
  `Threads.SignalThenRelease` are the examples, the second that of kern/test/synchtest.c:239-240.
- `ram_stealmem` adds without a check: a huge request wraps around and hands out frames again
  (`DumbVm.StealFresh` is the exact condition, `DumbVm.StealWraps` the example). `as_define_region` rounds without a
  check in the same way (`DumbVm.Vm.Define` is the exact condition, `DumbVm.RegionVanishes` the example), and `vm_fault`
  finds no page of a region that ends at 2^32 or beyond (`DumbVm.WholeRegion` is the exact condition, `DumbVm.TopPage`
  the example).
- A number printed left-aligned with zero fill, such as `%-05d`, is padded with zeros on the right and reads back as another
  number, unless it fills the field or is zero (`Printf.LeftZeros`, `Printf.LeftZerosExample`).
- The comment on `setstate` says that it may be given the state in use; it then goes back to a stale position, unless the
  numbers drawn since it was saved are a multiple of the degree (`Random.Rng.SameState`, `Random.SameStateLost`).

## Model

| member | source | states |
|---|---|---|
| `Bytes.WordsRoundTrip` | kern/include/kern/sfs.h:45-52 | 32-bit words written out big-endian read back as the same words |
| `Bytes.WordRoundTrip` | kern/include/kern/sfs.h:45-52 | a word is stored with its most significant byte first, and read back |
| `SfsFormat.InodeRoundTrip` | kern/include/kern/sfs.h:45-52 | decoding an encoded inode gives the inode back, every field in its place |
| `SfsFormat.InodeLayout` | kern/include/kern/sfs.h:45-52 | size at byte 0, type at 4, link count at 6, direct blocks from 8, the indirect block at 68 |
| `SfsFormat.DirentRoundTrip` | kern/include/kern/sfs.h:57-60 | decoding an encoded directory entry gives inode number and name back; the number is at byte 0, the name from byte 4, zeros after it |
| `SfsFormat.SuperRoundTrip` | kern/include/kern/sfs.h:35-40 | a block written as superblock has the magic number at byte 0, the size of the device at 4 and the volume name at 8 |
| `SfsFormat.ClearedInode` | kern/fs/sfs/sfs_vnode.c:761-783 | a cleared block reads as an inode without type, links or blocks, which is what sfs_makeobj relies on |
| `Bitmaps.Bitmap.constructor` | kern/lib/bitmap.c:30-64 | a new bitmap has no bit set but the padding past its end |
| `Bitmaps.Bitmap.Alloc` | kern/lib/bitmap.c:72-94 | finds and sets the lowest clear bit, and fails exactly when all bits are set |
| `Bitmaps.Bitmap.Mark` | kern/lib/bitmap.c:107-118 | sets one clear bit and no other |
| `Bitmaps.Bitmap.Unmark` | kern/lib/bitmap.c:120-131 | clears one set bit and no other |
| `Bitmaps.Bitmap.IsSet` | kern/lib/bitmap.c:134-142 | tells whether the bit is set |
| `Bitmaps.BitCounts` | kern/lib/bitmap.c:96-142 | bit off of a byte is the one that counts 2 to the power of off |
| `Uios.Uio.Move` | kern/userprog/uio.c:11-82 | moves as much of the buffer as is wanted between kernel and caller and advances the cursor, or fails and moves nothing, exactly when the memory is not accessible |
| `Uios.Uio.MoveZeros` | kern/userprog/uio.c:84-108 | delivers zeros, as far as they are wanted, in pieces of sixteen; all of them unless the memory is not accessible |
| `SfsOwnership.OwnedOnce` | kern/fs/sfs/sfs_vnode.c:115-261 | two pointers to the same block are the same pointer of the same file |
| `SfsVolume.WriteData` | kern/fs/sfs/sfs_vnode.c:277-347 | overwriting a data block changes that block of that file and no byte of any other |
| `SfsVolume.ByteOnDisk` | kern/fs/sfs/sfs_vnode.c:115-261 | byte k of a file is in the block that the inode names for its first 15 blocks, and the words of the indirect block for the rest; without a block it is zero |
| `SfsVolume.ExactOwnership` | kern/fs/sfs/sfs_vnode.c:60-103 | a block is marked in use exactly if it is reserved, an inode, an indirect block or a data block, and then it is exactly one of these, once |
| `SfsState.Balloc` | kern/fs/sfs/sfs_vnode.c:60-78 | gives the lowest free block, marked and cleared; fails, changing nothing, only when every block is in use |
| `SfsTruncate.Bfree` | kern/fs/sfs/sfs_vnode.c:83-89 | clears the mark of a block that was marked |
| `SfsBmap.Bused` | kern/fs/sfs/sfs_vnode.c:94-103 | tells whether the block is marked |
| `SfsBmap.Bmap` | kern/fs/sfs/sfs_vnode.c:115-261 | reports the block mapped at a position; when asked to, fills a hole (also with a new indirect block) without changing a byte of any file; fails past the largest file, and for want of space only when the disk is full |
| `SfsBmap.BmapDirect` | kern/fs/sfs/sfs_vnode.c:140-169 | the same for the direct blocks |
| `SfsBmap.BmapIndirect` | kern/fs/sfs/sfs_vnode.c:171-261 | the same for the blocks behind the indirect block, which is kept even if the entry cannot be allocated |
| `SfsIo.PartialIo` | kern/fs/sfs/sfs_vnode.c:277-347 | part of a block is moved in whole or not at all; a hole reads as zeros; nothing else changes |
| `SfsIo.BlockIo` | kern/fs/sfs/sfs_vnode.c:352-412 | a whole block is moved between disk and caller; a write that fails moves nothing |
| `SfsIo.MoveAll` | kern/fs/sfs/sfs_vnode.c:447-497 | leading part, whole blocks, trailing part: the bytes between the two cursors were moved, in order, and nothing else |
| `SfsIo.Io` | kern/fs/sfs/sfs_vnode.c:417-513 | a read moves bytes up to the end of the file, and on success stops only there or when nothing is left to move; a write stores a prefix of the request, all of it on success, and extends the file to the place reached; why a transfer stopped, and how full the disk was |
| `SfsFiles.ReadFile` | kern/fs/sfs/sfs_vnode.c:929-936 | the reader's memory gets the bytes of the file at the offset, in place, and nothing else of it changes; on success the read stops only at the end of the file or when nothing is left to move; the file system is unchanged |
| `SfsFiles.WriteFile` | kern/fs/sfs/sfs_vnode.c:941-948 | of every file: the bytes written are there and no other byte before the old end changed; a clean file becomes the byte string with the gap zero-filled, any other if and only if the bytes in the gap are zero; no other file changes; one that stores nothing changes the file exactly if it is past the end; EINVAL exactly at the largest size |
| `SfsFiles.WriteThenRead` | kern/fs/sfs/sfs_vnode.c:929-948 | what was written is read back, whatever else the file holds |
| `SfsFiles.WriteAtLimit` | kern/fs/sfs/sfs_vnode.c:447-513 | a write at the largest size to an empty file returns EINVAL, stores nothing and leaves a file of that size |
| `SfsNames.WriteRefines` | kern/fs/sfs/sfs_vnode.c:447-513 | writing to the raw blocks is writing to the byte string, if and only if the gap holds zeros |
| `SfsNames.Written` | kern/fs/sfs/sfs_vnode.c:447-513 | of the bytes of any file: those written are there and those before the old end elsewhere are as they were |
| `SfsNames.ReadRefines` | kern/fs/sfs/sfs_vnode.c:426-445 | the bytes a read finds in the blocks are a slice of the byte string |
| `SfsTruncate.Truncate` | kern/fs/sfs/sfs_vnode.c:1063-1157 | frees exactly the doomed blocks (and the indirect block when it is left empty), for every length, keeping ownership exact |
| `SfsFiles.TruncateFile` | kern/fs/sfs/sfs_vnode.c:1063-1157 | the file is cut or zero-extended to the length, if and only if the bytes exposed are zero, and no other file changes; it is clean afterwards if and only if the bytes past the new end in the kept blocks were zero; of every file |
| `SfsNames.TruncateRefines` | kern/fs/sfs/sfs_vnode.c:1063-1157 | for every file: truncating the blocks resizes the byte string if and only if the bytes exposed are zero, and leaves a clean file if and only if the bytes cut off inside the kept blocks are zero |
| `SfsNames.TruncateClean` | kern/fs/sfs/sfs_vnode.c:1063-1157 | truncation to nothing, or to no less than the size, leaves a clean file |
| `SfsNames.CleanLengths` | kern/fs/sfs/sfs_vnode.c:1063-1157 | the lengths to which every file can be cut and be clean: whole blocks, fewer than 15, or the largest size |
| `SfsNames.TruncateNotClean` | kern/fs/sfs/sfs_vnode.c:1091-1145 | a file of two bytes cut to one keeps its second byte |
| `SfsNames.CutThenExtend` | kern/fs/sfs/sfs_vnode.c:1091-1145 | a file cut to one byte and extended to two has its second byte back |
| `SfsNames.SixteenthBlock` | kern/fs/sfs/sfs_vnode.c:1091-1145 | a file of n blocks and a byte, cut to n blocks and extended by a byte, has the byte back exactly from 15 blocks on |
| `SfsNames.NothingWritten` | kern/fs/sfs/sfs_vnode.c:499-507 | a write of nothing leaves the byte string alone exactly if its offset is not past the end; else it appends zeros |
| `VnodeTable.OneVnodePerInode` | kern/fs/sfs/sfs_vnode.c:1545-1651 | no two loaded vnodes have the same inode number |
| `VnodeTable.Find` | kern/fs/sfs/sfs_vnode.c:1555-1580 | the search of the vnode table finds the vnode of an inode exactly if it is loaded |
| `SfsVnodes.SyncInode` | kern/fs/sfs/sfs_vnode.c:38-51 | a dirty inode is written to its block; nothing anyone can see changes |
| `SfsVnodes.LoadVnode` | kern/fs/sfs/sfs_vnode.c:1545-1651 | gives the loaded vnode one more reference, or loads the inode from disk into a new vnode with one reference; never two for one inode |
| `SfsVnodes.MakeObj` | kern/fs/sfs/sfs_vnode.c:761-783 | a new empty file in a block that was free, held in memory once; or, on a full disk, no change |
| `SfsVnodes.Reclaim` | kern/fs/sfs/sfs_vnode.c:856-924 | a file with links is written back and forgotten; one without is erased and all its blocks are freed |
| `SfsVnodes.Decref` | kern/fs/vfs/vnode.c:73-98 | the vnode is reclaimed exactly when the last reference goes |
| `SfsDir.ReadDir` | kern/fs/sfs/sfs_vnode.c:523-550 | reads exactly the entry in the slot; never short |
| `SfsDir.WriteDir` | kern/fs/sfs/sfs_vnode.c:556-584 | writes the whole entry or leaves all entries as they were; overwriting a slot never fails |
| `SfsDir.NEntries` | kern/fs/sfs/sfs_vnode.c:591-606 | the number of slots |
| `SfsDir.FindName` | kern/fs/sfs/sfs_vnode.c:614-658 | finds the one entry with the name, if any, and the last free slot; its assertion never fires |
| `SfsDir.DirLink` | kern/fs/sfs/sfs_vnode.c:664-703 | one new entry in a free slot or at the end; refused exactly if the name exists or is too long, or for want of space |
| `SfsDir.DirUnlink` | kern/fs/sfs/sfs_vnode.c:708-720 | clears one slot and cannot fail |
| `Directory.NamesAdd` | kern/fs/sfs/sfs_vnode.c:664-703 | a new entry adds one name to the map of names |
| `Directory.NamesRemove` | kern/fs/sfs/sfs_vnode.c:708-720 | clearing a slot removes one name from the map of names |
| `Directory.CountNames` | kern/fs/sfs/sfs_vnode.c:1243-1297 | the number of entries for an inode is the number of its names |
| `SfsOps.LookOnce` | kern/fs/sfs/sfs_vnode.c:726-752 | looks the name up in the map of names and takes one reference to the file |
| `SfsOps.Link` | kern/fs/sfs/sfs_vnode.c:1243-1264 | adds the name to the map and one to the link count; a call that fails changes neither |
| `SfsOps.NewFile` | kern/fs/sfs/sfs_vnode.c:1214-1236 | a new empty file under a new name, held once; a call that fails, even after the inode was made, leaves names, files and references as they were; each error under its condition on name length, free blocks and size of the directory |
| `SfsOps.Creat` | kern/fs/sfs/sfs_vnode.c:1183-1236 | opens an existing file unless excl, else makes a new empty one; a call that fails changes nothing; each error under its condition |
| `SfsOps.Remove` | kern/fs/sfs/sfs_vnode.c:1269-1297 | removes the name; the file goes with it exactly if it has no other name and nobody holds it |
| `SfsOps.Rename` | kern/fs/sfs/sfs_vnode.c:1305-1379 | the file moves from one name to the other; each error exactly under its condition, changing nothing; out of space only if at most one block was free |
| `SfsOps.Release` | kern/fs/vfs/vnode.c:73-98 | dropping a reference: the file disappears exactly with the last reference to a file without links |
| `SfsOps.Unnamed` | kern/fs/sfs/sfs_vnode.c:882-888 | the link count is zero exactly when no name is left |
| `SfsMount.WriteMap` | kern/fs/sfs/sfs_fs.c:39-73 | the free map goes to its blocks and no file byte changes |
| `SfsMount.ReadMap` | kern/fs/sfs/sfs_fs.c:39-73 | reads exactly the bytes in the map blocks |
| `SfsMount.MarkOnDisk` | kern/fs/sfs/sfs_fs.c:39-73 | the mark of block b is bit b mod 8 of byte b mod 4096 / 8 of block 2 + b / 4096 |
| `SfsMount.Sync` | kern/fs/sfs/sfs_fs.c:80-145 | nothing a user can see changes, and afterwards no vnode is dirty and the disk holds inodes and free map |
| `SfsMount.SyncedDisk` | kern/fs/sfs/sfs_fs.c:80-145 | a synced file system is one that its disk holds |
| `SfsMount.DiskDecides` | kern/fs/sfs/sfs_fs.c:80-145 | two file systems held by the same disk have the same free map, names and named files; everything, if no vnode is loaded |
| `SfsMount.DoMount` | kern/fs/sfs/sfs_fs.c:208-311 | mounting a disk gives the volume it holds, with nothing loaded; refused exactly without the magic number |
| `SfsMount.GetRoot` | kern/fs/sfs/sfs_vnode.c:1657-1670 | a reference to the root directory |
| `SfsMount.Unmount` | kern/fs/sfs/sfs_fs.c:165-192 | refused exactly while some vnode is held; then the disk alone holds the volume |
| `Mksfs.MapFits` | sbin/mksfs/mksfs.c:86-114 | the map blocks fit on the device exactly from three blocks on |
| `Mksfs.DoAllocBit` | sbin/mksfs/mksfs.c:75-84 | sets one bit that was clear |
| `Mksfs.MarkUsed` | sbin/mksfs/mksfs.c:101-108 | marks exactly the reserved blocks and the bits past the end of the device |
| `Mksfs.WriteBitmap` | sbin/mksfs/mksfs.c:86-114 | the map blocks on disk carry exactly these marks |
| `Mksfs.Format` | sbin/mksfs/mksfs.c:39-114 | superblock, root directory and map together make a consistent empty volume |
| `Mksfs.StrChr` | sbin/mksfs/mksfs.c:134-147 | the first place of a character, or none |
| `Mksfs.LegalNames` | sbin/mksfs/mksfs.c:134-147 | the legal volume names are those without a slash and without a colon but at the end, which is dropped |
| `Mksfs.MakeSfs` | sbin/mksfs/mksfs.c:39-165 | the disk made holds a consistent volume without names and files; refused exactly for a volume name that is long or has a slash or a colon not at its end, or a map that is too large |
| `Vnodes.IncRef` | kern/fs/vfs/vnode.c:59-66 | one more reference to a loaded vnode |
| `Vnodes.IncOpen` | kern/fs/vfs/vnode.c:104-111 | one more open, never more than there are references |
| `Vnodes.DecOpen` | kern/fs/vfs/vnode.c:117-140 | one open less; the last close writes the inode back |
| `VfsPaths.SplitPath` | kern/fs/vfs/vfslookup.c:104-200 | the scanning loops take the path apart as the grammar of paths says |
| `VfsPaths.DevicePath` | kern/fs/vfs/vfslookup.c:139-154 | a device name, a colon, any number of slashes and a path come apart into device name and path |
| `VfsPaths.PlainPath` | kern/fs/vfs/vfslookup.c:112-137 | a name without colon and slash is looked up as it is in the current directory |
| `VfsPaths.RelativePath` | kern/fs/vfs/vfslookup.c:112-137 | so is a path whose first mark is a slash that is not at its start |
| `VfsPaths.AbsolutePath` | kern/fs/vfs/vfslookup.c:156-200 | slashes and a path lead to that path on the boot file system |
| `VfsPaths.ColonPath` | kern/fs/vfs/vfslookup.c:156-200 | a colon, slashes and a path lead to that path on the current file system |
| `Vfs.Vfs.GetDevice` | kern/fs/vfs/vfslookup.c:104-201 | the starting vnode with one reference (the named device, if it is a plain one), or the error that the state determines and no reference |
| `Vfs.Vfs.DeviceRoot` | kern/fs/vfs/vfslist.c:104-185 | the root of the named volume, or the very device that the table names, with one reference |
| `Vfs.Vfs.LookParent` | kern/fs/vfs/vfslookup.c:208-234 | the directory with one reference and the last component, or the error that the state determines |
| `Vfs.Vfs.Lookup` | kern/fs/vfs/vfslookup.c:236-256 | the vnode the path leads to, file, root or device, with one reference, or the error that the state determines; the starting vnode is let go |
| `Vfs.PlainErrors` | kern/fs/vfs/vfslookup.c:208-256 | a name without marks is found exactly if there is a working directory with that name, and is a place for a new file exactly if it is not empty and at most 255 long |
| `Vfs.AbsoluteErrors` | kern/fs/vfs/vfslookup.c:208-256 | the same for a path from the boot file system |
| `Vfs.DeviceErrors` | kern/fs/vfs/vfslookup.c:208-256 | the same for a path from a device, and the errors of unknown, unmounted and plain devices |
| `Vfs.Vfs.Open` | kern/fs/vfs/vfspath.c:15-86 | on every exit path references are conserved; the handle is added exactly on success and is what the path names; at most one name is added, at most the opened file is new or truncated; the error that state, flags, name length, free blocks and size of the directory determine |
| `Vfs.LeftBehind` | kern/fs/vfs/vfspath.c:37-86 | a file that open made stays behind, though the call fails, exactly if the flags ask to append, or to truncate without writing |
| `Vfs.Vfs.Make` | kern/fs/vfs/vfspath.c:37-50 | the part of open that makes a file: one new name and empty file, or nothing changed; each error under its condition on name length, free blocks and size of the directory |
| `Vfs.Vfs.FindOrMake` | kern/fs/vfs/vfspath.c:37-57 | the first half of open: the vnode with one reference, or nothing changed |
| `Vfs.Vfs.Opening` | kern/fs/vfs/vfspath.c:59-85 | the second half of open: the vnode becomes a handle, truncated if asked to, or is let go |
| `Vfs.WhoOpens` | kern/fs/sfs/sfs_vnode.c:793-835 | which opens of files, directories and devices succeed, and the errors of the others |
| `Vfs.Vfs.Close` | kern/fs/vfs/vfspath.c:89-108 | the handle goes; the file is erased exactly if it has no name and this was the last to hold it |
| `Vfs.Vfs.Remove` | kern/fs/vfs/vfspath.c:111-127 | the name is removed and references are conserved; the file goes exactly if it has no other name and nobody holds it; the error that the state determines, changing nothing |
| `Vfs.Vfs.Rename` | kern/fs/vfs/vfspath.c:130-162 | the file is renamed and references are conserved on all five exits; errors exactly under their conditions; out of space only if at most one block was free |
| `Vfs.Vfs.Link` | kern/fs/vfs/vfspath.c:165-196 | the name is added and references are conserved; errors exactly under their conditions; out of space only if at most one block was free |
| `Vfs.Vfs.GetCurdir` | kern/fs/vfs/vfscwd.c:22-36 | the working directory with one more reference |
| `Vfs.Vfs.SetCurdir` | kern/fs/vfs/vfscwd.c:42-67 | only a directory becomes the working directory; its reference replaces the old one's |
| `Vfs.Vfs.ClearCurdir` | kern/fs/vfs/vfscwd.c:72-85 | the working directory is let go |
| `Vfs.Vfs.Chdir` | kern/fs/vfs/vfscwd.c:91-104 | the working directory becomes the one the path leads to; the error that the state determines |
| `Vfs.Vfs.ChangeBootfs` | kern/fs/vfs/vfslookup.c:29-44 | the boot file system is replaced and the old one let go |
| `Vfs.Vfs.SetBootfs` | kern/fs/vfs/vfslookup.c:54-86 | the name is clipped and refused exactly if it has a colon; boot file system and working directory become the root named; on an error nothing changes |
| `Vfs.ClippedName` | kern/fs/vfs/vfslookup.c:62-62 | at most 254 characters of the name are left, as they were |
| `Vfs.Vfs.BootFrom` | kern/fs/vfs/vfslookup.c:74-86 | boot file system and working directory become the root named; on an error nothing changes |
| `Vfs.ColonRefused` | kern/fs/vfs/vfslookup.c:61-72 | a name with one colon at its end is refused |
| `Vfs.Vfs.ClearBootfs` | kern/fs/vfs/vfslookup.c:92-96 | the boot file system is let go |
| `Vfs.Vfs.Fork` | kern/thread/thread.c:291-295 | the new thread shares the working directory, with a reference of its own |
| `VfsRun.Step` | kern/fs/vfs/vfspath.c:15-196 | every call keeps references, ownership, names and link counts exact and does to names and holders what it should; if nothing but zeros lay past the end of any file, it is so afterwards exactly if the call is no truncation that leaves old bytes |
| `VfsRun.Run` | kern/fs/vfs/vfspath.c:15-196 | so does every sequence of calls, whichever of them fail; if no call leaves old bytes, as when all truncations are to safe lengths, no byte past the end of a file ever differs from zero |
| `VfsRun.CutsNot` | kern/fs/sfs/sfs_vnode.c:1063-1157 | a truncation to a safe length, or to no less than the size, leaves no old bytes |
| `VfsRun.FromScratch` | sbin/mksfs/mksfs.c:116-165 | from any device of at least three blocks, formatted and mounted, every sequence of calls keeps all invariants |
| `VfsRun.Mounted` | sbin/mksfs/mksfs.c:116-165 | a formatted and mounted device has no names and no files, and room |
| `VfsRun.PutBytes` | kern/fs/sfs/sfs_vnode.c:941-948 | a write through a handle stores the bytes in its file and changes no other |
| `VfsRun.GetBytes` | kern/fs/sfs/sfs_vnode.c:929-936 | a read through a handle brings the bytes of its file |
| `VfsRun.Store` | kern/fs/vfs/vfspath.c:15-108 | open, write and close: the name leads to a file with exactly these bytes, and no other name is new |
| `VfsRun.Fetch` | kern/fs/vfs/vfspath.c:15-108 | open, read and close bring the bytes of the file of that name and change nothing |
| `VfsRun.StoreFetchRemove` | kern/fs/vfs/vfspath.c:15-127 | what is stored through one path comes back through every path to the same name, and is not found once the name is removed |
| `VfsRun.OpenLeaves` | kern/fs/vfs/vfspath.c:37-86 | open with flags that cannot be met, of a new name for which there is room, fails and leaves exactly that name |
| `VfsRun.AppendNew` | kern/fs/vfs/vfspath.c:37-86 | on a new volume, creating a file to append to it fails and leaves the file |
| `VfsRun.ReferencesExact` | kern/fs/vfs/vnode.c:59-140 | a vnode is in memory exactly while someone holds it; its reference count is the number of handles, working directories and boot file system that hold it, its open count the number of handles |
| `Vfs.HeldIff` | kern/fs/vfs/vnode.c:73-98 | a vnode is in memory exactly while someone holds it |
| `VfsRun.DeviceReferencesExact` | kern/fs/vfs/vnode.c:59-140 | the same for device vnodes, with one reference for the device table |
| `VfsRun.FreeMapExact` | kern/fs/sfs/sfs_vnode.c:60-261 | after any run a block is marked exactly if it has a claim, and then it has exactly one |
| `VfsRun.LinksExact` | kern/fs/sfs/sfs_vnode.c:1183-1379 | after any run a file's link count is the number of its names |
| `VfsRun.Remount` | kern/fs/sfs/sfs_fs.c:165-311 | when nobody holds a vnode, sync, unmount and mount bring back the same names, files and free map |
| `Malloc.Heap.constructor` | lib/libc/malloc.c:121-178 | an empty heap, aligned |
| `Malloc.Heap.SplitBlock` | lib/libc/malloc.c:265-302 | splits a free block exactly when a block of at least one unit of data remains |
| `Malloc.SplitTiled` | lib/libc/malloc.c:265-302 | after a split the headers tile the heap with matching links |
| `Malloc.SplitLive` | lib/libc/malloc.c:265-302 | a split changes no live block |
| `Malloc.MergeTiled` | lib/libc/malloc.c:425-451 | after a merge the headers tile the heap with matching links |
| `Malloc.MergeLive` | lib/libc/malloc.c:425-451 | a merge of free blocks changes no live block |
| `Malloc.Covered` | lib/libc/malloc.c:307-403 | every unit of the heap is in exactly one block |
| `Malloc.Heap.Search` | lib/libc/malloc.c:332-380 | finds the lowest free block that fits; no corruption check on the way fails |
| `Malloc.Heap.Expand` | lib/libc/malloc.c:382-402 | a new block on top, whose header names the length of the block below it |
| `Malloc.Heap.Malloc` | lib/libc/malloc.c:307-403 | for every size: an aligned block in the lowest free block that fits, or on top of the heap only if none does; large enough exactly up to 2^32 - 8; null exactly if there is no room; every live block keeps its place and data; whether the code overruns the heap |
| `Malloc.RoundedUp` | lib/libc/malloc.c:329-330 | rounding up gives at least the size exactly up to 2^32 - 8, and 0 beyond |
| `Malloc.AmountGrows` | lib/libc/malloc.c:236-255 | sbrk is asked to grow the heap exactly for sizes up to 2^31 - 16 and above 2^32 - 8 |
| `Malloc.AmountShrinks` | lib/libc/malloc.c:236-255 | a size for which the heap is asked to shrink |
| `Malloc.Heap.TryMerge` | lib/libc/malloc.c:425-451 | merges exactly two free neighbours; live blocks are unchanged |
| `Malloc.Heap.Free` | lib/libc/malloc.c:456-514 | the block goes and its data is wiped, every other keeps its place and data, and again no two neighbours are free; the program exits exactly if the pointer is not one of a block in use or is the top of the heap |
| `Malloc.InRange` | lib/libc/malloc.c:473-476 | a pointer from malloc passes the range test of free exactly if its block has data or is not the topmost |
| `Malloc.FreeZero` | lib/libc/malloc.c:307-514 | malloc(0) in an empty heap gives a pointer that free refuses |
| `Malloc.Heap.DeadBeef` | lib/libc/malloc.c:411-420 | wipes exactly the given units |
| `Malloc.LiveApart` | lib/libc/malloc.c:307-403 | distinct live blocks are apart, with a header between them |
| `Malloc.AllReturned` | lib/libc/malloc.c:456-514 | when everything was freed one free block spans the heap |
| `Malloc.Step` | lib/libc/malloc.c:307-514 | every malloc, free and write by the program keeps the heap well-formed and changes only its own block; when a request ends the program |
| `Malloc.Run` | lib/libc/malloc.c:307-514 | so does every run of requests; the blocks in use are those the program holds, and no check fails if it asks for sizes from 1 to 2^31 - 16 |
| `Malloc.ReleaseAll` | lib/libc/malloc.c:456-514 | a program that gives back all it holds leaves one free block that spans the heap |
| `Kheap.Kheap.AllocPageRef` | kern/lib/kheap.c:110-133 | the lowest page record not in use, marked; none exactly if all are in use |
| `Kheap.Kheap.FreePageRef` | kern/lib/kheap.c:135-148 | unmarks one record in use |
| `Kheap.Kheap.BlockType` | kern/lib/kheap.c:332-348 | the smallest block size that fits |
| `Kheap.SizesDouble` | kern/lib/kheap.c:52-56 | block sizes go from 16 up, each twice the one before |
| `Kheap.Kheap.FormatPage` | kern/lib/kheap.c:431-450 | a new page's freelist runs through all its blocks; memory changes only on the page |
| `Kheap.Kheap.FindPage` | kern/lib/kheap.c:372-407 | finds a page of the size with a free block, if there is one |
| `Kheap.Kheap.TakeBlock` | kern/lib/kheap.c:380-405 | hands out the first free block of a page, which becomes live; no other does |
| `Kheap.PopBlock` | kern/lib/kheap.c:382-400 | taking the first block leaves a well-formed freelist of length nfree |
| `Kheap.PushBlock` | kern/lib/kheap.c:518-526 | putting a block first leaves a well-formed freelist of length nfree |
| `Kheap.Kheap.CutOut` | kern/lib/kheap.c:307-330 | unlinks exactly one record from a list |
| `Kheap.Kheap.SubpageKmalloc` | kern/lib/kheap.c:350-460 | a block that was not live, of the smallest size that fits; memory changes only on a new page, which is taken only if no page has such a block; null only if there is no page or no record |
| `Kheap.Kheap.PutBlock` | kern/lib/kheap.c:507-526 | the block is free again and the first of its page's freelist |
| `Kheap.Kheap.PageOf` | kern/lib/kheap.c:481-498 | finds the page an address is on, if it is one of these |
| `Kheap.Kheap.ReleasePage` | kern/lib/kheap.c:529-534 | a page without live blocks leaves both lists and the in-use bits |
| `Kheap.Kheap.SubpageKfree` | kern/lib/kheap.c:462-540 | a live block is no longer live and is wiped, no other changes, memory changes only inside it; the page is given back exactly if it has no live block left; a panic exactly for an address inside a page where no block starts, -1 for one on no page |
| `Kheap.Kheap.Kmalloc` | kern/lib/kheap.c:545-563 | large requests get whole pages, rounded up; small ones a block |
| `Kheap.Kheap.Kfree` | kern/lib/kheap.c:565-577 | frees a block, or gives back pages that were taken whole; a panic exactly for every other address but null |
| `Kheap.Kheap.Store` | kern/lib/kheap.c:350-460 | a write inside a live block disturbs no freelist |
| `Kheap.LiveApart` | kern/lib/kheap.c:350-460 | live blocks do not overlap |
| `Kheap.OthersIntact` | kern/lib/kheap.c:462-540 | freeing a block leaves the words of every other live block alone |
| `Kheap.FreePlusLive` | kern/lib/kheap.c:165-199 | nfree and the live blocks add up to the capacity of the page |
| `Kheap.StartsBlock` | kern/lib/kheap.c:500-505 | an address on a page, not that of a free block, is live exactly if it is a multiple of the block size into it |
| `KheapRun.AllocBlock` | kern/lib/kheap.c:545-563 | a small request adds at most one block to those held, large enough and apart from all others |
| `KheapRun.AllocPages` | kern/lib/kheap.c:545-563 | a large request adds whole pages, apart from all pages of blocks |
| `KheapRun.FreeBlock` | kern/lib/kheap.c:565-577 | freeing a block held removes that one; a page goes back exactly if no block on it is live |
| `KheapRun.FreePages` | kern/lib/kheap.c:565-577 | freeing whole pages gives back those |
| `KheapRun.Write` | kern/lib/kheap.c:350-460 | writing into a block held keeps everything |
| `KheapRun.Run` | kern/lib/kheap.c:350-577 | after every run of calls the live blocks are exactly those held, each large enough, apart from each other and from the pages taken whole |
| `Queue.Queue.constructor` | kern/lib/queue.c:53-68 | an empty queue |
| `Queue.Queue.Grow` | kern/lib/queue.c:17-51 | the entries move to a larger ring in order; the additions inside never grow it again |
| `Queue.Queue.Preallocate` | kern/lib/queue.c:70-81 | room for the number asked, same entries |
| `Queue.Queue.Empty` | kern/lib/queue.c:83-88 | tells whether there is no entry |
| `Queue.Queue.AddTail` | kern/lib/queue.c:90-108 | adds at the end, through wraparound and growth; the ring is replaced exactly if it was full |
| `Queue.Queue.RemHead` | kern/lib/queue.c:110-121 | removes the first entry |
| `Queue.PicksInOrder` | kern/thread/scheduler.c:87-118 | the threads picked and left are the threads queued, in order: none lost, none twice |
| `Queue.PickedAfter` | kern/thread/scheduler.c:87-118 | a thread at position k is picked after exactly k others, whatever is added meanwhile |
| `Queue.Schedule` | kern/thread/scheduler.c:87-118 | the ring, driven through any run of the scheduler and make_runnable, picks and keeps exactly these threads |
| `Threads.Kernel.Wakeup` | kern/thread/thread.c:567-594 | everyone asleep on the address becomes runnable, in order, and no one else |
| `Threads.WokenInOrder` | kern/thread/thread.c:567-594 | who went to sleep earlier is woken earlier, and those who sleep on keep their order |
| `Threads.Kernel.Yield` | kern/thread/thread.c:529-539 | the running thread goes to the end of the run queue |
| `Threads.Kernel.SleepOn` | kern/thread/thread.c:552-561 | the running thread goes to sleep on an address whose count is zero |
| `Threads.Kernel.Dispatch` | kern/thread/thread.c:435-448 | the first thread of the run queue runs |
| `Threads.Kernel.P` | kern/thread/synch.c:63-84 | takes one if there is one, else sleeps |
| `Threads.Kernel.V` | kern/thread/synch.c:86-96 | adds one and wakes all sleepers |
| `Threads.Kernel.Acquire` | kern/thread/synch.c:138-156 | takes the lock exactly if its count is not zero, else sleeps; while locks are exact, it is then alone inside |
| `Threads.Kernel.Release` | kern/thread/synch.c:158-171 | by any thread: one more place, and everyone waiting can try again; all locks stay exact if and only if they were and the caller held this one |
| `Threads.ReleaseExact` | kern/thread/synch.c:158-187 | a release keeps the lock to the one thread it names if and only if the caller is inside, which is what the lock says |
| `Threads.ReleaseExcludes` | kern/thread/synch.c:138-171 | after a release at most one thread is ever inside, whatever follows without another stray release, if and only if the caller was inside |
| `Threads.RunPlaces` | kern/thread/synch.c:138-171 | over any run, count and threads inside add up to one and the number of stray releases |
| `Threads.RunExact` | kern/thread/synch.c:138-171 | a run keeps the lock exact if and only if no release in it is stray, and then at most one thread is inside |
| `Threads.HoldTells` | kern/thread/synch.c:158-187 | through any run without a stray release the lock names a thread exactly while it is inside, so lock_do_i_hold is false for everyone while the lock is free |
| `Threads.StrayRelease` | kern/thread/synch.c:138-171 | acquire, release by another thread, acquire: two threads are inside |
| `Threads.SignalThenRelease` | kern/test/synchtest.c:239-240 | a thread that broadcasts, which releases the lock, and then releases it lets a second thread in beside the one that got it |
| `Threads.Kernel.DoIHold` | kern/thread/synch.c:173-187 | while the lock is held and locks are exact, true of exactly the thread inside |
| `Threads.Kernel.CvWait` | kern/thread/synch.c:227-235 | the lock is released, by any thread, and the thread asleep in one section |
| `Threads.Kernel.CvSignal` | kern/thread/synch.c:249-277 | the lock is released, by any thread, and everyone waiting on the condition is runnable |
| `Processes.Search` | kern/userprog/pid_system.c:135-146 | finds the entry of a pid, if there is one |
| `Processes.AssignPid` | kern/userprog/pid_system.c:40-95 | the smallest pid above 1 not in use, appended if all are; every other entry unchanged |
| `Processes.Create` | kern/thread/thread.c:56-91 | a new thread with the smallest free pid; the P on the entry's semaphore does not sleep |
| `Processes.Start` | kern/thread/thread.c:262-361 | the new thread is runnable and counted |
| `Processes.Exit` | kern/thread/thread.c:472-524 | exactly the thread's own entry is marked exited with the code, its semaphore released, and the thread is a zombie |
| `Processes.Exorcise` | kern/thread/thread.c:125-144 | exactly the zombies' pids are released; no zombie is the running thread |
| `Processes.Waitpid` | kern/userprog/system_calls_PI.c:230-292 | fails exactly for options, for a null status, if there is no such pid or it is no child; answers if it has exited, else the caller sleeps |
| `Processes.WaitTurn` | kern/userprog/system_calls_PI.c:269-279 | sleeps exactly while the child is running, and leaves the semaphore as it was |
| `Processes.Boot` | kern/userprog/pid_system.c:10-38 | one running thread with pid 1 |
| `Processes.Take` | kern/thread/thread.c:56-594 | every step of threads, semaphores, locks, condition variables and pids, in any interleaving, keeps the invariant and does what it should to queue, counts and sleepers; only the pick takes from the run queue, its first thread; locks stay exact if and only if they were and the step is no release by a thread that does not hold the lock |
| `Processes.Run` | kern/thread/thread.c:56-594 | so does every run; one thread is picked for each pick done, the threads picked and left are those queued and added, in order, and a thread at position j is picked after exactly j others; locks are exact at the end if and only if no release in the run was stray |
| `Processes.ThreadsPlaced` | kern/thread/thread.c:379-463 | a live thread is the running one, in the run queue or asleep, exactly one of these; zombies are none of them; the thread count is exact |
| `Processes.NoLostWakeup` | kern/thread/synch.c:63-96 | whoever sleeps on a semaphore finds it at zero, on a lock finds a thread inside |
| `Processes.CountsExact` | kern/thread/synch.c:63-187 | a semaphore's count is initial count plus Vs less completed Ps and never negative; while locks are exact at most one thread is inside each, the one it names, and none exactly if it is free |
| `Processes.PidsDistinct` | kern/userprog/pid_system.c:67-95 | live threads have different pids |
| `Processes.EntryTells` | kern/userprog/pid_system.c:40-118 | the list holds 1, 2, ... in order; an entry's semaphore is 0 exactly while its thread runs, else 1 |
| `DiskDriver.Preserved` | kern/dev/lamebus/lhd.c:170-247 | every event of a thread, the disk or the interrupt handler keeps the invariant |
| `DiskDriver.RunSafe` | kern/dev/lamebus/lhd.c:72-247 | so does every run, for any number of threads and any timing |
| `DiskDriver.OneOutstanding` | kern/dev/lamebus/lhd.c:170-247 | in every run at most one request is outstanding and lh_done is at most 1 |
| `DiskDriver.RegistersStable` | kern/dev/lamebus/lhd.c:170-247 | while the disk works no thread overwrites its registers or buffer |
| `DiskDriver.OwnResult` | kern/dev/lamebus/lhd.c:72-104 | each thread gets the result, error codes too, of its own request, the last one started; a reader without a fault in its memory gets the sector, and nothing is moved in any other case |
| `DiskDriver.GoesThrough` | kern/dev/lamebus/lhd.c:170-247 | a request to a driver at rest goes through: a read brings the sector, a write changes exactly its sector, an error changes nothing, and the driver is at rest again |
| `DiskDriver.NeverStuck` | kern/dev/lamebus/lhd.c:72-247 | in every run, while some thread has a request, some event other than a new request can happen |
| `DumbVm.StealFresh` | kern/arch/mips/mips/ram.c:63-77 | of every request, the frames handed out are new exactly if the sum does not wrap around |
| `DumbVm.StealWraps` | kern/arch/mips/mips/ram.c:63-77 | a request that wraps around, and what it does |
| `DumbVm.Vm.Steal` | kern/arch/mips/mips/ram.c:63-77 | the next frames, or 0 if there are too few; for every size, whether the sum wraps around |
| `DumbVm.Vm.Fault` | kern/arch/mips/mips/dumbvm.c:62-154 | the translation of the page, region ends taken as 32-bit addresses, is entered in a free slot, exactly if there is one; the TLB stays a cache of the address space with no page twice |
| `DumbVm.WholeRegion` | kern/arch/mips/mips/dumbvm.c:114-134 | a region has all its pages exactly if it ends below 2^32, else it has none |
| `DumbVm.FirstRegion` | kern/arch/mips/mips/dumbvm.c:121-134 | a page is mapped exactly if it is in some region, by the first it is in |
| `DumbVm.PageOfRegion` | kern/arch/mips/mips/dumbvm.c:114-134 | page i of region k has frame i of that region |
| `DumbVm.TouchRegion` | kern/arch/mips/mips/dumbvm.c:62-154 | a touch of page i of region k enters frame i of the region in the TLB, exactly if a slot is free, and the other entries stay |
| `DumbVm.TopPage` | kern/arch/mips/mips/dumbvm.c:62-259 | a region of the one page at the top is defined and loaded, and its page cannot be touched |
| `DumbVm.Vm.Activate` | kern/arch/mips/mips/dumbvm.c:181-195 | the TLB is empty for the new address space |
| `DumbVm.Vm.Deactivate` | kern/thread/thread.c:460-462 | a thread without an address space leaves the TLB alone, and none of its entries is then relied on |
| `DumbVm.Vm.Create` | kern/arch/mips/mips/dumbvm.c:156-173 | an address space without regions or frames |
| `DumbVm.Vm.Destroy` | kern/arch/mips/mips/dumbvm.c:175-179 | the address space goes; the others keep their frames |
| `DumbVm.Vm.Define` | kern/arch/mips/mips/dumbvm.c:197-234 | the region has the pages that 32-bit rounding gives and covers the bytes asked for, exactly if the size does not wrap around; a third one is refused |
| `DumbVm.RegionVanishes` | kern/arch/mips/mips/dumbvm.c:203-210 | a size just below 2^32 gives a region of no pages |
| `DumbVm.Vm.PrepareLoad` | kern/arch/mips/mips/dumbvm.c:236-259 | new frames for all three regions, exactly if memory suffices; whether one of the requests wraps around, exactly |
| `DumbVm.Vm.CopyPages` | kern/arch/mips/mips/dumbvm.c:301-311 | copies pages and nothing else |
| `DumbVm.Vm.Copy` | kern/arch/mips/mips/dumbvm.c:277-315 | every page of the parent is mapped in the child, to another frame with equal contents, and the parent is unchanged, exactly if memory suffices; whether a request wraps around, exactly |
| `DumbVm.Isolated` | kern/arch/mips/mips/dumbvm.c:62-315 | no two pages, of one or of different address spaces, share a frame |
| `DumbVm.Run` | kern/arch/mips/mips/dumbvm.c:62-315 | every run of calls, up to a request that wraps around, keeps the TLB a cache of the address space and all frames apart |
| `Numerals.NumberText` | lib/libc/__printf.c:391-424 | the digits of any 32-bit number in base 8, 10 or 16 have its value, without needless zeros, and fit the 12-byte buffer, which is filled from its end |
| `Numerals.DigitsMean` | lib/libc/__printf.c:383-424 | the digits of a number, 0 to 9 and a to f, have its value in the base |
| `Numerals.Atoi` | lib/libc/atoi.c:20-72 | blanks, sign and digits, with 32-bit wrap-around |
| `Numerals.AtoiMeans` | lib/libc/atoi.c:20-72 | blanks and tabs, a plus, a minus or no sign, and digits give the value of the digits, or its negative, in 32 bits |
| `Printf.Printer.Print` | lib/libc/snprintf.c:44-64 | the buffer holds as much of the text as fits, the rest is counted |
| `Printf.Printer.PrintStuff` | lib/libc/__printf.c:330-369 | padding on the left, between sign and digits, or on the right |
| `Printf.Printer.SendNum` | lib/libc/__printf.c:213-456 | an integer field: the argument, its base, sign and prefix, padded |
| `Printf.Printer.Send` | lib/libc/__printf.c:461-528 | one character of the format, through the state machine |
| `Printf.Printer.Vprintf` | lib/libc/__printf.c:535-553 | the whole text is sent and its length returned |
| `Printf.Vsnprintf` | lib/libc/snprintf.c:69-112 | the buffer gets the fitting prefix and a NUL, nothing is written past it, and the full length is returned |
| `Printf.FormatText` | lib/libc/__printf.c:149-206 | a format with flags and a width produces the padded field, for every width |
| `Printf.NumberField` | lib/libc/__printf.c:149-456 | %d, %u, %o, %x and %p with any flags and width, anywhere in a format: the 32-bit value in digits of its base, sign and base prefix, made up to the width with blanks before, zeros between, or fill after |
| `Printf.TextField` | lib/libc/__printf.c:461-528 | %s, %c and other characters after a percent sign: the text, made up to the width |
| `Printf.PlainText` | lib/libc/__printf.c:461-528 | text without a percent sign goes out as it is |
| `Printf.PrintThenParse` | lib/libc/__printf.c:149-553 | every int printed with any width, fill and alignment, but zeros on the right, is read back by atoi |
| `Printf.PrintAndRead` | lib/libc/snprintf.c:69-112 | so it is through a buffer: snprintf into one that is long enough, then atoi of the string up to the NUL |
| `Printf.LeftZeros` | lib/libc/__printf.c:330-369 | with zeros on the right it is read back exactly if it fills the field or is 0 |
| `Printf.LeftZerosExample` | lib/libc/__printf.c:330-369 | 42 printed in a field of five that way |
| `Printf.ZerosMatter` | lib/libc/atoi.c:41-63 | appending zeros changes a nonzero number, in 32-bit arithmetic too |
| `Random.NeverBothWrap` | lib/libc/random.c:396-442 | front and rear pointer never wrap on the same call, and stay the separation apart |
| `Random.RearAfter` | lib/libc/random.c:413-442 | after n steps the rear pointer is n places on |
| `Random.Trinomial` | lib/libc/random.c:413-442 | the numbers obey the trinomial rule of their kind: number n + d is the sum of numbers n and n + d - s, and is given out without its lowest bit |
| `Random.LinearStep` | lib/libc/random.c:420-422 | the linear generator: the word is replaced by its successor modulo 2^31, which is given out |
| `Random.SeededRear` | lib/libc/random.c:230-247 | after seeding the rear pointer is back at 0 |
| `Random.SeededMeans` | lib/libc/random.c:230-247 | the table is filled by the linear congruential rule from the seed and then run over ten times |
| `Random.Rng.RandomUnlocked` | lib/libc/random.c:413-442 | one step of the generator, on the table in place, and no other array changes |
| `Random.Rng.Srandom` | lib/libc/random.c:230-247 | the table is filled and run over ten times |
| `Random.Rng.InitState` | lib/libc/random.c:281-332 | a new generator in the array given, of the largest kind that fits; every other generator is put aside as it was; refused exactly below 8 bytes |
| `Random.LargestKind` | lib/libc/random.c:299-322 | the generator with the most words that fit in the bytes given |
| `Random.Rng.SetState` | lib/libc/random.c:355-394 | switching to another array changes no generator; to the one in use, exactly if its saved position is current |
| `Random.Rng.SameState` | lib/libc/random.c:355-394 | from a saved state, n numbers and then setstate on the state in use: the stream goes on exactly if n is a multiple of the degree |
| `Random.Rng.Detour` | lib/libc/random.c:281-394 | drawing numbers from another array and switching back resumes the identical stream |
| `Random.SameStateLost` | lib/libc/random.c:355-394 | after one number, setstate on the state in use goes back |

## Left out

- Concurrency inside SFS and VFS: calls are modelled one after the other, as the static buffers in the code require; locks around them are not modelled.
- I/O errors (EIO) and the retry loop in sfs_io.c: the disk is an array of blocks that reads back what was written.
- Kernel memory shortage: kernel allocations succeed, so ENOMEM exits are not modelled.
- The device list of vfslist.c (its names, mounting by name, unmountall): one mounted volume and any number of plain devices, in a fixed table.
- Vfs.Vfs.Link: the file linked is a regular file or a device; linking a directory is not modelled.
- Offsets and lengths are below 2^31, as off_t is a signed 32-bit integer; the wrap-around of larger ones is not modelled.
- The directory, stat, ioctl and fsync calls of SFS (mkdir and rmdir are stubs in the code).
- SfsMount.DoMount: of a disk that holds a consistent volume, or lacks the magic number; an inconsistent disk with the magic number is not modelled.
- SfsVnodes.LoadVnode: requires a known inode type, as the panic for others cannot be reached from a consistent volume.
- Uios.Uio.Move: a buffer longer than uio_resid only where the I/O vector is exactly uio_resid long; with a longer vector the code moves more than uio_resid. Kernel and user memory are one memory of which a prefix is accessible.
- Uios.Uio.MoveZeros: the same of its count.
- Malloc.Heap.Malloc: sbrk does not pass the end of the address space; when the code writes past the top of the heap the model reports it (wild) and stops.
- Malloc.Heap.Free: where the pointer is inside the heap, the program's data in front of it does not look like a block header with its magic bits.
- Kheap.Kheap.SubpageKfree: of any address but that of a block already free, which the code does not notice. Statistics printing is left out.
- Kheap.Kheap.Kfree: the same.
- Kheap.Kheap.SubpageKmalloc: pages come from alloc_kpages, a parameter.
- cv_signal and cv_broadcast are one operation, as in the code.
- Threads.Kernel.P: one turn of its loop; that a sleeper runs again is left to the scheduler.
- Fairness and liveness: only safety is stated, except for the order of picks in the run queue.
- Processes.Waitpid: that the exit code is the child's own is not claimed, because a pid is reused as soon as its zombie is gone; absence of deadlock is not claimed either.
- Processes.Exit: by every thread but the first; the first thread's entry has no semaphore.
- Processes.Create: stacks, names, working directories (in Vfs.Vfs.Fork) and address spaces are left out; so are killing all threads and panic shutdown.
- array.c: sleepers and zombies are sequences; the array's own growth and shrinking is left out as easy.
- Ring and array preallocation in mi_switch: that no allocation happens there is not claimed.
- DiskDriver.OwnResult: the controller is a step that moves a sector and sets the status; registers and bus are not modelled.
- DumbVm.Vm.Steal: where the sum wraps around the model reports it (wild) and stops; frames are never freed, as in the code.
- DumbVm.Vm.PrepareLoad: the same; of a space without frames, as the code asserts.
- DumbVm.Vm.Define: of a space not yet loaded, as its callers do.
- DumbVm.Vm.Fault: requires the regions that the code asserts; the fault types that panic or are refused at once are left out.
- DumbVm.Vm.Copy: of a loaded address space, as its callers do, to an identifier not in use.
- Printf.Printer.SendNum: the arguments match the format; `long long` is left out, and so is the overflow of a width or a character count beyond 2^31.
- Random.Rng.InitState: into an array other than the one in use, with room for the bytes it claims; overlapping state arrays are excluded.
- Random.Rng.SetState: to arrays that initstate has set up, so the exit for an unknown type is not modelled; the arrays' words are taken as unsigned 32-bit numbers.
- Assembly, traps, context switching, consoles, timers, emufs, the menu, user programs other than mksfs, loading of executables, and stubs.
