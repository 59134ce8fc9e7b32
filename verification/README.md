# A verified model of the teaching kernel

The kernel has a journaled RAM disk with a small file system on top, a buddy allocator over a
frame bitmap, blocking locks, a multi-level feedback scheduler and a deadlock detector.  Each of
these is modelled here in Dafny and the promises its code makes are proved for every input and
every run.

How the pieces are modelled:

- **Journal** (`RamDisk.dfy`).  Single stores are the steps.  A block write is a program of
  stores, and so is recovery; both may stop after any store.  `Device` is the imperative code,
  proved to make exactly those stores in that order.
- **File system** (`Fs*.dfy`, `FileSystem.dfy`).  The disk is an image of typed blocks: two
  bitmaps, the inode table, directories, pointer tables and data.  `FileSystem` is the imperative
  code; every block write appends the resulting image to `history`, so a claim about `history` is a
  claim about every crash point between block writes.  The images inside a truncation, whose block
  bits are cleared before the inode is rewritten, are put down in `torn`.  A *shape* is a ghost
  witness of consistency: live inodes, the directory tree with depths, the owner of each block, and
  the files known to have no holes.  `Safe` says a shape fits the image; `Exact` says the bitmaps
  also hold nothing more than it needs.  A *scope* says what an operation may do: every crash point
  of it is safe, shows the old or the new set of live inodes, and leaves all inodes but its targets
  untouched.  `FsCommands.dfy` states every call as a relation between the states before and
  after; a run is a trace of states in which each follows from the one before by its command.
  `FsJournal.dfy` joins this to the journal: over any layout of images in blocks, a crash at any
  store followed by recovery leaves an image of the history.
- **Buddy allocator and frame allocator** (`Buddy.dfy`, `Pmm.dfy`).  Addresses of the buddy pool
  are counted in pages.
- **Locks** (`Semaphore.dfy`, `RwLock.dfy`, `Mutex.dfy`, `BoundedBuffer.dfy`).  A region with
  interrupts masked is one step; between regions any thread may run.
- **Scheduler** (`Scheduler.dfy`).  A run is any sequence of ticks, yields, sleeps, blocks, wakes,
  creations, exits and kills.
- **Deadlock detector** (`Deadlock.dfy`).

Where the code and its own words disagree, the model follows the code:

- The detector's header speaks of finding circular waits (`kernel/deadlock.h:4`).  Every cycle
  through a live process is found, but a process that waits for a running one in a later slot is
  reported too (`Deadlock.FalseAlarm`); `Deadlock.Detect` states the exact condition.
- The journal's comment promises that an interrupted write is undone (`kernel/ramdisk.c:114-120`).
  This needs a condition on the header words left over from an earlier recovery;
  `RamDisk.WriteAtomicIff` gives it exactly, `RamDisk.LeftOverHeaderDestroys` shows a run from a
  cleared header in which block 0 is overwritten although nothing was committed, and
  `RamDisk.OrdinaryRunAtomic` shows that the condition always holds when a recovery's final clear
  is never interrupted and no before-image hashes to 0.
- `split_parent` takes an over-long component for the end of the path, so it may yield a parent and
  a name for a path that does not resolve (`FsPaths.OverLongEndsPath`); `FsPaths.AgreementIff` says
  when it agrees with `resolve_path`.  In particular fs_unlink of such a path removes the file before
  the over-long component (`FsOverLong.UnlinkOverLong`, and `FsOverLong.TwoCalls` as a run).
- `mutex_unlock` hands the lock to the first waiter, not the most urgent one, and recomputes the
  caller's priority from a list that holds at most four of its mutexes.  Priority inheritance
  survives an unlock exactly when the first waiter is the most urgent and the recomputed priority
  suits the waiters on unlisted mutexes (`Mutexes.UnlockKeepsInheritanceIff`);
  `Mutexes.OvertakenRun` and `Mutexes.FifthMutexRun` are runs in which one or the other fails.
- A create that fails at the directory entry clears both bits again but leaves the inode written
  as a file (`kernel/fs.c:500-505`).  A descriptor that is still open on that inode, because its file
  was unlinked, is then *stale*: a write through it goes to a block that is free or belongs to
  something else.  A descriptor becomes stale exactly when an open *spoils* (`FsRuns.StaleIff`), which
  can be seen before the call.  A write through it to the block that the inode names keeps the
  image safe exactly when no live directory holds that block and no live file has its pointer table
  in it (`FsStray.OverwriteIff` for the block write, `FsRuns.TolerableIff` for the call); what is
  live can be computed from the image (`FsStray.LiveIsAttached`).  Such a *tolerable* write changes
  nothing else that is live, and the bitmaps stay exact if and only if it allocates nothing
  (`FsStale.StrayedExactIff`).  `FsStale.SevenCalls` shows seven calls after which every write
  through a stale descriptor would destroy a live directory.  Runs go on through tolerable writes
  (`FsRuns.RunAll`), whatever files are unlinked or truncated while open.
- `fs_pwd` asks for one byte more than it needs directly below the root (`FsPwd.PwdFits`).

## Model

| member | source | states |
|---|---|---|
| Fnv.Checksum32 | kernel/ramdisk.c:19-28 | the loop computes the 32-bit FNV-1a hash of the bytes |
| Fnv.PublishedHashes | kernel/ramdisk.c:19-28 | it gives the hashes published for the empty string and for "a" |
| Fnv.OneByteShows | kernel/ramdisk.c:19-28 | a single changed byte, anywhere, always changes the checksum |
| RamDisk.RecoveryMeans | kernel/ramdisk.c:46-71 | recovery does nothing without a record; otherwise it clears the journal and puts the before-image back if and only if its checksum is right and the write was not committed |
| RamDisk.DamagedImageIgnored | kernel/ramdisk.c:58-61 | a before-image with one wrong byte is never put back |
| RamDisk.WriteAtomicIff | kernel/ramdisk.c:98-132 | recovery after a write cut off at any store gives the old or, once `committed = 1` was stored, the new contents, at every store, if and only if the left-over header is benign for the block |
| RamDisk.WriteCompletes | kernel/ramdisk.c:98-132 | a finished write changes exactly its block and leaves a cleared journal |
| RamDisk.RecoveryRestartable | kernel/ramdisk.c:46-71 | recovery stopped after any of its stores, clearing included, and started again ends with the same blocks |
| RamDisk.CrashAtomicity | kernel/ramdisk.c:46-132 | over any run of writes, crashes at any store and re-interrupted recoveries, the blocks are those of the committed writes applied in order |
| RamDisk.OrdinaryIsAllowed | kernel/ramdisk.c:37-71 | with an uninterrupted final clear and no zero hash outside block 0, the left-over header is always benign |
| RamDisk.OrdinaryRunAtomic | kernel/ramdisk.c:46-132 | so crash atomicity holds for all such runs without further condition |
| RamDisk.LeftOverHeaderDestroys | kernel/ramdisk.c:37-71 | from a cleared header, two writes and two recoveries cut off before any commit make the next recovery put another block into block 0 |
| RamDisk.EveryRun | kernel/ramdisk.c:46-132 | crash atomicity for every run from a zeroed device with benign headers |
| RamDisk.EveryOrdinaryRun | kernel/ramdisk.c:46-132 | and for every ordinary run from a zeroed device |
| RamDisk.Device.ReadBlock | kernel/ramdisk.c:86-96 | returns the contents of the block |
| RamDisk.Device.JournalClear | kernel/ramdisk.c:37-44 | zeroes the four header words, one store each, in order |
| RamDisk.Device.WriteBlock | kernel/ramdisk.c:98-132 | refuses exactly the blocks from 254 on; otherwise makes exactly the stores of the write program, in order, and leaves the block written and the journal cleared |
| RamDisk.Device.Recover | kernel/ramdisk.c:46-71 | makes exactly the stores of the recovery program, in order |
| FsPaths.DirFind | kernel/fs.c:170-188 | finds the first used entry with that name, or nothing |
| FsPaths.ComponentsJoin | kernel/fs.c:232-251 | the components of two paths joined by a slash are those of the first and then those of the second |
| FsPaths.ComponentsOne | kernel/fs.c:232-251 | a leading slash adds no component, and a name without slashes is one |
| FsPaths.ResolveFolds | kernel/fs.c:253-283 | a path leads, from the root or the start, to where looking up its components one after the other leads, "." left out and ".." looked up like any other, and nowhere if it is empty or a component is over-long |
| FsPaths.ResolveMore | kernel/fs.c:253-283 | one component more is one lookup more |
| FsPaths.SplitFolds | kernel/fs.c:285-338 | a path splits exactly if, of the components before the first over-long one, the last is neither "." nor ".." and those before it lead somewhere; that is the parent |
| FsPaths.ScanComponent | kernel/fs.c:232-251 | yields the next component and the rest, the end, or "too long" |
| FsPaths.ResolvePath | kernel/fs.c:253-283 | computes the resolution function |
| FsPaths.SplitParent | kernel/fs.c:285-338 | computes the parent and last name, with the look-ahead |
| FsPaths.ResolveIsLookup | kernel/fs.c:253-338 | when a path splits into parent and name and every component is short, resolving it is looking the name up in the parent; with an over-long component it fails |
| FsPaths.AgreementIff | kernel/fs.c:253-338 | the two agree if and only if every component is short or the name is absent |
| FsPaths.OverLongEndsPath | kernel/fs.c:318-331 | for every over-long last component, the split yields the directory's own name while the path does not resolve |
| FsPaths.PrintedSlashed | kernel/fs.c:724-767 | the text printed is a slash for the root and else each name after one slash |
| FsPaths.PrintedComponents | kernel/fs.c:724-767 | the components of a printed path are the names printed |
| FsPaths.ResolvePrinted | kernel/fs.c:253-283 | a printed path resolves, from any start, by following its names from the root |
| FsShape.ReachedIsLive | kernel/fs.c:170-188 | in a safe image, whatever directory entries reach from the root is live |
| FsShape.LiveIsReached | kernel/fs.c:170-188 | every live inode is reached from the root in as many steps as its depth |
| FsShape.SafeMeans | kernel/fs.c:114-149 | in a safe image every reachable inode and every block it holds is marked used, and no block is reachable twice |
| FsSteps.HarmlessKeeps | kernel/fs.c:106-168 | a block write that touches nothing live keeps the image safe |
| FsSteps.LinkKeeps | kernel/fs.c:190-212 | adding an entry for a prepared inode under a name not yet listed keeps the image safe |
| FsSteps.UnlinkKeeps | kernel/fs.c:214-230 | clearing the entry of a file or an empty directory keeps the image safe |
| FsSteps.FileWriteKeeps | kernel/fs.c:160-168 | a write into one of a file's own blocks keeps the image safe if the file stays consistent |
| FsFiles.OverwriteMore | kernel/fs.c:597-615 | writing a buffer in two pieces is writing it in one |
| FsFiles.OverwrittenUnique | kernel/fs.c:604-614 | what a write does to the contents determines them |
| FsFiles.UntouchedContents | kernel/fs.c:582-619 | an untouched file reads the same |
| FsFiles.PatchOverwrites | kernel/fs.c:604-614 | patching the block under an offset within the file overwrites the flat contents there, across direct and indirect blocks |
| FsFiles.NeverFull | kernel/fs.c:597-599 | a file without holes never reaches block 248, because 248 data blocks and a pointer table do not fit in 248 blocks |
| FsGrow.AllocKeeps | kernel/fs.c:114-125 | both block writes of an allocation keep the image safe and every live inode untouched |
| FsGrow.GrowDirect | kernel/fs.c:345-352 | a fresh block in an empty direct slot: the file keeps its blocks and bytes, others are untouched, accounts stay exact |
| FsGrow.GrowTable | kernel/fs.c:357-364 | the same for a fresh pointer table |
| FsGrow.GrowEntry | kernel/fs.c:366-372 | the same for a fresh block in an empty table entry |
| FsGrow.GrownBytes | kernel/fs.c:340-374 | growing a file does not change its bytes, up to whatever size and holes included, because new blocks are zeroed |
| FsStray.LiveIsAttached | kernel/fs.c:170-188 | in a safe image the live inodes are those that can be reached from the root in fewer steps than there are inodes |
| FsStray.OverwriteIff | kernel/fs.c:604-610 | a data write to any data block leaves a safe image if and only if no live directory holds the block and it is no live file's pointer table |
| FsStray.StruckKeeps | kernel/fs.c:604-610 | and then it touches only the holder of the block, and exact accounts stay exact |
| FsStray.DirectoryStruck | kernel/fs.c:604-610 | data written over the block of a live directory leaves an image that no shape fits |
| FsStray.TableStruck | kernel/fs.c:604-610 | so does data written over the pointer table of a live file |
| FsWrite.WritingData | kernel/fs.c:604-614 | one turn of the write loop keeps the image safe with the old inode still on disk and touches no other inode, whether the inode is live or left over |
| FsWrite.DataBytes | kernel/fs.c:604-614 | it overwrites the file in memory at the offset, within the file or past its end |
| FsWrite.StrayedEnd | kernel/fs.c:597-618 | a write to a left-over inode changes, of everything live, only what the inode's block holds, and nothing else at all unless blocks are allocated |
| FsWrite.StrayedExact | kernel/fs.c:597-618 | without an allocation exact accounts stay exact |
| FsWrite.WritingEnd | kernel/fs.c:617-618 | storing the inode makes the bytes in memory the file's contents and closes the accounts exactly |
| FsWrite.ChunkRead | kernel/fs.c:565-578 | the block under an offset holds the file's bytes from there on |
| FsRelease.ReleaseOne | kernel/fs.c:376-393 | one block given back clears exactly its bit and its registration |
| FsRelease.ReleaseKeeps | kernel/fs.c:127-131 | and hurts no other live inode |
| FsRelease.AllGone | kernel/fs.c:376-393 | after the release exactly the blocks the inode held have lost their bits |
| FsRelease.RemoveKeeps | kernel/fs.c:653-655 | zeroing an unlinked inode and clearing its bit keeps the image safe |
| FsCreate.LinkCreates | kernel/fs.c:465-509 | the writes of a create add up to exactly one new inode with its first block and one new entry, with exact accounts |
| FsCreate.EntryCreates | kernel/fs.c:190-212 | the entry goes into the first hole, which is never "." or ".." |
| FsCreate.DiscardedIsOld | kernel/fs.c:500-505 | undoing a create restores both bitmaps and leaves every live inode untouched |
| FsExact.LiveIffReachable | kernel/fs.c:170-188 | live means reachable from the root |
| FsExact.BlockExact | kernel/fs.c:376-393 | with exact accounts, a data block's bit is set if and only if a reachable inode holds it, and then exactly one does, in one place |
| FsExact.InodeExact | kernel/fs.c:465-509 | an inode's bit is set if and only if it is the root or a directory lists it, and then exactly one entry does |
| FsExact.BitmapsDetermined | kernel/fs.c:785-799 | the bitmaps are determined by the live inodes and the blocks they hold |
| FsExact.ReleasedTight | kernel/fs.c:376-393 | after all blocks of an inode are back, exactly the others' blocks are marked |
| FsWalk.ResolveLive | kernel/fs.c:253-283 | resolution from a live inode ends at a live inode |
| FsWalk.SplitLive | kernel/fs.c:285-338 | so does splitting |
| FsWalk.SplitStays | kernel/fs.c:285-338 | a path splits the same way as long as successful lookups stay the same |
| FsWalk.DotsResolve | kernel/fs.c:253-283 | in a safe image ".." leads from a live directory to its parent and "." nowhere else |
| FsWalk.UpFromPath | kernel/fs.c:253-283 | so does "/.." after any path to it |
| FsWalk.DownAndUp | kernel/fs.c:253-283 | the name of a child directory and "/.." lead back to the start |
| FsWalk.ResolveStays | kernel/fs.c:253-283 | a path resolves as before as long as successful lookups stay the same |
| FsWalk.DotsFind | kernel/fs.c:739-741 | every live directory finds itself under "." and its parent, a live directory, under ".." |
| FsWalk.TrailLeadsBack | kernel/fs.c:724-767 | following the names on the way up to the root leads back down to the inode |
| FsWalk.PrintedTrail | kernel/fs.c:724-775 | the printed trail of a live inode resolves to it from any start |
| FsRemove.Deletes | kernel/fs.c:651-655 | the writes of an unlink add up to exactly one inode and one entry gone, with exact accounts |
| FsRemove.Truncates | kernel/fs.c:530-534 | the writes of a truncation leave an empty file without blocks, everything else untouched, accounts exact |
| FsPwd.FitsMore | kernel/fs.c:760-765 | a path fits the buffer if and only if the parent's path fits and the source's length test passes |
| FsPwd.TrailStep | kernel/fs.c:760-766 | each level prints the parent's path, a slash below the root, and the name |
| FsPwd.ChildName | kernel/fs.c:750-756 | the first entry that names the inode, "." and ".." aside |
| FsPwd.FormattedExact | kernel/fs.c:403-444 | a fresh disk is safe and its accounts are exact |
| FsPwd.CountFree | kernel/fs.c:785-799 | counts the clear bits of a range |
| FsCrash.ScopeMove | kernel/fs.c:114-149 | a step that touches at most a target leaves the operation in scope |
| FsCrash.ScopeCopying | kernel/fs.c:597-616 | every state of a write is a crash point with all other inodes untouched |
| FsCrash.ScopeStored | kernel/fs.c:617 | so is its end |
| FsCrash.ScopeCreated | kernel/fs.c:500-508 | the last write of a create turns the old tree into the new one |
| FsCrash.ScopeCleared | kernel/fs.c:651 | the first write of an unlink does, with all inodes but the two touched |
| FileSystems.CreateCodes | kernel/fs.c:465-509 | each code of create_inode if and only if: the name is there, no inode is free, no block is free, the parent is no directory or has no unused entry; success otherwise |
| FileSystems.OpenCodes | kernel/fs.c:511-528 | each code of fs_open up to there if and only if; success exactly if the path leads to a file or one is to be created and can be |
| FileSystems.UnlinkCodes | kernel/fs.c:628-649 | each code of fs_unlink if and only if; success exactly for files and for directories without entries, the root aside |
| FileSystems.CheckEmpty | kernel/fs.c:643-649 | tells whether a directory has entries beyond "." and ".." |
| FileSystems.FileSystem.Format | kernel/fs.c:395-445 | the format loops produce the fresh disk image, safe and exact, with the root as working directory |
| FileSystems.FileSystem.Mount | kernel/fs.c:447-463 | any safe image, such as one left by a crash and with holes in its files or not, can be mounted |
| FileSystems.FileSystem.Put | kernel/ramdisk.c:98-132 | one block write, recorded as one crash point in scope |
| FileSystems.FileSystem.AllocBlock | kernel/fs.c:114-125 | the lowest free block, marked and zeroed, or -1 exactly when none is free; both writes are crash points in scope |
| FileSystems.FileSystem.AllocInode | kernel/fs.c:133-143 | the lowest free inode, marked, or -1 exactly when none is free |
| FileSystems.FileSystem.BlockForInode | kernel/fs.c:340-374 | the block behind a logical block of any live file or left-over inode; it only gains blocks, and -1 within the addressable range means that the disk is full |
| FileSystems.FileSystem.Write | kernel/fs.c:582-619 | -1 exactly when the descriptor is unused, read only or not on a file; otherwise no inode but the file is touched, every block write is a crash point with all others untouched, accounts stay exact, and exactly the first n bytes replace those at the offset, within the file or past its end; n < count only when no block is free or, with holes, at the last block; a tolerable write through a stale descriptor touches, of everything live, only what the block of its inode holds |
| FileSystems.FileSystem.Read | kernel/fs.c:548-580 | for any descriptor: the bytes from the offset up to the count, the size or the first hole land in the buffer, the rest of it and the disk are unchanged; without holes exactly min(count, size - offset) bytes |
| FileSystems.FileSystem.DirAdd | kernel/fs.c:190-212 | succeeds exactly when the name fits, is not listed and the parent is a directory with a hole, and then completes the creation |
| FileSystems.FileSystem.CreateInode | kernel/fs.c:465-509 | the exact return code; success takes the lowest free inode and block and creates exactly them and one entry in the first hole, failure restores both bitmaps and every live inode and says what it leaves written; every block write is a crash point with the old or the new tree |
| FileSystems.FileSystem.FreeBlock | kernel/fs.c:127-131 | clears the bit of a data block and ignores all other numbers |
| FileSystems.FileSystem.Release | kernel/fs.c:376-393 | exactly the blocks the inode held are freed; for an unlinked inode every write is a crash point in scope |
| FileSystems.FileSystem.DirRemove | kernel/fs.c:214-230 | clears exactly the entry with that name, and fails exactly when there is none |
| FileSystems.FileSystem.Unlink | kernel/fs.c:628-659 | the exact return code; success removes exactly one file or empty directory with its blocks and resets a removed working directory to the root, failure changes nothing; every block write is a crash point with the old or the new tree and all other inodes untouched |
| FileSystems.FileSystem.Open | kernel/fs.c:511-546 | the exact return code, success or -6 exactly if the path leads to a file or one can be created as asked, the lowest free descriptor on the file found or created, empty after O_TRUNC; all block writes but those inside a truncation are crash points with the old or the new tree; what a failed open leaves written |
| FileSystems.FileSystem.Truncate | kernel/fs.c:530-534 | empties the file and frees exactly its blocks; only the images in between are torn |
| FileSystems.FileSystem.Close | kernel/fs.c:621-626 | frees exactly that descriptor |
| FileSystems.FileSystem.Mkdir | kernel/fs.c:661-669 | the exact return code; success creates exactly one directory, failure restores everything |
| FileSystems.FileSystem.Chdir | kernel/fs.c:671-681 | moves only to a live directory, the one the path resolves to; ".." always leads to the parent |
| FileSystems.FileSystem.Pwd | kernel/fs.c:769-775 | fails exactly when the buffer is too small; otherwise the text resolves to the working directory from any start, and nothing is written past the length given |
| FileSystems.FileSystem.PwdRec | kernel/fs.c:724-767 | terminates, on the depth in the tree, and prints the names from the root |
| FileSystems.FileSystem.FreeBlocks | kernel/fs.c:785-791 | the number of free data blocks |
| FileSystems.FileSystem.FreeInodes | kernel/fs.c:793-799 | the number of free inodes |
| FsCalls.CreatedResolves | kernel/fs.c:465-509 | after a creation the path leads to what was created, unless it has an over-long component |
| FsCalls.OpensExisting | kernel/fs.c:511-546 | opening a path that leads to a file, with a descriptor free, gives the lowest such descriptor on that file and changes nothing else unless it truncates |
| FsCalls.OpensNew | kernel/fs.c:511-546 | opening a missing path for creation, with the name new and an inode, a block, an entry and a descriptor free, gives a descriptor on a new empty file, to which the path then leads |
| FsCalls.CreateCloseOpen | kernel/fs.c:511-626 | create, close and open again by the same path: the same file |
| FsCalls.MakeAndEnter | kernel/fs.c:661-681 | a directory that was made is entered by the same path, and ".." leads to where it was made |
| FsCalls.DownAndBack | kernel/fs.c:671-681 | changing to a child directory and to ".." comes back |
| FsCalls.UnlinkedMissing | kernel/fs.c:628-659 | after a successful unlink the name is not found and its inode is not live |
| FsCalls.UnlinksWhatIsThere | kernel/fs.c:628-659 | unlinking a file or an empty directory that is there succeeds and removes exactly that inode |
| FsCommands.RunMore | kernel/fs.c:447-681 | a run goes on by one command carried out from its last state |
| FsRuns.RunAll | kernel/fs.c:447-681 | any sequence of commands from a fresh disk, with crashes after any block write outside a truncation and remounts: each is carried out in turn, as its contract says, and in every state of the trace the image and all crash points are safe, the working directory is a live directory and descriptors are known; unless a stale write has allocated blocks before, the run stops only where a write would destroy the image |
| FsRuns.RunExact | kernel/fs.c:447-681 | without crashes and such allocations the bitmaps are exact in every state |
| FsRuns.RunClean | kernel/fs.c:447-681 | no descriptor is stale as long as no open spoils |
| FsRuns.RunSteady | kernel/fs.c:447-681 | if no open file is unlinked or truncated, every descriptor is good and no file has a hole, in every state and at every crash point |
| FsRuns.SteadyNotSpoiled | kernel/fs.c:511-546 | and then no open spoils |
| FsRuns.RunLeftOver | kernel/fs.c:500-505 | until a stale write allocates blocks, the inode of a stale descriptor is as the failed create left it, but for its size |
| FsRuns.StaleIff | kernel/fs.c:511-681 | a command leaves a descriptor stale if and only if it is an open whose create fails at the entry while a descriptor still refers to the lowest free inode |
| FsRuns.TolerableIff | kernel/fs.c:597-610 | the first block write of a write through a stale descriptor to the block of its inode leaves a safe image if and only if no live directory holds the block and it is no live file's pointer table |
| FsRuns.FailedOpenStale | kernel/fs.c:500-505 | a failed open leaves no descriptor stale if and only if it does not spoil |
| FsRuns.PointSolid | kernel/fs.c:465-659 | without holes before an operation there are none at any of its crash points |
| FsStale.StrayedExactIff | kernel/fs.c:597-618 | after a write through a stale descriptor some shape fits exactly if and only if no block was allocated |
| FsStale.SevenCalls | kernel/fs.c:465-669 | for any names, however the seven calls go from a fresh disk, the first block write of any write through descriptor 2 would leave an image that no shape fits |
| FsStale.StaleRun | kernel/fs.c:465-669 | and the seven calls can be made |
| FsOverLong.UnlinkOverLong | kernel/fs.c:628-659 | unlinking a path whose last component is over-long returns the same code and does exactly the same as unlinking the name before it, although the path does not resolve |
| FsOverLong.TwoCalls | kernel/fs.c:628-659 | so after creating a file, unlinking such a path below it removes the file |
| FsOverLong.OverLongRun | kernel/fs.c:628-659 | and the two calls can be made |
| FsJournal.EncodeWrite | kernel/fs.c:106-168 | each block write of the file system changes exactly one block of the disk, never a journal block |
| FsJournal.EncodeDetermines | kernel/fs.c:151-168 | where the layout loses nothing the blocks determine the image |
| FsJournal.HistoryCarried | kernel/ramdisk.c:98-132 | every step of a history can be carried out by one block write of the disk |
| FsJournal.CrashRecoverMount | kernel/ramdisk.c:46-132 | a crash at any store of any block write of a history, with recoveries cut off at will, leaves an image of the history, safe unless it lies inside a truncation |
| FsJournal.CrashAnyOperation | kernel/fs.c:447-681 | so it is for everything the file system has written since it was mounted |
| FsLife.CreateWriteUnlink | kernel/fs.c:465-659 | creating a file, writing any pieces to it and unlinking it by the same path succeeds and restores the inode bitmap and both free counts |
| Buddy.AddressOfBuddy | kernel/buddy.c:171 | the exclusive or of an address and the block size, bit by bit, is the address of the arithmetic buddy, for every page and order |
| Buddy.BuddyPair | kernel/buddy.c:171-187 | the buddy relation is an involution on aligned blocks, and the lower of two buddies is aligned for the next order |
| Buddy.AllocDisjoint | kernel/buddy.c:121-151 | allocation keeps free entries and outstanding blocks pairwise disjoint in the pool, for any base, also when the table overflows |
| Buddy.AllocHandsOut | kernel/buddy.c:121-151 | a successful allocation hands out exactly one block, of the order asked for, that nobody held: the lowest part of the first free block that is large enough |
| Buddy.AllocRefuses | kernel/buddy.c:121-147 | unless the table overflows, it fails exactly if the order is too large or no free block is large enough, and then changes nothing |
| Buddy.FreeTakesBack | kernel/buddy.c:153-191 | freeing takes exactly that block from what is outstanding |
| Buddy.FreeDisjoint | kernel/buddy.c:153-191 | so does freeing a held block |
| Buddy.AllocExact | kernel/buddy.c:121-151 | with an aligned base and no overflow, allocation keeps the tiling and leaves no two free buddies |
| Buddy.FreeExact | kernel/buddy.c:153-191 | so does freeing: coalescing is complete |
| Buddy.FullyCoalesced | kernel/buddy.c:153-191 | with nothing outstanding the free set is exactly one block, the pool |
| Buddy.EveryRun | kernel/buddy.c:99-191 | disjointness over every run from any page-aligned base; tiling, no free buddies and full coalescing when the base is a multiple of the pool size and the table never overflowed, which is so whenever the calls demand fewer than 1024 entries, 8 minus the order for an allocation and one for a free |
| Buddy.RunRoom | kernel/buddy.c:41-52 | from any state, the table does not overflow as long as the demand of the calls fits |
| Buddy.FindContiguousPool | kernel/buddy.c:62-97 | succeeds exactly if the 256 frames from the lowest free one on are all free: then exactly their bits are set; otherwise bitmap and counter are exactly restored |
| Buddy.Allocator.constructor | kernel/buddy.c:99-119 | under exactly that condition the pool is taken from the frame allocator and becomes one free block; otherwise nothing is held |
| Buddy.Allocator.FindFreeBlock | kernel/buddy.c:27-39 | the first free entry with that address and order |
| Buddy.Allocator.AddBlock | kernel/buddy.c:41-52 | appends a free entry, or reports a full table |
| Buddy.Allocator.AllocBlock | kernel/buddy.c:121-151 | the first fit and split loops compute the allocation step; from disjoint blocks, the block at the address returned becomes outstanding, and it was not |
| Buddy.Allocator.FreeBlock | kernel/buddy.c:153-191 | the coalescing loop computes the free step; a block that was held is no longer outstanding |
| Pmm.FrameAllocator.constructor | kernel/pmm.c:33-88 | for any memory map without wrap-around: exactly the usable frames above 1 MiB and the kernel are free, and total minus used is the number of clear bits |
| Pmm.ClearRange | kernel/pmm.c:67-72 | clears exactly the range and counts what was set |
| Pmm.ReserveLow | kernel/pmm.c:79-87 | reserves exactly the free frames below 1 MiB or the kernel's end and counts them |
| Pmm.FrameAllocator.Alloc | kernel/pmm.c:90-101 | the lowest free frame: page aligned, at or above 1 MiB and the kernel's end, in usable memory, held by nobody; 0 exactly when none is free |
| Pmm.FrameAllocator.Free | kernel/pmm.c:103-111 | frees exactly the frame of an address that the guards let through; the accounts stay right if and only if such a frame was held |
| Pmm.FrameAllocator.FreeFrames | kernel/pmm.c:115 | total minus used is the number of clear bits |
| Semaphores.Conservation | kernel/semaphore.c:61-107 | in every interleaving initial plus signals equals count plus grants, waiters imply a zero count, waiters are distinct, and they are woken in the order in which they queued |
| Semaphores.WaitMeans | kernel/semaphore.c:69-87 | a wait is granted exactly if a unit is left, asks to retry exactly if none is and the queue is full, and queues the caller otherwise |
| Semaphores.Semaphore.WaitRegion | kernel/semaphore.c:69-87 | one pass of the wait loop takes a unit, queues the caller, or asks it to retry |
| Semaphores.Semaphore.SignalRegion | kernel/semaphore.c:99-106 | wakes the first waiter, else adds a unit |
| BoundedBuffer.Occupancy | kernel/stage2_demo.c:111-145 | occupancy stays within the buffer; there is room when the producer puts and an item when the consumer gets |
| BoundedBuffer.NeverStuck | kernel/stage2_demo.c:111-145 | until both threads have finished one of them can step |
| BoundedBuffer.RunKeepsInv | kernel/stage2_demo.c:111-145 | every interleaving keeps the invariant and makes progress at every step |
| BoundedBuffer.EveryRun | kernel/stage2_demo.c:111-145 | under every interleaving the items arrive in order without error, occupancy stays within bounds, runs are bounded, and a run that cannot continue has delivered everything |
| RwLocks.StepExclusion | kernel/rwlock.c:57-141 | every step keeps "a writer excludes readers" and "readers is the number of read locks held" |
| RwLocks.StepWakeups | kernel/rwlock.c:57-141 | every step keeps "no wake-up is lost" |
| RwLocks.ReaderTries | kernel/rwlock.c:65-73 | a reader gets the lock at once exactly if there is no writer and none is queued, and else goes to the end of the readers' queue |
| RwLocks.WriterTries | kernel/rwlock.c:105-112 | a writer gets it exactly if nobody holds it, and else goes to the end of the writers' queue |
| RwLocks.ReaderLeaves | kernel/rwlock.c:76-95 | the last reader out wakes the first queued writer, without granting it the lock |
| RwLocks.WriterLeaves | kernel/rwlock.c:117-141 | a writer hands the lock to the first queued writer, or else to every queued reader |
| RwLocks.NoReadLockPastWriters | kernel/rwlock.c:57-141 | while a writer is queued no step gives anybody a read lock |
| RwLocks.ReadersDrain | kernel/rwlock.c:57-141 | so over any run in which writers wait, nobody holds more read locks at the end than at the start |
| RwLocks.QueuesInOrder | kernel/rwlock.c:23-40 | both queues are joined at the end and left from the front, or by all readers together |
| RwLocks.EveryRun | kernel/rwlock.c:57-141 | both hold in every interleaving of disciplined callers, barging newcomers included |
| RwLocks.WaitQueue.Enqueue | kernel/rwlock.c:23-29 | appends the thread unless it is queued already or the queue is full |
| RwLocks.WaitQueue.Pop | kernel/rwlock.c:31-40 | removes and returns the first thread, if any |
| RwLocks.RwLock.ReadLockRegion | kernel/rwlock.c:65-73 | takes a read lock if there is no writer and none waits, else queues the caller |
| RwLocks.RwLock.ReadUnlockRegion | kernel/rwlock.c:87-94 | the last reader wakes the first queued writer without granting it the lock |
| RwLocks.RwLock.WriteLockRegion | kernel/rwlock.c:105-112 | takes the lock if nobody holds it, else queues the caller |
| RwLocks.RwLock.WriteUnlockRegion | kernel/rwlock.c:126-140 | hands the lock to the first writer, else to all queued readers at once |
| Mutexes.QueueHasRoom | kernel/mutex.c:29-37 | the waiter queue is never full for a newcomer |
| Mutexes.StepKeepsInv | kernel/mutex.c:129-197 | every step keeps: locked iff owned, waiters imply locked, waiters are distinct, blocked and never the owner, a woken thread owns its mutex, and grants happen in arrival order |
| Mutexes.EveryRun | kernel/mutex.c:129-197 | all of that in every state reached from free mutexes, over every interleaving |
| Mutexes.LockTakes | kernel/mutex.c:139-146 | a thread that finds the mutex free owns it, and nobody else is concerned |
| Mutexes.LockQueues | kernel/mutex.c:147-161 | otherwise it blocks at the end of the queue, and nothing but priorities changes for others |
| Mutexes.LockLifts | kernel/mutex.c:92-101 | a thread's priority changes only if the new waiter waits for it, directly or along a chain of owners, and then to the waiter's, which is more urgent |
| Mutexes.UnlockFrees | kernel/mutex.c:180-194 | an unlock frees a mutex that nobody waits for |
| Mutexes.UnlockHandsOver | kernel/mutex.c:180-194 | otherwise it makes the first waiter its owner and wakes it, and nobody else but the caller is concerned |
| Mutexes.UnlockSettles | kernel/mutex.c:76-90 | afterwards the caller has exactly the most urgent of its base priority and the waiters' on the mutexes it still lists, so its base priority if it lists none |
| Mutexes.CallsReturn | kernel/mutex.c:129-172 | a woken thread returns as owner; locking a mutex one owns and unlocking one that one does not own do nothing |
| Mutexes.PropagateRestores | kernel/mutex.c:92-101 | propagation removes the last bad edge of the wait-for graph, cycles included, and its iteration guard never cuts it short |
| Mutexes.LockKeepsInheritance | kernel/mutex.c:138-161 | queueing on a mutex keeps every owner at least as urgent as each of its waiters |
| Mutexes.LeastOverBounds | kernel/mutex.c:76-90 | the recomputed priority is the most urgent of the base priority and the waiters' ones |
| Mutexes.UnlockKeepsInheritanceIff | kernel/mutex.c:172-197 | unlocking keeps inheritance if and only if the first waiter is at least as urgent as those left and the recomputed priority is at least that of every waiter on a mutex the caller owns but does not list |
| Mutexes.OrderlyRunInherits | kernel/mutex.c:129-197 | inheritance holds in every run whose unlocks meet that condition and whose holders own at most four mutexes |
| Mutexes.EveryOrderlyRun | kernel/mutex.c:129-197 | inheritance in every such run from free mutexes |
| Mutexes.OvertakenRun | kernel/mutex.c:180-190 | a run from free mutexes whose last unlock inverts priorities, because a more urgent thread queued second |
| Mutexes.FifthMutexRun | kernel/mutex.c:52-59 | a run from free mutexes whose last unlock inverts priorities although its mutex has no waiters, because a fifth mutex is not in the list |
| Mutexes.LockTable.PropagatePriority | kernel/mutex.c:92-101 | the loop computes the propagation step |
| Mutexes.LockTable.RecomputePriority | kernel/mutex.c:76-90 | the loops compute the recomputed priority |
| Mutexes.LockTable.LockRegionCall | kernel/mutex.c:139-161 | the masked region of mutex_lock computes the lock step |
| Mutexes.LockTable.UnlockRegionCall | kernel/mutex.c:180-196 | the masked region of mutex_unlock computes the unlock step |
| Scheduler.WakeHeadsIsScan | kernel/scheduler.c:240-267 | the head-only loop wakes exactly the processes a scan of the whole table would wake, and leaves no expired sleeper |
| Scheduler.WakesExactly | kernel/scheduler.c:240-267 | it makes exactly the sleepers whose time has come ready, at the top level with a full quantum and off the queue, and changes nobody else |
| Scheduler.SleepsUntil | kernel/process.c:222-233 | a process that sleeps n ticks is asleep until the clock has moved on by n, whatever happens short of killing it, and the tick that gets there makes it ready at the top level |
| Scheduler.DispatchMeans | kernel/scheduler.c:295-355 | a dispatch moves the clock by one on a tick, rouses exactly who is due, and otherwise changes only the process that ran and the one chosen |
| Scheduler.ChargeMeans | kernel/scheduler.c:325-339 | what the running process is charged, and that it drops a level exactly when a tick uses up its quantum |
| Scheduler.ShellKept | kernel/scheduler.c:321-326 | a running shell is never charged: after every dispatch it is at level 0 with that level's quantum unused |
| Scheduler.CreateMeans | kernel/process.c:112-199 | creation puts a ready process into the lowest vacant slot, with the level and quantum of its kind, or does nothing if there is none |
| Scheduler.ExitMeans | kernel/process.c:205-220 | a process that exits leaves its slot vacant and is not run by the next dispatch |
| Scheduler.BlockMeans | kernel/scheduler.c:207-213 | a process that blocks is not run by the next dispatch, and only its own entry changes |
| Scheduler.WakeMeans | kernel/scheduler.c:216-223 | a blocked waiter becomes ready at its old level; anybody else is left alone |
| Scheduler.KillMeans | kernel/scheduler.c:447-487 | a killed process leaves table and queue; if it was running another one runs |
| Scheduler.SleepKeepsQueue | kernel/scheduler.c:155-203 | going to sleep never finds the queue full and keeps it sorted, distinct and exactly the blocked processes with a wake-up time |
| Scheduler.KillKeepsQueue | kernel/scheduler.c:468-477 | so does killing a process |
| Scheduler.PickIsNearest | kernel/scheduler.c:274-293 | the choice is a level-0 process, cyclically no further than any other level-0 candidate |
| Scheduler.DispatchKeeps | kernel/scheduler.c:295-355 | after a dispatch exactly one process is running, the current one, and both invariants hold |
| Scheduler.StepKeeps | kernel/scheduler.c:155-355 | every action keeps: PCB 0 runnable at level 0, levels below 3, only the current process running, and an exact sleep queue |
| Scheduler.BootKeeps | kernel/process.c:66-110 | they hold after initialisation |
| Scheduler.RunKeeps | kernel/scheduler.c:155-355 | runs keep both invariants |
| Scheduler.EveryRun | kernel/scheduler.c:155-355 | both hold in every state reached from initialisation, so a dispatch there leaves exactly one process running, the current one |
| Scheduler.WaitIsBounded | kernel/scheduler.c:274-355 | while a process stays ready at level 0, fewer dispatches happen than its cyclic distance from the current slot, so at most 15 |
| Scheduler.Kernel.SleepQueueInsert | kernel/scheduler.c:155-180 | the shifting loop inserts in waking order |
| Scheduler.Kernel.SleepQueueRemove | kernel/scheduler.c:225-238 | the shifting loop removes the first occurrence |
| Scheduler.Kernel.WakeSleepers | kernel/scheduler.c:240-267 | the loop computes the head-only wake-up |
| Scheduler.Kernel.PickNextSlot | kernel/scheduler.c:274-293 | the loops compute the choice |
| Scheduler.Kernel.DispatchNext | kernel/scheduler.c:295-355 | the imperative dispatch computes the dispatch step |
| Scheduler.Kernel.SleepCurrent | kernel/process.c:222-233 | puts the current process to sleep for the milliseconds rounded up to ticks, unless it is the shell or the time is zero |
| Deadlock.VisitDecreases | kernel/deadlock.c:21-23 | the number of nodes not being visited decreases with each call |
| Deadlock.Dfs | kernel/deadlock.c:15-41 | a search that finds nothing restores `visiting` and finishes the node; it finds something whenever the node, or a waiter of an unfinished node, is being visited |
| Deadlock.Detect | kernel/deadlock.c:43-73 | answers yes if and only if a live process waits for one that is terminated or not in an earlier slot |
| Deadlock.WalkDescends | kernel/deadlock.c:43-73 | otherwise every walk along waits-for edges descends through live slots |
| Deadlock.CycleDetected | kernel/deadlock.c:43-73 | so a cycle through a live process is never missed |
| Deadlock.FalseAlarm | kernel/deadlock.c:50-68 | the converse fails: a single wait for a later slot is reported |

## Left out

- Display, keyboard, the shell and the unused buddy copy in kernel/kernel.c: port I/O and command plumbing.
- Boot code, interrupt tables, timer set-up and context switches: hardware and assembly.
- Stack images and register relocation of fork: raw memory with little abstract content.
- Killing a process that holds or waits for a lock: waiter lists are not cleaned up, so the lock models exclude it.
- Preemption inside sleep: entering sleep is one step.
- Crash points inside O_TRUNC and fs_format: the first frees bits before the inode is rewritten, the second bypasses the journal; the results of both are covered.
- FileSystems.FileSystem.Write: through a stale descriptor it asks that the write is tolerable and that its inode is as a failed create leaves it, size aside; once a stale write has given the inode blocks of its own, its pointer table may be the very block it names, and bytes read as pointers are not modelled.  A stale write over a free block that held entries or pointers shows zeros where it leaves the old bytes.
- FsRuns.RunAll: stops at a write that `Write` does not admit.
- FileSystems.FileSystem.Read: what a descriptor on a freed inode would read from a block of another kind is shown as zeros.
- FileSystems.FileSystem.Mount: asks for a safe image, which is what every covered crash leaves; images that the file system did not write are not claimed.
- FileSystems.FileSystem.Format: the superblock's fields are not part of the image; mounting and formatting are two constructors.
- RamDisk.Device.ReadBlock: reading the header block itself is not claimed, and the header's reserved bytes are not modelled.
- Packing into bytes: bitmaps are sequences of bits, directory entries, inodes and pointers are values, blocks are typed; all 64 inodes share one block.  `FsJournal` takes the layout as a parameter.
- Null-pointer arguments and the `fs_ready` flag: objects are always initialised.
- 32-bit wrap-around of the tick counter, semaphore counts, the read-lock counter and process numbers.
- A process creation whose stack frame cannot be allocated: creation always gets its frame.
- fs_list, fs_stat, the VFS table, the slab allocator, deadlock_demo and the remaining demos: they would only add easy members.
