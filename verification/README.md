# Verified models of the Counter firmware

Dafny models of the self-contained algorithms in the firmware repository, with proofs of what they
are for. `dafny verify dfyconfig.toml` checks everything.

- **Disk function checker** (`PatternGenerator`, `DiskChecker`, `CallLog`, `DiskClasses`, `FaultyDisks`, `RamDisk`,
  resting on `LinearIteration`, `Recurrences` and `Numerals`). `pn` is a 32-bit Galois shift register and `test_diskio`
  writes its patterns to a disk and compares what comes back. A driver is an arbitrary deterministic machine
  over an arbitrary state type; `TestDiskio` is proved to compute `Verdict` for every driver, within the buffer
  bytes that `Touched` counts. `RoutedVerdict` then gives the return code for *every* address decoder and any
  number of cycles, so the correct disks and the disks that alias across 4GB are two instances of one
  statement; `FrozenVerdict` and `SilentVerdict` do the same for disks that acknowledge without storing or
  without transferring. `CallLog` accounts for the code of *every* driver by the calls it was given: 0 means that all
  of them were acknowledged, and a failing call has the code of its place in the script. The classes rest on the algebra of the register: its step is a linear permutation, 32 bytes
  determine it, and it has no cycle of length 2^k, 3 * 2^k or 2^k + 1.
- **Contiguous allocation** (`FatVolume`, `ContiguousFile`). `allocate_contiguous_clusters` together with the
  parts of `ff.c` it steers: `remove_chain`, `create_chain` (next fit), and the needed parts of `f_lseek` and
  `f_truncate`.
- **Emptying a directory** (`DirectoryTree`, `PathWalk`, `PathNames`, `DirectoryVolume`, `RemovalProgress`, `StrayRemoval`,
  `RemovalStates`, `EmptyDirectory`, `UnreachablePaths`). The recursive delete over one path buffer, on directories
  made of entry slots, with disk calls that may fail at any point. Paths are followed as FatFs follows them: from
  the root or the current directory, through dot entries, in a tree that loses directories meanwhile.
- **Code pages** (`CodePages`). The sixteen-probe table search, the backward scan of the tiny configuration,
  and the single-byte scan, for all tables that meet stated conditions.
- **MD5** (`Md5Rounds`, `Md5Block`, `Md5Digest`). Every sequence of step macros is a permutation of the registers;
  the 64 calls of a block, written out, are the steps that are reasoned about; incremental hashing does not depend on
  how the input is cut up.
- **Two RTOS tasks** (`IoTask`, `IoCommands`, `ModbusTask`). Step machines, interleaved arbitrarily with posts, timeouts and
  other writers; the statements quantify over all runs.

## Where the code and its comments part

- `app4.c` lets a buffer of `_MAX_SS + 4` bytes through, but the misaligned test uses bytes up to
  `sz_sect + 4` and the compare loop of the barrier test looks at byte `2 * sz_sect`. `BufferSuffices` says for which
  buffers a run stays inside; `GuardTooWeak` is a run that does not. The failure code 9 is never used: the first
  comparison returns 10.
- In `app4.c` the 32-bit seed counter reaches 0 at the barrier test of cycle 2^30, where `pn(0)` does not seed. So a
  correct disk passes if and only if there are fewer cycles than that or it is too small for the barrier test
  (`IdealDiskPasses`).
- `app2.c` line 3 says that the function works regardless of `_FS_RPATH`. Where relative paths are enabled two kinds
  of start path are exceptions. The empty path with a current directory other than the root: names are read from
  there and removed from the root (`ChildResolves`, `AstrayFails`; what success then means is part of
  `EmptyDirectory`). And a path with dot segments that passes through a directory below the one it names: once that
  is removed the rest cannot be reached (`DetourFails`). Emptying succeeds exactly as `SucceedsExactly` says, and paths
  without dot segments are never affected (`PlainPath`).
- `app3.c` line 40 contains a stray `;` inside the condition; the conjunction is modelled. In 32-bit
  arithmetic a length within one cluster of 2^32 counts as zero clusters (`ClustersCover`): a nonempty file is then
  emptied and 0 is returned. When no area is found the old chain is already gone.
- `MD5.h` line 28 sets the second shift of round 3 to 8 instead of 11. The four steps that use it are not those of
  RFC 1321, section 3.4, unless the word they turn has 32 equal bits (`StepDeviation`).
- `io_task`'s filter and `modbusRTU_msg_task`'s inner pend take messages off their queues; a request of one
  serial port that arrives while the other is answered is lost (`RequestLost`, and exactly when: `AnsweredExactly`).
- The double-byte search is sound for tables of up to 65535 pairs and for no larger ones (`SearchBound`).

## Model

Rows about functions that live in `FATFS/src/ff.c` and `Cmd/MD5.c` cite the lines of the core files that call or
declare them; the members follow the bodies in those two files.

| member | source | states |
|---|---|---|
| PatternGenerator.Pn.Next | FATFS/doc/img/app4.c:13-33 | a nonzero argument seeds the register and clocks it exactly 33 times, zero clocks it once; the recursion ends |
| PatternGenerator.UnstepStep | FATFS/doc/img/app4.c:26-31 | the clock can be undone, because bit 31 of the mask records whether it was folded in |
| PatternGenerator.StepUnstep | FATFS/doc/img/app4.c:26-31 | every state is reached: the clock is onto |
| PatternGenerator.StepIsLinear | FATFS/doc/img/app4.c:26-31 | the clock distributes over exclusive or |
| PatternGenerator.LowBytesDetermine | FATFS/doc/img/app4.c:26-32 | registers whose next 32 low bytes agree are equal |
| LinearIteration.NoDoubledCycle | FATFS/doc/img/app4.c:26-31 | for any linear map, no m-cycles means no m * 2^k-cycles (squaring the difference operator) |
| PatternGenerator.NoCycle | FATFS/doc/img/app4.c:26-31 | no nonzero register returns after 2^k or 3 * 2^k clocks |
| Recurrences.PolySquare | FATFS/doc/img/app4.c:26-31 | for any linear map, squaring a polynomial of it doubles the exponents |
| Recurrences.NeighbourCycleIsZero | FATFS/doc/img/app4.c:26-31 | if a polynomial of the map kills everything and its mirror image can be undone, only zero lies on a cycle of length 2^j + 1 |
| PatternGenerator.NoNeighbourCycle | FATFS/doc/img/app4.c:26-31 | no nonzero register returns after 2^j + 1 clocks, because the recurrence given by the mask is not its own mirror image |
| PatternGenerator.WindowsDiffer | FATFS/doc/img/app4.c:26-32 | stream windows of 32 bytes or more that start 2^k or 3 * 2^k clocks apart differ |
| PatternGenerator.WordInjective | FATFS/doc/img/app4.c:22-23 | different seed numbers are different 32-bit registers |
| PatternGenerator.WordDigits | FATFS/doc/img/app4.c:22-32 | the seed's register has the binary digits of the seed number, and the byte kept has the low digits of the register |
| DiskClasses.PatternsDiffer | FATFS/doc/img/app4.c:22-32 | different seeds give different patterns within 32 bytes |
| DiskClasses.PatternNotZero | FATFS/doc/img/app4.c:22-32 | no nonzero seed's pattern is all zeros |
| DiskClasses.PartsDiffer | FATFS/doc/img/app4.c:162-164 | the up to four sectors of one multi-sector pattern are pairwise different |
| DiskChecker.Fill | FATFS/doc/img/app4.c:125 | the fill loop puts the seed's stream at the offset, leaves the other bytes, and advances the register by the length |
| DiskChecker.Compare | FATFS/doc/img/app4.c:151 | the loop reaches the length if and only if the buffer region equals the regenerated stream |
| DiskChecker.CompareEager | FATFS/doc/img/app4.c:283 | the same for the barrier loop, which draws one byte more than it compares, and looks past the end only after a full match |
| DiskChecker.TestSectors | FATFS/doc/img/app4.c:122-157 | one write, sync, read back and compare test yields the specified code and disk state for every driver, also with the offsets 3 and 5 |
| DiskChecker.TestBarrier | FATFS/doc/img/app4.c:237-289 | the 4GB barrier test yields the specified code and disk state for every driver |
| DiskChecker.TestCycle | FATFS/doc/img/app4.c:62-296 | one cycle, with the four seeds in order and each error code at its failing call |
| DiskChecker.TestDiskio | FATFS/doc/img/app4.c:36-299 | the whole checker computes Verdict for every driver, every number of cycles, every initial register and every buffer that holds what the run touches |
| CallLog.CycleFollows | FATFS/doc/img/app4.c:62-296 | whatever the driver, a cycle makes the calls of one fixed script, in order, up to the first that is not acknowledged, and its code is the one the script gives for where it ended |
| CallLog.PassMeansAcknowledged | FATFS/doc/img/app4.c:59-298 | a run that returns 0 has had every call acknowledged (the erase block query aside), at least twelve in each cycle |
| CallLog.FailureExplained | FATFS/doc/img/app4.c:62-289 | if a call was not acknowledged it is the last one made, and it alone decides the code: 2, 3, 5 to 8, 11 to 13, 15 to 17 or 19 to 23 by the call and its place; otherwise the code is 0, 4, 10, 14, 18 or 24 |
| CallLog.CallsAccountForCode | FATFS/doc/img/app4.c:36-299 | every driver can be made to record its calls without any other change, so both statements hold of every run of every driver |
| CallLog.NeverAcknowledged | FATFS/doc/img/app4.c:64-150 | the code for a driver that never acknowledges one kind of call: 2, 3, 5, 6, 7 or 8, and 4 for a drive of fewer than 128 sectors |
| DiskChecker.BarrierDistance | FATFS/doc/img/app4.c:239-240 | the two sectors of the barrier test are the most sectors apart that fit into 4GB, exactly 4GB if the size divides it |
| DiskChecker.MultiCountLargest | FATFS/doc/img/app4.c:162-163 | the multiple sector test takes as many sectors as the buffer holds, but four at most |
| DiskClasses.RoutedReadBack | FATFS/doc/img/app4.c:160-196 | a pattern written to a routed disk reads back intact if and only if no two of its sectors share a cell |
| DiskClasses.RoutedBarrierTest | FATFS/doc/img/app4.c:239-289 | on a routed disk the barrier test fails with 24 if and only if its two sectors share a cell |
| DiskClasses.UnseededBarrierTest | FATFS/doc/img/app4.c:237-289 | with the seed number 0 the barrier test rejects a disk that reads back what was written |
| DiskClasses.RoutedVerdict | FATFS/doc/img/app4.c:59-298 | the return code for every address decoder and any number of cycles: 14, 24 or 0 by which tested sectors collide, and 24 for every large drive from 2^30 cycles on |
| DiskClasses.IdealDiskPasses | FATFS/doc/img/app4.c:59-298 | a disk that returns the last data written passes, with sectors of any size, if there are fewer than 2^30 cycles or it is too small for the barrier test; otherwise, with sectors of a power of two, it is rejected with 24 |
| DiskClasses.WrappedDiskFails | FATFS/doc/img/app4.c:237-289 | a large enough disk that drops address bits above 4GB passes all earlier tests and returns 24, for any number of cycles |
| DiskClasses.BufferSuffices | FATFS/doc/img/app4.c:54-57 | which buffers that pass the size guard hold everything a run touches, for every address decoder, if and only if |
| RamDisk.RamIsRouted | FATFS/doc/img/app4.c:124-196 | a disk in memory exists behind every address decoder, for every sector size |
| RamDisk.GuardTooWeak | FATFS/doc/img/app4.c:54-57 | a buffer of 516 bytes passes the guard for 512-byte sectors, and a run on a correct disk goes past its end |
| FaultyDisks.FrozenVerdict | FATFS/doc/img/app4.c:124-158 | a disk whose contents never change is rejected by any run of two cycles or more; the exact code |
| FaultyDisks.SilentVerdict | FATFS/doc/img/app4.c:142-157 | a disk that never transfers read data is rejected with 10, because the buffer was cleared |
| FatVolume.Fs.RemoveChain | FATFS/doc/img/app3.c:49 | `remove_chain`: follows and frees links as specified on any FAT, stops on the error cases, keeps the free count exact, terminates |
| FatVolume.RemoveWholeChain | FATFS/doc/img/app3.c:49 | removing a sound chain frees its clusters and changes nothing else |
| FatVolume.RemoveAnyChain | FATFS/doc/img/app3.c:49 | on any FAT, removing from a cluster on frees the path of links to its end, or up to the cluster whose link is an error, and the result says which |
| FatVolume.Fs.FindFree | FATFS/doc/img/app3.c:66-67 | the search of `create_chain` computes Search: the first free cluster in cyclic order after the start, 0 only if none is free, or the blocking error |
| FatVolume.Fs.CreateChain | FATFS/doc/img/app3.c:66-67 | `create_chain`: next-fit creation and stretching computes Created on any FAT, and takes the next free cluster, links it, and keeps the free count exact |
| ContiguousFile.CheckLoop | FATFS/doc/img/app3.c:35-45 | the check loop computes Check on any FAT |
| ContiguousFile.WalkContiguous | FATFS/doc/img/app3.c:36-43 | contiguous if and only if t - 1 links lead to the next cluster and the last goes on to the next or ends the chain |
| ContiguousFile.WalkFragmented | FATFS/doc/img/app3.c:40 | reallocation if and only if consecutive links lead to a usable jump within the first t clusters |
| ContiguousFile.CheckSoundChain | FATFS/doc/img/app3.c:35-45 | on a sound chain of the right length the check decides contiguity |
| ContiguousFile.FindContiguous | FATFS/doc/img/app3.c:52-63 | exact first fit: the lowest run of free clusters of the wanted length, and 0 if and only if there is none |
| ContiguousFile.LSeek | FATFS/doc/img/app3.c:65-67 | `f_lseek` to the start, or from the start: computes Sought on any file and any FAT |
| ContiguousFile.SeekInside | FATFS/doc/img/app3.c:28 | seeking from the start inside a sound chain changes no link, and a file that may not be written is positioned no further than its size |
| ContiguousFile.SteeredSeek | FATFS/doc/img/app3.c:65-67 | from an empty file, with free clusters right after the start point, the seek links exactly those and reaches its offset |
| ContiguousFile.Truncate | FATFS/doc/img/app3.c:49 | `f_truncate` at the start removes the chain, then writes the buffered sector, which may fail; it is refused without write access |
| ContiguousFile.ClustersCover | FATFS/doc/img/app3.c:30-32 | the clusters counted hold the length and less than a cluster more, and are none exactly when the 32-bit sum wraps |
| ContiguousFile.SectorsTile | FATFS/doc/img/app3.c:44 | the first cluster begins at the data area, each other where the one before ends, and the last ends the area |
| ContiguousFile.SectorOwner | FATFS/doc/img/app3.c:44 | every sector of the data area, and no other, belongs to exactly one cluster |
| ContiguousFile.Reallocate | FATFS/doc/img/app3.c:49-69 | on any file and any FAT the file is cut, then placed by first fit or left as it is; for a sound file it becomes the first-fit area, or empty when there is none |
| ContiguousFile.RelocatedMoved | FATFS/doc/img/app3.c:49-69 | once a sound chain is freed, the steered seek makes the file exactly the first-fit area |
| ContiguousFile.Allocate | FATFS/doc/img/app3.c:20-71 | the returned sector, the file and the whole FAT afterwards, in every case; a sound file for which a sector is returned holds the length asked for, in clusters linked one to the next whose sectors are the ones from the returned sector on, inside the data area |
| ContiguousFile.NewChain | FATFS/doc/img/app3.c:65-69 | the new chain is exactly ccl, ccl + 1, ..., and a later call finds it contiguous |
| ContiguousFile.OtherChainsSurvive | FATFS/doc/img/app3.c:49-69 | every other file's chain is unchanged and disjoint from the new area |
| ContiguousFile.FreeConserved | FATFS/doc/img/app3.c:49-69 | freeing gains the old chain's length, allocating costs the area's |
| DirectoryTree.PruneRest | FATFS/doc/img/app2.c:23-37 | what remains to be removed after m removals is the rest of the post-order listing |
| DirectoryTree.PruneAll | FATFS/doc/img/app2.c:23-37 | removing the whole listing leaves the directory empty |
| DirectoryTree.OutsideUntouched | FATFS/doc/img/app2.c:35 | replacing the directory leaves every path neither above nor below it alone |
| PathWalk.WordsAppend | FATFS/doc/img/app2.c:21-30 | appending a slash and a name to the buffer appends one path segment, in the place of an empty last one |
| PathWalk.OpenedGoes | FATFS/doc/img/app2.c:19 | a path opens a directory exactly if all its segments are sound and lead from directory to directory |
| PathNames.SplitAt | FATFS/doc/img/app2.c:19 | a slash or backslash ends a segment, and is skipped where none has begun |
| PathNames.TrimMeans | FATFS/doc/img/app2.c:19 | two segments name the same object exactly if they differ in trailing dots and spaces only |
| PathNames.NamesAllowed | FATFS/doc/img/app2.c:19 | which segments are names: at most 255 characters, the characters spelled out, and not only dots and spaces |
| PathNames.NameOpens | FATFS/doc/img/app2.c:19 | a directory of the root is opened by its name, of any length from 1 to 255, also with dots and spaces after it |
| PathNames.NameRefused | FATFS/doc/img/app2.c:19 | a name that is too long, has a character that is not allowed, or has none that counts, is refused as invalid |
| PathNames.NameMissing | FATFS/doc/img/app2.c:19 | an allowed name with no directory behind it is not found |
| PathNames.OpensBelow | FATFS/doc/img/app2.c:19-30 | after the path of an opened directory, a separator alone makes the path invalid, and a separator with a name leads to the directory of that name in it |
| PathNames.StartsFrom | FATFS/doc/img/app2.c:19-26 | a leading separator of either kind leads to the root; without one a name is looked up in the current directory, or in the root where there is none |
| PathNames.DotsOpen | FATFS/doc/img/app2.c:19-26 | a dot segment leads to where the dot entries say, and to the root from a directory without |
| PathWalk.ChildResolves | FATFS/doc/img/app2.c:21-35 | a name appended to the path of an opened directory is looked up in that directory, except after the empty path, where it is looked up in the root |
| PathWalk.ChildAfterLoss | FATFS/doc/img/app2.c:32-35 | the same while objects disappear: reachable exactly as long as no directory on the way is gone |
| PathWalk.UnlinkLoses | FATFS/doc/img/app2.c:35 | deleting the entry of a file or an empty directory takes exactly that object away and keeps the dot entries of the others |
| DirectoryVolume.Volume.Unlink | FATFS/doc/img/app2.c:35 | `f_unlink`: what a dot segment names, read-only objects, the current directory and nonempty directories are refused; otherwise only the slot that the path leads to is deleted |
| DirectoryVolume.Volume.OpenDir | FATFS/doc/img/app2.c:19 | `f_opendir`: opens the directory that the path leads to, or tells an invalid name from a missing path |
| DirectoryVolume.Volume.ReadDir | FATFS/doc/img/app2.c:24-26 | `f_readdir`: reports the next undeleted entry from the cursor, or the end |
| EmptyDirectory.UnlinkEntry | FATFS/doc/img/app2.c:35 | the unlink succeeds, is refused or misses the entry exactly as write protection, the current directory and the directories already gone say |
| EmptyDirectory.ClearEntry | FATFS/doc/img/app2.c:31-34 | a directory entry is emptied first; the buffer spells its path and gets restored |
| EmptyDirectory.RemoveEntry | FATFS/doc/img/app2.c:27-37 | one round: progress through the listing of the entry, and how its end state follows |
| EmptyDirectory.Sweep | FATFS/doc/img/app2.c:23-37 | the loop removes a prefix of the post-order listing, the whole of it on success |
| EmptyDirectory.EmptyDirectory | FATFS/doc/img/app2.c:7-43 | terminates; the removed objects are a prefix of the post-order listing up to the first that is refused or out of reach, nothing else changes, FR_OK means all of it, and the buffer is restored, with either setting of _FS_RPATH; after the empty path with a current directory other than the root FR_OK means that this directory is untouched |
| RemovalProgress.SucceedsExactly | FATFS/doc/img/app2.c:23-37 | short of disk errors it succeeds if and only if nothing is refused and no directory on the way is removed before the last object |
| RemovalProgress.WhereItStops | FATFS/doc/img/app2.c:23-37 | nothing read-only and no current directory was removed, and the next object is one of these, or out of reach because the one before was a directory on the way, or met a disk error |
| RemovalProgress.OutcomeUnique | FATFS/doc/img/app2.c:23-37 | short of disk errors the listing alone decides how far it gets and with which result |
| RemovalProgress.PlainPath | FATFS/doc/img/app2.c:3 | without dot segments, and so whenever relative paths are disabled, nothing goes out of reach |
| UnreachablePaths.DetourFails | FATFS/doc/img/app2.c:3 | D/S/.. opens D, and after D/S is removed the rest of D is out of reach |
| UnreachablePaths.AstrayFails | FATFS/doc/img/app2.c:3 | the empty path opens the current directory D, and a name read there leads to the root's object |
| CodePages.FfConvert | FATFS/src/option/cc932.c:3726-3782 | the sixteen-probe loop computes Convert, with every index in bounds |
| CodePages.SearchDecides | FATFS/src/option/cc950.c:6799-6808 | with at most 65535 pairs, duplicates allowed, a key is found if and only if it is listed |
| CodePages.SearchBound | FATFS/src/option/cc932.c:3747-3756 | a strictly sorted table has every key found if and only if it has at most 65535 pairs |
| CodePages.UnicodeRoundTrip | FATFS/src/option/cc950.c:6789-6811 | Unicode to OEM to Unicode is the identity on every mapped character, duplicates included |
| CodePages.OemRoundTrip | FATFS/src/option/cc950.c:6789-6811 | OEM to Unicode to OEM keeps the character, and the code when it is the character's only one |
| CodePages.TinyToUnicode | FATFS/src/option/cc932.c:3758-3765 | the backward scan stays in the table and yields the key of the first matching value, or 0 |
| CodePages.TinyAgrees | FATFS/src/option/cc932.c:3739-3777 | both configurations convert alike, for mapped and unmapped codes |
| CodePages.SbcsConvert | FATFS/src/option/ccsbcs.c:501-525 | the scan loop computes Sbcs, including the index that wraps to 0 |
| CodePages.SbcsFromUnicode | FATFS/src/option/ccsbcs.c:516-521 | 0 if and only if the character is absent, else the least code for it, which converts back; for every table |
| CodePages.SbcsFromOem | FATFS/src/option/ccsbcs.c:513-521 | a code of a non-ASCII character converts back to the least code of that character |
| CodePages.AsciiUnchanged | FATFS/src/option/cc932.c:3736-3737 | codes below the limit stand for themselves, in both directions, in every table |
| CodePages.SbcsToUnicode | FATFS/src/option/ccsbcs.c:513-514 | a code of the upper half stands for its table entry, and one of more than a byte for nothing |
| Md5Rounds.Choices | Cmd/MD5.h:42-43 | at every bit F takes its second word where the first is 1 and else the third, G its first where the third is 1 and else the second |
| Md5Rounds.Parities | Cmd/MD5.h:44-45 | at every bit H is the parity of three bits, and I is its second word where the first is 0 and the third 1, and its opposite elsewhere |
| Md5Rounds.BitsDetermine | Cmd/MD5.h:42-47 | numbers below 2^n with the same n bits are equal, so these bits say everything |
| Md5Rounds.RotateTurns | Cmd/MD5.h:47 | rotating left by n takes bit i to bit i + n modulo 32 |
| Md5Rounds.StepUnique | Cmd/MD5.h:49-52 | a macro call changes its first register to the one value from which the inverse step gives the old registers back |
| Md5Block.TransformWords | Cmd/MD5.h:19-52 | the 64 macro calls on a, b, c and d, with the header's shifts and the words and constants in their order, and the final additions, compute Transform |
| Md5Rounds.RotateBack | Cmd/MD5.h:47 | rotating left by n and by 32 - n is the identity |
| Md5Rounds.RotateIsOr | Cmd/MD5.h:47 | bit by bit, the rotated word is the or of the two shifted halves |
| Md5Rounds.StepBijective | Cmd/MD5.h:42-52 | every macro call is undone by an explicit inverse, both ways round |
| Md5Rounds.RunBijective | Cmd/MD5.h:49-52 | any sequence of calls is a permutation of the registers |
| Md5Rounds.RunInjective | Cmd/MD5.h:49-52 | a sequence of calls, such as the 64 of a block, takes different register states to different states |
| Md5Rounds.ShiftDeviation | Cmd/MD5.h:19-34 | the shift table differs from RFC 1321 in exactly the steps 34, 38, 42 and 46, which turn by 8 and not by 11 |
| Md5Rounds.TurnsAgree | Cmd/MD5.h:28 | turning by 8 and by 11 bits agree only on the words of 32 equal bits |
| Md5Rounds.StepDeviation | Cmd/MD5.h:19-52 | a step gives other registers than with the RFC's distance exactly in those four steps and for all turned words but two |
| Md5Digest.DecodeBlock | Cmd/MD5.h:7-11 | the loop that makes sixteen words of a block, least significant byte first |
| Md5Digest.CountAdvances | Cmd/MD5.h:11 | the two-word counter with its carry adds 8 * len modulo 2^64 |
| Md5Digest.Md5Ctx.Update | Cmd/MD5.h:8-16 | a context that has absorbed msg afterwards has absorbed msg + input, however the input is cut |
| Md5Digest.Md5Ctx.Final | Cmd/MD5.h:17 | the digest is the hash of the padded message, with least padding and 64-bit length |
| Md5Digest.PaddedLayout | Cmd/MD5.h:36-40 | the padded message: message, byte 0x80, zeros, eight bytes of bit count with the least first, in as few blocks as possible |
| Md5Digest.InitialBytes | Cmd/MD5.h:15 | the initial registers are the bytes 01 23 ... ef fe dc ... 10 |
| Md5Digest.DigestIsLossless | Cmd/MD5.h:17 | the sixteen bytes of a digest spell the final registers |
| Md5Digest.Digest | Cmd/MD5.h:55 | the one-shot digest is the same hash |
| IoTask.MessagesConserved | user/main.c:318-360 | in every run accepted messages are taken in order, none is lost, and each is dropped if and only if a newer one was accepted before its query |
| IoTask.LastMessageKept | user/main.c:324-329 | when the queue has drained, the last accepted message was not dropped |
| IoTask.LastPostWins | user/main.c:318-360 | once posting stops, whatever else is written meanwhile, a registered io_task that gets enough steps drains its queue, keeps the last accepted message and waits at the pend |
| IoTask.CommandsAnswerZeros | user/main.c:330-359 | in every run two executions of a command have a zero written to its input in between |
| IoCommands.KeptIsHandled | user/main.c:326-330 | in every run a message judged to be kept is the one handled next, and after a dropped one the task is back at its top |
| IoCommands.Handled | user/main.c:330-347 | 0x55 stores the eight pins, with inputs 1, 3 and 4 held at 1 while the system runs; 0xaa stores nothing; others end the round |
| IoCommands.ZerosAnswered | user/main.c:348-360 | in every run, once a message has been handled and until the task is back at its top, command 1, 3 or 6 runs, in this order, if and only if its input is 0, which is then 1, unless somebody else writes that input |
| IoCommands.ExactCommands | user/main.c:348-360 | if nobody writes the three inputs meanwhile, exactly the commands of the zero inputs run, in order |
| IoCommands.RoundEnds | user/main.c:348-360 | the task is back at its top after at most six of its steps |
| IoCommands.CommandsNeedMessages | user/main.c:327-347 | in every run no command has run more often than messages 0x55 or 0xaa were kept: dropped and other messages run none |
| IoCommands.PostAccepted | user/main.c:71-73 | in every run a message is accepted exactly if fewer than 32 accepted ones are still waiting |
| IoCommands.NotRegistered | user/main.c:320-323 | at its top and not registered, the task takes no message and runs no command, whatever happens |
| ModbusTask.ReceiverLock | user/main.c:218-248 | in every run frames are analyzed only with their receiver stopped and the checks passed, at most one receiver is stopped, and none at the outer pend |
| ModbusTask.AnsweredExactly | user/main.c:219-247 | the restarts of a port count exactly the requests taken at the outer pend, less the one in progress |
| ModbusTask.RequestServed | user/main.c:219-246 | after any run, at the outer pend: 0x55 stops port 1 and 0xA5 port 3 to analyze a frame of at least 8 bytes with the right address, any other frame restarts the receiver, and other messages do nothing |
| ModbusTask.AnswerEnds | user/main.c:224-244 | at the inner pend any message or the timeout restarts the receiver, and only 0xaa for port 1 sets a Modbus terminal idle |
| ModbusTask.RequestLost | user/main.c:224-230 | after any run, a sound request of either port followed by one of the other port makes the second lost, whatever its frame |

## Left out

- Text output, `main` functions, mounting and opening: no logic.
- TestDiskio: the driver's calls are deterministic functions of its state; at ncyc = 0xFFFFFFFF the loop of the source does not end and the model does not apply.
- RoutedVerdict: asks for a sector size that is a power of two of at least 32 bytes, as FatFs does.
- FatVolume: FAT entries are 28-bit as on FAT32, an unreadable entry stays unreadable, and the free cluster count is exact or unknown; the sector window, the FSINFO flag and trimming are not modelled.
- LSeek: fast seek maps, seeking from a position inside the file, and loading the sector buffer, which happens only at offsets inside a sector.
- Truncate: truncation away from the start of the file.
- EmptyDirectory: a path with a volume prefix, or with a control character, at which FatFs stops reading but the loop at line 21 of app2.c does not; after the empty path with a current directory other than the root only success is specified.
- PathWalk: names are as in the long file name configuration of `ffconf.h`, but compared as they are, without case folding, code pages or separate long and short names; a failing call changes nothing on the disk; closing the directory has no effect.
- CodePages: the literal tables, which are parameters, and `ff_wtoupper`.
- Md5Rounds.ShiftLeft: the shifts of the macro are modelled as arithmetic on 32-bit numbers.
- Md5Digest.Md5Ctx.Update: input of more than 2^32 - 64 bytes, where the loop test of the source wraps; the wiping of buffers is not modelled.
- IoTask: delays are steps at which others may act; the commands themselves are events; reading the pins is one step.
- ModbusTask: checking a frame, stopping the receiver and analyzing it are one step; other code that starts or stops the receivers.
- Internals of uC/OS-II, Modbus analysis, drivers and the other tasks of `user/main.c`.
