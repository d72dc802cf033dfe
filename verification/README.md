# Verified model of proot-distro's filesystem transformations

proot-distro keeps Linux root filesystems in ordinary directories and works on
them as an unprivileged user: it captures image layers and replays them, syncs,
copies, moves, backs up, restores and deletes whole trees, and lets several of
its own processes do so at once. This project models that core in Dafny and
proves what it promises, for every tree, every archive, every failing call and
every interleaving the model admits.

Check it with `dafny verify dfyconfig.toml`.

## How it is put together

* `Names`, `Trees`, `Attributes`: paths as sequences of names, their spelling and
  sort order; a tree as a finite map from path to node; modes, contents, times.
* `Kernels`: a small kernel. Directories carry inode numbers, a descriptor
  names an inode, and a closed number is the first to be reused.
* `Walks`: the explicit-stack descent every pass shares, with what lies ahead of
  it in closed form.
* `Resolver`, `GuestFile`: chroot-style resolution, three implementations of it.
* `Shared`: a tree that other processes change, in any way, before any call of
  a walk, and the record of what the walk itself did. `GuestFile` and
  `RemovalAt` run in it.
* `Removal`, `Levels`, `Weights`, `RemovalAt`: `rmtree_at` on paths, under every
  failure; the parked stack of directories; why a walk ends though others act;
  and `rmtree_at` on descriptors, with that stack. `Sparse`: the sparse copy.
* `TarExtract`, `LayerDiff`, `Packing`: extraction through the one-deep
  descriptor cache, snapshot, diff and pack. `Members`, `HardLinks`: what single
  members and hard links come to, over the names they are spelled with.
  `LayerWhiteouts`, `LayerReplay`: where whiteouts land, and the inverse law.
* `Sync`, `Mirror`, `Prune`, `SyncRun`: the three passes of sync and what a
  whole run promises.
* `Backup`, `Restore`, `RoundTrip`; `Copying`: the backup round trip and the
  cross-device move.
* `Locks`, `Sessions`: two protocols as state machines over single system calls.
* `Dockerfile`, `DockerfilePrint`, `DockerfileForms`: the lexer, the printer it
  inverts, and the forms that one does not write.

Code that works in place is a class or a method with loops, proved against a
function of its input (`RemovalAt.RmtreeAt` against `Remaining`,
`Extractor.ExtractStream` against `Extract`,
`Destinations.Run` against `RestoreArchive`, `ParseInstructions` against
`Parse`); the laws are then proved about those functions. A failing system call
is a set of paths at which it fails, arbitrary and unrelated to the tree.

## Where the code falls short of its promise

Each of these is stated with the exact condition under which the promise holds.

* **Layers.** A path that turns from a directory into a file, or back, ends the
  extraction. A whiteout is looked for through the links of the packed tree, so
  that one beneath a directory that became a link may land on something the
  later state has. `ApplyInvertsDiff` has both in its if-and-only-if;
  `WhiteoutThroughNewLink` is a pair of states whose layer goes through and
  deletes a file both have; `LaterStateDecides` reads the condition off the
  later state when no link was deleted.
* **Hard links.** One whose place is taken by a directory is passed over in
  silence (`HardLinkIsACopy`).
* **Sync, listing failures.** A source root that cannot be listed stops the
  prune only if the first pass met the failure. If only the second did, the
  prune goes ahead, and takes whatever the destination had that the first pass
  did not see (`UnlistedRootPrunesNothingIff`, `LateListingFailureStillPrunes`).
* **Modes and times.** A chmod or utime that fails is passed over in silence by
  copy, sync and restore alike. What else they promise holds all the same, and
  each says exactly when the attributes are right too: `CleanRunConverges` and
  `SyncLosesTheMode` for sync, `CopyIsComplete`, `MoveAcross` and
  `MoveLosesTheMode` for copies, `BackupThenRestore` for restore. In sync, a
  file that needs no rewrite but cannot be opened keeps a wrong mode or time in
  the same silence (`OnlyUnopenedFilesDrift`, `UnreadableFileKeepsItsMode`).
* **Backup.** `BackupThenRestore` lists all that keeps a container from coming
  back: being called `installed-rootfs`, which is read as an archive in the
  older layout; a manifest over the size restore accepts; a directory where the
  manifest goes; and a rootfs file that is a second name of the manifest, which
  is archived as a hard link to it and finds the manifest that was there
  before, or none (`LargeManifestIsRefused`, `TwoNamesLoseOne`); besides a mode
  that cannot be set and was not right already. `LeftOutExactly` says what an
  archive lacks, a directory that could not be made readable included.
* **Sessions.** A record that is there but cannot be opened counts as dead, and
  is unlinked under a live session (`OneFailedOpenIsEnough`).
* **Locks.** A lock released after the fork but before `disown` is also gone for
  the process that inherited it (`ReleaseSparesHeirsIff`).
* **Dockerfiles.** After the first here-document of an instruction the next body
  is looked for one line too late, so an instruction comes back exactly when it
  has at most one (`DocsComeBackIff`, `PrintThenParse`, `TwoDocsDoNotComeBack`).

The module documentation of `proot_distro/helpers/tar_extract.py` (lines 29-31)
says that whiteout members are skipped when whiteouts are not handled; the code
writes them as ordinary entries. The model follows the code.

## Model

| member | source | states |
|---|---|---|
| `Resolver.ResolvedIsLinkFree` | proot_distro/helpers/tar_extract.py:586-624 | on every tree, link cycles included, the answer has no empty, dot or dot-dot component, and neither it nor any prefix is a link |
| `Resolver.ResolveIsIdempotent` | proot_distro/helpers/tar_extract.py:558-624 | resolving an answer again gives it back and follows no link |
| `Resolver.ResolveConcat` | proot_distro/helpers/tar_extract.py:586-624 | resolving p followed by q is resolving p and then q from there, on what is left of the 40 links |
| `Resolver.SelfLinkIsRefused` | proot_distro/helpers/tar_extract.py:600-620 | a link to itself is refused, whatever budget is left |
| `Resolver.LinkLeadsOn` | proot_distro/helpers/tar_extract.py:600-620 | a link spelled with a leading slash goes on from the root, any other from the directory it is in; one link of the budget is spent, and what came after the link comes after its target |
| `Resolver.BudgetToSpare` | proot_distro/helpers/tar_extract.py:594-606 | with more links allowed, a path leads to the same place with as many more to spare, and resolves iff it did not need the extra ones |
| `Resolver.PathThroughLink` | proot_distro/helpers/tar_extract.py:600-620 | beneath any link-free directory, a path through a link resolves as the path with the target in the link's place, absolute or relative, unless that one needs all 40 links |
| `Resolver.SafeResolveParts` | proot_distro/helpers/tar_extract.py:558-624 | the loop terminates and computes the reference resolution, and gives up exactly when that needs more than 40 links |
| `Resolver.ResolveWithinRoot` | proot_distro/paths.py:432-482 | the loop over joined strings computes the host spelling of the same resolution, or gives up on the same inputs |
| `Resolver.ResolversAgree` | proot_distro/paths.py:432-482 | both resolvers accept the same inputs and name the same place |
| `Resolver.LinkIsFollowed` | proot_distro/paths.py:460-482 | both loops, given a path through a link, answer as for the path with the target in its place, or refuse |
| `GuestFile.WalkAgreesWithResolve` | proot_distro/guestfile.py:165-260 | whenever the guest walk succeeds, its trail and leaf are the reference answer, and the leaf exists and is neither directory nor link |
| `GuestFile.LookupIsResolution` | proot_distro/guestfile.py:114-260 | the same from the guest's root, for any path given as a string |
| `GuestFile.ResolvedIsFound` | proot_distro/guestfile.py:165-260 | where links and the path climb before they go down, whatever the reference answer names is found, if it is there and neither directory nor link, as long as the components do not run out |
| `GuestFile.LookupFindsIff` | proot_distro/guestfile.py:165-260 | for such a guest and path, short enough, the lookup succeeds iff the path leads to an entry that is neither directory nor link, and then finds just that |
| `GuestFile.MissingIsNotClimbedOutOf` | proot_distro/guestfile.py:183-215 | why climbing has to come first: out of a missing directory the other resolvers climb, and this one does not |
| `GuestFile.ResolveAt` | proot_distro/guestfile.py:114-260 | whatever others move or replace meanwhile: on success the leaf is neither link nor directory, in the root or in a directory the walk opened inside one it was in, and two descriptors are held; on failure none is; and when nobody acts it decides as the walk on paths does |
| `GuestFile.Ascend` | proot_distro/guestfile.py:183-205 | going up through dot-dot, the walk is on the directory recorded in the trail, or refuses and stays; it refuses only if others act |
| `Shared.OneEntryGoes` | proot_distro/dirfd.py:1176-1188 | an unlink or rmdir of the walk takes away the entry it names and no other |
| `Shared.OutsideIsUntouched` | proot_distro/dirfd.py:1179-1188 | over every run, whatever others move where: as long as they move no directory of a set out of it, the walk enters none of the set and removes nothing from it but what it was called on |
| `Shared.SafeEntriesStay` | proot_distro/dirfd.py:1179-1188 | so every other entry of those directories outlives each call of the walk unchanged |
| `Removal.RmtreeAt` | proot_distro/dirfd.py:1176-1311 | under any obstacles, exactly what cannot go, what it stands on and what could not be looked into remains; every removal is reported once, children first; the result is true iff nothing remains |
| `Removal.NothingInTheWay` | proot_distro/dirfd.py:1176-1311 | without obstacles the whole tree goes and nothing else does |
| `Removal.LeavingLemma` | proot_distro/dirfd.py:1226-1262 | a level's flag, when it is left, tells whether anything beneath it stays |
| `RemovalAt.RmtreeAt` | proot_distro/dirfd.py:1176-1311 | whatever others do between any two calls: it ends, with the descriptors it began with; all it changed is on record and within reach; each removal is reported once; it is true iff nothing was reported, and then the name is gone; and when nobody acts, it does what the walk on paths does, and no fstat failing it never holds more than max(budget, 2) + 3 descriptors beside the caller's, however deep the tree |
| `RemovalAt.TakeTop` | proot_distro/dirfd.py:1283-1306 | one name unlinked, descended into, noted or passed over: the state on descriptors stays that of the walk on paths, and the walk comes nearer its end unless others acted |
| `RemovalAt.PopAndClose` | proot_distro/dirfd.py:1247-1263 | the walk is on the level under it, on the inode it was entered by, with the popped descriptor closed; or that level was moved away, and every descriptor of the walk is closed |
| `RemovalAt.RemoveEmptied` | proot_distro/dirfd.py:1262-1275 | an emptied directory is removed from the level under it on the stack, known by inode, or from the caller's directory, and then that entry is gone there |
| `RemovalAt.LeaveTop` | proot_distro/dirfd.py:1247-1281 | the level under it learns whether this one went, as on paths; the walk is lost, with its descriptors closed, only if others act; after the last level success means the name is gone |
| `RemovalAt.OpenAreFew` | proot_distro/dirfd.py:1200-1204 | with one descriptor a level, the open ones are the caller's and at most max(budget, 2) + 1 more |
| `Weights.EnteredIsNearer` | proot_distro/dirfd.py:1237-1306 | entering a directory leaves less to meet, in whatever tree the levels have come to stand on |
| `TarExtract.DescendAt` | proot_distro/dirfd.py:316-363 | descending, with or without creating, ends on the inode of the path, or fails where the walk on paths does, and closes all it opened on the way |
| `TarExtract.Extractor.GetParent` | proot_distro/helpers/tar_extract.py:235-271 | whatever the cache holds, asking for a parent does and yields what descending from the root would |
| `TarExtract.Extractor.ApplyWhiteout` | proot_distro/helpers/tar_extract.py:449-482 | a whiteout removes its entry with all beneath it, an opaque one every child, and the cached parent survives both |
| `TarExtract.Extractor.WriteMember` | proot_distro/helpers/tar_extract.py:405-441 | a directory, link or file member changes its own place and nothing the cache relies on; a plain file where a directory stands raises |
| `TarExtract.Extractor.ProcessMember` | proot_distro/helpers/tar_extract.py:360-441 | one member through the cache has the effect of one member through a fresh walk |
| `TarExtract.Extractor.CopyHardlink` | proot_distro/helpers/tar_extract.py:317-355 | a deferred hard link becomes a copy of the file its target resolves to, if that is still one once its place has been cleared |
| `TarExtract.Extractor.ExtractStream` | proot_distro/helpers/tar_extract.py:274-314 | for every member stream, extraction through the one-deep cache equals extraction that re-descends each time, and leaves no descriptor open |
| `HardLinks.HardLinkIsACopy` | proot_distro/helpers/tar_extract.py:317-355 | an archive that goes through, with a file for p and a hard link to it for q, however both names and the link are spelled, whatever leading components are dropped, in whatever order, and with any other members that keep off both: p has the file, and q one with the same content, mode and time, iff no directory stood there |
| `HardLinks.FileAndLink` | proot_distro/helpers/tar_extract.py:523-555 | the shortest such archive goes through, on any rootfs with no directory at p and no symbolic link at q |
| `HardLinks.MembersArrive` | proot_distro/helpers/tar_extract.py:274-300 | through any of the other members: the file stays at p, the way to q stays open, and the link stays queued |
| `HardLinks.LinksCopied` | proot_distro/helpers/tar_extract.py:301-304 | through the copies for all the other links, wherever their targets lead: p and q keep the file |
| `Members.ClimbingNamesAreDropped` | proot_distro/helpers/tar_extract.py:360-385 | a member whose name climbs or leaves a component empty, or has nothing left once the leading components are dropped, or ends in a dot, changes nothing |
| `Members.DirectoryArrives` | proot_distro/helpers/tar_extract.py:405-430 | a directory keeps what is in it and gets the member's mode with all the owner's bits, no others changed; it raises iff something other than a directory or a link stands there |
| `Members.LeafArrives` | proot_distro/helpers/tar_extract.py:432-441 | a file takes the place of anything but a directory, a link that of anything, with all beneath it; nothing else changes |
| `Members.WhiteoutTakesAway` | proot_distro/helpers/tar_extract.py:449-482 | an opaque marker empties its directory and leaves it; any other takes the entry it names with all beneath it, unless that is no entry's name; nothing else changes |
| `LayerDiff.TakeSnapshot` | proot_distro/helpers/layer_diff.py:247-341 | the walk records the fingerprint of every entry it should see and of nothing else |
| `LayerDiff.DiffSnapshots` | proot_distro/helpers/layer_diff.py:344-354 | added, modified and deleted are each complete, without repetition and in the order of their spellings |
| `Names.LessExactly` | proot_distro/helpers/layer_diff.py:344-354 | the order of spellings is decided by the first character they differ in, or by the shorter one ending |
| `LayerDiff.WriteLayerTar` | proot_distro/helpers/layer_diff.py:480-533 | the members of all packed paths in order, then a whiteout for every deleted path in order, then the opaque markers; the root is never deleted |
| `Packing.ParentFds.Open` | proot_distro/helpers/layer_diff.py:203-225 | whatever is cached, the descriptor is on the parent asked for, and there is one iff that is a directory |
| `Packing.ParentFds.AddEntry` | proot_distro/helpers/layer_diff.py:608-702 | the member for a path, read through the cache, is the one the tree has at that path |
| `Packing.PackThroughCache` | proot_distro/helpers/layer_diff.py:522-533 | packing through the cache gives the same members as without one and leaves no descriptor open |
| `Names.ParentSortsFirst` | proot_distro/helpers/layer_diff.py:344-354 | a directory's spelling sorts before everything beneath it |
| `LayerReplay.PackOne` | proot_distro/helpers/tar_extract.py:405-441 | applying one packed entry puts it in place, or raises exactly where a directory and a file clash |
| `LayerWhiteouts.WhiteoutOne` | proot_distro/helpers/tar_extract.py:390-402 | on any tree equivalent to a given one, a whiteout removes the entry its parent resolves to there, and nothing else |
| `LayerWhiteouts.WhiteoutsLeaveV` | proot_distro/helpers/layer_diff.py:357-372 | with everything packed, the whiteouts leave the later state, all of it and no more, iff none of them, each in the tree the ones before it left, lands on an entry of it |
| `LayerWhiteouts.NoNewLinkNoHarm` | proot_distro/helpers/layer_diff.py:357-372 | where no directory with something in it became a link, every whiteout finds its own entry |
| `LayerWhiteouts.LaterStateDecides` | proot_distro/helpers/tar_extract.py:390-402 | where no link was deleted, the whiteouts do no harm iff no deleted path, taken through the links of the later state, names something that state has |
| `LayerWhiteouts.OpaquesOnlyRemove` | proot_distro/helpers/tar_extract.py:449-482 | opaque markers never raise and only remove |
| `LayerWhiteouts.OpaqueEmpties` | proot_distro/helpers/tar_extract.py:460-468 | the marker a layer carries for a directory empties the one its path leads to, and nothing else |
| `LayerReplay.ApplyInvertsDiff` | proot_distro/helpers/layer_diff.py:344-372 | applied to any tree equivalent to the state before, a layer goes through iff no path swapped directory and file, and gives a tree equivalent to the state after iff, besides, no whiteout lands on an entry of it |
| `LayerReplay.ReplayReachesTheLastState` | proot_distro/helpers/layer_diff.py:247-354 | a chain of layers folded onto any tree equivalent to the first state keeps up with the real states, one by one, iff every step meets that condition, and then ends in a tree equivalent to the last |
| `LayerReplay.WhiteoutThroughNewLink` | proot_distro/helpers/tar_extract.py:390-402 | two states, for any three names, whose layer goes through and does not give the later one: a directory that held something became a link |
| `LayerReplay.CaptureAndApply` | proot_distro/helpers/layer_diff.py:480-533 | snapshot, snapshot, diff, pack, extract with descriptors: the other rootfs becomes equivalent to the one the step left iff the same condition holds |
| `Levels.Stack.Push` | proot_distro/dirfd.py:840-848 | the stack is what an unbounded one would be; with no fstat failing, at most max(budget, 2) levels hold descriptors beside the caller's |
| `Levels.Stack.Park` | proot_distro/dirfd.py:879-908 | the next shallowest level is closed with its inodes kept, or nothing changes and a descriptor could not be read |
| `Levels.Stack.ReviveSlot` | proot_distro/dirfd.py:911-934 | what is reopened is the very inode that was parked, or nothing is left open |
| `Levels.Stack.Pop` | proot_distro/dirfd.py:850-866 | whatever others have moved, between the two calls of a level with two descriptors too, the level below comes back on its own inodes or the pop raises; with every directory still in its parent it does not raise; no number is lost, shared or closed twice |
| `Levels.Stack.SetSecond` | proot_distro/dirfd.py:1085-1091 | the second descriptor of the level just pushed is filled in and belongs to it alone |
| `Levels.Stack.DropHalfOpened` | proot_distro/dirfd.py:868-877 | truncating by one closes what that level holds and nothing else |
| `Levels.Stack.CloseFrames` | proot_distro/dirfd.py:753-772 | after any error, exactly the numbers owned levels hold are closed, once |
| `Sparse.DataExtents` | proot_distro/dirfd.py:553-588 | the extents are sorted, apart, non-empty and in bounds, and every byte outside them is zero; where the filesystem keeps track of its holes they are exactly what is stored, unless that is in more than 1048576 pieces |
| `Sparse.WriteAll` | proot_distro/dirfd.py:546-550 | with any partial writes, all the bytes end up at the offset and only there |
| `Sparse.CopyExtents` | proot_distro/dirfd.py:591-603 | the copy is byte-exact and writes nothing where the source has a hole |
| `Sparse.CopySkippingZeros` | proot_distro/dirfd.py:606-628 | the copy is byte-exact although chunks of zeros are not written, nor anything 256 KiB or more from a byte that is not zero |
| `Sparse.CopyData` | proot_distro/dirfd.py:631-657 | same bytes and same length by every path, for any hole map, short reads and partial writes; a hole map that keeps track is believed iff there is a hole, if not too many, and then exactly what is stored is written |
| `Sparse.HolesShow` | proot_distro/dirfd.py:631-657 | the extents add up to less than the file's size iff some position is in none |
| `Sync.CollectRels` | proot_distro/commands/sync.py:506-547 | the first pass records exactly the entries under directories it could list, and notes exactly the ones it could not look at or enter |
| `Sync.RecordLevel` | proot_distro/commands/sync.py:470-503 | one level: every entry recorded, unreadable ones noted, directories to go on with chosen; an unlistable root is flagged |
| `Sync.EverythingIsVisited` | proot_distro/commands/sync.py:506-547 | with nothing failing a pass enters every directory and records every entry |
| `Mirror.SyncDir` | proot_distro/commands/sync.py:237-271 | a directory is there afterwards, or the failure is one of the calls that failed; nothing but its own place changed, and its parent only in its time, if an entry was made or replaced, and in a mode that can be set |
| `Mirror.SyncSymlink` | proot_distro/commands/sync.py:291-322 | likewise for a link; one that is right already is not touched; it fails iff the link cannot be read, or is not there and cannot be made |
| `Mirror.RefreshFileMetadata` | proot_distro/commands/sync.py:330-377 | an inode with another name is never changed; else the file is left with the source's mode and time, as far as the calls go through: the mode is tried first and the first failure is the last call |
| `Mirror.SyncFile` | proot_distro/commands/sync.py:380-463 | a file ends up with the source's content on a fresh inode, its mode and time the source's unless they cannot be set, or the failure is noted; no inode with another name is written; it fails iff a directory stands there or the content cannot be read or written |
| `Mirror.MirrorEntry` | proot_distro/commands/sync.py:578-660 | one entry: seen, then mirrored or noted as skipped, with the exit status accounting for it; a mode or time that cannot be set is not noted; it is skipped iff it cannot be looked at, is special, or its own kind of transfer fails |
| `Mirror.SameJudgement` | proot_distro/commands/sync.py:554-660 | until its turn comes, an entry is judged against the destination as the run found it |
| `Mirror.MirrorAt` | proot_distro/commands/sync.py:663-725 | what the pass has seen is mirrored or noted; a directory gets its metadata when left, as far as the calls go through, and else keeps what it had or was made with; all else is as it was |
| `Prune.CollectExtras` | proot_distro/commands/sync.py:746-792 | exactly the topmost destination entries without a source counterpart, in directories the mirror did not skip |
| `Prune.ExtrasStandApart` | proot_distro/commands/sync.py:746-792 | no extra stands above a directory the pass walks, or above another extra |
| `Prune.RemoveExtras` | proot_distro/commands/sync.py:820-874 | exactly the targets go, as far as they can be removed, and every directory keeps its mode and times, but for the time of one that lost an entry and cannot be given it back |
| `SyncRun.SyncDirectory` | proot_distro/commands/sync.py:1062-1081 | the three passes make a run, for any two source trees the passes saw; failures of 0 means only special files were skipped and the root was listed |
| `SyncRun.SourcePathsArePrefixClosed` | proot_distro/commands/sync.py:470-503 | with a path, the run also knows every directory above it |
| `SyncRun.SourceEntriesAreSpared` | proot_distro/commands/sync.py:772-789 | no entry either pass saw in the source is pruned; of a directory the time may change, exactly as `RemoveExtras` says |
| `SyncRun.SkippedSubtreesAreSpared` | proot_distro/commands/sync.py:99-142 | nothing at or beneath a skipped path is pruned |
| `SyncRun.UnlistedRootPrunesNothingIff` | proot_distro/commands/sync.py:1084-1101 | with the root unlisted by a pass, nothing is pruned iff it was the first pass, or the destination, as it was, had nothing removable in the directories the prune enters that the first pass had not seen |
| `SyncRun.LateListingFailureStillPrunes` | proot_distro/commands/sync.py:1084-1101 | a run whose second pass could not list the root removes the destination's only entry |
| `SyncRun.MirroredSurvives` | proot_distro/commands/sync.py:1062-1081 | the prune and the final stamp leave every entry the mirror wrote, and each file as it is |
| `SyncRun.CleanRunConverges` | proot_distro/commands/sync.py:554-725 | after a run that skipped nothing but special files, every source entry is at the destination with kind, target, size and checksum; and with mode and time iff those that could not be set were right already: as found or as made, and as old as the run once a directory had an entry made, replaced or removed |
| `SyncRun.DirConverges` | proot_distro/commands/sync.py:274-288 | after such a run, the mode and times of every directory, to the bit |
| `SyncRun.FileConverges` | proot_distro/commands/sync.py:636-650 | after such a run, the mode and time of every file, and which files are made anew: those that differ, and those that only have the wrong mode or time if their inode has a name outside the destination, never if it has no other |
| `SyncRun.ContentConverges` | proot_distro/commands/sync.py:190-212 | after such a run, a file that was missing, or had another size, or another whole second or, with checksums, another or no checksum, has the source's bytes; any other has its own, or the source's if it was made anew, which never happens to one with no other name |
| `SyncRun.AttributesConverge` | proot_distro/commands/sync.py:330-463 | where nothing is refused at it, an entry has the source's mode and, to the second, its time; a link its target |
| `Attributes.WholeSecondsExactly` | proot_distro/commands/sync.py:190-212 | the whole second of a time is the nearest multiple of 1000000000 ns on the side of zero |
| `SyncRun.OnlyUnopenedFilesDrift` | proot_distro/commands/sync.py:554-725 | where no mode or time is refused, an entry is right in all iff it is not an up-to-date file with the wrong mode or time that cannot be opened |
| `SyncRun.RefusalsAreNotNoted` | proot_distro/dirfd.py:416-432 | whatever modes and times are refused, with nothing else failing the run skips nothing but special files |
| `SyncRun.RefusedModeIsKept` | proot_distro/commands/sync.py:380-463 | a file made anew where its mode cannot be set has the mode it was made with after a run that reports success |
| `SyncRun.SyncLosesTheMode` | proot_distro/commands/sync.py:1062-1081 | the three passes on one file and an empty destination: no failure, and the wrong mode |
| `SyncRun.UnreadableFileKeepsItsMode` | proot_distro/commands/sync.py:330-377 | an up-to-date file that cannot be opened keeps a wrong mode |
| `SyncRun.UntouchableIsLeftAlone` | proot_distro/commands/sync.py:578-660 | special files and directories a file would have replaced stay as they were, with everything beneath them |
| `SyncRun.OnlyTheSourceRemains` | proot_distro/commands/sync.py:820-874 | after an undisturbed run with deletion, whatever the source lacks lies beneath one of those |
| `SyncRun.SecondRunChangesNothing` | proot_distro/commands/sync.py:190-212 | an undisturbed second run rewrites nothing, fixes nothing, finds no extras and leaves the destination as it is, in both comparison modes |
| `SyncRun.SharedInodesAreUntouched` | proot_distro/commands/sync.py:330-377 | an inode with a name outside the destination, or one the source has nothing at, is never written |
| `Backup.RelaxPermissions` | proot_distro/commands/backup.py:386-436 | an entry is made readable to its owner, unless it is a file with several names |
| `Backup.FixPermissions` | proot_distro/commands/backup.py:439-448 | the pass reaches every entry that is not beneath a directory it could neither open nor relax, because directories are relaxed before they are entered |
| `Backup.AddFile` | proot_distro/commands/backup.py:360-383 | a readable regular file is archived with its content, or as a hard link if it has several names and its inode is archived already; an unreadable one is left out |
| `Backup.AddManifest` | proot_distro/commands/backup.py:203-232 | the manifest is the first member, untouched by the permission pass, and takes its inode into the table |
| `Backup.AddPath` | proot_distro/commands/backup.py:264-383 | the member for an entry; a file already archived under another name, the manifest included, becomes a hard link to the first one |
| `Backup.ArchiveTree` | proot_distro/commands/backup.py:131-200 | every wanted entry in view once, after its parent, the rootfs itself first |
| `Backup.LeftOutExactly` | proot_distro/commands/backup.py:131-200 | left out are exactly what lies beneath a directory that can be neither opened nor relaxed, the link2symlink store, special files, and unreadable files with several names or refused their chmod |
| `Backup.RefusedExactly` | proot_distro/commands/backup.py:418-428 | those directories are the ones that lack owner read or search and cannot be given it |
| `Backup.NothingRefused` | proot_distro/commands/backup.py:386-448 | where every refused directory is open as it is, the archive sees the whole rootfs |
| `Backup.RelaxedNoFurther` | proot_distro/commands/backup.py:386-436 | for every entry left in view: a directory's mode gains at most owner read and search, and only if it lacked one; a file's owner read, and owner execute only if someone may execute it; no bit is lost, and content, target and the modes refused or shared stay |
| `Backup.OpenIsLeftAlone` | proot_distro/commands/backup.py:418-428 | a rootfs open to its owner throughout is archived exactly as it was |
| `Backup.BackupContainer` | proot_distro/commands/backup.py:531-652 | the permission pass over the rootfs, then the manifest, then the tree, on one inode table |
| `Restore.Destinations.Parent` | proot_distro/commands/restore.py:314-327 | whatever is cached, the parent is made and held as descending from the container directory would |
| `Restore.Destinations.OpenSource` | proot_distro/commands/restore.py:329-350 | a hard link's source is found as by a fresh walk, and the cache stays |
| `Restore.Destinations.WriteMember` | proot_distro/commands/restore.py:372-438 | one member takes its place, with its mode if that can be set, and only its place changes |
| `Restore.Destinations.Run` | proot_distro/commands/restore.py:667-771 | restoring through the cache equals restoring with a fresh walk per member, deferred modes included, and leaves no descriptor open |
| `RoundTrip.ArcLeadsBack` | proot_distro/commands/restore.py:184-243 | the name backup gives a member leads restore back to the same path of the same container, unless that is called installed-rootfs |
| `RoundTrip.ManifestLeadsBack` | proot_distro/commands/restore.py:184-243 | likewise for the manifest |
| `RoundTrip.LayoutsLeadAlike` | proot_distro/commands/restore.py:184-243 | a path of a container leads to the same place in each of the three layouts, unless the oldest reads as one of the others |
| `RoundTrip.ClimbingLeadsNowhere` | proot_distro/commands/restore.py:206-212 | a name that climbs, or leaves a component empty, leads nowhere |
| `RoundTrip.OneMember` | proot_distro/commands/restore.py:667-740 | restoring the next archived member adds it to what has been restored, hard links as equal copies; a link to the manifest finds the old one or is passed over |
| `RoundTrip.EveryModeIsApplied` | proot_distro/commands/restore.py:736-740 | applied children first, every deferred directory mode is reachable when its turn comes and ends up as archived, unless it cannot be set there |
| `RoundTrip.RestoredState` | proot_distro/commands/restore.py:568-735 | unless the name or the manifest forbids it, every archived entry is restored, with the old manifest in place of the files that are its second names |
| `RoundTrip.OutcomeIsFaithful` | proot_distro/commands/restore.py:735-744 | what results is the archived container, entry by entry and mode by mode, the rest as it was, iff those files find their content, the manifest has a place to go, and every mode that cannot be set is right without that |
| `RoundTrip.LargeManifestIsRefused` | proot_distro/commands/restore.py:620-645 | a manifest over the limit, which backup archives, ends the restore before anything is touched |
| `RoundTrip.SharedManifestIsLost` | proot_distro/commands/restore.py:329-350 | a file that is the manifest under another name is gone after a restore where there was no manifest |
| `RoundTrip.TwoNamesLoseOne` | proot_distro/commands/restore.py:329-350 | the smallest container that shows it |
| `RoundTrip.LegacyIsNeverRestored` | proot_distro/commands/restore.py:184-243 | a backup of a container called installed-rootfs never restores that container |
| `RoundTrip.BackupThenRestore` | proot_distro/commands/backup.py:203-232 | the container comes back, and faithfully, iff it is not called installed-rootfs, its manifest fits and has a place to go, every second name of the manifest finds the same content in the one already there, and every mode that cannot be set is the one an entry is made with |
| `RoundTrip.BackupAndRestore` | proot_distro/commands/restore.py:441-771 | the same of the two programs themselves, permission pass, descriptors and all; and of the rootfs as it was, if that is open to its owner throughout |
| `Copying.CopyEntry` | proot_distro/dirfd.py:1055-1115 | an entry is copied or entered, with its mode and time as far as they can be set, or else counted as failed or skipped, iff one of its other calls failed or it is special |
| `Copying.CopyTreeAt` | proot_distro/dirfd.py:982-1115 | whatever fails, only the destination changes, what was not counted is there with kind, content and target, and with mode and time unless they could not be set, and the two counters are those numbers |
| `Copying.TallyTaken` | proot_distro/dirfd.py:1055-1115 | an entry that is not entered counts once: as skipped, as failed, or not at all, and nothing beneath it does |
| `Copying.EntersDeeper` | proot_distro/dirfd.py:1062-1105 | of the entries met, those entered are the directories no call fails on |
| `Copying.CopyIsComplete` | proot_distro/dirfd.py:982-1115 | nothing counted means a complete copy, and nothing is counted iff nothing was in the way; a complete copy is exact iff every refused mode was the one the entry was made with and every refused time that of the copy |
| `Copying.CompleteIsExact` | proot_distro/dirfd.py:416-432 | a complete copy loses nothing but modes and times, and those iff a refused call would have had something to set right |
| `Copying.NothingIsCounted` | proot_distro/dirfd.py:416-432 | whatever modes and times are refused, with nothing else failing nothing is counted |
| `Copying.CopyTreePinned` | proot_distro/commands/copy.py:82-180 | `skipped` is the number of special files that can be looked at in directories the copy enters and lists, `failures` that of the other entries there that a call fails on and of the directories entered that cannot be listed; both are 0 iff nothing was in the way, and then the copy is complete, and exact iff the refused attributes were right; at every moment nothing outside the destination has changed but the time of the directory that holds it |
| `Copying.RemoveSource` | proot_distro/commands/copy.py:183-239 | however far removal gets, all of the source is at the destination in every state |
| `Copying.MoveAcross` | proot_distro/commands/copy.py:183-239 | in every intermediate state each file and link is at the source, or at the destination with its content; the source is touched only after a complete copy, which is exact iff the refused attributes were right; a directory is left in place iff something was counted, with the sum of both counters reported, and a file or link is moved iff no call failed |
| `Copying.MoveLosesTheMode` | proot_distro/commands/copy.py:183-239 | a file moved to where its mode cannot be set: moved, the source gone, and the mode with it |
| `Copying.MoveTree` | proot_distro/commands/copy.py:183-239 | the same for a directory, with the exact condition for leaving it in place |
| `Copying.MoveLeaf` | proot_distro/commands/copy.py:183-239 | the same for a file or a link |
| `Locks.StepKeeps` | proot_distro/locking.py:576-688 | every system call of every process keeps the protocol's invariant |
| `Locks.RunKeeps` | proot_distro/locking.py:576-688 | so does every run, in whatever order the steps interleave |
| `Locks.MutualExclusion` | proot_distro/locking.py:576-651 | a process that counts on an exclusive lock is alone in counting on any lock of that name, inherited locks included |
| `Locks.RecordedMeansHeld` | proot_distro/locking.py:576-651 | a path recorded as held is locked exclusively on a description that process has open, and the holder line names it |
| `Locks.InnerScopeReleasesNothing` | proot_distro/locking.py:667-688 | in every run, when a re-entrant scope is left there is an outer one, and it keeps its lock, its record and the right to count on it until its own release or the end of its process, whatever else happens |
| `Locks.OnlyHoldersWrite` | proot_distro/locking.py:620-651 | a holder line only ever changes by the one who holds the lock, to its own pid |
| `Locks.GrantedIff` | proot_distro/locking.py:576-619 | in every run, a lock asked for is granted iff no lock on the path is in force, or all that are, and it, are shared; refused, it leaves no trace |
| `Locks.OutlivesItsProcessIff` | proot_distro/locking.py:612-624 | when its process starts another and ends, a lock lives on with the new one iff it was made inheritable |
| `Locks.LockEndsExactly` | proot_distro/locking.py:653-688 | a lock ends iff its guard, not disowned, unlocks it or its last duplicate closes |
| `Locks.ReleaseSparesHeirsIff` | proot_distro/locking.py:653-688 | a release leaves an inherited lock standing iff it was disowned first |
| `Locks.FlockBase.Acquire` | proot_distro/locking.py:576-651 | succeeds iff the path is held exclusively by the process already, or no lock on it is in force, or all that are, and this one, are shared; a refusal leaves no trace |
| `Locks.FlockBase.Disown` | proot_distro/locking.py:653-665 | the lock stays, as the heirs' own |
| `Locks.FlockBase.Release` | proot_distro/locking.py:667-688 | an inner scope only ends; an outer one unregisters, unlocks and closes |
| `Sessions.RecordPidExactly` | proot_distro/session.py:257-274 | a file name is read as a pid iff it is the canonical spelling of that pid |
| `Sessions.ValidateInvertsPayload` | proot_distro/session.py:277-339 | what a session writes about itself is read back as written, under its own name and no other |
| `Sessions.AcceptedExactly` | proot_distro/session.py:277-339 | exactly which records are accepted and as what: whole-number start times and lacking flags included, other keys ignored |
| `Sessions.StepKeeps` | proot_distro/session.py:141-254 | every system call of registrars and readers keeps the registry's invariant |
| `Sessions.RunKeeps` | proot_distro/session.py:141-254 | so does every run |
| `Sessions.VisibleIsCompleteAndLocked` | proot_distro/session.py:141-207 | from the first state in which a name is visible its record is complete, valid, and locked while any process of the session lives |
| `Sessions.ProbesTellTheTruth` | proot_distro/session.py:456-485 | a probe says alive iff a process of the session is, however many other probes are under way |
| `Sessions.ReportsSpeakForTheirName` | proot_distro/session.py:210-254 | every reported record carries its file name's pid |
| `Sessions.PruneLosesOnlyTheUnprobed` | proot_distro/session.py:210-254 | an unlink takes a live session's name away only if the name has moved to another file since the probe, or none was probed |
| `Sessions.LiveSessionsAreNotPruned` | proot_distro/session.py:210-254 | if no process registers under the name between open and unlink, and the open does not fail though the name is there, no live session is pruned |
| `Sessions.OneFailedOpenIsEnough` | proot_distro/session.py:456-485 | in any run, a failed open of a live session's record and the unlink after it take its name away, while its processes hold on |
| `Sessions.SessionOutlivesItsProcess` | proot_distro/session.py:141-207 | a session lives on in the processes its own started, and ends with the last one |
| `Sessions.ActiveSessions` | proot_distro/session.py:210-254 | on a quiet registry: every live record that could be read, once, by ascending start time and then pid, and exactly the names of the dead gone, and of those that would not open |
| `Sessions.InsertKeepsOrder` | proot_distro/session.py:252-254 | the list stays in order of start time and pid |
| `Dockerfile.GatherLines` | proot_distro/helpers/dockerfile.py:184-210 | continuation lines are joined as the definition on the remaining lines says, and the index ends on the last one taken |
| `Dockerfile.CollectHeredocBody` | proot_distro/helpers/dockerfile.py:396-416 | the body up to the closing tag and the index past it, or none if the tag never comes |
| `Dockerfile.CollectAll` | proot_distro/helpers/dockerfile.py:255-270 | the bodies of an instruction, each looked for from where the code looks |
| `Dockerfile.PullFlags` | proot_distro/helpers/dockerfile.py:326-366 | leading flags are taken off one by one, as the recursive definition does |
| `Dockerfile.Round` | proot_distro/helpers/dockerfile.py:175-297 | one round yields what one step of the definition does, and the index always advances |
| `Dockerfile.ParseInstructions` | proot_distro/helpers/dockerfile.py:165-297 | the loop over indices gives the records, or the error, of the definition over remaining lines |
| `DockerfilePrint.LogicalLineComesBack` | proot_distro/helpers/dockerfile.py:184-213 | an instruction's words are read back in order whichever lines they were broken over, for either escape character |
| `DockerfilePrint.BrokenLine` | proot_distro/helpers/dockerfile.py:300-323 | a line broken by an escape is seen to go on, and loses just the escape |
| `DockerfilePrint.FlagOn` | proot_distro/helpers/dockerfile.py:326-366 | a printed flag is found whole: key, value and length |
| `DockerfilePrint.DocComesBack` | proot_distro/helpers/dockerfile.py:396-416 | one here-document is read back and the lines after it are left; with tabs stripped from its lines and its closing tag if it says so, and kept otherwise |
| `DockerfilePrint.DocsComeBackIff` | proot_distro/helpers/dockerfile.py:255-270 | an instruction's here-documents come back iff there is one |
| `DockerfilePrint.StepComesBack` | proot_distro/helpers/dockerfile.py:165-297 | one printed instruction gives its record and leaves the lines after it, if it has at most one here-document; else the record differs or too much is taken |
| `DockerfilePrint.PrintThenParse` | proot_distro/helpers/dockerfile.py:165-297 | printed instructions, in any layout and with blank and comment lines between, come back as the same records in order, iff none has more than one here-document |
| `DockerfilePrint.TwoDocsDoNotComeBack` | proot_distro/helpers/dockerfile.py:255-270 | an instruction with two here-documents, and the file it does not come back from |
| `DockerfileForms.ErrorNamesItsLine` | proot_distro/helpers/dockerfile.py:216-252 | after any instructions that are read, an instruction that is none, in any layout, ends the parse with the error for its words and the line it starts on |
| `DockerfileForms.ReadUpTo` | proot_distro/helpers/dockerfile.py:165-297 | what comes before a place in the file is read the same whatever follows |
| `DockerfileForms.SkippableExactly` | proot_distro/helpers/dockerfile.py:175-182 | passed over are the lines of white space alone and those on which a "#" comes first |
| `DockerfileForms.NameInAnyCase` | proot_distro/helpers/dockerfile.py:216-222 | an instruction is known by its name in any case |
| `DockerfileForms.OpenerIsFound` | proot_distro/helpers/dockerfile.py:388-393 | a here-document opener is found with its dash, and with its tag bare or between equal quotes |
| `DockerfileForms.NoOpeners` | proot_distro/helpers/dockerfile.py:388-393 | without two "<" in a row there is none |
| `DockerfileForms.CollectsIff` | proot_distro/helpers/dockerfile.py:396-416 | a body is read up to the first line that is its closing tag, and none is if there is no such line |
| `DockerfileForms.ValueIsRead` | proot_distro/helpers/dockerfile.py:419-436 | a value between brackets that is a JSON list of strings is that list, any other its text |
| `DockerfileForms.QuotedFlagIsRead` | proot_distro/helpers/dockerfile.py:326-385 | a flag whose value starts with a quote has the value shlex makes of it and ends where that stopped |

## Left out

- TarExtract.Extractor.ExtractStream: permission errors, and the directory times
  stamped at the end; the mode of directories an archive only implies is a
  parameter.
- LayerDiff.TakeSnapshot: calls that fail on single entries; equal fingerprints
  are assumed to mean equal content where a layer is diffed.
- Packing.ParentFds.AddEntry: files that cannot be opened.
- Removal.RmtreeAt: a call that fails is one that still fails after the retry
  with permissions relaxed.
- RemovalAt.RmtreeAt: a caller without `on_error`, for whom the first failure
  raises. The walks of copy, sync, backup and snapshot are on paths: what
  `Levels` proves of two descriptors a level is not carried into them.
- Mirror.RefreshFileMetadata: `fstat` on a descriptor already held is taken to
  succeed, here and in the prune.
- Prune.RemoveExtras: both walks of the prune are blind at the same paths.
- Backup.AddPath: link2symlink stand-ins are not packed as their backing files;
  neither are they anywhere else in the model.
- Sparse.CopyData: the source does not change while it is copied, and a write
  makes progress.
- DockerfilePrint.PrintThenParse: the printed form has unquoted flags and
  shell-form values, with words separated by single spaces; `DockerfileForms`
  has the other forms one at a time.
- Extended attributes, owners and groups.
- Bytes of tar, gzip and JSON, CRC and SHA arithmetic: an archive is a sequence
  of members, a checksum a function.
- Floating-point file times: times are integer nanoseconds and are compared and
  archived by whole second.
- A filesystem that gives a deleted directory's inode number to a new one.
- `MapSources`, `write_files_layer` and `layer_path_parts`: layers made of named
  files rather than of a difference.
- sync of a single file, and names ending in `.~pd_sync`, which the temporary
  file would displace.
- copy: merging into an existing directory, and the rename that makes a move
  on one device; a removal that fails does so after an arbitrary number of
  entries.
- backup: how a member's name is padded and prefixed in the archive, owner
  zeroing, compression and progress.
- restore: the container locks; file times are a parameter; an archived link's
  target is not empty; the container directory itself is open to its owner.
- Locks: entries planted in the lock directory, filesystems without flock,
  scopes that are not left in the order they were entered, and inheriting an
  exclusive lock.
- Sessions: planted files and the size limit of a record; the keys of a record
  are an enumeration.
- Dockerfile parser directives and variable expansion; shlex and JSON are
  uninterpreted functions; upper-casing is that of ASCII letters.
- `paths.pin_path`, `_walk_spec` and the overlap checks, which would add easy
  members beside the resolver.
- Download, registry push and pull, the build engine, the process table,
  rendering and argument parsing.
