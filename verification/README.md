# A verified model of the computer's state machinery

This project models, in Dafny, how a computer's tree and its run journals are kept: taking a
tree apart into a manifest and content-addressed chunks, putting it back authoritatively,
streaming and storing a run's journal across supervisor lives, and collecting garbage in the
chunk store many computers share. The operations keep the form they have in the Rust and
TypeScript sources, with mutable classes, loops and error returns, and each is proved against
a specification that says what its caller gets.

| files | what they model |
|---|---|
| `Basics`, `Ordering`, `Paths`, `Errors`, `Manifests`, `Runs` | shared values: bytes, path text and components, the path order, storage formats; sequences of steps |
| `Disk`, `FileSystem` | a finite inode file system (files, directories, symlinks, other nodes; the link count is the number of names) and the system calls on it |
| `RootDir`, `RootWalk` | root-anchored access with the cached descriptor stack, and the explicit-stack, contents-first walk |
| `ChunkStore`, `Restore`, `Prune`, `Snapshot` | the chunk store, the four restore passes, the prune, the three snapshot passes with hard-link accounting |
| `Revert`, `Exclusions`, `RoundTrip` | what follows for a revert, for the exclusion lists as they ship, and for restoring a snapshot elsewhere |
| `Journal`, `Lives`, `Durability`, `Stream` | the journal, its segments across crashes, rollbacks, resumes and replays, what a disk attests to, and its stream across drops and reconnects |
| `Gc`, `GcRuns`, `Publish` | mark and sweep, whole runs of a shared store, and publishing a manifest last |
| `Diff`, `Utf16`, `Readers`, `Frame`, `Zstd` | pairs that must agree: two diffs and their two text orders, two readers, an encoder and decoder, a framer and its reader |

What is taken as given: blake3 is injective, so a chunk's id is its bytes under a constructor;
the chunker may cut a file anywhere as long as the pieces tile it; no other process changes
the tree while an operation works on it. Manifests that a snapshot produces are shown to be
sorted, to have one entry per path, and to have descendants only below directories; what restore
does on any valid manifest is told turn by turn, and on those it comes out as the manifest says.
A manifest's id is an address of 64 digits given by some function; where it matters the id of the
manifest being published must not already be that of a different one (`GcRuns.Unclaimed`), and
`GcRuns.TwoSnapshotsAreARun` is such a function with a run.

The results worth reading first:

* `Reverts.RevertTheorem`: snapshot a tree, let it become anything, revert. The revert succeeds
  if and only if no excluded node has come to stand below a path that was a file or a link,
  and then every recorded path shows what it showed, the excluded nodes are as they are now
  with the directories that hold them, and there is nothing else.
* `Reverts.SparesTheSkippedIffClosed`: the snapshot skips everything below an excluded
  directory, the prune asks only for an entry's own path. Whatever the trees, the revert spares
  what the snapshot skipped if and only if the exclusion list is closed under going down;
  `Reverts.UnclosedLoses` gives a tree on which it destroys a skipped directory with no change
  at all in between.
* `Streams.SafeIffBaseIsHeld`: over all interleavings of appends, flushes, deliveries, acks,
  drops and reconnects, the receiver never sees a gap or a conflict if and only if the life's
  base is what the receiver held.
* `Lives.SegmentChain`, `Lives.StartIsSafeIff`: the segment chain over all failures, crashes and
  rollbacks, as long as each life starts above all that is stored; whatever a life goes on to do,
  it never overwrites a stored segment if and only if it started so.
* `Durability.RollbackSeenIff`, `Durability.ResumeNeverAlarmsIff`: with bases from the disk and
  no file in the making, a rollback is seen if and only if it loses a segment the record counts; a
  resumed life can never raise a false alarm if and only
  if the control plane held no more of the journal than the disk.
* `GcRuns.GcSafe`, `GcRuns.SweepIsSafeIff`: no chunk reachable from a retained manifest is lost in
  any interleaving of deduplicating snapshots with sweeps from arbitrarily old plans, if sweeps
  wait for open snapshots; a sweep that does not wait is harmless, then and later if later sweeps
  wait, if and only if it leaves every chunk an open snapshot relies on.
* `RoundTrips.SnapshotRestoreSnapshot`: snapshot a tree, restore it into an empty root, snapshot the
  copy: the restore succeeds and the two entry lists are equal.

## Findings

What a comment in the sources says, or a reader may expect, that holds only under a condition:
each with an input on which it fails and the exact condition.

| expectation | where it fails | when it holds |
|---|---|---|
| replay is allowed only to a run that produced no output, so starting it again is as good as starting it first (crates/marid/src/continuation.rs:101-111) | `Lives.ReplayCanOverwrite`: a committed segment that neither the record nor the control plane has, a disk put back to before it, and the replay writes ordinal 0 again | `Lives.ReplayIsSafeIff`: exactly when the store holds no segment of the run |
| a resumed run continues above everything durable (crates/marid/src/continuation.rs:136-148) | `Lives.ResumeCanOverwrite`: the same disk, with no signal fired | `Lives.ResumeIsSafeIff`: exactly when every stored segment is below what is on the disk or counted in the record |
| the journal signal cannot fire on a healthy restart (crates/marid/src/continuation.rs:27-32) | `Durability.HealthyRestartCanLookLikeRollback`: a byte reached the control plane but no segment | `Durability.ResumeNeverAlarmsIff`: per life, exactly when the control plane held no more than the disk |
| a disk that went backwards behind the record is noticed (crates/marid/src/continuation.rs:17-22) | `Durability.TornRetryHidesRollback`: a whole file that a failed retry tore later makes up for the recorded segment that is lost | `Durability.RollbackSeenIff`: with bases from the disk and no file in the making, exactly when a recorded segment is lost |
| a revert preserves exactly what a snapshot omits (crates/marid/src/supervisor.rs:94-97) | `Exclusions.ShippedListLoses`: below a directory `/x.pem`, with the list as shipped and no change in between | `Reverts.SparesTheSkippedIffClosed`; `Exclusions.ShippedGapsIff` says exactly which paths are affected |
| a sweep is safe once the live set is read again (crates/mari-core/src/gc.rs:31-37 says that it is not enough) | `GcRuns.OpenSnapshotLosesAChunk`: a chunk that an open snapshot found there and the sweep takes | `GcRuns.SweepIsSafeIff`: with later sweeps waiting, exactly when no open snapshot relies on a chunk that goes; `GcRuns.LosingSweepIsUnsafe` is the input by that condition |
| the two diffs, both sorted by path, list the same paths in the same order (packages/control-plane/src/diff.ts:86-88) | `Diffs.OrdersCanDiffer`: a path with U+FF5E and one with U+1F600 | `Diffs.OrdersAgreeIff`: exactly when no two paths of one list first differ in a supplementary character against one above the surrogates |
| a restore that succeeds brings every file back (crates/mari-core/src/restore.rs:1-6) | `Restores.NestedFileIsReplaced`: the valid entries `/a` and `/a/b`, both files, in an empty root | `Restores.ShownIffAgreeing`: exactly when no two entries contradict each other |
| a manifest that is published in a namespace can be followed to its base there | `Publishing.BootstrapLeavesTheParent`: the parent stays in the namespace it came from | `Publishing.NewClosureIff`: exactly when there is no parent or its closure is there already |
| reverting to a snapshot of an unchanged tree changes nothing | `Reverts.UnchangedCanLose`: a device, and a file that has a second name outside the root; `Exclusions.ShippedListLoses` for gaps of the exclusion list | `Reverts.UnchangedIsIdentityIff`: exactly when there are none of those |

## Model

| member | source | states |
|---|---|---|
| `Paths.ComponentsAreValid` | crates/mari-core/src/rootfs.rs:200-218 | whatever text is parsed, every component is a name a directory entry can carry: not empty, not `.` or `..`, no separator |
| `Paths.ComponentsExact` | crates/mari-core/src/rootfs.rs:200-218 | any text is, in one way only, pieces glued by separators; it is refused exactly when a piece is `..`, and otherwise its components are the significant pieces in order |
| `Paths.SignificantOfBoth` | crates/mari-core/src/rootfs.rs:200-218 | whether a piece is significant does not depend on the others |
| `Paths.ComponentsOfJoin` | crates/mari-core/src/rootfs.rs:200-218 | splitting a composed path gives its components back, also for the root |
| `Paths.TextPrefixIsAncestor` | crates/mari-core/src/snapshot.rs:222-231 | the text test "starts with the directory and a separator" holds exactly of the paths strictly below it |
| `Disk.SoleName` | crates/mari-core/src/rootfs.rs:828-837 | an inode with at most one name is shown by one path only and has no name outside the root, which is what vetting a write relies on |
| `RootDirs.RootDir.Descend` | crates/mari-core/src/rootfs.rs:393-406 | the stack ends at the requested directories; with `create` all of them exist afterwards and nothing else looks different; without, nothing changes; every cached descriptor is what a fresh walk reaches, also after a failure |
| `RootDirs.RootDir.OpenDirComponent` | crates/mari-core/src/rootfs.rs:410-455 | with `create` it always succeeds within its eight attempts, replacing a node of another kind; without, it succeeds exactly on a directory and says what is in the way |
| `RootDirs.RootDir.RemoveAt` | crates/mari-core/src/rootfs.rs:471-483 | removes one name from the tip: exactly that path disappears, and a directory only when it is empty; on an absent name, or a flag that does not fit what stands there, the error is the kernel's and nothing changes |
| `RootDirs.RootDir.CreateDir` | crates/mari-core/src/rootfs.rs:490-497 | every directory on the way exists, whatever stood there, and nothing else looks different |
| `RootDirs.RootDir.ReuseOrRemove` | crates/mari-core/src/rootfs.rs:828-837 | an existing file is emptied in place, with its inode and mode, exactly when it has no other name; a hard link is removed from this path only |
| `RootDirs.RootDir.CreateFile` | crates/mari-core/src/rootfs.rs:509-579 | succeeds exactly when no directory with something in it stands at the path; the path then shows an empty file on a singly-named inode, the old one with its mode if that had no other name, else with the permission bits asked for; no other path changes, except that the directories above exist, also when it fails, and no inode named from outside changes |
| `RootDirs.RootDir.CreateSymlink` | crates/mari-core/src/rootfs.rs:583-601 | the same for a link and its text |
| `RootDirs.RootDir.ChmodDir` | crates/mari-core/src/rootfs.rs:606-610 | a directory gets the permission bits and nothing else changes; anything else at the path is an error that changes nothing and says whether the path leads nowhere or not to a directory |
| `RootDirs.RootDir.OpenFile` | crates/mari-core/src/rootfs.rs:625-645 | succeeds exactly on a regular file and gives its inode, link count and mode; each error is the one for what stands there (a socket is an I/O error, any other node is not a regular file), or for what stops the way there |
| `RootDirs.RootDir.StatFile` | crates/mari-core/src/rootfs.rs:654-672 | gives the facts exactly when the path names a regular file now |
| `RootDirs.RootDir.ReadLink` | crates/mari-core/src/rootfs.rs:705-711 | gives the text of the link at the path; anything else is told apart by its error |
| `RootDirs.RootDir.RemovePath` | crates/mari-core/src/rootfs.rs:727-751 | removes exactly the named node, never through a link; true, false (nothing there, or a parent missing) and each error are what stood there before calls for |
| `RootWalks.WholeTree` | crates/mari-core/src/rootfs.rs:753-783 | the recursive listing names each path below the root once, in post-order with siblings ascending |
| `RootWalks.RootWalk.ReadChildren` | crates/mari-core/src/rootfs.rs:1062-1080 | the names of a directory, each once with its kind, greatest first |
| `RootWalks.RootWalk.Next` | crates/mari-core/src/rootfs.rs:937-1055 | yields the head of what remains of the recursive listing and leaves its tail; nothing exactly when nothing remains; terminates |
| `RootWalks.DeletingHandedOut` | crates/mari-core/src/rootfs.rs:774-783 | removing an entry already handed out leaves what remains of the walk as it was |
| `ChunkStores.Fetch` | crates/mari-core/src/store.rs:193-213 | bytes are handed out only when they hash to the id asked for |
| `ChunkStores.AddressesAreHex` | crates/mari-core/src/store.rs:83-99 | the texts taken for addresses are exactly what 32 bytes spell in lower-case hex |
| `ChunkStores.LoadsExactly` | crates/mari-core/src/store.rs:83-99 | a manifest is found exactly under hex text of 32 bytes that the store has; other text is malformed, other hex text not found |
| `ChunkStores.ChunkStore.PutChunk` | crates/mari-core/src/store.rs:181-187 | the bytes are stored under their own address, which keeps every body what its key says |
| `ChunkStores.ChunkStore.DeleteChunk` | crates/mari-core/src/store.rs:216-220 | removes one chunk; malformed text is refused and changes nothing |
| `Restores.CheckDeclaredSize` | crates/mari-core/src/restore.rs:199-205 | accepts exactly the true sum of the chunk lengths: a sum that wraps around 64 bits never agrees |
| `Restores.Reassemble` | crates/mari-core/src/restore.rs:222-259 | the verified bytes of the chunks in order, or the first error |
| `Restores.WriteFile` | crates/mari-core/src/restore.rs:222-259 | succeeds exactly when the bytes can be had and nothing blocks the path, which then shows those bytes and the permission bits; a failure leaves at most the directories above it |
| `Restores.RestoreOrderIsFair` | crates/mari-core/src/restore.rs:131-160 | every file is written once: first those whose path is on the priority list, in the order of first mention, the last entry standing for a repeated path; then all others in the order of the manifest |
| `Restores.MakeDirs` | crates/mari-core/src/restore.rs:122-129 | pass 1 always succeeds and makes the directories, without disturbing what stands where a leaf belongs |
| `Restores.WriteFiles` | crates/mari-core/src/restore.rs:131-160 | pass 2 succeeds exactly when every file entry can be read and placed |
| `Restores.MakeLinks` | crates/mari-core/src/restore.rs:162-173 | pass 3 succeeds exactly when every link has a target and can be placed |
| `Restores.SetModes` | crates/mari-core/src/restore.rs:175-186 | pass 4 gives every directory entry its bits and changes nothing else |
| `Restores.DeepestFirstIsStable` | crates/mari-core/src/restore.rs:175-186 | pass 4 takes the directory entries greatest path first, and those with the same path in the order of the manifest, each once |
| `Restores.Restore` | crates/mari-core/src/restore.rs:90-189 | an invalid manifest changes nothing and the first invalid entry gives the error; on any valid one the four passes take their turns in order: it succeeds exactly when every turn can be taken, and else leaves exactly what the turns before the first that cannot leave, with that turn's reason as the error; what it counts and the order it reports are exact; on a tree-shaped one that is exactly when everything is readable and no occupied directory stands where a leaf belongs, and then every entry is realised and nothing else looks different save the directories above; nothing with a name outside the root ever changes |
| `Restores.ShownIffAgreeing` | crates/mari-core/src/restore.rs:90-189 | after a restore that succeeds every entry is as the manifest says exactly when no two entries contradict each other: equal paths that want different things, or something below a file or a link |
| `Restores.NestedFileIsReplaced` | crates/mari-core/src/restore.rs:131-160 | two valid files, one below the other, restored into an empty root: it succeeds and the first is a directory |
| `Prunes.TurnDecides` | crates/marid/src/supervisor.rs:1116-1152 | when the walk reaches a node not kept on its own account, it survives exactly when it still holds something |
| `Prunes.PruneToManifest` | crates/marid/src/supervisor.rs:1080-1155 | what is left is exactly the nodes that are excluded or in the manifest with the same kind, and the directories above them, unchanged; the count is the number of nodes gone; no removal is refused |
| `Prunes.SurvivesIff` | crates/marid/src/supervisor.rs:1086-1134 | a path survives exactly when a node at it or below it is excluded or is of the kind that the manifest's last entry for its path has |
| `Snapshots.PrefixTest` | crates/mari-core/src/snapshot.rs:221-231 | testing against the collected prefixes asks exactly whether a directory above is excluded |
| `Snapshots.WalkPass` | crates/mari-core/src/snapshot.rs:217-289 | drafts exactly the directories, links and files that are not excluded and not below an excluded directory, remembers every name of a multiply-linked inode, and lists the topmost excluded paths |
| `Snapshots.CountingDecides` | crates/mari-core/src/snapshot.rs:400-417 | finding as many recorded paths of an inode as it has names means that every name it has is recorded, and conversely |
| `Snapshots.LinksAreAccountedFor` | crates/mari-core/src/snapshot.rs:418-443 | true exactly when every name of the inode, anywhere in the file system, is a path being recorded |
| `Snapshots.ChunkFile` | crates/mari-core/src/snapshot.rs:335-347 | the references to the pieces in order; each distinct piece remembered once under its address |
| `Snapshots.RefsHoldTheData` | crates/mari-core/src/snapshot.rs:335-352 | however the bytes were cut, reading the references back gives the bytes, and their lengths add up |
| `Snapshots.ReadPass` | crates/mari-core/src/snapshot.rs:291-357 | a file's bytes are read exactly when all names of its inode are recorded; the others are dropped and reported |
| `Snapshots.UploadMissing` | crates/mari-core/src/snapshot.rs:366-377 | afterwards the store holds what it held, untouched, and the snapshot's chunks, written now under their addresses, and nothing else |
| `Snapshots.Snapshot` | crates/mari-core/src/snapshot.rs:186-398 | the manifest has the parent and the time given and, in path order, exactly the entries of what is recorded; the store gains exactly its missing chunks; what it left out are exactly the files with a name it was not recording, and the excluded list is the topmost excluded paths, both in the order of the walk; every count is the size of what it counts; the tree is not changed |
| `Snapshots.CapturedRecounts` | crates/mari-core/src/snapshot.rs:238-288 | field by field what an entry says of its path: the kind, 8, 4 or 10 above the permission bits of its mode and below them the bits the path shows, the size, the link's text |
| `Reverts.RevertToManifest` | crates/marid/src/supervisor.rs:1005-1029 | a missing manifest changes nothing; otherwise the prune and then the restore, with the restore's verdict and its reason |
| `Reverts.CapturedIsTree` | crates/mari-core/src/snapshot.rs:217-364 | what a snapshot records is tree-shaped: one entry per path, descendants only below directories |
| `Reverts.RevertTheorem` | crates/marid/src/supervisor.rs:984-1029 | a revert to a snapshot of an earlier tree succeeds exactly when no excluded node stands below a path recorded as a file or a link, and then the tree is the recorded one plus the excluded nodes of now; even when it fails, all that was not recorded is as it should be |
| `Reverts.SnapshotRunRevert` | crates/marid/src/supervisor.rs:984-1029 | the operations themselves, one after the other: snapshot, any change to the tree, additions to the store by others, revert; with the same condition and the same outcome |
| `Reverts.UnchangedCanLose` | crates/marid/src/supervisor.rs:984-1029 | an unchanged tree with nothing excluded of which the revert removes a device and a file with a second name outside |
| `Reverts.ExcludedUntouched` | crates/marid/src/supervisor.rs:1126-1131 | a node excluded by its own path is left as it was |
| `Reverts.ExtrasHoldExcluded` | crates/marid/src/supervisor.rs:1140-1146 | any other extra node is a directory that still holds an excluded one |
| `Reverts.UnclosedLoses` | crates/mari-core/src/snapshot.rs:222-231 | for every path below an excluded directory that is not excluded itself, a tree that the revert damages although nothing changed |
| `Reverts.SparesTheSkippedIffClosed` | crates/marid/src/supervisor.rs:1126-1131 | the revert spares everything the snapshot skips, on all trees, exactly when the exclusion list is closed under going down |
| `Reverts.UnchangedIsIdentityIff` | crates/marid/src/supervisor.rs:984-1029 | reverting an unchanged tree always succeeds and removes exactly the nodes that were not recorded and hold nothing excluded; it is the identity exactly when there are none |
| `Exclusions.StarGoesOn` | crates/mari-core/src/snapshot.rs:90-92 | what a pattern ending in a star matches, it matches with anything after: a star spans separators |
| `Exclusions.SubtreeMatches` | crates/mari-core/src/snapshot.rs:94-106 | a pattern with a separator and a star appended matches everything below what the pattern matches |
| `Exclusions.PartneredIsClosed` | crates/mari-core/src/snapshot.rs:93-114 | a list that spares the root and in which every pattern ends in a star or has its subtree pattern beside it is closed under going down |
| `Exclusions.ShippedGapsIff` | crates/marid/src/supervisor.rs:98-103 | with the list as shipped the snapshot skips and the revert does not spare exactly the paths that match nothing themselves and lie below one matching a pattern without a partner |
| `Exclusions.ShippedListLoses` | crates/mari-core/src/snapshot.rs:108-109 | the shipped list is not closed: a tree with a directory inside a directory named like a key file, which a snapshot and an immediate revert damage |
| `RoundTrips.WalkExists` | crates/mari-core/src/snapshot.rs:217 | every tree has a directory walk of the kind the snapshot iterates: the contents-first listing read backwards |
| `RoundTrips.RestoreGivesTheTreeBack` | crates/mari-core/src/restore.rs:90-189 | restoring a snapshot of one root into another that is empty always succeeds and gives the recorded paths, the root itself if it is recorded, and nothing else, for every tiling |
| `RoundTrips.CapturedAgain` | crates/mari-core/src/snapshot.rs:186-398 | capturing what such a restore leaves gives the same entry list |
| `RoundTrips.SnapshotRestoreSnapshot` | crates/mari-core/src/restore.rs:90-189 | the operations themselves, one after the other: snapshot, restore into an empty root, snapshot; the restore succeeds and the entry lists are equal |
| `Journals.Journal.Resumed` | crates/marid/src/journal.rs:85-111 | starts at the given offset and ordinal, empty; a segment size of zero counts as one |
| `Journals.Journal.Append` | crates/marid/src/journal.rs:126-132 | the bytes take the next offsets |
| `Journals.Journal.ReadFrom` | crates/marid/src/journal.rs:150-162 | the journal's bytes from an offset, as many as fit; nothing below the base or past the end, and short only at the end |
| `Journals.CutIsExact` | crates/marid/src/journal.rs:196-214 | the ready segments are the front of the tail, each of full size save a last one of a finished journal; less than one segment stays behind, and nothing once finished |
| `Journals.Journal.FlushReadySegments` | crates/marid/src/journal.rs:190-243 | the ready segments go to disk and store under consecutive ordinals and are committed; a failed write or upload commits exactly the segments before it |
| `Lives.LocalJournalState` | crates/marid/src/state.rs:363-393 | the first ordinal without a file, and the bytes below it |
| `Lives.StepOk` | crates/marid/src/journal.rs:190-243 | every step of append, finish, flush, failure, record, crash, resume and replay keeps the segment chain, if a life starts above all that is stored |
| `Lives.SegmentChain` | crates/marid/src/continuation.rs:136-148 | in every state of every such run, rollbacks of the disk included, each life's stored segments are exactly its bytes from its base to what it committed, and the lives follow each other in the ordinals |
| `Lives.RecordIsGreatest` | crates/marid/src/state.rs:266-287 | on any run each number of the record is the greatest ever recorded, in whatever order the records came |
| `Lives.UploadsAreFresh` | crates/marid/src/journal.rs:74-84 | on such a run a segment is only ever written at an ordinal no earlier life stored, and what earlier lives stored is unchanged |
| `Lives.ReadyIsCut` | crates/marid/src/journal.rs:196-214 | the step that reserves a segment is possible exactly when the flush has one to cut, and takes the first of those |
| `Lives.FlushIsSteps` | crates/marid/src/journal.rs:190-243 | a flush of the journal, with any fault, is a run of those steps |
| `Lives.StartIsSafeIff` | crates/marid/src/journal.rs:74-84 | whatever a life goes on to do, nothing stored before it is overwritten, exactly when it starts above every stored ordinal |
| `Lives.ResumeIsSafeIff` | crates/marid/src/continuation.rs:136-148 | a resumed life never overwrites exactly when every stored segment is below what the disk holds or counted in the record |
| `Lives.ReplayIsSafeIff` | crates/marid/src/continuation.rs:197-204 | a replayed life never overwrites exactly when the store holds no segment of the run |
| `Lives.ReplayGuardIff` | crates/marid/src/continuation.rs:109-111 | the guard lets a replay through exactly where a resume would begin at offset 0: no byte in the record, at the control plane or on the disk |
| `Lives.ReplayCanOverwrite` | crates/marid/src/continuation.rs:231-243 | a run on which the guard allows a replay after a rollback and the replay overwrites a committed segment |
| `Lives.ResumeCanOverwrite` | crates/marid/src/continuation.rs:197-206 | the same run with a resume in place of the replay: no signal fires and the segment is overwritten |
| `Durability.StepSound` | crates/marid/src/journal.rs:190-243 | on a disk that is kept, every step keeps the chain, the files numbered from 0 without gaps, and every committed segment on the disk with the bytes that are stored |
| `Durability.KeptDiskStartsFresh` | crates/marid/src/continuation.rs:136-148 | on a disk that is kept every life starts above all that is stored, so the chain holds |
| `Durability.DurabilityOrder` | crates/marid/src/run.rs:681-699 | with every base taken from the disk: recorded length, then uploaded length, then bytes on disk, in every reachable state |
| `Durability.HealthyRestartIsNoRollback` | crates/marid/src/continuation.rs:290-296 | on such a run the journal signal never fires on the disk as it is |
| `Durability.RollbackSeenExactly` | crates/marid/src/continuation.rs:290-296 | when the disk goes back to any earlier state, the signal fires exactly when the record is more than what was settled then and is still there now, together with the file then unsettled |
| `Durability.RollbackSeenIff` | crates/marid/src/continuation.rs:17-22 | with every base taken from the disk, a rollback to a state with no file in the making is seen exactly when it loses a segment of which the record counts bytes; one that loses only unrecorded segments never is |
| `Durability.TornRetryHidesRollback` | crates/marid/src/journal.rs:216-243 | a rollback to a state with a file in the making that loses a recorded segment and is not seen |
| `Durability.ResumeNeverAlarmsIff` | crates/marid/src/continuation.rs:136-148 | whatever a resumed life goes on to do, a restart on its disk never looks like a rollback, exactly when the control plane held no more than the disk when it resumed |
| `Durability.SignalIffBaseAboveDisk` | crates/marid/src/continuation.rs:136-148 | once a life has recorded what it uploaded, a restart on the same disk looks like a rollback exactly when the life's base was above what the disk held |
| `Durability.HealthyRestartCanLookLikeRollback` | crates/marid/src/continuation.rs:27-32 | a run with no rollback on which the journal signal fires |
| `Durability.ReplayRepeatsNothing` | crates/marid/src/continuation.rs:109-111 | on a disk that lost nothing the guard allows a replay only to a run none of whose lives committed a segment |
| `Streams.RunReassembly.Ingest` | crates/marid/src/testkit.rs:53-76 | accepts exactly the frames without a gap that agree with what is held; the result contains the frame at its offset; a refusal changes nothing |
| `Streams.RunReassembly.Receive` | crates/marid/src/testkit.rs:342-374 | acknowledges what is held up to the cap, never less than before, and answers only when that rose |
| `Streams.FramesCarryTheRest` | crates/marid/src/supervisor.rs:672-688 | the frames of one journal are contiguous, bounded, not empty, and carry exactly the bytes to the end |
| `Streams.Streamer.HelloAck` | crates/marid/src/supervisor.rs:566-575 | both maps are overlaid with the acknowledged offsets |
| `Streams.OverlayNamed` | crates/marid/src/supervisor.rs:566-575 | a run that the offsets name has the last of them |
| `Streams.OverlayUnnamed` | crates/marid/src/supervisor.rs:566-575 | a run that they do not name is as it was |
| `Streams.Streamer.StreamOne` | crates/marid/src/supervisor.rs:671-690 | streams one journal from an offset to its end; a failing socket cuts the frames short and nothing else |
| `Streams.Streamer.FlushJournals` | crates/marid/src/supervisor.rs:654-693 | a run's frames carry its journal from its mark, without one from what was last acknowledged, without either from the base, never from below the base, to the end; its mark is then at the end; a failing socket cuts the frames short, and marks of runs it did not come to are as they were |
| `Streams.StreamSafe` | crates/marid/src/supervisor.rs:654-693 | with base equal to what the receiver held: no gap, no conflict, a prefix of the journal at all times, nothing acknowledged beyond it |
| `Streams.DeliveredFlushIsWhole` | crates/marid/src/journal.rs:12-15 | once a completed flush is delivered the receiver holds the whole journal |
| `Streams.WrongBaseFails` | crates/marid/src/journal.rs:78-84 | for any other base, a run of five moves that ends in a gap or a conflict |
| `Streams.SafeIffBaseIsHeld` | crates/marid/src/continuation.rs:136-148 | the stream never fails, over all runs, exactly when the base is what the receiver held |
| `Streams.FlushIsSends` | crates/marid/src/supervisor.rs:671-690 | on any connection, with a mark or without, the frames of a flush are what as many single sends of the state machine put on the wire, and a flush of nothing is one send that sets the mark |
| `Streams.StartIsMark` | crates/marid/src/supervisor.rs:659-674 | with maps that say what the state says, the flush starts where the state machine does and sends its frames |
| `Streams.FlushInStream` | crates/marid/src/supervisor.rs:654-693 | the flush operation is the state machine's flush |
| `Streams.HelloInStream` | crates/marid/src/supervisor.rs:566-575 | the HelloAck operation is the state machine's move |
| `Streams.AckInStream` | crates/marid/src/supervisor.rs:590-592 | the JournalAck operation is the state machine's move |
| `Streams.ReceiveInStream` | crates/marid/src/testkit.rs:342-374 | the receiver's handling of a frame is the state machine's delivery, refusal and ack included |
| `Gcs.CollectLiveSet` | crates/mari-core/src/gc.rs:153-171 | succeeds exactly when every manifest in the parent closure can be loaded, and then gives exactly the chunks reachable; the error is that of one that cannot; terminates on cyclic parents |
| `Gcs.PlanAt` | crates/mari-core/src/gc.rs:188-236 | the candidates are exactly the stored chunks that are not live, each once, in the order of their ids, with their age and whether it is known, protected exactly when young or of unknown age |
| `Gcs.OnePlan` | crates/mari-core/src/gc.rs:198-227 | the plan does not depend on the order in which the store lists its chunks or their ages come back |
| `Gcs.Execute` | crates/mari-core/src/gc.rs:257-317 | an incomplete closure deletes nothing; otherwise exactly the unprotected candidates that are not live now go, the audit has one verdict per candidate and the list of the deleted is its deletions in order, a dry run changes nothing, and a failure part-way is at the first condemned candidate with a malformed id, and has deleted exactly the condemned ones before it |
| `Gcs.DeltaChunks` | crates/mari-core/src/snapshot.rs:462-480 | succeeds exactly when the parent chain ends, and then gives the manifest's chunks that no ancestor has; the error is a cycle or the one of the parent that cannot be loaded |
| `Gcs.DeltasAddUpToTheLiveSet` | crates/mari-core/src/snapshot.rs:457-480 | along a chain that ends the deltas are pairwise disjoint, their union is the tip's live set and their sizes add up to its size |
| `GcRuns.StepSafe` | crates/mari-core/src/gc.rs:31-37 | every step of a snapshot, a retention change or a quiesced sweep keeps everything retained loadable and present |
| `GcRuns.GcSafe` | crates/mari-core/src/gc.rs:241-317 | so does every run, from plans of any age |
| `GcRuns.RetainedIsWhole` | crates/mari-core/src/gc.rs:1-37 | every head is retained, and every chunk reachable from a retained manifest or its parents is in the store |
| `GcRuns.SweepIsSafeIff` | crates/mari-core/src/gc.rs:19-37 | from any safe state, a sweep beside open snapshots leads to no loss, whatever happens afterwards if later sweeps wait, exactly when it leaves every chunk that an open snapshot needs and is not going to upload itself |
| `GcRuns.OpenSnapshotLosesAChunk` | crates/mari-core/src/gc.rs:31-37 | without the wait for open snapshots, a run that ends with a retained head naming a missing chunk |
| `GcRuns.LosingSweepIsUnsafe` | crates/mari-core/src/gc.rs:31-37 | the sweep of that run, judged by the exact condition: the open snapshot relies on the chunk it takes |
| `GcRuns.TwoSnapshotsAreARun` | crates/mari-core/src/gc.rs:19-37 | a run of two snapshots with different ids, the second on top of the first and sharing a chunk, and a sweep whose plan holds that chunk dead and spares it |
| `GcRuns.SnapshotIsSteps` | crates/mari-core/src/snapshot.rs:366-387 | what a snapshot does to the store is a run of one session: begin, probe, upload what is missing, publish |
| `GcRuns.SnapshotInFleet` | crates/mari-core/src/snapshot.rs:186-398 | the snapshot operation, applied to a fleet's store, is such a run |
| `GcRuns.ExecuteInFleet` | crates/mari-core/src/gc.rs:257-317 | the sweep operation, applied to a fleet's store, is one sweep step, however it ends |
| `Publishing.Storage.EnsureManifestNamespace` | packages/control-plane/src/manifest-store.ts:314-351 | succeeds exactly at the global root, where the manifest is already, or where the parent namespace has it and every chunk is in one of the two, and each error has its condition; on success the manifest and all its chunks are in the namespace, copied from its parent; a failure publishes nothing; nothing is taken away and no other namespace is touched; and it is a run of one writer of the state machine beside any others; the manifest can then be followed there to the end of its parents exactly when it has none or they already could |
| `Publishing.NewClosureIff` | packages/control-plane/src/manifest-store.ts:348-351 | a manifest published on its own can be followed to the end of its parents exactly when it has none or they can be followed there already |
| `Publishing.BootstrapLeavesTheParent` | packages/control-plane/src/manifest-store.ts:314-351 | a manifest with a parent, bootstrapped into an empty namespace, cannot be followed there although it can where it came from |
| `Publishing.PublishedIsWhole` | packages/control-plane/src/manifest-store.ts:348-351 | in every interleaving of snapshots and bootstraps, each abandoned anywhere, a manifest that is present has all its chunks present |
| `Diffs.Diff` | crates/mari-core/src/diff.rs:67-108 | added, removed and modified are exactly the entries only in one list, only in the other, and in both but different, in path order |
| `Diffs.SameChunks` | packages/control-plane/src/diff.ts:63-71 | true exactly for equal chunk lists |
| `Diffs.DiffManifests` | packages/control-plane/src/diff.ts:89-134 | the same by path, in the order of UTF-16 units, whatever order the maps are walked in and whatever order the manifests had |
| `Diffs.ItemsTell` | packages/control-plane/src/diff.ts:52-60 | field by field, what an added, removed or modified item says of its entries, old and new, with the change in size and each flag; each list ascends by path in the order of UTF-16 units |
| `Diffs.ApplyGivesTheOther` | crates/mari-core/src/diff.rs:67-108 | applying the diff to the first manifest gives the second and nothing else |
| `Diffs.SwapMirrors` | crates/mari-core/src/diff.rs:67-108 | swapping the manifests swaps added and removed, before and after |
| `Diffs.EmptyIffEqual` | crates/mari-core/src/diff.rs:49-52 | the diff is empty exactly when the entry lists are equal |
| `Diffs.DiffsAgree` | packages/control-plane/src/diff.ts:89-134 | on sorted manifests the two diffs report the same paths, equally many, with the same facts, and their flags say the same |
| `Utf16.JsLessMeans` | packages/control-plane/src/diff.ts:125-126 | JavaScript's order of two texts is the order of code points, turned around exactly when they first differ in a supplementary character against one above the surrogates |
| `Diffs.OrdersAgreeIff` | packages/control-plane/src/diff.ts:86-88 | the two diffs list their paths in the same order exactly when no two paths of one list are turned around so |
| `Diffs.OrdersCanDiffer` | packages/control-plane/src/diff.ts:125-126 | two added paths that the two diffs list in different orders |
| `Frames.DecodeEncoded` | crates/mari-proto/src/frame.rs:54-88 | a body is framed exactly when it is within the limit (`FrameTooLarge` otherwise), and decoding gives it back whatever follows |
| `Frames.DecodeVerdicts` | crates/mari-proto/src/frame.rs:72-88 | what any bytes decode to: too short for a prefix, a length over the limit, a body cut short, or the body |
| `Frames.FrameReader.NextBody` | crates/mari-proto/src/frame.rs:122-140 | takes exactly one whole frame off the front, or leaves the buffer alone and says why |
| `Frames.FrameReader.Drain` | crates/mari-proto/src/frame.rs:95-140 | all whole frames in order; the buffer keeps exactly what is not consumed |
| `Frames.ParseMore` | crates/mari-proto/src/frame.rs:95-140 | what arrives later never changes what was already parsed |
| `Frames.ReadAll` | crates/mari-proto/src/frame.rs:95-140 | pushing a stream in any pieces and draining after each gives what parsing it whole gives, also for a malformed stream |
| `Frames.ParseEncoded` | crates/mari-proto/src/frame.rs:54-70 | any list of bodies within the limit comes back as it was sent |
| `Frames.CutsDoNotMatter` | crates/mari-proto/src/frame.rs:95-140 | after any number of pieces the bodies so far are a prefix of those sent, and in the end all of them |
| `ZstdFrames.EncodeChunkBody` | packages/control-plane/src/manifest-store.ts:240-270 | stays inside its buffer and emits 9 bytes, 3 per block, and the input |
| `ZstdFrames.RoundTripIffSizeFits` | packages/control-plane/src/manifest-store.ts:223-270 | a decoder written from section 3.1.1 of RFC 8878 gives the input back exactly when its length fits 32 bits |
| `Readers.FindsUnique` | packages/control-plane/src/manifest-store.ts:396-399 | an entry no other shares its normalised path with is the one found |
| `Readers.FindsFirst` | packages/control-plane/src/manifest-store.ts:396-399 | the entry found is the first whose normalised path is that of the path asked for, and none is found exactly when there is none |
| `Readers.InlineIsRestored` | packages/control-plane/src/manifest-store.ts:480-513 | reading the references one by one into a room of the recorded size succeeds exactly when the restore's reassembly does, with the same bytes |
| `Readers.GetChunk` | packages/control-plane/src/manifest-store.ts:208-218 | succeeds exactly when the store holds the bytes of that address with the expected length, and gives them; each failure says which of that is not so |
| `Readers.ReadFile` | packages/control-plane/src/manifest-store.ts:470-514 | not found exactly when no entry's normalised path is that asked for; otherwise the first such entry, read reference by reference, with the first thing wrong as the error: the cache and the buffer do not show; for a file within the limit it succeeds exactly when the restore's reassembly does |

## Left out

- Interference: no other process changes the tree during an operation, so the branches that only
  a race can reach (a name that changes between two calls, a walk that cannot read a directory,
  a file gone before it is read, the walk's queued error) do not occur; the retry loops and their
  bound are kept.
- Permissions and umask: every system call is allowed; what a mode change does to later calls is
  not modelled, so the order of pass 4 is kept but not needed.
- Path length limits (`PATH_MAX`, `manifest_components`, `manifest_components_under`), names that
  are not UTF-8, and the message texts of errors.
- Text is a sequence of characters, so the size recorded for a symlink counts characters; a Rust
  string compares by its UTF-8 bytes, which is the order of code points.
- The directory walk of a snapshot is any listing of the tree with directories before their
  contents; `RoundTrips.WalkExists` shows there is one. Sorting by file name does not matter to
  the result.
- FastCDC, zstd compression, CBOR and blake3: any tiling, an invertible codec, and an injective
  hash. The id of a manifest is a function given to `Snapshots.Snapshot`.
- Glob matching is a predicate on the path text except in `Exclusions`, which has literal characters
  and `*`; no shipped pattern uses more.
- Offsets and segment ordinals are unbounded; the source's are 64-bit.
- Heat profiles: the priority list is an input.
- `Durability.HealthyRestartIsNoRollback`: covers the journal signal; the tree signal of
  `detect_rollback` compares the disk with older heads by the diff of `Diff.dfy` and is not part
  of the state machine.
- The wake epoch that fences run records, run phases, the head history, adapters and the choice
  of a resume command; the head advance is a step of the caller.
- `Streams.StreamSafe`: follows one run; `Streams.Streamer.FlushJournals` has all runs of one
  connection.
- The control plane's durable receiver is not part of this model; the receiving side is the
  reassembly of testkit.rs.
- `Gcs.PlanAt`: looks ages up one by one, not thirty-two at a time; how an id is spelled is a function
  given to it.
- `Publishing.Storage.EnsureManifestNamespace`: copies chunk by chunk, without batches of 32; which
  namespace is another's parent is a function given to it.
- `Readers.FindsUnique`: path normalisation is a function given to it.
- `Streams.Streamer.FlushJournals`: works on the journals' contents at one moment; appends between
  two frames are steps of the state machine.
- Directory listings, the base manifest, quotas, routes, terminals, child processes, timers and
  sockets.
