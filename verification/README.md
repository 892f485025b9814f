# Verified model of STManager's backup, restore, sync and update core

STManager copies the managed trees of a SillyTavern installation (`data` and
`public/scripts/extensions/third-party`) from one device to another, restores them from archives,
and installs SillyTavernRaze packages. This project models those parts in Dafny and proves what
they promise. The theorem that ties it together is `EndToEnd.PullCopiesTrees`: when a pull
succeeds, the client's trees are the server's trees, and nothing else under the client's root has
changed.

How the system is modelled:

- A file system is a map from locations to files, directories and symbolic links, held by the
  class `FileSystem.FileSystem`. Path strings are looked up name by name, links included, as the
  kernel does it (`PathWalk`). Every call may fail at any time, a failed call changes nothing, and
  `readdir` delivers names in any order. Two constants restrict this where a statement needs it:
  `reliable` (calls fail only for a reason in the tree; "without failures" below) and `sameDevice`
  (a rename never reports EXDEV).
- An archive is a list of entries (path, kind, bytes). The writer collects them in
  `Backup.ArchiveWriter`; extraction is the fold `Extraction.Extracted` over them, and
  `Extraction.ExtractedMeaning` and `Extraction.ExtractedIff` say what that comes to.
- A connection is a queue of bytes in each direction; every `send` and `recv` moves any number of
  bytes, and any finite number of calls is interrupted.
- JSON messages and the compressed archive format are functions from values to bytes and back. Only
  theorems about both ends assume that the two are inverse (`Protocol.Lossless`,
  `Protocol.LosslessArchive`).
- A concurrent task is a state machine with one step for each lock region or atomic operation; any
  number of stoppers and waiters take their steps in any order. The class `SyncTask.Task` has the lock
  regions as methods, and each of them is proved to take one step of such a run.

## Files

| file | contents |
|---|---|
| Paths.dfy, FileTree.dfy, FileSystem.dfy | path strings, trees as values, path lookup and system calls |
| Ways.dfy, PathSafety.dfy | paths walked without links; creating directories safely |
| FsOps.dfy | copying, removing and moving trees |
| Sorting.dfy, Backup.dfy, Extraction.dfy | the entry list: writing it and rebuilding a tree from it |
| RoundTrip.dfy, ListOrder.dfy | extraction undoes writing, for one tree and for a whole backup; the order of the entries |
| GitManifest.dfy, GitConfigTexts.dfy | git extensions, and which url the text of a configuration gives |
| WriteBackup.dfy | the whole backup archive |
| RestorePlaces.dfy, RestoreState.dfy, RestoreRoots.dfy | the places of a restore, and where their paths lead |
| RestoreSteps.dfy, RestoreManifest.dfy, RestoreTransaction.dfy | the restore transaction and its rollback |
| RestoreStage.dfy, RestoreOutcome.dfy, RestoreBackup.dfy | the stage around the transaction, and the whole restore |
| RestoreResults.dfy | what a caller of a restore may conclude |
| Endian.dfy, Sha256.dfy, Sha256Meaning.dfy | FIPS 180-4, its streaming implementation, and what its functions and constants mean |
| Wire.dfy, Trust.dfy | frames over sockets; the trusted device file and the messages |
| SyncServer.dfy, SyncClient.dfy | both sides of pairing and pulling |
| EndToEnd.dfy, PairSession.dfy | whole pulls and whole pairings over a wire |
| SyncTask.dfy | the lifecycle of a background task |
| RazeUpdate.dfy | planning and carrying out a package update |
| Ordinary.dfy | restores, pulls and installations to places without links, told node by node |

## What was found

- Moving a tree to another device can lose it. If the copy succeeds and removing the source fails
  partway, `move_or_copy_path` removes the copy as well (src/fs_ops.cpp:269-274). The sources that
  can be damaged are exactly the directories without links that are not empty: every other source
  survives a failed move (`FsOps.CopyThenRemove`, `FsOps.MoveOrCopyPath`), and of each of these a
  leaf can be lost (`FsOps.CrossDeviceMoveCanLose`). The rollback theorem therefore needs
  `sameDevice`.
- Nothing is moved to a place behind a link (src/path_safety.cpp:50-64; `PathSafety.EnsuredAtOnce`,
  `FsOps.MoveOrCopyPath`), while a source may lie behind one. A restore to a root that is reached
  through a link therefore always fails, and leaves everything as it was:
  `RestoreResults.NothingInstalled`. Every other root is reached without links
  (`RestoreStage.RootIsRealOrLinked`); the next items are about those.
- With a link between the root and an existing third-party directory, the old extensions are set aside
  through the link, nothing can be put back, and then they are deleted with the stage
  (src/archive_stream.cpp:696-711, 1003-1004), even if no call fails:
  `RestoreResults.LinkedExtensionsLost`. Any `public` that links to another directory of the root with
  third-party in it is such an input: `RestoreResults.LinkedPublic`.
- A root that is spelled through one of its own targets (such as `<root>/data/..`, or through
  third-party, or through a directory in place of the manifest) is no longer found once that target is
  taken away. The restore then reports a plain error, for a manifest even success in some cases, while
  the stage is never removed, nor what it holds put back (src/archive_stream.cpp:688-711, 1003-1004):
  `RestoreResults.TargetOnTheWay`. `RestoreResults.KeptOrInstalledIff` says exactly for which roots
  the targets are either kept or installed.
- The rollback does not cover the git manifest (src/archive_stream.cpp:604-633). If no call fails that
  does no harm (second clause of `RestoreResults.SucceedsIff`); otherwise parts of it, or all of it,
  can be missing after a plain error, and nothing else (`RestoreResults.SteadyResult`).
- With a link at `.stmanager` a staged manifest is refused after the installed one has been removed
  (src/archive_stream.cpp:644-653): `RestoreResults.LinkedManifestLost`, and
  `RestoreResults.ManifestBeside` for such links. `RestoreResults.LinkedErrorIff` says exactly when
  an error leaves everything as it was behind a link.
- If the link leads into the data, and the archive holds no manifest, a successful restore deletes a file
  of the data it has just installed (src/archive_stream.cpp:655-657):
  `RestoreResults.InstalledFileLost`, and `RestoreResults.ManifestIntoData` for such links.
  `RestoreResults.LinkedManifestIff` says exactly for which links a restore of such an archive does
  what it should.
- `RestoreResults.SucceedsIff` says exactly when a restore in which no call fails succeeds.
- `locate` follows a link at third-party (src/locate.cpp:13-19), but a backup of it is always refused
  (src/archive_stream.cpp:238-248): `WriteBackup.WriteBackupArchive`.
- A trusted device file that exists but cannot be opened is taken for an empty list
  (src/trusted_device_store.cpp:30-33); the next pairing overwrites it, and the devices in it are
  lost. `TrustedDevices.RememberedIds` says exactly when they are kept, and
  `TrustedDevices.UnopenedStoreIsLost` is a case in which they are not.
- Saving the trusted devices checks the stream before it is flushed
  (src/trusted_device_store.cpp:70-73), so a truncated file can be reported as saved:
  `TrustedDevices.TrustedStore.Save` promises the list behind a reported success only if a save is
  complete or without effect (`atomic`).
- A sender frames messages of up to 2^32-1 bytes, a receiver takes at most 1 MiB:
  `Frames.StringFrameTaken` gives the exact boundary.
- The second of two concurrent waiters can return before the worker has finished, and with another
  status (src/sync.cpp:293-300): `SyncTask.SecondWaiterMayBeEarly`.
  `SyncTask.WaitReturnsResultIff` says exactly which waiters get the result of the worker.

## Model

| member | source | states |
|---|---|---|
| Paths.SplitPath | src/path_safety.cpp:24-38 | The scanning loop cuts the path at its slashes, empty parts included. |
| Paths.UnsplitSplit | src/path_safety.cpp:24-38 | Joining the parts of any string with slashes gives the string back. |
| Paths.SplitUnsplit | src/path_safety.cpp:24-38 | Splitting any joined list of slash-free parts gives the list back. |
| Paths.CompsOfJoin | src/path_safety.cpp:40-48 | The components of a joined path are those of the left side followed by those of the right side, for all strings. |
| Paths.ValidateArchiveRelativePath | src/path_safety.cpp:165-188 | The checking loop accepts exactly the valid relative paths. |
| Paths.ValidRelativeMeaning | src/path_safety.cpp:165-188 | A path is accepted if and only if it spells out a non-empty list of safe names with at most one slash behind it; those names are its components. |
| Paths.ValidRelativeChild | src/archive_stream.cpp:402-405 | Appending a safe name to an accepted path gives an accepted path one component longer. |
| Paths.SameNodeSamePath | src/path_safety.cpp:190-199 | Two accepted paths reach the same node below a root only if they differ at most by one trailing slash. |
| PathSafety.EnsureDirectoryTree | src/path_safety.cpp:78-119 | For every path, dots included: nothing is added but directories, and nothing at all unless the first thing that is no directory is missing; for a path whose dots lie where everything exists, only the directories on the way; success means a way of directories without links; without failing calls it succeeds exactly when no link and no file is on the way. |
| PathSafety.EnsuredAtOnce | src/path_safety.cpp:50-64 | However the calls go, a link or a file on the way is refused with nothing changed, and a way that is there succeeds with nothing changed. |
| PathSafety.EnsureArchiveEntryDirectory | src/path_safety.cpp:121-161 | The same for the directories of an archive path below any root, wherever links lie below it. |
| PathSafety.EnsureDirectoryTreeFollowing | src/path_safety.cpp:66-119 | With links to directories allowed: nothing but directories is added, only where the path leads, and success means the string names that directory; a directory that is there succeeds unchanged; without failing calls it succeeds when what does not lead to a directory yet is free. |
| PathSafety.EnsureParentDirectories | src/path_safety.cpp:205-217 | The same as ensure_directory_tree for the part in front of the last slash, whatever the path. |
| FsOps.WriteBuffer | src/fs_ops.cpp:75-86 | A loop of short writes appends the whole buffer and touches no other node. |
| FsOps.CopyRegularFile | src/fs_ops.cpp:42-92 | For every destination, existing ones included: the file it names in the end gets the content of the source, or none if it is the source; a free destination is all that is new but directories above it; a link on the way is refused unchanged. |
| FsOps.CopyPathRecursiveImpl | src/fs_ops.cpp:94-144 | For every order in which directories are read, and a source behind links or dots: a successful copy makes the subtree at the free destination equal to the link-free source, with the source unchanged; without failures it succeeds for every link-free source. |
| FsOps.CopyChildren | src/fs_ops.cpp:122-140 | The loop over the children, in any order of the names. |
| FsOps.RemovePathRecursive | src/fs_ops.cpp:186-229 | For every path, links and dots on the way included, and every order of names: only nodes of the tree it names may go, and nothing of an empty directory or a file unless it succeeds; success means exactly this tree is gone, and happens only if the path does not lead through the tree itself; a missing path changes nothing; without failures it succeeds in just these cases, and otherwise the path names nothing any more. |
| FsOps.RemoveChildren | src/fs_ops.cpp:207-222 | The loop over the children, in any order of the names: nothing outside the directory goes, and without failures it is empty in the end if its path still names it. |
| FsOps.CopyThenRemove | src/fs_ops.cpp:264-276 | The EXDEV branch, for any way to the source: on success the subtree has moved; on failure only source and destination may differ, the source at most by what is missing, and not at all unless it is a directory without links that is not empty; link-free trees are moved if nothing fails. |
| FsOps.CrossDeviceMoveCanLose | src/fs_ops.cpp:264-275 | The converse: for every non-empty directory without links there is a chain of well-formed trees that the branch can go through, the copy, one unlink or rmdir of a leaf of the source, a failing removal and the removal of the copy, after which the leaf is in neither place. |
| FsOps.MoveOrCopyPath | src/fs_ops.cpp:239-277 | For all paths: a missing source, an existing destination, and a link or a file on the way to the destination are refused with nothing changed; otherwise success moves the whole subtree, from wherever links lead to it, on either branch; on one device failure leaves everything but new directories as it was, and across devices it keeps every source but a non-empty directory without links; without failures it succeeds if nothing is in the way. |
| Extraction.CopyEntryData | src/archive_stream.cpp:486-511 | Whatever pieces the library hands out, the file gets the data of the entry. |
| Extraction.RestoreRegularFile | src/archive_stream.cpp:467-515 | A file entry has exactly its effect on the tree below the root and none outside, wherever links lie; without failures it succeeds exactly when the entry can be placed. |
| Extraction.RestoreDirectory | src/archive_stream.cpp:517-526 | The same for a directory entry. |
| Extraction.ExtractArchive | src/archive_stream.cpp:545-602 | For every entry list and any links below the root: nothing outside the root changes, below it nothing is removed, and success means the tree is the fold of the entries, of which `Extraction.ExtractedMeaning` gives every node; without failures it succeeds exactly when the fold is defined (`Extraction.ExtractedIff`). |
| Extraction.ExtractedIff | src/archive_stream.cpp:467-602 | Extraction succeeds if and only if every entry has an accepted path and kind and suits the tree it starts from, and no file entry stands where another entry needs a directory. |
| Extraction.ExtractedMeaning | src/archive_stream.cpp:467-602 | Afterwards every file holds the bytes of the last entry for its place, every directory entry is a directory, and every other node is as before, but for new directories on the way to an entry. |
| Sorting.AscendingUnique | src/archive_stream.cpp:381-398 | A set of names has one ascending list, so the order in which they were read has no effect. |
| Sorting.LessMeaning | src/archive_stream.cpp:398 | One name sorts before another exactly if it is a proper beginning of it or has the smaller character where they first differ. |
| Sorting.Sort | src/archive_stream.cpp:398 | The result is ascending and has the same names. |
| Backup.WriteRegularFileData | src/archive_stream.cpp:313-352 | Chunked reads and short writes append the whole content of the file to its entry. |
| Backup.ListSorted | src/archive_stream.cpp:381-398 | The names archived are all children but the skipped ones, ascending, whatever order they were read in. |
| Backup.WriteDirectoryRecursive | src/archive_stream.cpp:357-412 | Success appends the sorted preorder list of the directory without the skipped children, and only if those trees hold no links; without failures that is also sufficient. |
| Backup.WriteBuffer | src/archive_stream.cpp:261-274 | A loop of short writes adds the whole buffer to the last entry. |
| PathWalk.ChildFound | src/archive_stream.cpp:402-405 | The joined path of a child leads to the child, however its directory was reached. |
| Backup.WriteFileOrDirectory | src/archive_stream.cpp:414-441 | The same for any path, links and dots on its way included; a link itself is refused. |
| ListOrder.NodeInOrder | src/archive_stream.cpp:355-420 | A directory is listed before what is in it, and what is in a smaller name before what is in a larger one, at every depth. |
| ListOrder.ExtensionsInOrder | src/archive_stream.cpp:355-420 | The same for the extensions without the skipped ones. |
| RoundTrip.NodeExtracts | src/archive_stream.cpp:414-441 | Extracting what the writer lists for a link-free node, at any free place of any tree, grafts exactly the node's subtree there. |
| RoundTrip.DirectoryExtracts | src/archive_stream.cpp:357-412 | The same for a directory of which only some children are listed. |
| RoundTrip.ExtractedPathsValid | src/archive_stream.cpp:564-570 | An archive that extracts has only valid paths and supported kinds. |
| BackupImage.BackupRoundTrip | src/archive_stream.cpp:765-867 | Extracting a whole backup into an empty stage gives the data tree, the third-party tree without the skipped children and the manifest, and nothing else; every emitted path passes the validation. |
| BackupImage.ImageInstallable | src/archive_stream.cpp:662-684 | The image of a backup of two directories has everything a restore asks for and nothing in its way. |
| GitConfig.TrimMeaning | src/git_manifest.cpp:33-45 | Trimming gives the one substring with only space before and behind it and none at its ends. |
| GitConfig.TrimCopy | src/git_manifest.cpp:33-45 | The two index loops compute it. |
| GitConfig.ParseOriginUrl | src/git_manifest.cpp:51-97 | The loop with its section flag returns the url of the first line that sets one while the last header before it is that of origin, or none if there is no such line. |
| GitConfig.OriginUrlUnique | src/git_manifest.cpp:51-97 | That description determines the result. |
| GitConfigTexts.LinesJoined | src/git_manifest.cpp:59 | The lines that are read, each with its end, are the text again, up to an end of the last line; no line holds one. |
| GitConfigTexts.UrlFound | src/git_manifest.cpp:51-97 | A tab, `url = ` and a text without spaces at its ends, in the section headed `[remote "origin"]`, give that text as the url: whatever lines without such a url stand before the section, whatever other settings stand before the url in it, and whatever follows. |
| GitConfigTexts.OtherRemote | src/git_manifest.cpp:65-72 | The same line in the section of a remote with any other name gives no url. |
| GitManifest.SortByName | src/git_manifest.cpp:138-143 | The records are the same, in ascending order of their names. |
| GitManifest.Inspect | src/git_manifest.cpp:117-127 | A child counts as a clone if it is a directory, links followed, whose .git/config names an origin. |
| GitManifest.CloneUrl | src/git_manifest.cpp:118-127 | For a directory, or a link to one, that holds `.git/config` the url is the one its text gives. |
| GitManifest.CollectGitExtensionInfo | src/git_manifest.cpp:101-146 | For any order of readdir: records in name order, one for each skipped name, each with its first origin url; without failures the skipped names are exactly the clones. |
| WriteBackup.WriteManifestFile | src/archive_stream.cpp:443-465 | Appends the manifest entry with the rendered bytes. |
| WriteBackup.WriteExtensions | src/archive_stream.cpp:826-833 | Appends the extensions without the skipped children; anything but a directory is an error, and for a link nothing is appended. |
| WriteBackup.WriteBackupArchive | src/archive_stream.cpp:765-867 | For sources on any paths: on success the archive is the list of data, extensions and, in git mode, manifest; a link at third-party is always refused; without failures it succeeds exactly when data exists, the extensions are a directory and neither holds a link that would be archived. |
| WriteBackup.GitPartition | src/archive_stream.cpp:381-409 | In git mode every extension is either archived with everything below it or listed exactly once with its origin url, never both and never neither; deeper directories of the same name are unaffected. |
| RestorePlaces.PlacesApart | src/archive_stream.cpp:533-543 | The restore targets and the stage do not overlap. |
| RestoreSteps.MovePlace | src/archive_stream.cpp:689-690 | A move between two of the places keeps everything else that the transaction relies on; to a place behind a link or a file it is refused with nothing changed; the root is lost exactly if what was moved is on the way to it, and then nothing moves any more. |
| RestoreSteps.PutBack | src/archive_stream.cpp:625-630 | A target that was set aside is back as it was, unless the move fails; behind a link it always fails; with the root lost nothing is put back, and no error reported. |
| RestoreSteps.RollbackRestoreTargets | src/archive_stream.cpp:604-633 | If no step of the rollback fails, data and extensions are as they were on entry, each also if it was absent; without failing calls no step fails unless extensions were taken away through a link, and then one always does; with the root lost it does nothing and reports success. |
| RestoreManifest.RestoreGitManifest | src/archive_stream.cpp:635-660 | Wherever the path of the manifest leads: on success the manifest is the staged one, or absent if none was staged; a staged directory is refused; on failure, on one device, nothing of the manifest is new, and without failing calls and without a link nothing has changed at all; with a link on its way a staged manifest is refused after the installed one was removed; inside an installed tree exactly what the path names is removed. |
| RestoreTransaction.SetTargetsAside | src/archive_stream.cpp:685-711 | Both targets are set aside in the stage, the extensions from wherever a link leads to them, or everything is as before, or the rollback failed; or the first of them that is on the way to the root is taken away, and with it the root. |
| RestoreTransaction.InstallStaged | src/archive_stream.cpp:713-760 | All three targets are installed, or data and extensions are back, or the rollback failed; once extensions are away through a link, the rollback fails however the calls go; if the root is lost with the manifest, both installed trees stay; with the root lost before, nothing happens and the error is a plain one. |
| RestoreTransaction.RestoreFromStagingDirectory | src/archive_stream.cpp:662-761 | For every choice of failing calls: without both staged trees nothing changes; to a root behind a link nothing is moved; to any other root, with links anywhere below it and targets on the way to it, success installs what was staged, but for a file that the path of the manifest leads to inside of it; on one device an error without a failed rollback leaves data and extensions as on entry and adds nothing to the manifest, unless a target on the way took the root with it; without failures the outcome is told exactly. |
| RestoreStage.MakeStage | src/fs_ops.cpp:161-184 | For every root, links and dots on its way included: the stage is a new empty directory in it and beside it only the root was made; without failures it can be made if the root can and not every name of the template is taken. |
| RestoreStage.RootIsRealOrLinked | src/path_safety.cpp:50-64 | Every root is reached without a link, name by name, or is behind a link. |
| RestoreBackup.RestoreBackupArchive | src/archive_stream.cpp:934-1012 | For every root, archive and choice of failing calls: nothing but the root is made before there is a stage; if the archive is not unpacked completely, for whatever reason, the result is an error and nothing beside the stage changes; what happens else is told by Cleaned, with a part for archives that hold no two directories, one for roots behind a link, and one for all other roots, those with targets on the way and links below them included. |
| RestoreResults.NothingInstalled | src/archive_stream.cpp:978-1001 | An archive that is unreadable, damaged, does not extract or lacks a directory, a call that fails before or while it is unpacked, and a root behind a link: an error, and nothing changed but the root that was made and the stage, for every root, across devices too and the manifest included. |
| RestoreResults.SteadyResult | src/archive_stream.cpp:1002-1011 | No target on the way to the root, and the manifest in a place of its own, through a link or not: success means the targets hold what the archive holds and everything else is untouched; on one device a plain error leaves the whole tree as it was, apart from new parent directories, the stage and a manifest that was there. |
| RestoreResults.SucceedsIff | src/archive_stream.cpp:934-1012 | Without failing calls, on one device: success if and only if the archive extracts to both trees without a directory in place of the manifest, no link is on the way to the root, no link or file from there to the extensions, nor to the manifest if there is one, no target that is replaced is on the way to the root, and an installed manifest can be removed; an error leaves everything as it was, if no target is on the way and the state directory is no link. |
| RestoreResults.TargetOnTheWay | src/archive_stream.cpp:688-711 | Without failing calls, on one device: the stage stays if a target that is taken away is on the way to the root; if that is the data or the extensions, the restore ends in a plain error with the first of them in the stage; if it is a manifest and the restore fails, both trees are installed all the same, with the old ones in the stage. |
| RestoreResults.KeptOrInstalledIff | src/archive_stream.cpp:604-761 | Without failing calls, on one device, with both trees in the archive and no link at the state directory: everything is as before, or exactly the archive is installed, if and only if no target that is taken away is on the way to the root and none is taken away through a link. |
| RestoreResults.LinkedExtensionsLost | src/archive_stream.cpp:696-711 | Without failing calls, on one device: with a link above extensions that are found behind it, a complete archive ends in a failed rollback, and the old extensions are neither in their place nor in the stage, which is gone. |
| RestoreResults.LinkedPublic | src/locate.cpp:13-19 | Such an input below every root that is reached without links: `public` is a link to any other directory of the root in which third-party is found; once the data is away the old extensions are found there, behind the link. |
| RestoreResults.LinkedManifestIff | src/archive_stream.cpp:655-657 | With a link at the state directory and an archive without a manifest, the restore succeeds with exactly the archive installed if and only if the path of the manifest leads to nothing, or beside the targets to a place that is not on the way to the root, and not through what it names. |
| RestoreResults.InstalledFileLost | src/archive_stream.cpp:655-657 | If it leads into an installed tree, the restore succeeds, and a file that the archive holds is missing there. |
| RestoreResults.ManifestIntoData | src/archive_stream.cpp:655-657 | Such an input: the link leads to the data, and the archive holds a file of the manifest's name in its data. |
| RestoreResults.LinkedErrorIff | src/archive_stream.cpp:635-660 | Without failing calls, on one device, with a link at the state directory: a restore of an archive with a manifest never succeeds; an error leaves everything as it was if and only if data and extensions are not on the way to the root, nor the extensions behind a link, and the archive has a directory in place of the manifest, or the path of the manifest leads to nothing that was there before. |
| RestoreResults.LinkedManifestLost | src/archive_stream.cpp:644-653 | With such a link, a manifest that its path leads to and not through, and a manifest in the archive, the restore fails, and the one that was there is gone. |
| RestoreResults.ManifestBeside | src/archive_stream.cpp:644-653 | Such an input below every root that is reached without links: the link leads to a directory of the root beside the targets, with a manifest in it that is not on the way to the root. |
| OrdinaryRestore.OrdinarySteady | src/archive_stream.cpp:604-711 | A root without links on the way to the targets is one that a restore does not disturb, and the targets are at `data`, `public/scripts/extensions/third-party` and `.stmanager/extensions_git_manifest.json` below it. |
| OrdinaryRestore.OrdinaryResult | src/archive_stream.cpp:604-711 | Node by node: after a success the targets are those of the archive and all else is as before; after a plain error on one device everything is as before, but for the stage and what may be missing of a manifest. |
| OrdinaryRestore.OrdinarySuccess | src/archive_stream.cpp:927-1010 | If no call fails, a restore to such a root of an archive with both directories, nothing in the backup places and no directory for a manifest succeeds. |
| Endian.ValueOfBigEndian | src/tcp_transport.cpp:71-84 | Reading a big-endian number back gives the number. |
| Endian.BigEndianAt | src/raze_update.cpp:357-364 | Each byte of the length field is the corresponding shift of the number. |
| Sha256Standard.PaddingMeaning | src/raze_update.cpp:339-365 | For messages under 2^61 bytes the padding is that of FIPS 180-4 section 5.1.1: a one bit, the fewest zeros that fill the last block, and a length field from which the length can be read. |
| Sha256Standard.PaddingInjective | src/raze_update.cpp:339-365 | Different messages are padded differently. |
| Sha256Meaning.PlusLaws | src/raze_update.cpp:397-431 | The sums of words obey the laws of addition modulo 2^32: they commute and associate, zero is neutral, doubling is a shift, and without common bits the sum is the union. |
| Sha256Meaning.ChChooses | src/raze_update.cpp:307 | Under any mask: where the first word has ones the bits are those of the second, where it has zeros those of the third. |
| Sha256Meaning.MajAgrees | src/raze_update.cpp:308 | Under any mask: where two of the three words agree the bits are theirs. |
| Sha256Meaning.WordOfBytes | src/raze_update.cpp:366-394 | Taking the bytes of a word and putting them together gives the word. |
| Sha256Meaning.WordOfMeaning | src/raze_update.cpp:391-394 | The word of four bytes is their big-endian value. |
| Sha256Constants.RoundConstantsMeaning | src/raze_update.cpp:377-387 | Each constant is the first 32 bits behind the point of the cube root of its prime, the first 64 primes in order. |
| Sha256Constants.InitialHashMeaning | src/raze_update.cpp:317-324 | The initial words are those of the square roots of the first eight primes. |
| Sha256Example.DigestOfAbc | src/raze_update.cpp:303-431 | The digest of "abc" is ba7816bf 8f01cfea 414140de 5dae2223 b00361a3 96177a9c b410ff61 f20015ad, as published with the standard. |
| Sha256.Ep0 | src/raze_update.cpp:309 | The two-shift macro is the upper-case sigma 0 of the standard. |
| Sha256.Ep1 | src/raze_update.cpp:310 | The same for upper-case sigma 1. |
| Sha256.Sig0 | src/raze_update.cpp:311 | The same for lower-case sigma 0. |
| Sha256.Sig1 | src/raze_update.cpp:312 | The same for lower-case sigma 1. |
| Sha256.Context.constructor | src/raze_update.cpp:316-326 | The state is the initial hash value of the standard. |
| Sha256.Context.Schedule | src/raze_update.cpp:389-399 | The in-place loops compute the recursive message schedule of section 6.2.2. |
| Sha256.Context.Transform | src/raze_update.cpp:376-431 | For every block and state: the rotating variables go through the 64 rounds of section 6.2.2, with addition modulo 2^32. |
| Sha256.Context.Absorb | src/raze_update.cpp:329-335 | One more byte: the state covers the complete blocks so far and the buffer holds the rest. |
| Sha256.Context.Update | src/raze_update.cpp:328-337 | The message grows by the chunk, however it is cut into chunks. |
| Sha256.ShortPadding | src/raze_update.cpp:342-346 | With fewer than 56 buffered bytes one block ends the message. |
| Sha256.LongPadding | src/raze_update.cpp:347-354 | With 56 or more, two blocks do. |
| Sha256.Context.Finish | src/raze_update.cpp:339-365 | The state is the hash of all blocks of the padded message. |
| Sha256.Context.Final | src/raze_update.cpp:339-373 | The 32 bytes are the message digest of everything passed to update. |
| Frames.StringFrameTaken | src/tcp_transport.cpp:113-163 | A framed string is received as sent, with anything behind it left over, if and only if it has at most 1 MiB. |
| Frames.StringFrameBytes | src/tcp_transport.cpp:113-163 | The four bytes of length, the highest first, then the message; 1048576 bytes are taken and no more. |
| Frames.StreamFrameTaken | src/tcp_transport.cpp:165-241 | The same for streams shorter than 2^63 bytes. |
| Frames.ConversationTaken | src/tcp_transport.cpp:113-241 | Any sequence of messages and then a stream: each is received as sent, and exactly its bytes are used up. |
| Frames.CutString | src/tcp_transport.cpp:125-163 | A framed string that is cut at any byte is not received. |
| Frames.HighAndLow | src/tcp_transport.cpp:86-95 | Two 32-bit halves in order are the 64-bit number. |
| Wire.WriteAll | src/tcp_transport.cpp:35-51 | For any short counts and interrupts everything is sent, or a prefix on failure. |
| Wire.ReadAll | src/tcp_transport.cpp:53-69 | Exactly the next bytes are read, or fewer arrived than asked for. |
| Wire.ReadU64 | src/tcp_transport.cpp:97-111 | The value of the next eight bytes. |
| Wire.SendFramedString | src/tcp_transport.cpp:113-123 | The frame, or a prefix of it on failure; nothing for strings that are too long. |
| Wire.ReceiveFramedString | src/tcp_transport.cpp:125-163 | The next framed string; on failure the output is untouched. |
| Wire.SendFramedStream | src/tcp_transport.cpp:165-201 | The length and the whole content, in chunks of any size. |
| Wire.ReceiveFramedStream | src/tcp_transport.cpp:203-241 | The next framed stream; on failure only complete 8192-byte chunks of it were written. |
| Wire.CutTransfer | src/tcp_transport.cpp:203-241 | If a transfer is cut at any byte, a prefix of the stream whose length is a multiple of 8192 was written. |
| TrustedDevices.SavedIds | src/trusted_device_store.cpp:27-76 | What is saved is loaded again. |
| TrustedDevices.StoredExactly | src/trusted_device_store.cpp:47-54 | The ids loaded are exactly the strings of the list, other values being ignored. |
| TrustedDevices.AddedAndRemoved | src/trusted_device_store.cpp:15-25 | Removing a device just added gives back the list if and only if it was not in the list before. |
| TrustedDevices.RememberedIds | src/trusted_device_store.cpp:27-76 | Remembering a device stores that device and no other; those stored before are kept if and only if the file could be opened or held no other device. |
| TrustedDevices.UnopenedStoreIsLost | src/trusted_device_store.cpp:30-33 | A stored device that is lost. |
| TrustedDevices.TrustedStore.Load | src/trusted_device_store.cpp:27-59 | The ids of the file in order, other list elements ignored; an error exactly for a corrupt file; the previous content of the memory plays no part. |
| TrustedDevices.TrustedStore.Save | src/trusted_device_store.cpp:61-76 | The file becomes the list, or stays, or is left corrupt if saving is not atomic. |
| TrustedDevices.TrustedStore.TrustDevice | src/sync.cpp:724-731 | Adds a device that is not in the list; an empty id is refused. |
| TrustedDevices.TrustedStore.UntrustDevice | src/trusted_device_store.cpp:22-25 | Removes every occurrence of a device and keeps the order of the others. |
| SyncServer.Pair | src/sync_server.cpp:313-360 | A pair request is accepted only with an id and the right code, and without failures exactly then; only if it is accepted and to be remembered does the file change, by at most this id; no stored id is lost if the file can be opened and saving is atomic. |
| SyncServer.HandlePairRequest | src/sync_server.cpp:308-363 | The same, and the reply says what was decided, completely if nothing fails. |
| SyncServer.Authorize | src/sync_server.cpp:365-437 | An auth request is granted only if its id is in the file itself and it asks to pull, and then with the bytes of a backup; without failures these conditions suffice. |
| SyncServer.HandleAuthRequest | src/sync_server.cpp:365-447 | A refusal is sent, or an acceptance with the framed backup of the trees behind it: all of it if nothing fails, and otherwise a prefix. |
| SyncServer.HandleClientConnection | src/sync_server.cpp:449-484 | The one request on the connection is read and answered, granted only when it may be and without failures whenever it may be; malformed or other messages get no answer; the file changes only for an allowed pair request that is to be remembered. |
| SyncServer.AcceptanceSeen | src/sync_server.cpp:439-446 | A client that reads an acceptance reads it from a server that accepted, with the start of the backup behind it. |
| SyncServer.Serve | src/sync_server.cpp:745-782 | Over any sequence of connections: every accepted auth request was for an id that was stored at the start or that an earlier allowed pair request had remembered; the stored ids stay of that kind; none is lost if saving is atomic and the file can be opened; the log is what was received and sent. |
| SyncServer.AcceptedIsKnown | src/sync_server.cpp:745-782 | The same told by the bytes on the wire. |
| SyncClient.PairDevice | src/sync.cpp:480-541 | What is sent on the one connection is the request with the own id, the code and the wish to be remembered, or a prefix of it; every return after a connect leaves the transport disconnected; success needs an accepting answer, and with remembering stores the device; without it, or without an accepting answer, the file is unchanged; if the peer agrees and nothing fails, it succeeds. |
| SyncClient.AuthorizeRemote | src/sync.cpp:543-597 | Success means the device is in the file and the peer accepted, and without failures these suffice; for an unknown device nothing is sent. |
| SyncClient.PullFromDevice | src/sync.cpp:636-676 | Either the files are untouched, or they are the result of a restore of the archive that arrived completely from a peer that accepted, for a device in the file; success is the success of that restore; an untrusted device is sent nothing; the transport ends disconnected; for a trusted device and an archive that can be installed it succeeds if nothing fails. |
| SyncClient.NothingPulled | src/sync.cpp:659-674 | An archive that did not arrive changes nothing; one that is not unpacked completely, for whatever reason, or does not hold two directories, and a root behind a link, change nothing but the root that is made and the stage. |
| SyncClient.FailedPull | src/sync.cpp:671-675 | On one device, after a pull to a steady root that failed without a failed rollback the client has what it had, but for what may be missing of a manifest. |
| SyncClient.PairSync | src/sync.cpp:1008-1077 | Success means the device is in the store file on exit and the restore succeeded, of the archive that came on the first connection, or on the second after a pairing; pairing an untrusted device without remembering it never reaches the restore; the transport ends disconnected; without failures a trusted device is pulled from at once, and an untrusted one after the peer has agreed to pair. |
| EndToEnd.ArchiveTaken | src/sync.cpp:659-666 | From any received part of what a server sent, the client takes an archive only if it is the complete backup of the server's trees. |
| EndToEnd.PullCopiesTrees | src/sync.cpp:636-676 | Whatever part of the sent bytes arrived: after a successful pull the server had accepted, the client's data and third-party trees are the server's at the time of the backup, and nothing else changed. |
| EndToEnd.PullSession | src/sync.cpp:636-676 | The conversation of one pull: whatever is restored is the backup of the server's trees, for a client whose id the server had stored; success to a steady root means equal trees; and if the device ids are stored on both sides, the server's trees are two link-free directories, the client has room and nothing is in the way or fails, the pull succeeds. |
| EndToEnd.CutPull | src/sync.cpp:659-664 | If the connection ends at any byte before the end of the stream, no archive is restored. |
| OrdinaryPull.OrdinaryServes | src/sync_server.cpp:380-445 | Two plain directories without links below them can be served, if their backup is neither empty nor too large. |
| OrdinaryPull.OrdinaryTakes | src/sync.cpp:636-676 | A root without links on the way to the targets can take any backup. |
| OrdinaryPull.OrdinaryMirror | src/sync.cpp:636-676 | Node by node: after a pull the client's trees are the server's, there is no manifest, and all else is as before. |
| PairSession.AnswerPairing | src/sync_server.cpp:308-363 | When nothing fails, a framed pair request under the right code is answered with a framed acceptance, and a remembered id is then in the store file; under a wrong code or without an id it is answered with a refusal, and the file is as it was. |
| PairSession.RunPairing | src/sync.cpp:480-541 | The conversation of one pairing: the client succeeds only if the server accepted this very request, and that only under the right code; then each has remembered the other, if that was asked for; a refusal leaves the client's file as it was, a wrong code both files; if nothing fails, the right code is enough. |
| SyncTask.Task.EnterWorker | src/sync.cpp:348-353 | The region takes one step of a run of the state machine, with its invariant kept and nothing going back; afterwards the task runs, unless a stop was requested. |
| SyncTask.Task.MarkFinished | src/sync.cpp:246-251 | One step of the run; whoever was told before that it need not join was told Ok, whatever the worker returned. |
| SyncTask.Task.MarkStopping | src/sync.cpp:268-274 | One step of the run; a finished task stays finished and any other is stopping. |
| SyncTask.Task.TakeThread | src/sync.cpp:289-301 | One step of the run; a caller is told to join exactly if the worker is started and nobody was told before, and any other gets the worker's result if it is done and Ok if not. |
| SyncTask.Task.Report | src/sync.cpp:305-306 | One step of the run; the joining waiter gets the worker's result. |
| SyncTask.RunKeepsInv | src/sync.cpp:241-357 | In every interleaving: status and thread object agree with where worker and waiters are. |
| SyncTask.RunsMoveForward | src/sync.cpp:241-357 | In every interleaving the state only moves forward, Finished is absorbing, and results never change. |
| SyncTask.StoppedBeforeStart | src/sync.cpp:264-279 | If a stop is marked before the worker's first step, the task is in no state of the run Running. |
| SyncTask.JoinedOnce | src/sync.cpp:289-303 | At most one waiter ever holds the thread. |
| SyncTask.FirstWaiterJoins | src/sync.cpp:289-303 | Whoever begins to wait once the worker is started is told to join exactly if nobody was before. |
| SyncTask.JoinerReturnsResult | src/sync.cpp:303-306 | The waiter that joins returns exactly what the worker returned, after it has finished. |
| SyncTask.WaitAfterEnd | src/sync.cpp:289-307 | A waiter that begins when the task is finished returns the worker's result, joining or not. |
| SyncTask.WaitReturnsResultIff | src/sync.cpp:289-307 | A waiter returns what the worker returns if and only if it still found the thread or a finished task when it began, or the worker returns Ok anyway. |
| SyncTask.SecondWaiterMayBeEarly | src/sync.cpp:293-300 | A run in which a second waiter returns early and with another status than the worker's. |
| Files.ReplaceFile | src/raze_update.cpp:620-632 | On success the path names a file with exactly these bytes and nothing else has changed; without failures it succeeds if the path names a file or a free place. |
| HexText.ToLowerAscii | src/raze_update.cpp:44-52 | The in-place loop lowers exactly the ASCII capitals. |
| HexText.LowerMeaning | src/raze_update.cpp:44-52 | Two texts are equal in small letters exactly if they differ in the case of letters only. |
| HexText.HexInjective | src/raze_update.cpp:718-746 | Comparing hexadecimal texts without regard to case compares the digests. |
| HexText.HexDigits | src/raze_update.cpp:718-727 | Each byte is shown by the digit for its high half and then the digit for its low half. |
| RazeUpdate.PlanPackageUpdates | src/raze_update.cpp:637-686 | One update per remote package in name order, needing a download exactly if the local manifest lacks the package or has another hash, letter case aside; planning fails exactly if such a package has no release file. |
| RazeUpdate.UnchangedMeaning | src/raze_update.cpp:650-672 | A package is unchanged exactly if there is a local manifest that has it with the same hash up to the case of letters. |
| RazeUpdate.ReplanNeedsNothing | src/raze_update.cpp:637-686 | Planning with the remote manifest as the local one succeeds and needs no download. |
| RazeUpdate.ComputeFileSha256 | src/raze_update.cpp:696-727 | The text of the digest of the whole file, whatever pieces it is read in. |
| RazeUpdate.VerifyPackageFile | src/raze_update.cpp:729-750 | Accepts only sha256 and, without failures, exactly the files with the expected digest. |
| RazeUpdate.Slashes | src/raze_update.cpp:38-42 | Every backslash becomes a slash and every other character stays. |
| RazeUpdate.UnpackedMeaning | src/raze_update.cpp:752-838 | Every file of a package, at its path with slashes, holds the bytes of its last entry in the package, every directory is there, and every other node is as before, but for new directories. |
| RazeUpdate.DownloadPackage | src/raze_update.cpp:137-181 | On success the path names a file with exactly what the url delivers; in every case nothing but directories and the file or link at the path is another. |
| RazeUpdate.ExtractPackage | src/raze_update.cpp:752-838 | Exactly the verified bytes are unpacked below the root into the resulting tree, and nothing outside it changes but new directories on the way, on failure too; on success every file of the package has the bytes of its last entry; without failures it succeeds if every entry suits the tree and no two are at odds. |
| RazeUpdate.InstallPackage | cli/main.cpp:732-754 | From the tree on entry to the tree on exit: only the download and directories change before the digest of what was downloaded is the one of the manifest, and after that nothing outside the root; on success what the url delivered was unpacked below the root, and every file of it has the bytes of its last entry; without failures it succeeds if that is possible. |
| RazeUpdate.RunUpdates | cli/main.cpp:724-770 | The installations form a chain from the tree on entry, each beginning where the one before ended; a run that stops has changed nothing beyond its steps and one attempt, and has not touched the manifest; the manifest is written last, behind all of them; if nothing fails, the run succeeds when every package that needs a download can be installed in whatever tree the ones before it leave. |
| RazeUpdate.UpdateAll | cli/main.cpp:694-770 | On success each remote package was unchanged, or the file the release has for it was verified and unpacked below the root in a step of this run's chain, which ends in the tree before the manifest is written; the counts add up to the number of packages, and version.json holds the remote text; if nothing fails and each planned installation is possible when its turn comes, it succeeds. |
| OrdinaryUpdate.OrdinaryInstall | cli/main.cpp:732-754 | With plain directories for the download and the root, a package that is delivered with the digest of the manifest and whose entries suit the tree below the root can be installed. |

## Left out

- libarchive, zstd, tar and pax: an archive is its list of entries; the libraries are not part of this model.
- nlohmann/json, curl, HTTP and the parsing of release and version files: messages, the device file and manifests are values; error texts of responses are not modelled.
- File permissions, umask, modification times and special files: only shape and bytes are modelled.
- Windows branches, UDP discovery, address resolution, argument parsing and menus: mostly platform calls and branch tables.
- src/fd_stream.cpp and the counting stream: the same loop shape as `write_all`.
- Temporary archive files (src/archive_stream.cpp:116-215): the writer's entries go straight to the receiver.
- Spurious failures of `lstat` and `stat`: they fail only for a reason in the tree; relative paths start at the root of the model.
- Null transports, stores and output pointers, and the interrupt callback of a task, which nothing in the repository sets.
- Task handles that are created finished: they have no worker and take no steps.
- RestoreBackup.RestoreBackupArchive: three kinds of roots have only the clauses for archives that are not unpacked completely or hold no two directories: those from which the path of the extensions or of the manifest ends, through a dangling link, at the name of a future stage; those with extensions that are linked into a directory in place of the manifest; and, once the manifest is reached, those that lie inside of what its path names through a link, for which only the failure is told, because what is left depends on the order of readdir. A manager refuses a link at its own `.stmanager` when it starts (src/sync.cpp:776-777), but not at another destination (src/sync.cpp:668-670).
- RestoreTransaction.RestoreFromStagingDirectory: what is left after a failure across devices is bounded by the frame only, because the code can lose a target there (`FsOps.CrossDeviceMoveCanLose`).
- FsOps.MoveOrCopyPath: for a destination with dots behind directories that have to be made first, it says only what is refused; and a race with other programs is not modelled.
- FsOps.CopyPathRecursiveImpl: the destination is a free place outside the source, as the callers have checked; a copy into the source itself need not end.
- PathSafety.EnsureDirectoryTreeFollowing: says no success for dots behind directories that have to be made first.
- WriteBackup.WriteBackupArchive: the trees do not change while they are read.
- GitManifest.CollectGitExtensionInfo: a config file is read completely or not at all, so a read error in the middle of a line is not modelled.
- RazeUpdate.ExtractPackage: does not model a last buffer that cannot be flushed when the output file is closed, which the code does not notice (src/raze_update.cpp:223), nor a package that overwrites its own archive file while it is unpacked.
- Sha256.Context.Final: messages of 2^61 bytes and more get the length modulo 2^64, as in the code; only below that bound is this the padding of the standard.
- SyncServer.Serve: time-outs, accept errors and the discovery responder; a stop can come between any two connections.
- SyncClient.PullFromDevice: pushing to a device uses the same parts in the other direction, and the server refuses it.
