# ipfs-friends backup core, modelled in Dafny

ipfs-friends backs up a local photo folder into IPFS. The folder is
encrypted with OpenPGP before it leaves the device. This project models
four parts of that program and proves properties of them:

- **The recursive folder reconciler** (`syncLocalFolder`, `src/sync.ts`).
  For one local directory and one directory of the IPFS mutable file system
  (MFS), it:
  - reads the encrypted per-folder manifest `<dir>/metadata`;
  - lists both sides once;
  - creates a remote subdirectory for each local one, named by the hash of
    the local name;
  - removes recorded subfolders that disappeared locally;
  - re-encrypts and rewrites files whose content changed;
  - runs the stale-file removal loop;
  - writes the new manifest once, then recurses into the subfolders in
    manifest order.
- **The manifest and device documents** (`src/device-state.ts`). These are
  encrypted JSON documents in MFS. A read falls back to a default on any
  failure. `ensureSetup` creates `/files` when it is missing.
- **The flat backup list** (`backupFiles`, `src/index.ts`). This is an
  earlier, non-recursive sync. It keeps a list of
  `{path, ipfsHash, fileHash}` records and pins the uploaded blobs.
- **The shutdown-listener registry** (`src/exit.ts`). It runs a set of
  listeners once when the process is asked to stop, and installs its
  process handlers once.

Layout:

| file | module | contents |
|---|---|---|
| `wrappers.dfy` | `Wrappers` | `Option`, `Result` |
| `mfs.dfy` | `Mfs` | the MFS store: a map from path to node, the log of mutating calls, the errors MFS calls throw, and the client class `Store` |
| `device_state.dfy` | `DeviceState` | manifest and device-info records, encrypted JSON read with fallback, encrypted write, `ensureSetup`, round-trip lemmas |
| `sync.dfy` | `Sync` | the reconciler: reference functions (`Level` for one directory, `SyncSpec` for the subtree) and the imperative `SyncLocalFolder`, loop by loop, proved equal to them |
| `sync_props.dfy` | `SyncProperties` | frame, record, directory, manifest and trace lemmas about the reconciler; the two removal-loop findings |
| `backup.dfy` | `Backup` | the backup-list loop as a function per iteration and the imperative `BackupFiles` proved against it |
| `backup_props.dfy` | `BackupProperties` | per-iteration behaviour, records kept, single upload; the backup-list finding |
| `exit.dfy` | `Exit` | the registry as a class `Shutdown`, each method proved against a state function |
| `exit_props.dfy` | `ExitProperties` | at-most-once, ordering, exit codes, registration and disposal lemmas |

Modelling choices:

- **Store.** Every MFS call the code makes can throw: `mkdir` over an
  existing file, `write` over a directory or under a missing parent, `rm`
  of a missing path or of a directory without `recursive`, `ls` of a
  non-directory, `stat` of a missing path. The model makes each of these a
  `Result` error. An error ends the whole pass, as the thrown exception
  does. The calls applied before the error stay applied. The log records
  each successful mutating call. That log is the trace the properties talk
  about.
- **Opaque collaborators.** SHA-1 of names and contents, mime lookup,
  OpenPGP encryption, the CID of a node, and the JSON codec are
  uninterpreted functions. They are fields of the `Env` datatypes.
  Round-trip lemmas assume only that decryption inverts encryption and
  that parsing inverts serialisation (`Decrypts`, `Parses`).
- **Local tree.** The local tree is a finite datatype `Dir`. Each file
  carries its mtime (as its ISO string) and its bytes.
- **Recursion.** The recursion pairs `metadata.folders[i]` with the i-th
  local subdirectory. That is the directory `path.join(localPath,
  folder.name)` names, since the records are built from that listing in
  order.
- **Record shape.** The record a reconciled file gets has the six fields
  `src/sync.ts:79-86` writes. That is wider than the `FileBackup` type
  declared in `src/device-state.ts:50-55`.
- **As written first.** The main model follows the code as written,
  including its quirks:
  - the removal loop at `src/sync.ts:123-128`;
  - the `'unset'` placeholder `fileHash`;
  - the hash-based filter at `src/index.ts:30`.

  The evidently intended versions sit beside them (`IntendedRemoveFiles`,
  `IntendedStep`/`IntendedSteps`), each with its intended property proved.
  See "## Findings".

## Model

| member | source | states |
|---|---|---|
| `Mfs.MkdirNodes` | src/sync.ts:47 | on success `p` is a directory and every existing node is kept unchanged |
| `Mfs.Overwrite` | src/device-state.ts:25 | the written bytes come first; with `truncate` the content is exactly the new data; without it a longer old tail survives |
| `Mfs.WriteNodes` | src/device-state.ts:25 | a write succeeds iff the target is not a directory, its parent is one, and it exists or `create` is set; create+truncate leaves exactly the new blob at the path |
| `Mfs.RmNodes` | src/sync.ts:58 | `rm` succeeds iff the path is not the root, exists, and is a file or `recursive` is set; afterwards exactly the path (and, recursively, its subtree) is gone and every other node is unchanged |
| `Mfs.Exec` | src/sync.ts:47 | a successful call appends itself to the log; a failed one changes nothing |
| `Mfs.Read` | src/device-state.ts:9 | `files.read` succeeds exactly on files |
| `Mfs.ListingEntries` | src/sync.ts:13-21 | `ls` of a directory names exactly its children, each with its kind |
| `Mfs.MkdirFrame` | src/sync.ts:47 | `mkdir` with `parents` below `p` changes nothing outside `p`'s subtree |
| `Mfs.ExecFrame` | src/sync.ts:44-47 | any successful call aimed strictly below the directory `p` changes nothing outside `p`'s subtree |
| `Mfs.FramedKeepsRoot` | src/sync.ts:44 | a change confined below `p` keeps `p` a directory |
| `Mfs.FramedDeepOfChild` | src/sync.ts:135 | a change confined below a child of `p` leaves `p`'s own entries unchanged |
| `Mfs.SiblingsApart` | src/sync.ts:44 | children of one directory with different names are disjoint |
| `Mfs.ExecKeepsDirs` | src/sync.ts:111-114 | only a recursive `rm` can make a directory disappear |
| `Mfs.Store.Apply` | src/sync.ts:47 | the client applies a call to its state exactly as `Exec` describes |
| `Mfs.Store.Mkdir` | src/sync.ts:47 | `files.mkdir` on the client is `Exec` of a `Mkdir` call |
| `Mfs.Store.Write` | src/device-state.ts:25 | `files.write` on the client is `Exec` of a `Write` call |
| `Mfs.Store.Rm` | src/sync.ts:58 | `files.rm` on the client is `Exec` of an `Rm` call |
| `Mfs.Store.Exists` | src/device-state.ts:34 | true iff the path is the root or present |
| `DeviceState.MetadataPath` | src/device-state.ts:66 | the manifest lives directly inside the folder it describes |
| `DeviceState.ReadLocalEncryptedFile` | src/device-state.ts:6-12 | a result is the decryption of the bytes of a file at that path |
| `DeviceState.ReadLocalEncryptedJsonFile` | src/device-state.ts:13-20 | the fallback whenever the path is not a file, decryption fails or parsing fails; otherwise the parsed document; never an error |
| `DeviceState.ReadFolderMetadata` | src/device-state.ts:65-72 | with no manifest file the result is `{files: [], folders: []}` |
| `DeviceState.ReadDeviceInfo` | src/device-state.ts:43-45 | with no `/info` file the result is `{name: "", ipns: ""}` |
| `DeviceState.WriteEncrypted` | src/device-state.ts:21-26 | the write succeeds iff the path is not a directory and its parent is; then the path holds exactly the new ciphertext and one create+truncate write is logged |
| `DeviceState.WriteLocalEncryptedFile` | src/device-state.ts:21-26 | the method's effect on the client is `WriteEncrypted` of the content |
| `DeviceState.WriteLocalEncryptedJsonFile` | src/device-state.ts:27-29 | the method writes the serialised document the same way |
| `DeviceState.WriteFolderMetadata` | src/device-state.ts:73-76 | the manifest is written to the same `<dir>/metadata` path that the read uses |
| `DeviceState.WriteDeviceInfo` | src/device-state.ts:46-48 | the device document is written to `/info` |
| `DeviceState.EnsureSetup` | src/device-state.ts:31-37 | when `/files` exists nothing changes; otherwise exactly one `mkdir("/files")` without `parents` is issued, and the store afterwards is the old one with `/files` added as a directory |
| `DeviceState.ReadFolderMetadataLocal` | src/device-state.ts:65-72 | a manifest read depends only on the node at `<dir>/metadata` |
| `DeviceState.EncryptedJsonRoundTrip` | src/device-state.ts:6-29 | writing an encrypted JSON document and reading it back with any fallback gives the document |
| `DeviceState.FolderMetadataRoundTrip` | src/device-state.ts:65-76 | `writeFolderMetadata` then `readFolderMetadata` on the same folder returns the written manifest |
| `DeviceState.DeviceInfoRoundTrip` | src/device-state.ts:43-48 | `writeDeviceInfo` then `readDeviceInfo` returns the written document |
| `Sync.LocalFolders` | src/sync.ts:36 | exactly the directory entries of the listing |
| `Sync.LocalFiles` | src/sync.ts:64 | exactly the file entries not named in `ignoreFiles` |
| `Sync.RemoteDirs` | src/sync.ts:37 | exactly the names of the listed directories |
| `Sync.RemoteFiles` | src/sync.ts:65 | exactly the names of the listed files not in `ignoreFiles` |
| `Sync.FolderRecords` | src/sync.ts:50-53 | one record per local subdirectory, in order, pairing its name with the hash of the name |
| `Sync.FindByNameHash` | src/sync.ts:75 | none iff no record has the name hash; otherwise the first record that has it |
| `Sync.CreateFolders` | src/sync.ts:40-54 | on success the folder records built are exactly `FolderRecords` of the local subdirectories |
| `Sync.FileStep` | src/sync.ts:69-120 | on success the record is the planned one (name, name hash, mime type, current mtime, and a `fileHash` recomputed only when there is no record, the mtime changed or the blob is missing, else `'unset'`); exactly one create+truncate write of the encrypted file is logged iff the blob is missing, there is no record, or both mtime and content hash differ; a written file's recorded CID is the CID of the written blob; otherwise the store is untouched; on success `<dir>/<nameHash>` exists and the record carries the CID `files.stat` reports for it; no other node changes |
| `Sync.SyncFiles` | src/sync.ts:68-121 | on success one record per local file is appended to those already built |
| `Sync.Level` | src/sync.ts:62 | on success the manifest's folders are the local subdirectories' records |
| `Sync.CreateRemoteFolders` | src/sync.ts:40-54 | the folder-creation loop has the effect and result `CreateFolders` describes |
| `Sync.RemoveStaleFolders` | src/sync.ts:55-60 | the folder-removal loop has the effect `RemoveFolders` describes |
| `Sync.SyncFile` | src/sync.ts:70-120 | one iteration of the file loop has the effect and result `FileStep` describes |
| `Sync.SyncFileEntries` | src/sync.ts:68-121 | the `while`/`shift` loop has the effect and result `SyncFiles` describes |
| `Sync.RemoveStaleFiles` | src/sync.ts:123-128 | the file-removal loop, as written, has the effect `RemoveFiles` describes |
| `Sync.SyncLevel` | src/sync.ts:31-132 | everything before the recursion has the effect and result `Level` describes |
| `Sync.SyncLocalFolder` | src/sync.ts:28-139 | the whole pass has the effect and result `SyncSpec` describes |
| `Sync.SyncSubfolderEntries` | src/sync.ts:134-136 | the recursion loop has the effect `SyncSubfolders` describes |
| `SyncProperties.CreateFoldersFrame` | src/sync.ts:41-48 | the folder-creation loop changes nothing outside the folder's subtree |
| `SyncProperties.RemoveFoldersFrame` | src/sync.ts:56-59 | the folder-removal loop changes nothing outside the folder's subtree |
| `SyncProperties.FileStepFrame` | src/sync.ts:111-118 | one file iteration changes nothing outside the folder's subtree |
| `SyncProperties.SyncFilesFrame` | src/sync.ts:68-121 | the file loop changes nothing outside the folder's subtree |
| `SyncProperties.RemoveFilesFrame` | src/sync.ts:123-128 | the file-removal loop changes nothing outside the folder's subtree |
| `SyncProperties.LevelFrame` | src/sync.ts:31-132 | one level changes nothing outside the folder's subtree, even when it stops at an error |
| `SyncProperties.SyncSpecFrame` | src/sync.ts:28-139 | a whole pass into a folder changes nothing outside that folder's subtree: for a folder other than the root `/` (such as one under `/files`), `/info`, sibling backups and the folder node itself are untouched |
| `SyncProperties.SyncSubfoldersFrame` | src/sync.ts:134-136 | the recursion changes only nodes at least two levels below the folder |
| `SyncProperties.SyncFilesRecords` | src/sync.ts:68-121 | the file loop's new records are one per local file, in order, each as planned apart from its CID, which `SyncFilesCids` states |
| `SyncProperties.SyncFilesOutside` | src/sync.ts:111-114 | the file loop leaves every node alone that is not `<dir>/<nameHash>` of one of its files |
| `SyncProperties.SyncFilesCids` | src/sync.ts:116-118 | once the file loop is over, each file's record carries the CID `files.stat` reports for `<dir>/<nameHash>`, which exists, unless a later local file has the same name hash and overwrote that blob |
| `SyncProperties.LevelRecords` | src/sync.ts:62-130 | a level's file records follow the non-ignored local files one for one, in local order, with name, name hash, mtime and the `'unset'` rule; its folder records are the local subdirectories in listing order |
| `SyncProperties.LevelManifestShape` | src/sync.ts:27-86 | every record in the written manifest names its remote entry by the hash of its local name, and no file record is named `metadata` |
| `SyncProperties.CreateFoldersDirs` | src/sync.ts:41-48 | after the folder-creation loop every local subdirectory has its hashed directory, and every directory that existed before is kept |
| `SyncProperties.RemoveFoldersKeeps` | src/sync.ts:56-59 | the folder-removal loop keeps every directory none of the removed folders contains |
| `SyncProperties.SyncFilesKeepsDirs` | src/sync.ts:111-114 | the file loop removes no directory |
| `SyncProperties.RemoveFilesKeepsDirs` | src/sync.ts:126 | the non-recursive file removal removes no directory |
| `SyncProperties.ListedDirs` | src/sync.ts:37 | every directory the listing names is a directory below the folder |
| `SyncProperties.LevelFoldersExist` | src/sync.ts:41-60 | after a successful level every local subdirectory has a remote directory named by the hash of its name, given collision-free name hashing and a manifest the reconciler wrote |
| `SyncProperties.StaleFoldersApart` | src/sync.ts:57-58 | a recorded folder that vanished locally lies apart from every current subdirectory's remote path |
| `SyncProperties.SyncSpecFoldersExist` | src/sync.ts:41-60 | the same holds after the whole pass, recursion included |
| `SyncProperties.LevelManifest` | src/sync.ts:130-132 | after a successful level, reading `<dir>/metadata` gives the level's manifest |
| `SyncProperties.ManifestPersists` | src/sync.ts:132-138 | after a successful pass the manifest stored in the folder is the one returned: the recursion does not disturb it |
| `SyncProperties.RemoveFilesInert` | src/sync.ts:125 | as written, the removal loop issues no call once two new records carry different name hashes |
| `SyncProperties.SoleFileRemovalFails` | src/sync.ts:125-126 | as written, the removal loop over a folder with one unchanged file tries to remove `<dir>/<fileHash>` and fails with not-found |
| `SyncProperties.SoleFileLevelFails` | src/sync.ts:62-130 | as written, a level over a folder whose only file is unchanged since the stored manifest fails with not-found on `<dir>/<fileHash>` before writing the new manifest, and leaves the store as it was |
| `SyncProperties.IntendedRemoveFilesSpec` | src/sync.ts:123-128 | the intended removal succeeds and leaves the store exactly as before minus the blobs of recorded files that no new record carries and the listing holds |
| `SyncProperties.MkdirOpsMembers` | src/sync.ts:41-48 | a `mkdir` with `parents` is issued exactly for the local subdirectories whose hashed name the start-of-pass listing lacks |
| `SyncProperties.CreateFoldersLog` | src/sync.ts:41-48 | the folder-creation loop's calls are exactly those mkdirs, in order |
| `SyncProperties.FolderRmOpsMembers` | src/sync.ts:55-60 | a recursive `rm` is issued exactly for folders that are in the old manifest, no longer local, and listed remotely; a remote folder absent from the old manifest is never removed |
| `SyncProperties.RemoveFoldersLog` | src/sync.ts:55-60 | the folder-removal loop's calls are exactly those removals, in order |
| `SyncProperties.SyncFilesLog` | src/sync.ts:88-115 | the file loop's calls are exactly the create+truncate writes of the files `Rewrites` selects, in local order |
| `SyncProperties.FileRmOpsMembers` | src/sync.ts:123-128 | as written, an old record triggers a non-recursive `rm` exactly when no new record has a different name hash and its hashed name is listed; the path removed is `<dir>/<fileHash>` |
| `SyncProperties.RemoveFilesLog` | src/sync.ts:123-128 | the file-removal loop's calls are exactly those removals, in order |
| `SyncProperties.LevelTrace` | src/sync.ts:31-132 | a successful level issues the folder mkdirs, then the folder removals, then the file writes, then the file removals, and last one write of its manifest |
| `SyncProperties.LevelLogGrows` | src/sync.ts:31-132 | a level only appends calls, even when it stops at an error |
| `SyncProperties.SyncSpecLogGrows` | src/sync.ts:28-139 | a pass only appends calls |
| `SyncProperties.SyncSubfoldersLogGrows` | src/sync.ts:134-136 | the recursion only appends calls |
| `SyncProperties.PassStartsWithLevel` | src/sync.ts:132-138 | a successful pass returns its top level's manifest, and its calls begin with that level's whole trace, manifest write included: the recursion comes after the manifest write |
| `Backup.FindByPath` | src/index.ts:26 | none iff no record has the path; otherwise the first record with that path, as `Array.prototype.find` returns |
| `Backup.WithoutHash` | src/index.ts:30 | exactly the records whose `fileHash` differs from the old one, matched by hash and not by path |
| `Backup.WithoutPath` | src/index.ts:30 | exactly the records of other paths (the intended filter) |
| `Backup.Remote.PinRm` | src/index.ts:31 | one unpin call is appended |
| `Backup.Remote.Add` | src/index.ts:46 | one add call is appended and its CID returned |
| `Backup.Remote.PinAdd` | src/index.ts:47 | one pin call is appended |
| `Backup.Remote.UpdateFileBackups` | src/index.ts:59 | one upload of the list is appended |
| `Backup.BackupFiles` | src/index.ts:12-62 | the loop and the final upload make exactly the calls `BackupPass` describes, in order |
| `Backup.StepsAppendCalls` | src/index.ts:20-57 | the loop only appends calls: after earlier calls it builds the same list and makes the same calls |
| `BackupProperties.StepSkipsDirectory` | src/index.ts:22-24 | a directory entry changes neither the list nor the calls |
| `BackupProperties.StepUnchangedFile` | src/index.ts:26-34 | a file whose first record has its current hash changes nothing |
| `BackupProperties.StepNewFile` | src/index.ts:34-54 | a file without a record gets one record `{path, cid, fileHash}` appended, and its blob is added and pinned |
| `BackupProperties.StepChangedFile` | src/index.ts:28-54 | a changed file: every record with the old hash goes, the old CID is unpinned, the blob is added and pinned, and one fresh record is appended |
| `BackupProperties.StepRecordsFile` | src/index.ts:24-55 | after its iteration a file is recorded under its current content hash |
| `BackupProperties.StepsKeep` | src/index.ts:20-57 | the loop keeps a record of an absent file when no present file's fetched record shares its content hash |
| `BackupProperties.AbsentFileKept` | src/index.ts:15-30 | a record whose file is gone stays in the final list when no present file's fetched record shares its content hash |
| `BackupProperties.StepsNeverUpload` | src/index.ts:20-57 | the loop never uploads the list |
| `BackupProperties.UploadedOnce` | src/index.ts:59 | the list is uploaded exactly once, as the last call, and what is uploaded is the final list |
| `BackupProperties.RecordDropped` | src/index.ts:30 | as written, with the listing `b, a` where `a` changed away from the content hash `b` still has, `b`'s record is lost; the intended filter keeps it |
| `BackupProperties.IntendedStepsRecordFiles` | src/index.ts:20-57 | as intended, every local file ends recorded under its current hash and no record of an absent file is lost |
| `Exit.Added` | src/exit.ts:23 | `Set.add`: membership gains the listener; earlier members keep their order; no duplicates |
| `Exit.Deleted` | src/exit.ts:43 | `Set.delete`: membership loses exactly the listener; no duplicates |
| `Exit.Shutdown.constructor` | src/exit.ts:3-5 | the module starts with no listeners and neither flag set |
| `Exit.Shutdown.Exit` | src/exit.ts:7-20 | `exit` has the effect `ExitSpec` describes: nothing on a repeat call; otherwise the listeners run in order until one throws, and `process.exit(128 + signal)` is called only when asked and every listener returned |
| `Exit.Called` | src/exit.ts:13-15 | the listeners called are a prefix of the set's order: all of them iff none throws, else up to and including the first that throws |
| `Exit.CalledUpTo` | src/exit.ts:13-15 | when the first `i` listeners return and the next throws, exactly those `i + 1` are called |
| `Exit.Shutdown.AddShutdownListener` | src/exit.ts:22-45 | the listener is added, the handlers are installed only on the first call, and the disposer for that listener is returned |
| `Exit.Shutdown.Dispose` | src/exit.ts:42-44 | the disposer deletes its listener and changes nothing else |
| `Exit.Shutdown.Deliver` | src/exit.ts:28-39 | each installed handler reacts as `DeliverSpec` describes, a once handler removing itself first |
| `ExitProperties.InvInitial` | src/exit.ts:3-5 | the initial state meets the invariant |
| `ExitProperties.InvPreserved` | src/exit.ts:7-45 | every operation keeps the listener set duplicate-free, the handler set within the four handlers, `isRegistered` tied to the message handler, and nothing run before `exit` |
| `ExitProperties.ExitOnlyOnce` | src/exit.ts:8-11 | a second `exit` changes nothing |
| `ExitProperties.FirstExitRunsListeners` | src/exit.ts:11-19 | the first `exit` runs the listeners at most once each, in insertion order; if all return it runs every one and calls `process.exit(128 + signal)` iff `exit` is true; if one throws, those after it are not run and `process.exit` is not called |
| `ExitProperties.DeliveredExitCodes` | src/exit.ts:17-38 | when no listener throws, SIGINT gives code 130, SIGTERM 143 and the `"shutdown"` message 0, each after running every listener; the process's own exit never calls `process.exit`; a throwing listener leaves every handler without an exit call |
| `ExitProperties.OtherMessageIgnored` | src/exit.ts:35-39 | any other message does nothing |
| `ExitProperties.RegisteredOnce` | src/exit.ts:25-40 | handlers are installed on the first registration only, and `isRegistered` stays true |
| `ExitProperties.AddIdempotent` | src/exit.ts:23 | adding the same listener twice is adding it once |
| `ExitProperties.DeletedAbsent` | src/exit.ts:43 | deleting an absent listener changes nothing |
| `ExitProperties.DeletedAppend` | src/exit.ts:43 | deletion distributes over concatenation |
| `ExitProperties.DisposeUndoesAdd` | src/exit.ts:22-44 | disposing a fresh listener restores the listener sequence, order included |
| `ExitProperties.DisposedNotRun` | src/exit.ts:42-44 | a disposed listener is not run by a later `exit` |

## Left out

- OpenPGP encryption, signing and decryption are opaque functions. The encrypted bytes of a file depend only on its name and content, so ciphertext randomness is not modelled.
- SHA-1 of names and contents and mime lookup are opaque functions. Timestamps are compared only as their ISO strings.
- `path.join` normalisation is not modelled: paths are sequences of segments, and names are taken as single segments.
- The UTF-8 decoding of `src/helpers/async.ts` is folded into the opaque `decryptText`.
- `DeviceState.ReadFolderMetadata` and `Sync.Level`: the source does not check the shape of a parsed manifest. A manifest that decrypts and parses to a value of another shape (`null`, `{}`, a record without `folders`) makes `syncLocalFolder` throw at `Array.from(metadata.folders)` (src/sync.ts:55) or `metadata.files.find` (src/sync.ts:75). The typed `parse` of the model yields a manifest or nothing, and nothing falls back to the empty manifest, so this error path is not modelled.
- `exists`, `encryptText` and `decryptText` are imported by `src/device-state.ts`, but `src/ipfs.ts` and `src/keys.ts` at the modelled revision do not define them. `exists` is modelled as presence of the path; the other two as opaque functions.
- Local file-system errors (`readdir`, `stat`, reading a file) are not modelled: the local tree is given as data.
- A directory's CID does not depend on its contents in the model. CIDs are an opaque function of a node.
- In `backupFiles`, failures of `ipfs.add`, `pin.add`, `pin.rm` and `updateFileBackups` are not modelled. Each call is taken to succeed and is recorded in the call log.
- `fetchFileBackups` and the private API client are not part of this model. The fetched list is an input.
- `main`, the `setTimeout` rescheduling, the SIGINT handler of `src/index.ts` and all logging are not modelled.
- `Exit.Shutdown.Deliver` and `ExitProperties.DeliveredExitCodes`: on the process's own `"exit"` event the model runs the whole listener loop. The runtime ends the process right after its `exit` handlers return, so `exit` gets no further than the first `await fn()` (src/exit.ts:14), as the comment at src/exit.ts:32-34 says. Only the first listener is then guaranteed to be called, and the later ones are not.
- In the shutdown registry, the model also omits:
  - the `await` of async listeners: a rejected promise is treated like a throw, and what the runtime does with the unhandled rejection of `exit` is not modelled;
  - listeners that add or delete listeners while `exit` iterates. A listener deleted before the loop reaches it would be skipped, and one added would be visited; in the model listeners do not touch the registry, so `Exit.Shutdown.Exit` and `ExitProperties.FirstExitRunsListeners` state the loop over the set as it was when `exit` started;
  - the termination of the process by `process.exit`;
  - Node's default signal behaviour once a `once` handler has fired.

  Listener functions are identified by a number, as a `Set` compares them by reference.
- `SyncProperties.LevelFoldersExist` and `SyncProperties.SyncSpecFoldersExist`: the conclusion is proved only for collision-free name hashing and for an old manifest whose records carry the hashes of their names. Without them, a stale folder can share a path with a current one and be removed after it was created.
- `BackupProperties.AbsentFileKept`: states that a record of an absent file is kept unless a present file's old record shares its content hash. That is weaker than "never removed", which the code does not guarantee (see "## Findings").
- `BackupProperties.StepsKeep`: the hypothesis excludes every present file's fetched record with the absent file's content hash, unchanged files included. Only a changed file's record can trigger the drop, so the lemma is weaker than the code's behaviour.
- `SyncProperties.LevelRecords`: states the file records apart from their CIDs. The CIDs are stated by `SyncProperties.SyncFilesCids` for the store at the end of the file loop. The removal loop and the manifest write that follow can remove or replace a node at `<dir>/<nameHash>` (the removal loop targets `<dir>/<fileHash>`, see "## Findings"), so no CID claim is made about the store the level leaves.

## Findings

| source | as written | input that shows it | evidently intended | confidence | as-written member | corrected member |
|---|---|---|---|---|---|---|
| src/sync.ts:125 | an old record is removed only if `newFiles.find(f => f.filenameHash !== file.filenameHash)` finds nothing, i.e. only when no new record has a *different* name hash | any folder with two current files of different names: a file deleted locally keeps its blob forever | remove when no new record has the *same* name hash | high (not executed) | `SyncProperties.RemoveFilesInert` | `SyncProperties.IntendedRemoveFilesSpec` |
| src/sync.ts:126 | the removal targets `<dir>/<fileHash>`, but blobs are written to `<dir>/<filenameHash>` | a folder with one unchanged file on its second pass: its own record matches, `rm <dir>/<fileHash>` finds nothing and the pass throws before the manifest is written | remove `<dir>/<filenameHash>` | high (not executed) | `SyncProperties.SoleFileLevelFails` | `SyncProperties.IntendedRemoveFilesSpec` |
| src/index.ts:30 | a changed file's old records are dropped by `fileHash`, so any other file with the same old content loses its record | records `a:(cidA,H1)`, `b:(cidB,H1)`; listing `b` unchanged, then `a` changed to hash `H2`: `b`'s record is dropped although `b` is still present | drop the changed file's records by path | high (not executed) | `BackupProperties.RecordDropped` | `BackupProperties.IntendedStepsRecordFiles` |
