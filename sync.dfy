/** `syncLocalFolder`: one-way reconciliation of a local directory tree into an
    MFS directory. Names are hashed before they reach the store; each remote
    directory keeps an encrypted manifest; the pass recurses depth-first.

    The reference behaviour is given by the functions `Level` (one directory)
    and `SyncSpec` (the whole subtree), written in the accumulator style of
    the source's loops; the method `SyncLocalFolder` runs the same steps
    against a `Store` and is proved to agree with `SyncSpec`. */
module Sync {
  import opened Wrappers
  import opened Mfs
  import opened DeviceState

  type Content = seq<bv8>

  /** A local directory as `readdir(…, {withFileTypes: true})` lists it, in
      listing order, with each file's stat'd mtime (as its ISO string) and
      bytes. A finite tree, so the recursion terminates. */
  datatype Dir = Dir(entries: seq<Entry>)

  datatype Entry =
    | LocalFile(name: string, mtime: string, content: Content)
    | LocalDir(name: string, dir: Dir)
    | LocalOther(name: string)  // neither a file nor a directory (a symlink, a socket, ...)

  /** The collaborators the reconciler calls but that are not modelled:
      SHA-1 of a string and of a file, mime lookup (None for `false`),
      OpenPGP encryption of a named binary message, the CID the store
      assigns to a node, and the manifest's encryption and JSON codec. */
  datatype Env = Env(
    nameHash: string -> string,
    fileHash: Content -> string,
    mimeLookup: string -> Option<string>,
    encryptFile: (string, Content) -> Blob,
    cid: Node -> Cid,
    crypto: Crypto,
    json: Json<BackupFolderMetadata>)

  /** Names excluded from both the local and the remote file sets. */
  const IgnoreFiles: seq<string> := ["metadata"]

  /** The placeholder a record keeps for a value that was not computed. */
  const Unset: string := "unset"

  /** The directory entries of a local listing, in order. */
  function LocalFolders(es: seq<Entry>): (r: seq<Entry>)
    ensures forall e :: e in r <==> e in es && e.LocalDir?
  {
    if es == [] then []
    else (if es[0].LocalDir? then [es[0]] else []) + LocalFolders(es[1..])
  }

  /** The file entries of a local listing whose name is not ignored, in order. */
  function LocalFiles(es: seq<Entry>): (r: seq<Entry>)
    ensures forall e :: e in r <==> e in es && e.LocalFile? && e.name !in IgnoreFiles
  {
    if es == [] then []
    else (if es[0].LocalFile? && es[0].name !in IgnoreFiles then [es[0]] else []) + LocalFiles(es[1..])
  }

  /** Names of the directories of a remote listing. */
  function RemoteDirs(ls: set<RemoteEntry>): (r: set<string>)
    ensures forall h :: h in r <==> RemoteEntry(h, Directory) in ls
  {
    set e | e in ls && e.kind == Directory :: e.name
  }

  /** Names of the files of a remote listing, ignored names excluded. */
  function RemoteFiles(ls: set<RemoteEntry>): (r: set<string>)
    ensures forall h :: h in r <==> RemoteEntry(h, File) in ls && h !in IgnoreFiles
  {
    set e | e in ls && e.kind == File && e.name !in IgnoreFiles :: e.name
  }

  /** The folder records for a sequence of local directories, in order. */
  function FolderRecords(nameHash: string -> string, xs: seq<Entry>): (r: seq<FolderBackup>)
    ensures |r| == |xs|
    ensures forall i :: 0 <= i < |xs| ==> r[i] == FolderBackup(xs[i].name, nameHash(xs[i].name))
  {
    seq(|xs|, i requires 0 <= i < |xs| => FolderBackup(xs[i].name, nameHash(xs[i].name)))
  }

  lemma FolderRecordsCons(nameHash: string -> string, xs: seq<Entry>, acc: seq<FolderBackup>)
    requires xs != []
    ensures (acc + [FolderBackup(xs[0].name, nameHash(xs[0].name))]) + FolderRecords(nameHash, xs[1..])
         == acc + FolderRecords(nameHash, xs)
  {
    assert [FolderBackup(xs[0].name, nameHash(xs[0].name))] + FolderRecords(nameHash, xs[1..]) == FolderRecords(nameHash, xs);
  }

  /** A manifest whose remote names are the hashes of the local names it records. */
  predicate WellFormed(nameHash: string -> string, m: BackupFolderMetadata) {
    && (forall f | f in m.folders :: f.hash == nameHash(f.name))
    && (forall f | f in m.files :: f.filenameHash == nameHash(f.filename))
  }

  /** `files.find(f => f.filenameHash === h)`: the first record with that name hash. */
  function FindByNameHash(files: seq<FileBackup>, h: string): (r: Option<FileBackup>)
    ensures r.None? <==> forall f :: f in files ==> f.filenameHash != h
    ensures r.Some? ==> exists i :: 0 <= i < |files| && files[i] == r.value && r.value.filenameHash == h
                                    && forall k :: 0 <= k < i ==> files[k].filenameHash != h
  {
    if files == [] then None
    else if files[0].filenameHash == h then Some(files[0])
    else
      var r := FindByNameHash(files[1..], h);
      assert r.Some? ==> exists i :: 0 <= i < |files| - 1 && files[1..][i] == r.value && r.value.filenameHash == h
                                     && forall k :: 0 <= k < i ==> files[1..][k].filenameHash != h;
      r
  }

  /** `folders.find(f => f.name === name)` is defined. */
  predicate HasFolderNamed(folders: seq<FolderBackup>, name: string) {
    exists f | f in folders :: f.name == name
  }

  /** `files.find(f => f.filenameHash !== h)` is defined. */
  predicate HasOtherNameHash(files: seq<FileBackup>, h: string) {
    exists f | f in files :: f.filenameHash != h
  }

  /** Step 1: each local directory gets a remote directory named by the hash
      of its name, created only when the start-of-pass listing lacks it. */
  function CreateFolders(env: Env, p: Path, xs: seq<Entry>, remoteDirs: set<string>, w: World, acc: seq<FolderBackup>)
    : (r: Run<seq<FolderBackup>>)
    decreases |xs|
    ensures r.r.Ok? ==> r.r.value == acc + FolderRecords(env.nameHash, xs)
  {
    if xs == [] then Run(w, Ok(acc))
    else
      var hash := env.nameHash(xs[0].name);
      var folder := FolderBackup(xs[0].name, hash);
      FolderRecordsCons(env.nameHash, xs, acc);
      if hash !in remoteDirs then
        var made := Exec(w, Mkdir(p + [hash], true));
        if made.r.Err? then Run(made.w, Err(made.r.error))
        else CreateFolders(env, p, xs[1..], remoteDirs, made.w, acc + [folder])
      else CreateFolders(env, p, xs[1..], remoteDirs, w, acc + [folder])
  }

  /** Step 2: recursive removal of recorded folders that vanished locally and
      are still listed remotely. */
  function RemoveFolders(p: Path, oldFolders: seq<FolderBackup>, newFolders: seq<FolderBackup>, remoteDirs: set<string>, w: World)
    : Run<()>
    decreases |oldFolders|
  {
    if oldFolders == [] then Run(w, Ok(()))
    else
      var folder := oldFolders[0];
      if !HasFolderNamed(newFolders, folder.name) && folder.hash in remoteDirs then
        var removed := Exec(w, Rm(p + [folder.hash], true));
        if removed.r.Err? then removed
        else RemoveFolders(p, oldFolders[1..], newFolders, remoteDirs, removed.w)
      else RemoveFolders(p, oldFolders[1..], newFolders, remoteDirs, w)
  }

  /** Completes a file record with the CID that `files.stat` reports. */
  function StatRecord(env: Env, path: Path, rec: FileBackup, w: World): Run<FileBackup> {
    match Stat(w.nodes, path, env.cid)
    case Err(e) => Run(w, Err(e))
    case Ok(cid) => Run(w, Ok(rec.(ipfsHash := cid)))
  }

  /** The content hash is recomputed when there is no record, the mtime
      differs from the record, or the blob is missing from the listing. */
  predicate Rehashes(prior: Option<FileBackup>, mtime: string, present: bool) {
    prior.None? || mtime != prior.value.mtime || !present
  }

  /** The record a file yields, apart from the CID read back from the store. */
  function PlannedRecord(env: Env, f: Entry, oldFiles: seq<FileBackup>, remoteFiles: set<string>): FileBackup
    requires f.LocalFile?
  {
    var h := env.nameHash(f.name);
    var hash := if Rehashes(FindByNameHash(oldFiles, h), f.mtime, h in remoteFiles) then env.fileHash(f.content) else Unset;
    FileBackup(f.name, h, hash, env.mimeLookup(f.name), Unset, f.mtime)
  }

  /** `records` are the file loop's records for `xs`: one per local file, in
      order, each as planned apart from its CID. */
  predicate Recorded(env: Env, xs: seq<Entry>, oldFiles: seq<FileBackup>, remoteFiles: set<string>, records: seq<FileBackup>)
    requires forall e :: e in xs ==> e.LocalFile?
  {
    |records| == |xs| &&
    forall i :: 0 <= i < |xs| ==> records[i] == PlannedRecord(env, xs[i], oldFiles, remoteFiles).(ipfsHash := records[i].ipfsHash)
  }

  /** The file is encrypted and written iff its blob is missing remotely, or
      it has no record, or both its mtime and its content hash differ from
      the record. */
  predicate Rewrites(prior: Option<FileBackup>, mtime: string, hash: string, present: bool) {
    !present || prior.None? || (mtime != prior.value.mtime && hash != prior.value.fileHash)
  }

  /** One iteration of the file loop, branch for branch. */
  function FileStep(env: Env, p: Path, f: Entry, oldFiles: seq<FileBackup>, remoteFiles: set<string>, w: World)
    : (r: Run<FileBackup>)
    requires f.LocalFile?
    ensures var h := env.nameHash(f.name);
            var prior := FindByNameHash(oldFiles, h);
            var blob := env.encryptFile(f.name, f.content);
            var writes := Rewrites(prior, f.mtime, env.fileHash(f.content), h in remoteFiles);
            && (r.r.Ok? ==> r.r.value == PlannedRecord(env, f, oldFiles, remoteFiles).(ipfsHash := r.r.value.ipfsHash))
            && (r.r.Ok? ==> r.w.log == w.log + if writes then [Write(p + [h], blob, true, true)] else [])
            && (r.r.Ok? && writes ==> r.r.value.ipfsHash == env.cid(FileNode(blob)))
            && (r.r.Ok? && !writes ==> r.w == w)
            && (r.r.Ok? ==> p + [h] in r.w.nodes && r.r.value.ipfsHash == env.cid(r.w.nodes[p + [h]]))
            && (forall q :: q != p + [h] ==> Same(w.nodes, r.w.nodes, q))
  {
    var filenameHash := env.nameHash(f.name);
    var fileIpfsPath := p + [filenameHash];
    var oldFileBackup := FindByNameHash(oldFiles, filenameHash);
    var ipfsFile := filenameHash in remoteFiles;
    var fileBackup := FileBackup(f.name, filenameHash, Unset, env.mimeLookup(f.name), Unset, f.mtime);
    var mtimeChanged := oldFileBackup.None? || f.mtime != oldFileBackup.value.mtime;
    if mtimeChanged || !ipfsFile then
      var hash := env.fileHash(f.content);
      var hashChanged := oldFileBackup.None? || hash != oldFileBackup.value.fileHash;
      if hashChanged || !ipfsFile then
        var written := Exec(w, Write(fileIpfsPath, env.encryptFile(f.name, f.content), true, true));
        if written.r.Err? then Run(written.w, Err(written.r.error))
        else StatRecord(env, fileIpfsPath, fileBackup.(fileHash := hash), written.w)
      else StatRecord(env, fileIpfsPath, fileBackup.(fileHash := hash), w)
    else StatRecord(env, fileIpfsPath, fileBackup, w)
  }

  /** Step 3: the file loop, draining the local files in order. */
  function SyncFiles(env: Env, p: Path, xs: seq<Entry>, oldFiles: seq<FileBackup>, remoteFiles: set<string>, w: World, acc: seq<FileBackup>)
    : (r: Run<seq<FileBackup>>)
    requires forall e :: e in xs ==> e.LocalFile?
    decreases |xs|
    ensures r.r.Ok? ==> |r.r.value| == |acc| + |xs| && r.r.value[..|acc|] == acc
  {
    if xs == [] then Run(w, Ok(acc))
    else
      var step := FileStep(env, p, xs[0], oldFiles, remoteFiles, w);
      if step.r.Err? then Run(step.w, Err(step.r.error))
      else SyncFiles(env, p, xs[1..], oldFiles, remoteFiles, step.w, acc + [step.r.value])
  }

  /** Step 4: the file deletion loop as written: a recorded file is removed
      when no new record has a different name hash and its hashed name is
      listed remotely, and the path removed ends in its content hash. */
  function RemoveFiles(p: Path, oldFiles: seq<FileBackup>, newFiles: seq<FileBackup>, remoteFiles: set<string>, w: World)
    : Run<()>
    decreases |oldFiles|
  {
    if oldFiles == [] then Run(w, Ok(()))
    else
      var file := oldFiles[0];
      if !HasOtherNameHash(newFiles, file.filenameHash) && file.filenameHash in remoteFiles then
        var removed := Exec(w, Rm(p + [file.fileHash], false));
        if removed.r.Err? then removed
        else RemoveFiles(p, oldFiles[1..], newFiles, remoteFiles, removed.w)
      else RemoveFiles(p, oldFiles[1..], newFiles, remoteFiles, w)
  }

  /** The removal loop as evidently intended: a recorded file whose name hash
      no new record carries is removed at the path it was written to,
      `<p>/<filenameHash>`, when that blob is listed remotely. */
  function IntendedRemoveFiles(p: Path, oldFiles: seq<FileBackup>, newFiles: seq<FileBackup>, remoteFiles: set<string>, w: World)
    : Run<()>
    decreases |oldFiles|
  {
    if oldFiles == [] then Run(w, Ok(()))
    else
      var file := oldFiles[0];
      if (forall f | f in newFiles :: f.filenameHash != file.filenameHash) && file.filenameHash in remoteFiles then
        var removed := Exec(w, Rm(p + [file.filenameHash], false));
        if removed.r.Err? then removed
        else IntendedRemoveFiles(p, oldFiles[1..], newFiles, remoteFiles, removed.w)
      else IntendedRemoveFiles(p, oldFiles[1..], newFiles, remoteFiles, w)
  }

  /** The name hashes whose blobs the intended removal deletes: recorded in
      the old manifest, listed remotely, and carried by no new record. */
  function StaleBlobs(oldFiles: seq<FileBackup>, newFiles: seq<FileBackup>, remoteFiles: set<string>): set<string> {
    set f | f in oldFiles && f.filenameHash in remoteFiles && (forall g | g in newFiles :: g.filenameHash != f.filenameHash)
          :: f.filenameHash
  }

  /** One directory level: everything `syncLocalFolder` does before recursing,
      ending with the single manifest write. */
  function Level(env: Env, d: Dir, p: Path, w: World): (r: Run<BackupFolderMetadata>)
    ensures r.r.Ok? ==> r.r.value.folders == FolderRecords(env.nameHash, LocalFolders(d.entries))
  {
    var metadata := ReadFolderMetadata(w.nodes, p, env.crypto, env.json);
    var ls := Listing(w.nodes, p);
    if ls.Err? then Run(w, Err(ls.error))
    else
      var ipfsFolders := RemoteDirs(ls.value);
      var created := CreateFolders(env, p, LocalFolders(d.entries), ipfsFolders, w, []);
      if created.r.Err? then Run(created.w, Err(created.r.error))
      else
        var removed := RemoveFolders(p, metadata.folders, created.r.value, ipfsFolders, created.w);
        if removed.r.Err? then Run(removed.w, Err(removed.r.error))
        else
          var ipfsFiles := RemoteFiles(ls.value);
          var synced := SyncFiles(env, p, LocalFiles(d.entries), metadata.files, ipfsFiles, removed.w, []);
          if synced.r.Err? then Run(synced.w, Err(synced.r.error))
          else
            var pruned := RemoveFiles(p, metadata.files, synced.r.value, ipfsFiles, synced.w);
            if pruned.r.Err? then Run(pruned.w, Err(pruned.r.error))
            else
              var result := BackupFolderMetadata(synced.r.value, created.r.value);
              var written := WriteFolderMetadataRun(pruned.w, p, result, env.crypto, env.json);
              if written.r.Err? then Run(written.w, Err(written.r.error))
              else Run(written.w, Ok(result))
  }

  /** The whole pass over a subtree: the level, then each recorded subfolder
      in manifest order; the level's manifest is the result. */
  function SyncSpec(env: Env, d: Dir, p: Path, w: World): Run<BackupFolderMetadata>
    decreases d, 1
  {
    var level := Level(env, d, p, w);
    if level.r.Err? then level
    else
      var rest := SyncSubfolders(env, d, LocalFolders(d.entries), level.r.value.folders, p, level.w);
      if rest.r.Err? then Run(rest.w, Err(rest.r.error)) else Run(rest.w, level.r)
  }

  /** The recursion over `metadata.folders`: folder i is the i-th local
      subdirectory (the one named `folders[i].name`), synced into
      `<p>/<folders[i].hash>`. */
  function SyncSubfolders(env: Env, d: Dir, subs: seq<Entry>, folders: seq<FolderBackup>, p: Path, w: World): Run<()>
    requires |subs| == |folders|
    requires forall e :: e in subs ==> e in d.entries && e.LocalDir?
    decreases d, 0, |subs|
  {
    if subs == [] then Run(w, Ok(()))
    else
      assert subs[0] in d.entries;
      var sub := SyncSpec(env, subs[0].dir, p + [folders[0].hash], w);
      if sub.r.Err? then Run(sub.w, Err(sub.r.error))
      else SyncSubfolders(env, d, subs[1..], folders[1..], p, sub.w)
  }

  /** The folder-creation loop of `syncLocalFolder`. */
  method CreateRemoteFolders(fs: Store, env: Env, p: Path, localFolders: seq<Entry>, ipfsFolders: set<string>)
    returns (r: Result<seq<FolderBackup>, StoreError>)
    modifies fs
    ensures Run(fs.State(), r) == CreateFolders(env, p, localFolders, ipfsFolders, old(fs.State()), [])
  {
    ghost var w0 := fs.State();
    var newFolders: seq<FolderBackup> := [];
    for i := 0 to |localFolders|
      invariant CreateFolders(env, p, localFolders[i..], ipfsFolders, fs.State(), newFolders)
             == CreateFolders(env, p, localFolders, ipfsFolders, w0, [])
    {
      var hash := env.nameHash(localFolders[i].name);
      if hash !in ipfsFolders {
        var made := fs.Mkdir(p + [hash], true);
        if made.Err? {
          return Err(made.error);
        }
      }
      newFolders := newFolders + [FolderBackup(localFolders[i].name, hash)];
    }
    assert localFolders[|localFolders|..] == [];
    return Ok(newFolders);
  }

  /** The folder-removal loop of `syncLocalFolder`. */
  method RemoveStaleFolders(fs: Store, p: Path, oldFolders: seq<FolderBackup>, newFolders: seq<FolderBackup>, ipfsFolders: set<string>)
    returns (r: Result<(), StoreError>)
    modifies fs
    ensures Run(fs.State(), r) == RemoveFolders(p, oldFolders, newFolders, ipfsFolders, old(fs.State()))
  {
    ghost var w0 := fs.State();
    for i := 0 to |oldFolders|
      invariant RemoveFolders(p, oldFolders[i..], newFolders, ipfsFolders, fs.State())
             == RemoveFolders(p, oldFolders, newFolders, ipfsFolders, w0)
    {
      var folder := oldFolders[i];
      if !HasFolderNamed(newFolders, folder.name) && folder.hash in ipfsFolders {
        var removed := fs.Rm(p + [folder.hash], true);
        if removed.Err? {
          return Err(removed.error);
        }
      }
    }
    assert oldFolders[|oldFolders|..] == [];
    return Ok(());
  }

  /** The body of the file loop of `syncLocalFolder` for one local file. */
  method SyncFile(fs: Store, env: Env, p: Path, localFile: Entry, oldFiles: seq<FileBackup>, ipfsFiles: set<string>)
    returns (r: Result<FileBackup, StoreError>)
    requires localFile.LocalFile?
    modifies fs
    ensures Run(fs.State(), r) == FileStep(env, p, localFile, oldFiles, ipfsFiles, old(fs.State()))
  {
    var filenameHash := env.nameHash(localFile.name);
    var fileIpfsPath := p + [filenameHash];
    var oldFileBackup := FindByNameHash(oldFiles, filenameHash);
    var ipfsFile := filenameHash in ipfsFiles;
    var mimeType := env.mimeLookup(localFile.name);
    var fileBackup := FileBackup(localFile.name, filenameHash, Unset, mimeType, Unset, localFile.mtime);
    var mtimeChanged := oldFileBackup.None? || localFile.mtime != oldFileBackup.value.mtime;
    if mtimeChanged || !ipfsFile {
      var hash := env.fileHash(localFile.content);
      var hashChanged := oldFileBackup.None? || hash != oldFileBackup.value.fileHash;
      fileBackup := fileBackup.(fileHash := hash);
      if hashChanged || !ipfsFile {
        var encrypted := env.encryptFile(localFile.name, localFile.content);
        var written := fs.Write(fileIpfsPath, encrypted, true, true);
        if written.Err? {
          return Err(written.error);
        }
      }
    }
    var stat := fs.StatCid(fileIpfsPath, env.cid);
    if stat.Err? {
      return Err(stat.error);
    }
    return Ok(fileBackup.(ipfsHash := stat.value));
  }

  /** The file loop of `syncLocalFolder`, which shifts local files off the front. */
  method SyncFileEntries(fs: Store, env: Env, p: Path, localFiles: seq<Entry>, oldFiles: seq<FileBackup>, ipfsFiles: set<string>)
    returns (r: Result<seq<FileBackup>, StoreError>)
    requires forall e :: e in localFiles ==> e.LocalFile?
    modifies fs
    ensures Run(fs.State(), r) == SyncFiles(env, p, localFiles, oldFiles, ipfsFiles, old(fs.State()), [])
  {
    ghost var w0 := fs.State();
    var rest := localFiles;
    var newFiles: seq<FileBackup> := [];
    while |rest| > 0
      invariant forall e :: e in rest ==> e.LocalFile?
      invariant SyncFiles(env, p, rest, oldFiles, ipfsFiles, fs.State(), newFiles)
             == SyncFiles(env, p, localFiles, oldFiles, ipfsFiles, w0, [])
      decreases |rest|
    {
      var localFile := rest[0];
      rest := rest[1..];
      var fileBackup := SyncFile(fs, env, p, localFile, oldFiles, ipfsFiles);
      if fileBackup.Err? {
        return Err(fileBackup.error);
      }
      newFiles := newFiles + [fileBackup.value];
    }
    return Ok(newFiles);
  }

  /** The file-removal loop of `syncLocalFolder`, as written. */
  method RemoveStaleFiles(fs: Store, p: Path, oldFiles: seq<FileBackup>, newFiles: seq<FileBackup>, ipfsFiles: set<string>)
    returns (r: Result<(), StoreError>)
    modifies fs
    ensures Run(fs.State(), r) == RemoveFiles(p, oldFiles, newFiles, ipfsFiles, old(fs.State()))
  {
    ghost var w0 := fs.State();
    for i := 0 to |oldFiles|
      invariant RemoveFiles(p, oldFiles[i..], newFiles, ipfsFiles, fs.State())
             == RemoveFiles(p, oldFiles, newFiles, ipfsFiles, w0)
    {
      var file := oldFiles[i];
      if !HasOtherNameHash(newFiles, file.filenameHash) && file.filenameHash in ipfsFiles {
        var removed := fs.Rm(p + [file.fileHash], false);
        if removed.Err? {
          return Err(removed.error);
        }
      }
    }
    assert oldFiles[|oldFiles|..] == [];
    return Ok(());
  }

  /** One level of `syncLocalFolder`: everything before the recursion. */
  method SyncLevel(fs: Store, env: Env, d: Dir, p: Path) returns (r: Result<BackupFolderMetadata, StoreError>)
    modifies fs
    ensures Run(fs.State(), r) == Level(env, d, p, old(fs.State()))
  {
    var metadata := ReadFolderMetadata(fs.nodes, p, env.crypto, env.json);
    var ls := fs.Ls(p);
    if ls.Err? {
      return Err(ls.error);
    }
    var ipfsFolders := RemoteDirs(ls.value);
    var newFolders := CreateRemoteFolders(fs, env, p, LocalFolders(d.entries), ipfsFolders);
    if newFolders.Err? {
      return Err(newFolders.error);
    }
    var removed := RemoveStaleFolders(fs, p, metadata.folders, newFolders.value, ipfsFolders);
    if removed.Err? {
      return Err(removed.error);
    }
    var ipfsFiles := RemoteFiles(ls.value);
    var newFiles := SyncFileEntries(fs, env, p, LocalFiles(d.entries), metadata.files, ipfsFiles);
    if newFiles.Err? {
      return Err(newFiles.error);
    }
    var pruned := RemoveStaleFiles(fs, p, metadata.files, newFiles.value, ipfsFiles);
    if pruned.Err? {
      return Err(pruned.error);
    }
    metadata := BackupFolderMetadata(newFiles.value, newFolders.value);
    var written := WriteFolderMetadata(fs, p, metadata, env.crypto, env.json);
    if written.Err? {
      return Err(written.error);
    }
    return Ok(metadata);
  }

  /** `syncLocalFolder(localPath, ipfsPath)` against the MFS client `fs`. */
  method SyncLocalFolder(fs: Store, env: Env, d: Dir, p: Path) returns (r: Result<BackupFolderMetadata, StoreError>)
    modifies fs
    decreases d, 1
    ensures Run(fs.State(), r) == SyncSpec(env, d, p, old(fs.State()))
  {
    var metadata := SyncLevel(fs, env, d, p);
    if metadata.Err? {
      return metadata;
    }
    var recursed := SyncSubfolderEntries(fs, env, d, LocalFolders(d.entries), metadata.value.folders, p);
    if recursed.Err? {
      return Err(recursed.error);
    }
    return metadata;
  }

  /** The recursion loop of `syncLocalFolder` over the new folder records. */
  method SyncSubfolderEntries(fs: Store, env: Env, d: Dir, subs: seq<Entry>, folders: seq<FolderBackup>, p: Path)
    returns (r: Result<(), StoreError>)
    requires |subs| == |folders|
    requires forall e :: e in subs ==> e in d.entries && e.LocalDir?
    modifies fs
    decreases d, 0
    ensures Run(fs.State(), r) == SyncSubfolders(env, d, subs, folders, p, old(fs.State()))
  {
    ghost var w0 := fs.State();
    for i := 0 to |folders|
      invariant SyncSubfolders(env, d, subs[i..], folders[i..], p, fs.State())
             == SyncSubfolders(env, d, subs, folders, p, w0)
    {
      assert subs[i] in d.entries;
      var sub := SyncLocalFolder(fs, env, subs[i].dir, p + [folders[i].hash]);
      if sub.Err? {
        return Err(sub.error);
      }
    }
    return Ok(());
  }
}
