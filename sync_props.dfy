/** Properties of the reconciler: where it may write, what the manifest it
    returns holds, which directories exist afterwards, and that the manifest
    can be read back. */
module SyncProperties {
  import opened Wrappers
  import opened Mfs
  import opened DeviceState
  import opened Sync

  // ---------------------------------------------------------------------
  // Confinement: a pass into `p` changes nothing outside `p`'s subtree.

  lemma {:induction false} CreateFoldersFrame(env: Env, p: Path, xs: seq<Entry>, remoteDirs: set<string>, w: World, acc: seq<FolderBackup>)
    requires IsDir(w.nodes, p)
    ensures FramedUnder(w.nodes, CreateFolders(env, p, xs, remoteDirs, w, acc).w.nodes, p)
    decreases |xs|
  {
    if xs != [] {
      var hash := env.nameHash(xs[0].name);
      var folder := FolderBackup(xs[0].name, hash);
      if hash !in remoteDirs {
        var op := Mkdir(p + [hash], true);
        ChildUnder(p, hash);
        ExecFrame(w, op, p);
        var made := Exec(w, op);
        if made.r.Ok? {
          FramedKeepsRoot(w.nodes, made.w.nodes, p);
          CreateFoldersFrame(env, p, xs[1..], remoteDirs, made.w, acc + [folder]);
          FramedTrans(w.nodes, made.w.nodes, CreateFolders(env, p, xs, remoteDirs, w, acc).w.nodes, p);
        }
      } else {
        CreateFoldersFrame(env, p, xs[1..], remoteDirs, w, acc + [folder]);
      }
    }
  }

  lemma {:induction false} RemoveFoldersFrame(p: Path, oldFolders: seq<FolderBackup>, newFolders: seq<FolderBackup>, remoteDirs: set<string>, w: World)
    requires IsDir(w.nodes, p)
    ensures FramedUnder(w.nodes, RemoveFolders(p, oldFolders, newFolders, remoteDirs, w).w.nodes, p)
    decreases |oldFolders|
  {
    if oldFolders != [] {
      var folder := oldFolders[0];
      if !HasFolderNamed(newFolders, folder.name) && folder.hash in remoteDirs {
        var op := Rm(p + [folder.hash], true);
        ChildUnder(p, folder.hash);
        ExecFrame(w, op, p);
        var removed := Exec(w, op);
        if removed.r.Ok? {
          FramedKeepsRoot(w.nodes, removed.w.nodes, p);
          RemoveFoldersFrame(p, oldFolders[1..], newFolders, remoteDirs, removed.w);
          FramedTrans(w.nodes, removed.w.nodes, RemoveFolders(p, oldFolders, newFolders, remoteDirs, w).w.nodes, p);
        }
      } else {
        RemoveFoldersFrame(p, oldFolders[1..], newFolders, remoteDirs, w);
      }
    }
  }

  lemma FileStepFrame(env: Env, p: Path, f: Entry, oldFiles: seq<FileBackup>, remoteFiles: set<string>, w: World)
    requires f.LocalFile? && IsDir(w.nodes, p)
    ensures FramedUnder(w.nodes, FileStep(env, p, f, oldFiles, remoteFiles, w).w.nodes, p)
  {
    var h := env.nameHash(f.name);
    var op := Write(p + [h], env.encryptFile(f.name, f.content), true, true);
    var r := FileStep(env, p, f, oldFiles, remoteFiles, w);
    assert r.w == w || r.w == Exec(w, op).w;
    ChildUnder(p, h);
    ExecFrame(w, op, p);
  }

  lemma {:induction false} SyncFilesFrame(env: Env, p: Path, xs: seq<Entry>, oldFiles: seq<FileBackup>, remoteFiles: set<string>, w: World, acc: seq<FileBackup>)
    requires forall e :: e in xs ==> e.LocalFile?
    requires IsDir(w.nodes, p)
    ensures FramedUnder(w.nodes, SyncFiles(env, p, xs, oldFiles, remoteFiles, w, acc).w.nodes, p)
    decreases |xs|
  {
    if xs != [] {
      var step := FileStep(env, p, xs[0], oldFiles, remoteFiles, w);
      FileStepFrame(env, p, xs[0], oldFiles, remoteFiles, w);
      if step.r.Ok? {
        FramedKeepsRoot(w.nodes, step.w.nodes, p);
        SyncFilesFrame(env, p, xs[1..], oldFiles, remoteFiles, step.w, acc + [step.r.value]);
        FramedTrans(w.nodes, step.w.nodes, SyncFiles(env, p, xs, oldFiles, remoteFiles, w, acc).w.nodes, p);
      }
    }
  }

  lemma {:induction false} RemoveFilesFrame(p: Path, oldFiles: seq<FileBackup>, newFiles: seq<FileBackup>, remoteFiles: set<string>, w: World)
    requires IsDir(w.nodes, p)
    ensures FramedUnder(w.nodes, RemoveFiles(p, oldFiles, newFiles, remoteFiles, w).w.nodes, p)
    decreases |oldFiles|
  {
    if oldFiles != [] {
      var file := oldFiles[0];
      if !HasOtherNameHash(newFiles, file.filenameHash) && file.filenameHash in remoteFiles {
        var op := Rm(p + [file.fileHash], false);
        ChildUnder(p, file.fileHash);
        ExecFrame(w, op, p);
        var removed := Exec(w, op);
        if removed.r.Ok? {
          FramedKeepsRoot(w.nodes, removed.w.nodes, p);
          RemoveFilesFrame(p, oldFiles[1..], newFiles, remoteFiles, removed.w);
          FramedTrans(w.nodes, removed.w.nodes, RemoveFiles(p, oldFiles, newFiles, remoteFiles, w).w.nodes, p);
        }
      } else {
        RemoveFilesFrame(p, oldFiles[1..], newFiles, remoteFiles, w);
      }
    }
  }

  /** One level changes nothing outside the subtree of `p`, whether it
      succeeds or stops at an error. */
  lemma LevelFrame(env: Env, d: Dir, p: Path, w: World)
    ensures FramedUnder(w.nodes, Level(env, d, p, w).w.nodes, p)
  {
    var metadata := ReadFolderMetadata(w.nodes, p, env.crypto, env.json);
    var ls := Listing(w.nodes, p);
    if ls.Ok? {
      var ipfsFolders := RemoteDirs(ls.value);
      var created := CreateFolders(env, p, LocalFolders(d.entries), ipfsFolders, w, []);
      CreateFoldersFrame(env, p, LocalFolders(d.entries), ipfsFolders, w, []);
      if created.r.Ok? {
        FramedKeepsRoot(w.nodes, created.w.nodes, p);
        var removed := RemoveFolders(p, metadata.folders, created.r.value, ipfsFolders, created.w);
        RemoveFoldersFrame(p, metadata.folders, created.r.value, ipfsFolders, created.w);
        if removed.r.Ok? {
          FramedKeepsRoot(created.w.nodes, removed.w.nodes, p);
          var ipfsFiles := RemoteFiles(ls.value);
          var synced := SyncFiles(env, p, LocalFiles(d.entries), metadata.files, ipfsFiles, removed.w, []);
          SyncFilesFrame(env, p, LocalFiles(d.entries), metadata.files, ipfsFiles, removed.w, []);
          if synced.r.Ok? {
            FramedKeepsRoot(removed.w.nodes, synced.w.nodes, p);
            var pruned := RemoveFiles(p, metadata.files, synced.r.value, ipfsFiles, synced.w);
            RemoveFilesFrame(p, metadata.files, synced.r.value, ipfsFiles, synced.w);
            if pruned.r.Ok? {
              FramedKeepsRoot(synced.w.nodes, pruned.w.nodes, p);
              var result := BackupFolderMetadata(synced.r.value, created.r.value);
              ChildUnder(p, MetadataName);
              ExecFrame(pruned.w, Write(MetadataPath(p), env.crypto.encryptText(env.json.stringify(result)), true, true), p);
            }
          }
        }
      }
    }
  }

  /** A whole pass into `p` changes nothing outside the subtree of `p`: the
      device document, the other backups and `p` itself are untouched. */
  lemma {:induction false} SyncSpecFrame(env: Env, d: Dir, p: Path, w: World)
    ensures FramedUnder(w.nodes, SyncSpec(env, d, p, w).w.nodes, p)
    decreases d, 1
  {
    LevelFrame(env, d, p, w);
    var level := Level(env, d, p, w);
    if level.r.Ok? {
      SyncSubfoldersFrame(env, d, LocalFolders(d.entries), level.r.value.folders, p, level.w);
    }
  }

  /** The recursion below `p` changes only nodes two or more levels down, so
      `p`'s own children (its manifest and subfolder directories) stay. */
  lemma {:induction false} SyncSubfoldersFrame(env: Env, d: Dir, subs: seq<Entry>, folders: seq<FolderBackup>, p: Path, w: World)
    requires |subs| == |folders|
    requires forall e :: e in subs ==> e in d.entries && e.LocalDir?
    ensures FramedDeep(w.nodes, SyncSubfolders(env, d, subs, folders, p, w).w.nodes, p)
    decreases d, 0, |subs|
  {
    if subs != [] {
      var sub := SyncSpec(env, subs[0].dir, p + [folders[0].hash], w);
      SyncSpecFrame(env, subs[0].dir, p + [folders[0].hash], w);
      FramedDeepOfChild(w.nodes, sub.w.nodes, p, folders[0].hash);
      if sub.r.Ok? {
        SyncSubfoldersFrame(env, d, subs[1..], folders[1..], p, sub.w);
      }
    }
  }

  // ---------------------------------------------------------------------
  // The manifest a level returns.

  lemma SplitAt<T>(v: seq<T>, k: nat)
    requires k < |v|
    ensures v[k..] == [v[k]] + v[k + 1..]
  {
  }

  /** One turn of the file loop: the first file's record is the planned one,
      and the rest of the loop continues from the step's store. */
  lemma SyncFilesUnfold(env: Env, p: Path, xs: seq<Entry>, oldFiles: seq<FileBackup>, remoteFiles: set<string>, w: World, acc: seq<FileBackup>)
    requires xs != [] && forall e :: e in xs ==> e.LocalFile?
    requires SyncFiles(env, p, xs, oldFiles, remoteFiles, w, acc).r.Ok?
    ensures var step := FileStep(env, p, xs[0], oldFiles, remoteFiles, w);
            && step.r.Ok?
            && step.r.value == PlannedRecord(env, xs[0], oldFiles, remoteFiles).(ipfsHash := step.r.value.ipfsHash)
            && SyncFiles(env, p, xs, oldFiles, remoteFiles, w, acc)
               == SyncFiles(env, p, xs[1..], oldFiles, remoteFiles, step.w, acc + [step.r.value])
  {
  }

  lemma {:induction false} SyncFilesRecords(env: Env, p: Path, xs: seq<Entry>, oldFiles: seq<FileBackup>, remoteFiles: set<string>, w: World, acc: seq<FileBackup>)
    requires forall e :: e in xs ==> e.LocalFile?
    requires SyncFiles(env, p, xs, oldFiles, remoteFiles, w, acc).r.Ok?
    ensures Recorded(env, xs, oldFiles, remoteFiles, SyncFiles(env, p, xs, oldFiles, remoteFiles, w, acc).r.value[|acc|..])
    decreases |xs|
  {
    var v := SyncFiles(env, p, xs, oldFiles, remoteFiles, w, acc).r.value;
    if xs != [] {
      SyncFilesUnfold(env, p, xs, oldFiles, remoteFiles, w, acc);
      var step := FileStep(env, p, xs[0], oldFiles, remoteFiles, w);
      var rec := step.r.value;
      var acc' := acc + [rec];
      SyncFilesRecords(env, p, xs[1..], oldFiles, remoteFiles, step.w, acc');
      var tail := v[|acc'|..];
      var r := v[|acc|..];
      assert v[..|acc'|] == acc';
      assert v[|acc|] == v[..|acc'|][|acc|];
      SplitAt(v, |acc|);
      forall i | 0 <= i < |xs|
        ensures r[i] == PlannedRecord(env, xs[i], oldFiles, remoteFiles).(ipfsHash := r[i].ipfsHash)
      {
        if i > 0 {
          assert r[i] == tail[i - 1] && xs[i] == xs[1..][i - 1];
        }
      }
    }
  }

  /** The file loop leaves alone every node that is not the blob path of one
      of its files. */
  lemma {:induction false} SyncFilesOutside(env: Env, p: Path, xs: seq<Entry>, oldFiles: seq<FileBackup>, remoteFiles: set<string>, w: World, acc: seq<FileBackup>, q: Path)
    requires forall e :: e in xs ==> e.LocalFile?
    requires forall e :: e in xs ==> q != p + [env.nameHash(e.name)]
    ensures Same(w.nodes, SyncFiles(env, p, xs, oldFiles, remoteFiles, w, acc).w.nodes, q)
    decreases |xs|
  {
    if xs != [] {
      assert xs[0] in xs;
      var step := FileStep(env, p, xs[0], oldFiles, remoteFiles, w);
      if step.r.Ok? {
        assert forall e :: e in xs[1..] ==> e in xs;
        SyncFilesOutside(env, p, xs[1..], oldFiles, remoteFiles, step.w, acc + [step.r.value], q);
      }
    }
  }

  /** No later local file than the `i`-th has the same name hash. */
  ghost predicate LastWithHash(nameHash: string -> string, xs: seq<Entry>, i: int)
    requires 0 <= i < |xs|
  {
    forall j :: i < j < |xs| ==> nameHash(xs[j].name) != nameHash(xs[i].name)
  }

  /** `rec` carries the CID of the node stored at `<p>/<nameHash>` of `x`. */
  ghost predicate StatedCid(env: Env, p: Path, x: Entry, n: Nodes, rec: FileBackup) {
    var q := p + [env.nameHash(x.name)];
    q in n && rec.ipfsHash == env.cid(n[q])
  }

  lemma SyncFilesCidHead(env: Env, p: Path, xs: seq<Entry>, oldFiles: seq<FileBackup>, remoteFiles: set<string>, w: World, acc: seq<FileBackup>)
    requires xs != [] && forall e :: e in xs ==> e.LocalFile?
    requires SyncFiles(env, p, xs, oldFiles, remoteFiles, w, acc).r.Ok?
    requires LastWithHash(env.nameHash, xs, 0)
    ensures var s := SyncFiles(env, p, xs, oldFiles, remoteFiles, w, acc);
            StatedCid(env, p, xs[0], s.w.nodes, s.r.value[|acc|])
  {
    var s := SyncFiles(env, p, xs, oldFiles, remoteFiles, w, acc);
    SyncFilesUnfold(env, p, xs, oldFiles, remoteFiles, w, acc);
    var step := FileStep(env, p, xs[0], oldFiles, remoteFiles, w);
    var acc' := acc + [step.r.value];
    var q := p + [env.nameHash(xs[0].name)];
    forall e | e in xs[1..] ensures q != p + [env.nameHash(e.name)] {
      var k :| 0 <= k < |xs[1..]| && xs[1..][k] == e;
      assert xs[k + 1] == e;
      SiblingsApart(p, env.nameHash(e.name), env.nameHash(xs[0].name));
    }
    SyncFilesOutside(env, p, xs[1..], oldFiles, remoteFiles, step.w, acc', q);
    assert s.r.value[..|acc'|] == acc';
    assert s.r.value[|acc|] == s.r.value[..|acc'|][|acc|];
  }

  lemma LastWithHashTail(nameHash: string -> string, xs: seq<Entry>, i: int)
    requires 0 < i < |xs| && LastWithHash(nameHash, xs, i)
    ensures LastWithHash(nameHash, xs[1..], i - 1)
  {
    var t := xs[1..];
    forall j | i - 1 < j < |t| ensures nameHash(t[j].name) != nameHash(t[i - 1].name) {
      assert t[j] == xs[j + 1] && t[i - 1] == xs[i];
    }
  }

  /** The file loop after its first iteration, with that iteration hidden. */
  lemma SyncFilesNext(env: Env, p: Path, xs: seq<Entry>, oldFiles: seq<FileBackup>, remoteFiles: set<string>, w: World, acc: seq<FileBackup>)
    returns (w': World, acc': seq<FileBackup>)
    requires xs != [] && forall e :: e in xs ==> e.LocalFile?
    requires SyncFiles(env, p, xs, oldFiles, remoteFiles, w, acc).r.Ok?
    ensures |acc'| == |acc| + 1
    ensures SyncFiles(env, p, xs[1..], oldFiles, remoteFiles, w', acc') == SyncFiles(env, p, xs, oldFiles, remoteFiles, w, acc)
  {
    SyncFilesUnfold(env, p, xs, oldFiles, remoteFiles, w, acc);
    var step := FileStep(env, p, xs[0], oldFiles, remoteFiles, w);
    w', acc' := step.w, acc + [step.r.value];
  }

  lemma {:induction false} SyncFilesCidAt(env: Env, p: Path, xs: seq<Entry>, oldFiles: seq<FileBackup>, remoteFiles: set<string>, w: World, acc: seq<FileBackup>, i: int, x: Entry, k: int)
    requires forall e :: e in xs ==> e.LocalFile?
    requires SyncFiles(env, p, xs, oldFiles, remoteFiles, w, acc).r.Ok?
    requires 0 <= i < |xs| && xs[i] == x && LastWithHash(env.nameHash, xs, i) && k == |acc| + i
    ensures StatedCid(env, p, x, SyncFiles(env, p, xs, oldFiles, remoteFiles, w, acc).w.nodes,
                      SyncFiles(env, p, xs, oldFiles, remoteFiles, w, acc).r.value[k])
    decreases |xs|
  {
    if i == 0 {
      SyncFilesCidHead(env, p, xs, oldFiles, remoteFiles, w, acc);
    } else {
      var w', acc' := SyncFilesNext(env, p, xs, oldFiles, remoteFiles, w, acc);
      var t := xs[1..];
      assert forall e :: e in t ==> e in xs;
      LastWithHashTail(env.nameHash, xs, i);
      SyncFilesCidAt(env, p, t, oldFiles, remoteFiles, w', acc', i - 1, x, k);
    }
  }

  /** Each record the file loop builds carries the CID `files.stat` reports
      for `<p>/<nameHash>` once the loop is over, unless a later local file
      shares its name hash and overwrote that blob. */
  lemma SyncFilesCids(env: Env, p: Path, xs: seq<Entry>, oldFiles: seq<FileBackup>, remoteFiles: set<string>, w: World, acc: seq<FileBackup>)
    requires forall e :: e in xs ==> e.LocalFile?
    requires SyncFiles(env, p, xs, oldFiles, remoteFiles, w, acc).r.Ok?
    ensures forall i :: 0 <= i < |xs| && LastWithHash(env.nameHash, xs, i) ==>
              StatedCid(env, p, xs[i], SyncFiles(env, p, xs, oldFiles, remoteFiles, w, acc).w.nodes,
                        SyncFiles(env, p, xs, oldFiles, remoteFiles, w, acc).r.value[|acc| + i])
  {
    forall i | 0 <= i < |xs| && LastWithHash(env.nameHash, xs, i)
      ensures StatedCid(env, p, xs[i], SyncFiles(env, p, xs, oldFiles, remoteFiles, w, acc).w.nodes,
                        SyncFiles(env, p, xs, oldFiles, remoteFiles, w, acc).r.value[|acc| + i])
    {
      SyncFilesCidAt(env, p, xs, oldFiles, remoteFiles, w, acc, i, xs[i], |acc| + i);
    }
  }

  /** A level's file records follow the non-ignored local files one for one,
      and its folder records the local subdirectories. */
  lemma LevelRecords(env: Env, d: Dir, p: Path, w: World)
    requires Level(env, d, p, w).r.Ok?
    ensures Listing(w.nodes, p).Ok?
    ensures Recorded(env, LocalFiles(d.entries), ReadFolderMetadata(w.nodes, p, env.crypto, env.json).files,
                     RemoteFiles(Listing(w.nodes, p).value), Level(env, d, p, w).r.value.files)
    ensures Level(env, d, p, w).r.value.folders == FolderRecords(env.nameHash, LocalFolders(d.entries))
  {
    var metadata := ReadFolderMetadata(w.nodes, p, env.crypto, env.json);
    var ls := Listing(w.nodes, p);
    var ipfsFolders := RemoteDirs(ls.value);
    var created := CreateFolders(env, p, LocalFolders(d.entries), ipfsFolders, w, []);
    var removed := RemoveFolders(p, metadata.folders, created.r.value, ipfsFolders, created.w);
    SyncFilesRecords(env, p, LocalFiles(d.entries), metadata.files, RemoteFiles(ls.value), removed.w, []);
  }

  /** The manifest a level writes names every remote entry by the hash of the
      local name, and never records an ignored name such as `metadata`. */
  lemma LevelManifestShape(env: Env, d: Dir, p: Path, w: World)
    requires Level(env, d, p, w).r.Ok?
    ensures WellFormed(env.nameHash, Level(env, d, p, w).r.value)
    ensures forall f :: f in Level(env, d, p, w).r.value.files ==> f.filename !in IgnoreFiles
  {
    LevelRecords(env, d, p, w);
    var m := Level(env, d, p, w).r.value;
    var xs := LocalFiles(d.entries);
    forall f | f in m.files ensures f.filenameHash == env.nameHash(f.filename) && f.filename !in IgnoreFiles {
      var i :| 0 <= i < |m.files| && m.files[i] == f;
      assert xs[i] in xs;
    }
    forall f | f in m.folders ensures f.hash == env.nameHash(f.name) {
      var i :| 0 <= i < |m.folders| && m.folders[i] == f;
    }
  }

  // ---------------------------------------------------------------------
  // Mirroring: after a pass, every local subdirectory has its remote twin.

  lemma {:induction false} CreateFoldersDirs(env: Env, p: Path, xs: seq<Entry>, remoteDirs: set<string>, w: World, acc: seq<FolderBackup>)
    requires forall h :: h in remoteDirs ==> IsDir(w.nodes, p + [h])
    ensures var r := CreateFolders(env, p, xs, remoteDirs, w, acc);
            r.r.Ok? ==> DirsKept(w.nodes, r.w.nodes) && forall x :: x in xs ==> IsDir(r.w.nodes, p + [env.nameHash(x.name)])
    decreases |xs|
  {
    if xs != [] {
      var hash := env.nameHash(xs[0].name);
      var folder := FolderBackup(xs[0].name, hash);
      if hash !in remoteDirs {
        var made := Exec(w, Mkdir(p + [hash], true));
        if made.r.Ok? {
          ExecKeepsDirs(w, Mkdir(p + [hash], true));
          CreateFoldersDirs(env, p, xs[1..], remoteDirs, made.w, acc + [folder]);
        }
      } else {
        CreateFoldersDirs(env, p, xs[1..], remoteDirs, w, acc + [folder]);
      }
    }
  }

  /** The folder-removal loop keeps a directory `q` that none of the removed
      folders contains. */
  lemma {:induction false} RemoveFoldersKeeps(p: Path, oldFolders: seq<FolderBackup>, newFolders: seq<FolderBackup>, remoteDirs: set<string>, w: World, q: Path)
    requires forall f :: f in oldFolders && !HasFolderNamed(newFolders, f.name) ==> q != p + [f.hash] && !Under(q, p + [f.hash])
    requires IsDir(w.nodes, q)
    ensures RemoveFolders(p, oldFolders, newFolders, remoteDirs, w).r.Ok? ==> IsDir(RemoveFolders(p, oldFolders, newFolders, remoteDirs, w).w.nodes, q)
    decreases |oldFolders|
  {
    if oldFolders != [] {
      var folder := oldFolders[0];
      if !HasFolderNamed(newFolders, folder.name) && folder.hash in remoteDirs {
        var removed := Exec(w, Rm(p + [folder.hash], true));
        if removed.r.Ok? {
          RemoveFoldersKeeps(p, oldFolders[1..], newFolders, remoteDirs, removed.w, q);
        }
      } else {
        RemoveFoldersKeeps(p, oldFolders[1..], newFolders, remoteDirs, w, q);
      }
    }
  }

  lemma {:induction false} SyncFilesKeepsDirs(env: Env, p: Path, xs: seq<Entry>, oldFiles: seq<FileBackup>, remoteFiles: set<string>, w: World, acc: seq<FileBackup>)
    requires forall e :: e in xs ==> e.LocalFile?
    ensures DirsKept(w.nodes, SyncFiles(env, p, xs, oldFiles, remoteFiles, w, acc).w.nodes)
    decreases |xs|
  {
    if xs != [] {
      var f := xs[0];
      var op := Write(p + [env.nameHash(f.name)], env.encryptFile(f.name, f.content), true, true);
      var step := FileStep(env, p, f, oldFiles, remoteFiles, w);
      assert step.w == w || step.w == Exec(w, op).w;
      ExecKeepsDirs(w, op);
      if step.r.Ok? {
        SyncFilesKeepsDirs(env, p, xs[1..], oldFiles, remoteFiles, step.w, acc + [step.r.value]);
      }
    }
  }

  lemma {:induction false} RemoveFilesKeepsDirs(p: Path, oldFiles: seq<FileBackup>, newFiles: seq<FileBackup>, remoteFiles: set<string>, w: World)
    ensures DirsKept(w.nodes, RemoveFiles(p, oldFiles, newFiles, remoteFiles, w).w.nodes)
    decreases |oldFiles|
  {
    if oldFiles != [] {
      var file := oldFiles[0];
      if !HasOtherNameHash(newFiles, file.filenameHash) && file.filenameHash in remoteFiles {
        var op := Rm(p + [file.fileHash], false);
        ExecKeepsDirs(w, op);
        var removed := Exec(w, op);
        if removed.r.Ok? {
          RemoveFilesKeepsDirs(p, oldFiles[1..], newFiles, remoteFiles, removed.w);
        }
      } else {
        RemoveFilesKeepsDirs(p, oldFiles[1..], newFiles, remoteFiles, w);
      }
    }
  }

  /** Every directory a listing of `p` names is a directory below `p`. */
  lemma ListedDirs(n: Nodes, p: Path)
    requires IsDir(n, p)
    ensures forall h :: h in RemoteDirs(Listing(n, p).value) ==> IsDir(n, p + [h])
  {
    forall h | h in RemoteDirs(Listing(n, p).value) ensures IsDir(n, p + [h]) {
      ListingEntries(n, p, h, Directory);
    }
  }

  /** Name hashing does not collide. */
  ghost predicate Injective(nameHash: string -> string) {
    forall a, b :: nameHash(a) == nameHash(b) ==> a == b
  }

  /** After a successful level every local subdirectory has its directory
      `<p>/<hash of its name>`, provided names do not collide and the old
      manifest was written by the reconciler. */
  lemma LevelFoldersExist(env: Env, d: Dir, p: Path, w: World)
    requires Injective(env.nameHash)
    requires WellFormed(env.nameHash, ReadFolderMetadata(w.nodes, p, env.crypto, env.json))
    requires Level(env, d, p, w).r.Ok?
    ensures forall x :: x in LocalFolders(d.entries) ==> IsDir(Level(env, d, p, w).w.nodes, p + [env.nameHash(x.name)])
  {
    var metadata := ReadFolderMetadata(w.nodes, p, env.crypto, env.json);
    var ls := Listing(w.nodes, p);
    var xs := LocalFolders(d.entries);
    var ipfsFolders := RemoteDirs(ls.value);
    ListedDirs(w.nodes, p);
    var created := CreateFolders(env, p, xs, ipfsFolders, w, []);
    CreateFoldersDirs(env, p, xs, ipfsFolders, w, []);
    var newFolders := created.r.value;
    var removed := RemoveFolders(p, metadata.folders, newFolders, ipfsFolders, created.w);
    var ipfsFiles := RemoteFiles(ls.value);
    var synced := SyncFiles(env, p, LocalFiles(d.entries), metadata.files, ipfsFiles, removed.w, []);
    SyncFilesKeepsDirs(env, p, LocalFiles(d.entries), metadata.files, ipfsFiles, removed.w, []);
    var pruned := RemoveFiles(p, metadata.files, synced.r.value, ipfsFiles, synced.w);
    RemoveFilesKeepsDirs(p, metadata.files, synced.r.value, ipfsFiles, synced.w);
    var result := BackupFolderMetadata(synced.r.value, newFolders);
    var op := Write(MetadataPath(p), env.crypto.encryptText(env.json.stringify(result)), true, true);
    ExecKeepsDirs(pruned.w, op);
    forall x | x in xs ensures IsDir(Level(env, d, p, w).w.nodes, p + [env.nameHash(x.name)]) {
      var q := p + [env.nameHash(x.name)];
      StaleFoldersApart(env, p, xs, newFolders, metadata.folders, x);
      RemoveFoldersKeeps(p, metadata.folders, newFolders, ipfsFolders, created.w, q);
    }
  }

  /** A recorded folder that is no longer present locally is removed at a path
      apart from every current subdirectory's. */
  lemma StaleFoldersApart(env: Env, p: Path, xs: seq<Entry>, newFolders: seq<FolderBackup>, oldFolders: seq<FolderBackup>, x: Entry)
    requires Injective(env.nameHash)
    requires forall f :: f in oldFolders ==> f.hash == env.nameHash(f.name)
    requires newFolders == FolderRecords(env.nameHash, xs) && x in xs
    ensures forall f :: f in oldFolders && !HasFolderNamed(newFolders, f.name) ==>
              p + [env.nameHash(x.name)] != p + [f.hash] && !Under(p + [env.nameHash(x.name)], p + [f.hash])
  {
    var i :| 0 <= i < |xs| && xs[i] == x;
    assert newFolders[i].name == x.name;
    forall f | f in oldFolders && !HasFolderNamed(newFolders, f.name)
      ensures p + [env.nameHash(x.name)] != p + [f.hash] && !Under(p + [env.nameHash(x.name)], p + [f.hash])
    {
      assert f.name != x.name;
      SiblingsApart(p, env.nameHash(x.name), f.hash);
    }
  }

  /** The same holds after the whole pass, since the recursion below `p`
      changes only nodes two or more levels down. */
  lemma SyncSpecFoldersExist(env: Env, d: Dir, p: Path, w: World)
    requires Injective(env.nameHash)
    requires WellFormed(env.nameHash, ReadFolderMetadata(w.nodes, p, env.crypto, env.json))
    requires SyncSpec(env, d, p, w).r.Ok?
    ensures forall x :: x in LocalFolders(d.entries) ==> IsDir(SyncSpec(env, d, p, w).w.nodes, p + [env.nameHash(x.name)])
  {
    var level := Level(env, d, p, w);
    LevelFoldersExist(env, d, p, w);
    SyncSubfoldersFrame(env, d, LocalFolders(d.entries), level.r.value.folders, p, level.w);
    var n := SyncSpec(env, d, p, w).w.nodes;
    forall x | x in LocalFolders(d.entries) ensures IsDir(n, p + [env.nameHash(x.name)]) {
      var q := p + [env.nameHash(x.name)];
      assert |q| == |p| + 1;
      assert Same(level.w.nodes, n, q);
    }
  }

  // ---------------------------------------------------------------------
  // The manifest can be read back.

  /** After a successful level, reading `<p>/metadata` gives the level's result. */
  lemma LevelManifest(env: Env, d: Dir, p: Path, w: World)
    requires Decrypts(env.crypto) && Parses(env.json)
    requires Level(env, d, p, w).r.Ok?
    ensures ReadFolderMetadata(Level(env, d, p, w).w.nodes, p, env.crypto, env.json) == Level(env, d, p, w).r.value
  {
    var metadata := ReadFolderMetadata(w.nodes, p, env.crypto, env.json);
    var ls := Listing(w.nodes, p);
    var ipfsFolders := RemoteDirs(ls.value);
    var created := CreateFolders(env, p, LocalFolders(d.entries), ipfsFolders, w, []);
    var removed := RemoveFolders(p, metadata.folders, created.r.value, ipfsFolders, created.w);
    var ipfsFiles := RemoteFiles(ls.value);
    var synced := SyncFiles(env, p, LocalFiles(d.entries), metadata.files, ipfsFiles, removed.w, []);
    var pruned := RemoveFiles(p, metadata.files, synced.r.value, ipfsFiles, synced.w);
    var result := BackupFolderMetadata(synced.r.value, created.r.value);
    assert Parent(MetadataPath(p)) == p;
    FolderMetadataRoundTrip(pruned.w, p, result, env.crypto, env.json);
  }

  /** After a successful pass, the manifest stored in `p` is the one the pass
      returned: the recursion into subfolders does not disturb it. */
  lemma ManifestPersists(env: Env, d: Dir, p: Path, w: World)
    requires Decrypts(env.crypto) && Parses(env.json)
    requires SyncSpec(env, d, p, w).r.Ok?
    ensures ReadFolderMetadata(SyncSpec(env, d, p, w).w.nodes, p, env.crypto, env.json) == SyncSpec(env, d, p, w).r.value
  {
    var level := Level(env, d, p, w);
    LevelManifest(env, d, p, w);
    SyncSubfoldersFrame(env, d, LocalFolders(d.entries), level.r.value.folders, p, level.w);
    var n := SyncSpec(env, d, p, w).w.nodes;
    assert Same(level.w.nodes, n, MetadataPath(p));
    ReadFolderMetadataLocal(level.w.nodes, n, p, env.crypto, env.json);
  }

  // ---------------------------------------------------------------------
  // The file-removal loop, as written and as intended.

  /** As written, the removal loop removes nothing as soon as two new records
      carry different name hashes: a file deleted locally keeps its blob. */
  lemma {:induction false} RemoveFilesInert(p: Path, oldFiles: seq<FileBackup>, newFiles: seq<FileBackup>, remoteFiles: set<string>, w: World)
    requires exists i, j :: 0 <= i < j < |newFiles| && newFiles[i].filenameHash != newFiles[j].filenameHash
    ensures RemoveFiles(p, oldFiles, newFiles, remoteFiles, w) == Run(w, Ok(()))
    decreases |oldFiles|
  {
    if oldFiles != [] {
      var i, j :| 0 <= i < j < |newFiles| && newFiles[i].filenameHash != newFiles[j].filenameHash;
      var h := oldFiles[0].filenameHash;
      assert newFiles[i] in newFiles && newFiles[j] in newFiles;
      assert HasOtherNameHash(newFiles, h);
      RemoveFilesInert(p, oldFiles[1..], newFiles, remoteFiles, w);
    }
  }

  /** As written, when the folder holds one file whose record is unchanged,
      the loop removes `<p>/<fileHash>` instead of the blob at
      `<p>/<filenameHash>`, and fails when nothing is stored under the
      content hash. */
  lemma SoleFileRemovalFails(p: Path, rec: FileBackup, w: World)
    requires IsFile(w.nodes, p + [rec.filenameHash])
    requires p + [rec.fileHash] !in w.nodes
    ensures RemoveFiles(p, [rec], [rec], {rec.filenameHash}, w).r == Err(NotFound(p + [rec.fileHash]))
  {
    assert !HasOtherNameHash([rec], rec.filenameHash);
  }

  /** The same for a whole directory: when its only file is unchanged since
      the stored manifest was written, the level fails on the missing
      `<p>/<fileHash>` before it writes the new manifest, so every later
      pass over that folder fails the same way. */
  lemma SoleFileLevelFails(env: Env, f: Entry, rec: FileBackup, p: Path, w: World)
    requires f.LocalFile? && f.name !in IgnoreFiles
    requires ReadFolderMetadata(w.nodes, p, env.crypto, env.json) == BackupFolderMetadata([rec], [])
    requires rec.filenameHash == env.nameHash(f.name) && rec.filenameHash !in IgnoreFiles && rec.mtime == f.mtime
    requires IsDir(w.nodes, p) && IsFile(w.nodes, p + [rec.filenameHash])
    requires p + [rec.fileHash] !in w.nodes
    ensures Level(env, Dir([f]), p, w) == Run(w, Err(NotFound(p + [rec.fileHash])))
  {
    var h := rec.filenameHash;
    ListingEntries(w.nodes, p, h, File);
    var ls := Listing(w.nodes, p).value;
    assert h in RemoteFiles(ls);
    assert LocalFolders([f]) == [];
    assert LocalFiles([f]) == [f];
    var step := FileStep(env, p, f, [rec], RemoteFiles(ls), w);
    assert step.w == w && step.r.Ok? && step.r.value.filenameHash == h;
    assert SyncFiles(env, p, [f], [rec], RemoteFiles(ls), w, []) == Run(w, Ok([step.r.value]));
    assert !HasOtherNameHash([step.r.value], h);
  }

  lemma ChildPathsInsert(p: Path, hs: set<string>, h0: string)
    ensures (set h | h in hs + {h0} :: p + [h]) == (set h | h in hs :: p + [h]) + {p + [h0]}
  {
  }

  /** The intended removal never fails when every stale blob is stored, and
      leaves the store exactly as it was minus those blobs. */
  lemma {:induction false} IntendedRemoveFilesSpec(p: Path, oldFiles: seq<FileBackup>, newFiles: seq<FileBackup>, remoteFiles: set<string>, w: World)
    requires forall i, j :: 0 <= i < j < |oldFiles| ==> oldFiles[i].filenameHash != oldFiles[j].filenameHash
    requires forall h :: h in StaleBlobs(oldFiles, newFiles, remoteFiles) ==> IsFile(w.nodes, p + [h])
    ensures IntendedRemoveFiles(p, oldFiles, newFiles, remoteFiles, w).r.Ok?
    ensures IntendedRemoveFiles(p, oldFiles, newFiles, remoteFiles, w).w.nodes
         == w.nodes - (set h | h in StaleBlobs(oldFiles, newFiles, remoteFiles) :: p + [h])
    decreases |oldFiles|
  {
    var stale := StaleBlobs(oldFiles, newFiles, remoteFiles);
    if oldFiles == [] {
      assert stale == {};
    } else {
      var file := oldFiles[0];
      var h0 := file.filenameHash;
      var rest := StaleBlobs(oldFiles[1..], newFiles, remoteFiles);
      forall f | f in oldFiles[1..] ensures f.filenameHash != h0 {
        var k :| 0 <= k < |oldFiles[1..]| && oldFiles[1..][k] == f;
        assert oldFiles[k + 1] == f;
      }
      if (forall f | f in newFiles :: f.filenameHash != h0) && h0 in remoteFiles {
        assert stale == rest + {h0};
        var removed := Exec(w, Rm(p + [h0], false));
        assert removed.w.nodes == w.nodes - {p + [h0]};
        forall h | h in rest ensures IsFile(removed.w.nodes, p + [h]) {
          SiblingsApart(p, h, h0);
        }
        IntendedRemoveFilesSpec(p, oldFiles[1..], newFiles, remoteFiles, removed.w);
        ChildPathsInsert(p, rest, h0);
      } else {
        assert stale == rest;
        IntendedRemoveFilesSpec(p, oldFiles[1..], newFiles, remoteFiles, w);
      }
    }
  }

  // ---------------------------------------------------------------------
  // The trace of store calls a level issues.

  /** The mkdir calls of the folder loop, in order. */
  function MkdirOps(nameHash: string -> string, p: Path, xs: seq<Entry>, remoteDirs: set<string>): seq<Op>
    decreases |xs|
  {
    if xs == [] then []
    else
      var h := nameHash(xs[0].name);
      (if h !in remoteDirs then [Mkdir(p + [h], true)] else []) + MkdirOps(nameHash, p, xs[1..], remoteDirs)
  }

  /** A `mkdir` (with `parents`) is issued exactly for the local
      subdirectories whose hashed name the start-of-pass listing lacks. */
  lemma {:induction false} MkdirOpsMembers(nameHash: string -> string, p: Path, xs: seq<Entry>, remoteDirs: set<string>, op: Op)
    ensures op in MkdirOps(nameHash, p, xs, remoteDirs) <==>
            exists x :: x in xs && nameHash(x.name) !in remoteDirs && op == Mkdir(p + [nameHash(x.name)], true)
    decreases |xs|
  {
    if xs != [] {
      MkdirOpsMembers(nameHash, p, xs[1..], remoteDirs, op);
      if exists x :: x in xs && nameHash(x.name) !in remoteDirs && op == Mkdir(p + [nameHash(x.name)], true) {
        var x :| x in xs && nameHash(x.name) !in remoteDirs && op == Mkdir(p + [nameHash(x.name)], true);
        if x != xs[0] {
          assert x in xs[1..];
        }
      }
    }
  }

  lemma {:induction false} CreateFoldersLog(env: Env, p: Path, xs: seq<Entry>, remoteDirs: set<string>, w: World, acc: seq<FolderBackup>)
    requires CreateFolders(env, p, xs, remoteDirs, w, acc).r.Ok?
    ensures CreateFolders(env, p, xs, remoteDirs, w, acc).w.log == w.log + MkdirOps(env.nameHash, p, xs, remoteDirs)
    decreases |xs|
  {
    if xs != [] {
      var hash := env.nameHash(xs[0].name);
      var folder := FolderBackup(xs[0].name, hash);
      if hash !in remoteDirs {
        var made := Exec(w, Mkdir(p + [hash], true));
        CreateFoldersLog(env, p, xs[1..], remoteDirs, made.w, acc + [folder]);
      } else {
        CreateFoldersLog(env, p, xs[1..], remoteDirs, w, acc + [folder]);
      }
    }
  }

  /** The recursive removals of the folder-removal loop, in order. */
  function FolderRmOps(p: Path, oldFolders: seq<FolderBackup>, newFolders: seq<FolderBackup>, remoteDirs: set<string>): seq<Op>
    decreases |oldFolders|
  {
    if oldFolders == [] then []
    else
      var f := oldFolders[0];
      (if !HasFolderNamed(newFolders, f.name) && f.hash in remoteDirs then [Rm(p + [f.hash], true)] else [])
      + FolderRmOps(p, oldFolders[1..], newFolders, remoteDirs)
  }

  /** A folder is removed (recursively) exactly when it is recorded in the old
      manifest, its name is no longer a local subdirectory, and its hashed
      name is in the start-of-pass listing; no other folder is removed. */
  lemma {:induction false} FolderRmOpsMembers(p: Path, oldFolders: seq<FolderBackup>, newFolders: seq<FolderBackup>, remoteDirs: set<string>, op: Op)
    ensures op in FolderRmOps(p, oldFolders, newFolders, remoteDirs) <==>
            exists f :: f in oldFolders && !HasFolderNamed(newFolders, f.name) && f.hash in remoteDirs && op == Rm(p + [f.hash], true)
    decreases |oldFolders|
  {
    if oldFolders != [] {
      FolderRmOpsMembers(p, oldFolders[1..], newFolders, remoteDirs, op);
      if exists f :: f in oldFolders && !HasFolderNamed(newFolders, f.name) && f.hash in remoteDirs && op == Rm(p + [f.hash], true) {
        var f :| f in oldFolders && !HasFolderNamed(newFolders, f.name) && f.hash in remoteDirs && op == Rm(p + [f.hash], true);
        if f != oldFolders[0] {
          assert f in oldFolders[1..];
        }
      }
    }
  }

  lemma {:induction false} RemoveFoldersLog(p: Path, oldFolders: seq<FolderBackup>, newFolders: seq<FolderBackup>, remoteDirs: set<string>, w: World)
    requires RemoveFolders(p, oldFolders, newFolders, remoteDirs, w).r.Ok?
    ensures RemoveFolders(p, oldFolders, newFolders, remoteDirs, w).w.log == w.log + FolderRmOps(p, oldFolders, newFolders, remoteDirs)
    decreases |oldFolders|
  {
    if oldFolders != [] {
      var folder := oldFolders[0];
      if !HasFolderNamed(newFolders, folder.name) && folder.hash in remoteDirs {
        var removed := Exec(w, Rm(p + [folder.hash], true));
        RemoveFoldersLog(p, oldFolders[1..], newFolders, remoteDirs, removed.w);
      } else {
        RemoveFoldersLog(p, oldFolders[1..], newFolders, remoteDirs, w);
      }
    }
  }

  /** The create-and-truncate writes of the file loop, in order. */
  function FileWriteOps(env: Env, p: Path, xs: seq<Entry>, oldFiles: seq<FileBackup>, remoteFiles: set<string>): seq<Op>
    requires forall e :: e in xs ==> e.LocalFile?
    decreases |xs|
  {
    if xs == [] then []
    else
      var f := xs[0];
      var h := env.nameHash(f.name);
      (if Rewrites(FindByNameHash(oldFiles, h), f.mtime, env.fileHash(f.content), h in remoteFiles)
       then [Write(p + [h], env.encryptFile(f.name, f.content), true, true)] else [])
      + FileWriteOps(env, p, xs[1..], oldFiles, remoteFiles)
  }

  lemma ConcatAssoc<T>(a: seq<T>, b: seq<T>, c: seq<T>)
    ensures (a + b) + c == a + (b + c)
  {
  }

  lemma FileStepLog(env: Env, p: Path, f: Entry, oldFiles: seq<FileBackup>, remoteFiles: set<string>, w: World)
    requires f.LocalFile?
    requires FileStep(env, p, f, oldFiles, remoteFiles, w).r.Ok?
    ensures FileStep(env, p, f, oldFiles, remoteFiles, w).w.log == w.log + FileWriteOps(env, p, [f], oldFiles, remoteFiles)
  {
    assert [f][1..] == [];
  }

  lemma FileWriteOpsCons(env: Env, p: Path, xs: seq<Entry>, oldFiles: seq<FileBackup>, remoteFiles: set<string>)
    requires xs != [] && forall e :: e in xs ==> e.LocalFile?
    ensures FileWriteOps(env, p, xs, oldFiles, remoteFiles)
         == FileWriteOps(env, p, [xs[0]], oldFiles, remoteFiles) + FileWriteOps(env, p, xs[1..], oldFiles, remoteFiles)
  {
    assert [xs[0]][1..] == [];
  }

  lemma {:induction false} SyncFilesLog(env: Env, p: Path, xs: seq<Entry>, oldFiles: seq<FileBackup>, remoteFiles: set<string>, w: World, acc: seq<FileBackup>)
    requires forall e :: e in xs ==> e.LocalFile?
    requires SyncFiles(env, p, xs, oldFiles, remoteFiles, w, acc).r.Ok?
    ensures SyncFiles(env, p, xs, oldFiles, remoteFiles, w, acc).w.log == w.log + FileWriteOps(env, p, xs, oldFiles, remoteFiles)
    decreases |xs|
  {
    if xs != [] {
      SyncFilesUnfold(env, p, xs, oldFiles, remoteFiles, w, acc);
      var step := FileStep(env, p, xs[0], oldFiles, remoteFiles, w);
      FileStepLog(env, p, xs[0], oldFiles, remoteFiles, w);
      FileWriteOpsCons(env, p, xs, oldFiles, remoteFiles);
      SyncFilesLog(env, p, xs[1..], oldFiles, remoteFiles, step.w, acc + [step.r.value]);
      ConcatAssoc(w.log, FileWriteOps(env, p, [xs[0]], oldFiles, remoteFiles), FileWriteOps(env, p, xs[1..], oldFiles, remoteFiles));
    }
  }

  /** The removals of the file-removal loop as written, in order. */
  function FileRmOps(p: Path, oldFiles: seq<FileBackup>, newFiles: seq<FileBackup>, remoteFiles: set<string>): seq<Op>
    decreases |oldFiles|
  {
    if oldFiles == [] then []
    else
      var f := oldFiles[0];
      (if !HasOtherNameHash(newFiles, f.filenameHash) && f.filenameHash in remoteFiles then [Rm(p + [f.fileHash], false)] else [])
      + FileRmOps(p, oldFiles[1..], newFiles, remoteFiles)
  }

  /** As written, an old record triggers a removal exactly when no new record
      has a different name hash and its hashed name is listed remotely, and
      the removal targets `<p>/<fileHash>`. */
  lemma {:induction false} FileRmOpsMembers(p: Path, oldFiles: seq<FileBackup>, newFiles: seq<FileBackup>, remoteFiles: set<string>, op: Op)
    ensures op in FileRmOps(p, oldFiles, newFiles, remoteFiles) <==>
            exists f :: f in oldFiles && !HasOtherNameHash(newFiles, f.filenameHash) && f.filenameHash in remoteFiles
                        && op == Rm(p + [f.fileHash], false)
    decreases |oldFiles|
  {
    if oldFiles != [] {
      FileRmOpsMembers(p, oldFiles[1..], newFiles, remoteFiles, op);
      if exists f :: f in oldFiles && !HasOtherNameHash(newFiles, f.filenameHash) && f.filenameHash in remoteFiles
                     && op == Rm(p + [f.fileHash], false) {
        var f :| f in oldFiles && !HasOtherNameHash(newFiles, f.filenameHash) && f.filenameHash in remoteFiles
                 && op == Rm(p + [f.fileHash], false);
        if f != oldFiles[0] {
          assert f in oldFiles[1..];
        }
      }
    }
  }

  lemma {:induction false} RemoveFilesLog(p: Path, oldFiles: seq<FileBackup>, newFiles: seq<FileBackup>, remoteFiles: set<string>, w: World)
    requires RemoveFiles(p, oldFiles, newFiles, remoteFiles, w).r.Ok?
    ensures RemoveFiles(p, oldFiles, newFiles, remoteFiles, w).w.log == w.log + FileRmOps(p, oldFiles, newFiles, remoteFiles)
    decreases |oldFiles|
  {
    if oldFiles != [] {
      var file := oldFiles[0];
      if !HasOtherNameHash(newFiles, file.filenameHash) && file.filenameHash in remoteFiles {
        var removed := Exec(w, Rm(p + [file.fileHash], false));
        RemoveFilesLog(p, oldFiles[1..], newFiles, remoteFiles, removed.w);
      } else {
        RemoveFilesLog(p, oldFiles[1..], newFiles, remoteFiles, w);
      }
    }
  }

  /** A successful level issues, in this order: the folder mkdirs, the folder
      removals, the file writes, the file removals, and last the single write
      of its manifest. */
  lemma LevelTrace(env: Env, d: Dir, p: Path, w: World)
    requires Level(env, d, p, w).r.Ok?
    ensures Listing(w.nodes, p).Ok?
    ensures var m := ReadFolderMetadata(w.nodes, p, env.crypto, env.json);
            var ls := Listing(w.nodes, p).value;
            var r := Level(env, d, p, w);
            r.w.log == w.log
              + MkdirOps(env.nameHash, p, LocalFolders(d.entries), RemoteDirs(ls))
              + FolderRmOps(p, m.folders, r.r.value.folders, RemoteDirs(ls))
              + FileWriteOps(env, p, LocalFiles(d.entries), m.files, RemoteFiles(ls))
              + FileRmOps(p, m.files, r.r.value.files, RemoteFiles(ls))
              + [Write(MetadataPath(p), env.crypto.encryptText(env.json.stringify(r.r.value)), true, true)]
  {
    var metadata := ReadFolderMetadata(w.nodes, p, env.crypto, env.json);
    var ls := Listing(w.nodes, p);
    var ipfsFolders := RemoteDirs(ls.value);
    var created := CreateFolders(env, p, LocalFolders(d.entries), ipfsFolders, w, []);
    CreateFoldersLog(env, p, LocalFolders(d.entries), ipfsFolders, w, []);
    var removed := RemoveFolders(p, metadata.folders, created.r.value, ipfsFolders, created.w);
    RemoveFoldersLog(p, metadata.folders, created.r.value, ipfsFolders, created.w);
    var ipfsFiles := RemoteFiles(ls.value);
    var synced := SyncFiles(env, p, LocalFiles(d.entries), metadata.files, ipfsFiles, removed.w, []);
    SyncFilesLog(env, p, LocalFiles(d.entries), metadata.files, ipfsFiles, removed.w, []);
    var pruned := RemoveFiles(p, metadata.files, synced.r.value, ipfsFiles, synced.w);
    RemoveFilesLog(p, metadata.files, synced.r.value, ipfsFiles, synced.w);
  }

  /** A pass only appends calls, even when it stops at an error. */
  lemma {:induction false} SyncSpecLogGrows(env: Env, d: Dir, p: Path, w: World)
    ensures LogExtends(w, SyncSpec(env, d, p, w).w)
    decreases d, 1
  {
    var level := Level(env, d, p, w);
    LevelLogGrows(env, d, p, w);
    if level.r.Ok? {
      var rest := SyncSubfolders(env, d, LocalFolders(d.entries), level.r.value.folders, p, level.w);
      SyncSubfoldersLogGrows(env, d, LocalFolders(d.entries), level.r.value.folders, p, level.w);
      LogExtendsTrans(w, level.w, rest.w);
      assert SyncSpec(env, d, p, w).w == rest.w;
    }
  }

  lemma {:induction false} SyncSubfoldersLogGrows(env: Env, d: Dir, subs: seq<Entry>, folders: seq<FolderBackup>, p: Path, w: World)
    requires |subs| == |folders|
    requires forall e :: e in subs ==> e in d.entries && e.LocalDir?
    ensures LogExtends(w, SyncSubfolders(env, d, subs, folders, p, w).w)
    decreases d, 0, |subs|
  {
    if subs != [] {
      assert subs[0] in d.entries;
      var sub := SyncSpec(env, subs[0].dir, p + [folders[0].hash], w);
      SyncSpecLogGrows(env, subs[0].dir, p + [folders[0].hash], w);
      if sub.r.Ok? {
        var next := SyncSubfolders(env, d, subs[1..], folders[1..], p, sub.w);
        SyncSubfoldersLogGrows(env, d, subs[1..], folders[1..], p, sub.w);
        LogExtendsTrans(w, sub.w, next.w);
        assert SyncSubfolders(env, d, subs, folders, p, w).w == next.w;
      } else {
        assert SyncSubfolders(env, d, subs, folders, p, w).w == sub.w;
      }
    }
  }

  /** `w2`'s log starts with all of `w1`'s. */
  ghost predicate LogExtends(w1: World, w2: World) {
    |w1.log| <= |w2.log| && w2.log[..|w1.log|] == w1.log
  }

  lemma LogExtendsTrans(w1: World, w2: World, w3: World)
    requires LogExtends(w1, w2) && LogExtends(w2, w3)
    ensures LogExtends(w1, w3)
  {
    assert w3.log[..|w1.log|] == w3.log[..|w2.log|][..|w1.log|];
  }

  /** Calls are only ever appended: a level never loses logged calls, even
      when it stops at an error. */
  lemma LevelLogGrows(env: Env, d: Dir, p: Path, w: World)
    ensures LogExtends(w, Level(env, d, p, w).w)
  {
    var metadata := ReadFolderMetadata(w.nodes, p, env.crypto, env.json);
    var ls := Listing(w.nodes, p);
    if ls.Ok? {
      var ipfsFolders := RemoteDirs(ls.value);
      var created := CreateFolders(env, p, LocalFolders(d.entries), ipfsFolders, w, []);
      CreateFoldersLogGrows(env, p, LocalFolders(d.entries), ipfsFolders, w, []);
      assert LogExtends(w, created.w);
      if created.r.Ok? {
        var removed := RemoveFolders(p, metadata.folders, created.r.value, ipfsFolders, created.w);
        RemoveFoldersLogGrows(p, metadata.folders, created.r.value, ipfsFolders, created.w);
        LogExtendsTrans(w, created.w, removed.w);
        if removed.r.Ok? {
          var ipfsFiles := RemoteFiles(ls.value);
          var synced := SyncFiles(env, p, LocalFiles(d.entries), metadata.files, ipfsFiles, removed.w, []);
          SyncFilesLogGrows(env, p, LocalFiles(d.entries), metadata.files, ipfsFiles, removed.w, []);
          LogExtendsTrans(w, removed.w, synced.w);
          if synced.r.Ok? {
            var pruned := RemoveFiles(p, metadata.files, synced.r.value, ipfsFiles, synced.w);
            RemoveFilesLogGrows(p, metadata.files, synced.r.value, ipfsFiles, synced.w);
            LogExtendsTrans(w, synced.w, pruned.w);
            if pruned.r.Ok? {
              var result := BackupFolderMetadata(synced.r.value, created.r.value);
              var written := WriteFolderMetadataRun(pruned.w, p, result, env.crypto, env.json);
              assert LogExtends(pruned.w, written.w);
              LogExtendsTrans(w, pruned.w, written.w);
            }
          }
        }
      }
    }
  }

  lemma {:induction false} CreateFoldersLogGrows(env: Env, p: Path, xs: seq<Entry>, remoteDirs: set<string>, w: World, acc: seq<FolderBackup>)
    ensures |w.log| <= |CreateFolders(env, p, xs, remoteDirs, w, acc).w.log|
    ensures CreateFolders(env, p, xs, remoteDirs, w, acc).w.log[..|w.log|] == w.log
    decreases |xs|
  {
    if xs != [] {
      var hash := env.nameHash(xs[0].name);
      var folder := FolderBackup(xs[0].name, hash);
      if hash !in remoteDirs {
        var made := Exec(w, Mkdir(p + [hash], true));
        CreateFoldersLogGrows(env, p, xs[1..], remoteDirs, made.w, acc + [folder]);
      } else {
        CreateFoldersLogGrows(env, p, xs[1..], remoteDirs, w, acc + [folder]);
      }
    }
  }

  lemma {:induction false} RemoveFoldersLogGrows(p: Path, oldFolders: seq<FolderBackup>, newFolders: seq<FolderBackup>, remoteDirs: set<string>, w: World)
    ensures |w.log| <= |RemoveFolders(p, oldFolders, newFolders, remoteDirs, w).w.log|
    ensures RemoveFolders(p, oldFolders, newFolders, remoteDirs, w).w.log[..|w.log|] == w.log
    decreases |oldFolders|
  {
    if oldFolders != [] {
      var folder := oldFolders[0];
      if !HasFolderNamed(newFolders, folder.name) && folder.hash in remoteDirs {
        var removed := Exec(w, Rm(p + [folder.hash], true));
        RemoveFoldersLogGrows(p, oldFolders[1..], newFolders, remoteDirs, removed.w);
      } else {
        RemoveFoldersLogGrows(p, oldFolders[1..], newFolders, remoteDirs, w);
      }
    }
  }

  lemma FileStepLogGrows(env: Env, p: Path, f: Entry, oldFiles: seq<FileBackup>, remoteFiles: set<string>, w: World)
    requires f.LocalFile?
    ensures LogExtends(w, FileStep(env, p, f, oldFiles, remoteFiles, w).w)
  {
    var op := Write(p + [env.nameHash(f.name)], env.encryptFile(f.name, f.content), true, true);
    var step := FileStep(env, p, f, oldFiles, remoteFiles, w);
    assert step.w == w || step.w == Exec(w, op).w;
  }

  lemma {:induction false} SyncFilesLogGrows(env: Env, p: Path, xs: seq<Entry>, oldFiles: seq<FileBackup>, remoteFiles: set<string>, w: World, acc: seq<FileBackup>)
    requires forall e :: e in xs ==> e.LocalFile?
    ensures LogExtends(w, SyncFiles(env, p, xs, oldFiles, remoteFiles, w, acc).w)
    decreases |xs|
  {
    if xs != [] {
      var step := FileStep(env, p, xs[0], oldFiles, remoteFiles, w);
      FileStepLogGrows(env, p, xs[0], oldFiles, remoteFiles, w);
      if step.r.Ok? {
        var next := SyncFiles(env, p, xs[1..], oldFiles, remoteFiles, step.w, acc + [step.r.value]);
        SyncFilesLogGrows(env, p, xs[1..], oldFiles, remoteFiles, step.w, acc + [step.r.value]);
        LogExtendsTrans(w, step.w, next.w);
        assert SyncFiles(env, p, xs, oldFiles, remoteFiles, w, acc).w == next.w;
      } else {
        assert SyncFiles(env, p, xs, oldFiles, remoteFiles, w, acc).w == step.w;
      }
    }
  }

  lemma {:induction false} RemoveFilesLogGrows(p: Path, oldFiles: seq<FileBackup>, newFiles: seq<FileBackup>, remoteFiles: set<string>, w: World)
    ensures |w.log| <= |RemoveFiles(p, oldFiles, newFiles, remoteFiles, w).w.log|
    ensures RemoveFiles(p, oldFiles, newFiles, remoteFiles, w).w.log[..|w.log|] == w.log
    decreases |oldFiles|
  {
    if oldFiles != [] {
      var file := oldFiles[0];
      if !HasOtherNameHash(newFiles, file.filenameHash) && file.filenameHash in remoteFiles {
        var removed := Exec(w, Rm(p + [file.fileHash], false));
        RemoveFilesLogGrows(p, oldFiles[1..], newFiles, remoteFiles, removed.w);
      } else {
        RemoveFilesLogGrows(p, oldFiles[1..], newFiles, remoteFiles, w);
      }
    }
  }

  /** A successful pass returns its top level's manifest, and its calls begin
      with that level's whole trace, manifest write included: the recursion
      into subfolders comes after it. */
  lemma PassStartsWithLevel(env: Env, d: Dir, p: Path, w: World)
    requires SyncSpec(env, d, p, w).r.Ok?
    ensures Level(env, d, p, w).r.Ok? && SyncSpec(env, d, p, w).r.value == Level(env, d, p, w).r.value
    ensures |Level(env, d, p, w).w.log| <= |SyncSpec(env, d, p, w).w.log|
    ensures SyncSpec(env, d, p, w).w.log[..|Level(env, d, p, w).w.log|] == Level(env, d, p, w).w.log
  {
    var level := Level(env, d, p, w);
    SyncSubfoldersLogGrows(env, d, LocalFolders(d.entries), level.r.value.folders, p, level.w);
  }
}
