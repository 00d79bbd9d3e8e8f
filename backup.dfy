/** `backupFiles`: the flat, non-recursive backup of one photo folder into a
    list of `{path, ipfsHash, fileHash}` records kept by the private API, with
    the pins that keep the uploaded blobs alive. */
module Backup {
  import opened Wrappers

  type Content = seq<bv8>
  type Blob = seq<bv8>

  /** A record of the backup list. */
  datatype FileBackup = FileBackup(path: string, ipfsHash: string, fileHash: string)

  /** An entry of the folder listing with what `stat` and a read of it give. */
  datatype LocalItem = LocalItem(name: string, isDirectory: bool, content: Content)

  /** The calls made to the IPFS node and to the private API, in order. */
  datatype Call =
    | PinRm(cid: string)
    | Add(data: Blob)
    | PinAdd(cid: string)
    | UpdateFileBackups(list: seq<FileBackup>)

  /** Content hashing, OpenPGP encryption of a named binary message, and the
      CID `ipfs.add` reports for a blob; taken as opaque. */
  datatype Env = Env(fileHash: Content -> string, encrypt: (string, Content) -> Blob, cidOf: Blob -> string)

  /** The list being rebuilt and the calls made so far. */
  datatype Pass = Pass(list: seq<FileBackup>, calls: seq<Call>)

  /** `list.find(b => b.path === name)`: the first record for that path. */
  function FindByPath(list: seq<FileBackup>, name: string): (r: Option<FileBackup>)
    ensures r.None? <==> forall b :: b in list ==> b.path != name
    ensures r.Some? ==> exists i :: 0 <= i < |list| && list[i] == r.value && r.value.path == name
                                    && forall k :: 0 <= k < i ==> list[k].path != name
  {
    if list == [] then None
    else if list[0].path == name then Some(list[0])
    else
      var r := FindByPath(list[1..], name);
      assert r.Some? ==> exists i :: 0 <= i < |list| - 1 && list[1..][i] == r.value && r.value.path == name
                                     && forall k :: 0 <= k < i ==> list[1..][k].path != name;
      r
  }

  /** `list.filter(b => b.fileHash !== h)`. */
  function WithoutHash(list: seq<FileBackup>, h: string): (r: seq<FileBackup>)
    ensures forall b :: b in r <==> b in list && b.fileHash != h
    ensures |r| <= |list|
  {
    if list == [] then []
    else (if list[0].fileHash != h then [list[0]] else []) + WithoutHash(list[1..], h)
  }

  /** One iteration of the loop over the listing. */
  function Step(env: Env, s: Pass, item: LocalItem): Pass {
    if item.isDirectory then s
    else
      var fileHash := env.fileHash(item.content);
      var backup := FindByPath(s.list, item.name);
      var s1 :=
        if backup.Some? && backup.value.fileHash != fileHash
        then Pass(WithoutHash(s.list, backup.value.fileHash), s.calls + [PinRm(backup.value.ipfsHash)])
        else s;
      if backup.None? || backup.value.fileHash != fileHash then
        var encrypted := env.encrypt(item.name, item.content);
        var cid := env.cidOf(encrypted);
        Pass(s1.list + [FileBackup(item.name, cid, fileHash)], s1.calls + [Add(encrypted), PinAdd(cid)])
      else s1
  }

  /** The loop, from the state `s`, over `items` in listing order. */
  function Steps(env: Env, s: Pass, items: seq<LocalItem>): Pass
    decreases |items|
  {
    if items == [] then s else Steps(env, Step(env, s, items[0]), items[1..])
  }

  /** The whole pass from the fetched list: the loop, then one upload of the list. */
  function BackupPass(env: Env, fetched: seq<FileBackup>, items: seq<LocalItem>): Pass {
    var s := Steps(env, Pass(fetched, []), items);
    Pass(s.list, s.calls + [UpdateFileBackups(s.list)])
  }

  /** `list.filter(b => b.path !== name)`. */
  function WithoutPath(list: seq<FileBackup>, name: string): (r: seq<FileBackup>)
    ensures forall b :: b in r <==> b in list && b.path != name
  {
    if list == [] then []
    else (if list[0].path != name then [list[0]] else []) + WithoutPath(list[1..], name)
  }

  /** The iteration as evidently intended: a changed file's stale records are
      dropped by path, so no other file's record goes with them. */
  function IntendedStep(env: Env, s: Pass, item: LocalItem): Pass {
    if item.isDirectory then s
    else
      var fileHash := env.fileHash(item.content);
      var backup := FindByPath(s.list, item.name);
      var s1 :=
        if backup.Some? && backup.value.fileHash != fileHash
        then Pass(WithoutPath(s.list, item.name), s.calls + [PinRm(backup.value.ipfsHash)])
        else s;
      if backup.None? || backup.value.fileHash != fileHash then
        var encrypted := env.encrypt(item.name, item.content);
        var cid := env.cidOf(encrypted);
        Pass(s1.list + [FileBackup(item.name, cid, fileHash)], s1.calls + [Add(encrypted), PinAdd(cid)])
      else s1
  }

  function IntendedSteps(env: Env, s: Pass, items: seq<LocalItem>): Pass
    decreases |items|
  {
    if items == [] then s else IntendedSteps(env, IntendedStep(env, s, items[0]), items[1..])
  }

  /** The IPFS node and the private API as the pass sees them: the calls made. */
  class Remote {
    var calls: seq<Call>
    const cidOf: Blob -> string

    constructor (cidOf: Blob -> string)
      ensures calls == [] && this.cidOf == cidOf
    {
      calls := [];
      this.cidOf := cidOf;
    }

    method PinRm(cid: string)
      modifies this
      ensures calls == old(calls) + [Call.PinRm(cid)]
    {
      calls := calls + [Call.PinRm(cid)];
    }

    method Add(data: Blob) returns (cid: string)
      modifies this
      ensures calls == old(calls) + [Call.Add(data)] && cid == cidOf(data)
    {
      calls := calls + [Call.Add(data)];
      cid := cidOf(data);
    }

    method PinAdd(cid: string)
      modifies this
      ensures calls == old(calls) + [Call.PinAdd(cid)]
    {
      calls := calls + [Call.PinAdd(cid)];
    }

    method UpdateFileBackups(list: seq<FileBackup>)
      modifies this
      ensures calls == old(calls) + [Call.UpdateFileBackups(list)]
    {
      calls := calls + [Call.UpdateFileBackups(list)];
    }
  }

  /** `backupFiles` against `remote`, from the list `fetchFileBackups` returned. */
  method BackupFiles(remote: Remote, env: Env, fileBackups: seq<FileBackup>, files: seq<LocalItem>)
    requires remote.cidOf == env.cidOf
    modifies remote
    ensures remote.calls == old(remote.calls) + BackupPass(env, fileBackups, files).calls
  {
    var newFileBackups := fileBackups;
    ghost var start := remote.calls;
    for i := 0 to |files|
      invariant Steps(env, Pass(newFileBackups, remote.calls), files[i..]) == Steps(env, Pass(fileBackups, start), files)
    {
      var file := files[i];
      ghost var before := Pass(newFileBackups, remote.calls);
      if !file.isDirectory {
        var fileHash := env.fileHash(file.content);
        var backup := FindByPath(newFileBackups, file.name);
        if backup.Some? && backup.value.fileHash != fileHash {
          newFileBackups := WithoutHash(newFileBackups, backup.value.fileHash);
          remote.PinRm(backup.value.ipfsHash);
        }
        if backup.None? || backup.value.fileHash != fileHash {
          var encrypted := env.encrypt(file.name, file.content);
          var cid := remote.Add(encrypted);
          remote.PinAdd(cid);
          newFileBackups := newFileBackups + [FileBackup(file.name, cid, fileHash)];
        }
      }
      assert Pass(newFileBackups, remote.calls) == Step(env, before, file);
      assert files[i..][1..] == files[i + 1..];
    }
    remote.UpdateFileBackups(newFileBackups);
    StepsAppendCalls(env, fileBackups, start, files);
  }

  lemma StepAppendsCalls(env: Env, list: seq<FileBackup>, c0: seq<Call>, item: LocalItem)
    ensures Step(env, Pass(list, c0), item)
         == Pass(Step(env, Pass(list, []), item).list, c0 + Step(env, Pass(list, []), item).calls)
  {
    var backup := FindByPath(list, item.name);
    var h := env.fileHash(item.content);
    if !item.isDirectory && backup.Some? && backup.value.fileHash != h {
      var enc := env.encrypt(item.name, item.content);
      var tail := [Add(enc), PinAdd(env.cidOf(enc))];
      assert (c0 + [PinRm(backup.value.ipfsHash)]) + tail == c0 + (([] + [PinRm(backup.value.ipfsHash)]) + tail);
    }
  }

  /** The loop only appends calls: started after earlier calls `c0`, it makes
      the same calls and builds the same list as from none. */
  lemma {:induction false} StepsAppendCalls(env: Env, list: seq<FileBackup>, c0: seq<Call>, items: seq<LocalItem>)
    ensures Steps(env, Pass(list, c0), items)
         == Pass(Steps(env, Pass(list, []), items).list, c0 + Steps(env, Pass(list, []), items).calls)
    decreases |items|
  {
    if items != [] {
      var s := Step(env, Pass(list, c0), items[0]);
      var s' := Step(env, Pass(list, []), items[0]);
      StepAppendsCalls(env, list, c0, items[0]);
      StepsAppendCalls(env, s.list, s.calls, items[1..]);
      StepsAppendCalls(env, s'.list, s'.calls, items[1..]);
    }
  }
}
