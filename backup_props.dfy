/** Properties of `backupFiles`: what one iteration does to the list and the
    pins, which records survive a pass, and the single upload at the end. */
module BackupProperties {
  import opened Wrappers
  import opened Backup

  /** The names of the non-directory entries of a listing. */
  function FileNames(items: seq<LocalItem>): set<string> {
    set x | x in items && !x.isDirectory :: x.name
  }

  /** A directory listing never repeats a name. */
  predicate DistinctNames(items: seq<LocalItem>) {
    forall i, j :: 0 <= i < j < |items| ==> items[i].name != items[j].name
  }

  lemma StepSkipsDirectory(env: Env, s: Pass, item: LocalItem)
    requires item.isDirectory
    ensures Step(env, s, item) == s
  {
  }

  lemma StepUnchangedFile(env: Env, s: Pass, item: LocalItem)
    requires !item.isDirectory
    requires FindByPath(s.list, item.name).Some?
    requires FindByPath(s.list, item.name).value.fileHash == env.fileHash(item.content)
    ensures Step(env, s, item) == s
  {
  }

  /** A file without a record gets one record, appended, and its blob is
      added and pinned. */
  lemma StepNewFile(env: Env, s: Pass, item: LocalItem)
    requires !item.isDirectory
    requires forall b :: b in s.list ==> b.path != item.name
    ensures var blob := env.encrypt(item.name, item.content);
            var cid := env.cidOf(blob);
            Step(env, s, item) == Pass(s.list + [FileBackup(item.name, cid, env.fileHash(item.content))],
                                       s.calls + [Add(blob), PinAdd(cid)])
  {
  }

  /** A file whose first record has another hash loses every record with that
      old hash, the old blob is unpinned, and a fresh record is appended. */
  lemma StepChangedFile(env: Env, s: Pass, item: LocalItem, prior: FileBackup)
    requires !item.isDirectory
    requires FindByPath(s.list, item.name) == Some(prior)
    requires prior.fileHash != env.fileHash(item.content)
    ensures var blob := env.encrypt(item.name, item.content);
            var cid := env.cidOf(blob);
            var r := Step(env, s, item);
            && (forall b :: b in r.list[..|r.list| - 1] <==> b in s.list && b.fileHash != prior.fileHash)
            && r.list[|r.list| - 1] == FileBackup(item.name, cid, env.fileHash(item.content))
            && r.calls == s.calls + [PinRm(prior.ipfsHash), Add(blob), PinAdd(cid)]
  {
    var r := Step(env, s, item);
    assert r.list[..|r.list| - 1] == WithoutHash(s.list, prior.fileHash);
  }

  /** Whatever its history, a file ends an iteration recorded under its
      current content hash. */
  lemma StepRecordsFile(env: Env, s: Pass, item: LocalItem)
    requires !item.isDirectory
    ensures exists b :: b in Step(env, s, item).list && b.path == item.name && b.fileHash == env.fileHash(item.content)
  {
    var backup := FindByPath(s.list, item.name);
    if backup.Some? && backup.value.fileHash == env.fileHash(item.content) {
      assert backup.value in Step(env, s, item).list;
    } else {
      var r := Step(env, s, item);
      assert r.list[|r.list| - 1] in r.list;
    }
  }

  /** The loop keeps a record of a file that is not listed, provided no
      listed file's fetched record shares its content hash. */
  lemma {:induction false} StepsKeep(env: Env, s: Pass, items: seq<LocalItem>, fetched: seq<FileBackup>, b: FileBackup)
    requires DistinctNames(items)
    requires forall e :: e in s.list && e.path in FileNames(items) ==> e in fetched
    requires forall e :: e in fetched && e.path in FileNames(items) ==> e.fileHash != b.fileHash
    requires b in s.list && b.path !in FileNames(items)
    ensures b in Steps(env, s, items).list
    decreases |items|
  {
    if items != [] {
      var x := items[0];
      var s' := Step(env, s, x);
      assert FileNames(items[1..]) <= FileNames(items);
      if !x.isDirectory {
        assert x.name in FileNames(items);
        assert x.name !in FileNames(items[1..]) by {
          forall y | y in items[1..] ensures y.name != x.name {
            var k :| 0 <= k < |items[1..]| && items[1..][k] == y;
            assert items[k + 1] == y;
          }
        }
      }
      StepsKeep(env, s', items[1..], fetched, b);
    }
  }

  /** As written, a record whose file is gone from the folder stays in the
      list when no present file's fetched record has the same content hash. */
  lemma AbsentFileKept(env: Env, fetched: seq<FileBackup>, items: seq<LocalItem>, b: FileBackup)
    requires DistinctNames(items)
    requires b in fetched && b.path !in FileNames(items)
    requires forall e :: e in fetched && e.path in FileNames(items) ==> e.fileHash != b.fileHash
    ensures b in BackupPass(env, fetched, items).list
  {
    StepsKeep(env, Pass(fetched, []), items, fetched, b);
  }

  lemma {:induction false} StepsNeverUpload(env: Env, s: Pass, items: seq<LocalItem>)
    requires forall c :: c in s.calls ==> !c.UpdateFileBackups?
    ensures forall c :: c in Steps(env, s, items).calls ==> !c.UpdateFileBackups?
    decreases |items|
  {
    if items != [] {
      StepsNeverUpload(env, Step(env, s, items[0]), items[1..]);
    }
  }

  /** The list is uploaded once, after the loop, and what is uploaded is the
      final list. */
  lemma UploadedOnce(env: Env, fetched: seq<FileBackup>, items: seq<LocalItem>)
    ensures var r := BackupPass(env, fetched, items);
            && |r.calls| > 0
            && r.calls[|r.calls| - 1] == UpdateFileBackups(r.list)
            && forall c :: c in r.calls[..|r.calls| - 1] ==> !c.UpdateFileBackups?
  {
    StepsNeverUpload(env, Pass(fetched, []), items);
    var r := BackupPass(env, fetched, items);
    assert r.calls[..|r.calls| - 1] == Steps(env, Pass(fetched, []), items).calls;
  }

  /** As written: the listing `b, a`, where `b` is unchanged and `a` changed
      from the content `b` still has, loses `b`'s record. */
  lemma RecordDropped()
    ensures var env := Env(c => if c == [2] then "H2" else "H1", (n, c) => c, d => "cid");
            var fetched := [FileBackup("a", "cidA", "H1"), FileBackup("b", "cidB", "H1")];
            var items := [LocalItem("b", false, [1]), LocalItem("a", false, [2])];
            && (forall e :: e in BackupPass(env, fetched, items).list ==> e.path != "b")
            && (exists e :: e in IntendedSteps(env, Pass(fetched, []), items).list && e.path == "b")
  {
    var env := Env(c => if c == [2] then "H2" else "H1", (n, c) => c, d => "cid");
    var fetched := [FileBackup("a", "cidA", "H1"), FileBackup("b", "cidB", "H1")];
    var items := [LocalItem("b", false, [1]), LocalItem("a", false, [2])];
    var s1 := Step(env, Pass(fetched, []), items[0]);
    assert s1 == Pass(fetched, []);
    var s2 := Step(env, s1, items[1]);
    assert FindByPath(fetched, "a") == Some(fetched[0]);
    assert WithoutHash(fetched, "H1") == [];
    assert s2.list == [FileBackup("a", "cid", "H2")];
    var t2 := IntendedStep(env, s1, items[1]);
    assert WithoutPath(fetched, "a") == [fetched[1]];
    assert fetched[1] in t2.list;
  }

  /** As intended, every file of the folder ends recorded under its current
      content hash, and no record of a file absent from the folder is lost. */
  lemma {:induction false} IntendedStepsRecordFiles(env: Env, s: Pass, items: seq<LocalItem>)
    requires DistinctNames(items)
    ensures var r := IntendedSteps(env, s, items);
            && (forall x :: x in items && !x.isDirectory ==>
                  exists b :: b in r.list && b.path == x.name && b.fileHash == env.fileHash(x.content))
            && (forall b :: b in s.list && b.path !in FileNames(items) ==> b in r.list)
    decreases |items|
  {
    if items != [] {
      var x := items[0];
      var s' := IntendedStep(env, s, x);
      var r := IntendedSteps(env, s', items[1..]);
      assert FileNames(items[1..]) <= FileNames(items);
      forall y | y in items[1..] ensures y.name != x.name {
        var k :| 0 <= k < |items[1..]| && items[1..][k] == y;
        assert items[k + 1] == y;
      }
      IntendedStepsRecordFiles(env, s', items[1..]);
      if !x.isDirectory {
        assert x.name in FileNames(items);
        var fileHash := env.fileHash(x.content);
        var backup := FindByPath(s.list, x.name);
        var rec: FileBackup;
        if backup.Some? && backup.value.fileHash == fileHash {
          rec := backup.value;
        } else {
          rec := s'.list[|s'.list| - 1];
        }
        assert rec in s'.list && rec.path == x.name && rec.fileHash == fileHash;
        assert rec.path !in FileNames(items[1..]);
        assert rec in r.list;
      }
    }
  }
}
