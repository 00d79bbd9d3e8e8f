/** The encrypted per-folder manifest (`<dir>/metadata`), the device info
    document (`/info`) and the `/files` root, as kept in the MFS store. */
module DeviceState {
  import opened Wrappers
  import opened Mfs

  /** A file record in the shape the reconciler builds and stores. */
  datatype FileBackup = FileBackup(
    filename: string,
    filenameHash: string,
    fileHash: string,
    mimeType: Option<string>,
    ipfsHash: string,
    mtime: string)

  /** A subfolder record: the local name and the hashed name used remotely. */
  datatype FolderBackup = FolderBackup(name: string, hash: string)

  datatype BackupFolderMetadata = BackupFolderMetadata(files: seq<FileBackup>, folders: seq<FolderBackup>)

  datatype DeviceInfo = DeviceInfo(name: string, ipns: string)

  /** `encryptText` / `decryptText` of the OpenPGP key pair, taken as opaque;
      `decryptText` yields None where it would throw (bad message, bad
      signature, undecodable bytes). */
  datatype Crypto = Crypto(encryptText: string -> Blob, decryptText: Blob -> Option<string>)

  /** `JSON.stringify` / `JSON.parse` at one record type; None where parsing throws. */
  datatype Json<!T> = Json(stringify: T -> string, parse: string -> Option<T>)

  /** Decryption inverts encryption. */
  ghost predicate Decrypts(c: Crypto) {
    forall t :: c.decryptText(c.encryptText(t)) == Some(t)
  }

  /** Parsing inverts serialisation. */
  ghost predicate Parses<T(!new)>(j: Json<T>) {
    forall v :: j.parse(j.stringify(v)) == Some(v)
  }

  const MetadataName: string := "metadata"
  const InfoPath: Path := ["info"]
  const FilesRoot: Path := ["files"]

  function MetadataPath(ipfsPath: Path): (p: Path)
    ensures Under(p, ipfsPath) && |p| == |ipfsPath| + 1
  {
    ipfsPath + [MetadataName]
  }

  function EmptyMetadata(): BackupFolderMetadata {
    BackupFolderMetadata([], [])
  }

  /** `readLocalEncryptedFile`: read, decode and decrypt; None where any step throws. */
  function ReadLocalEncryptedFile(n: Nodes, path: Path, c: Crypto): (r: Option<string>)
    ensures r.Some? ==> IsFile(n, path) && c.decryptText(n[path].data) == r
  {
    match Read(n, path)
    case Err(_) => None
    case Ok(blob) => c.decryptText(blob)
  }

  /** `readLocalEncryptedJsonFile`: the parsed document, or `fallback` when
      reading, decrypting or parsing fails; it never fails itself. */
  function ReadLocalEncryptedJsonFile<T>(n: Nodes, path: Path, c: Crypto, j: Json<T>, fallback: T): (r: T)
    ensures !IsFile(n, path) ==> r == fallback
    ensures ReadLocalEncryptedFile(n, path, c).None? ==> r == fallback
    ensures ReadLocalEncryptedFile(n, path, c).Some? ==>
              var parsed := j.parse(ReadLocalEncryptedFile(n, path, c).value);
              r == if parsed.Some? then parsed.value else fallback
  {
    match ReadLocalEncryptedFile(n, path, c)
    case None => fallback
    case Some(content) =>
      match j.parse(content)
      case None => fallback
      case Some(v) => v
  }

  /** `readFolderMetadata`: the manifest at `<ipfsPath>/metadata`, or an empty one. */
  function ReadFolderMetadata(n: Nodes, ipfsPath: Path, c: Crypto, j: Json<BackupFolderMetadata>): (m: BackupFolderMetadata)
    ensures !IsFile(n, MetadataPath(ipfsPath)) ==> m == EmptyMetadata()
  {
    ReadLocalEncryptedJsonFile(n, MetadataPath(ipfsPath), c, j, EmptyMetadata())
  }

  /** `readDeviceInfo`: the document at `/info`, or empty name and IPNS key. */
  function ReadDeviceInfo(n: Nodes, c: Crypto, j: Json<DeviceInfo>): (info: DeviceInfo)
    ensures !IsFile(n, InfoPath) ==> info == DeviceInfo("", "")
  {
    ReadLocalEncryptedJsonFile(n, InfoPath, c, j, DeviceInfo("", ""))
  }

  /** The effect of `writeLocalEncryptedFile`: one create-and-truncate write. */
  function WriteEncrypted(w: World, path: Path, content: string, c: Crypto): (r: Run<()>)
    ensures r.r.Ok? <==> !IsDir(w.nodes, path) && IsDir(w.nodes, Parent(path))
    ensures r.r.Ok? ==> r.w == World(w.nodes[path := FileNode(c.encryptText(content))],
                                      w.log + [Write(path, c.encryptText(content), true, true)])
  {
    Exec(w, Write(path, c.encryptText(content), true, true))
  }

  /** The effect of `writeFolderMetadata`. */
  function WriteFolderMetadataRun(w: World, ipfsPath: Path, m: BackupFolderMetadata, c: Crypto, j: Json<BackupFolderMetadata>): Run<()> {
    WriteEncrypted(w, MetadataPath(ipfsPath), j.stringify(m), c)
  }

  method WriteLocalEncryptedFile(fs: Store, path: Path, content: string, c: Crypto) returns (r: Result<(), StoreError>)
    modifies fs
    ensures Run(fs.State(), r) == WriteEncrypted(old(fs.State()), path, content, c)
  {
    var message := c.encryptText(content);
    r := fs.Write(path, message, true, true);
  }

  method WriteLocalEncryptedJsonFile<T>(fs: Store, path: Path, content: T, c: Crypto, j: Json<T>) returns (r: Result<(), StoreError>)
    modifies fs
    ensures Run(fs.State(), r) == WriteEncrypted(old(fs.State()), path, j.stringify(content), c)
  {
    r := WriteLocalEncryptedFile(fs, path, j.stringify(content), c);
  }

  method WriteFolderMetadata(fs: Store, ipfsPath: Path, m: BackupFolderMetadata, c: Crypto, j: Json<BackupFolderMetadata>)
    returns (r: Result<(), StoreError>)
    modifies fs
    ensures Run(fs.State(), r) == WriteFolderMetadataRun(old(fs.State()), ipfsPath, m, c, j)
  {
    r := WriteLocalEncryptedJsonFile(fs, MetadataPath(ipfsPath), m, c, j);
  }

  method WriteDeviceInfo(fs: Store, info: DeviceInfo, c: Crypto, j: Json<DeviceInfo>) returns (r: Result<(), StoreError>)
    modifies fs
    ensures Run(fs.State(), r) == WriteEncrypted(old(fs.State()), InfoPath, j.stringify(info), c)
  {
    r := WriteLocalEncryptedJsonFile(fs, InfoPath, info, c, j);
  }

  /** `ensureSetup`: creates `/files` (without `parents`) only when nothing is there. */
  method EnsureSetup(fs: Store) returns (r: Result<(), StoreError>)
    modifies fs
    ensures FilesRoot in old(fs.nodes) ==> r.Ok? && fs.State() == old(fs.State())
    ensures FilesRoot !in old(fs.nodes) ==>
              && r.Ok?
              && fs.nodes == old(fs.nodes)[FilesRoot := DirNode]
              && fs.log == old(fs.log) + [Mkdir(FilesRoot, false)]
  {
    var present := fs.Exists(FilesRoot);
    if !present {
      r := fs.Mkdir(FilesRoot, false);
    } else {
      r := Ok(());
    }
  }

  /** What a manifest read returns depends only on the node at `<ipfsPath>/metadata`. */
  lemma ReadFolderMetadataLocal(n1: Nodes, n2: Nodes, ipfsPath: Path, c: Crypto, j: Json<BackupFolderMetadata>)
    requires Same(n1, n2, MetadataPath(ipfsPath))
    ensures ReadFolderMetadata(n1, ipfsPath, c, j) == ReadFolderMetadata(n2, ipfsPath, c, j)
  {
  }

  /** Writing an encrypted JSON document and reading it back at the same path
      gives the document, when decryption and parsing invert their partners. */
  lemma EncryptedJsonRoundTrip<T(!new)>(w: World, path: Path, v: T, c: Crypto, j: Json<T>, fallback: T)
    requires Decrypts(c) && Parses(j)
    requires !IsDir(w.nodes, path) && IsDir(w.nodes, Parent(path))
    ensures WriteEncrypted(w, path, j.stringify(v), c).r.Ok?
    ensures ReadLocalEncryptedJsonFile(WriteEncrypted(w, path, j.stringify(v), c).w.nodes, path, c, j, fallback) == v
  {
    var n := WriteEncrypted(w, path, j.stringify(v), c).w.nodes;
    assert ReadLocalEncryptedFile(n, path, c) == c.decryptText(c.encryptText(j.stringify(v)));
  }

  /** `writeFolderMetadata` then `readFolderMetadata` on the same folder returns
      the written manifest. */
  lemma FolderMetadataRoundTrip(w: World, ipfsPath: Path, m: BackupFolderMetadata, c: Crypto, j: Json<BackupFolderMetadata>)
    requires Decrypts(c) && Parses(j)
    requires IsDir(w.nodes, ipfsPath) && !IsDir(w.nodes, MetadataPath(ipfsPath))
    ensures WriteFolderMetadataRun(w, ipfsPath, m, c, j).r.Ok?
    ensures ReadFolderMetadata(WriteFolderMetadataRun(w, ipfsPath, m, c, j).w.nodes, ipfsPath, c, j) == m
  {
    assert Parent(MetadataPath(ipfsPath)) == ipfsPath;
    EncryptedJsonRoundTrip(w, MetadataPath(ipfsPath), m, c, j, EmptyMetadata());
  }

  /** `writeDeviceInfo` then `readDeviceInfo` returns the written document. */
  lemma DeviceInfoRoundTrip(w: World, info: DeviceInfo, c: Crypto, j: Json<DeviceInfo>)
    requires Decrypts(c) && Parses(j)
    requires !IsDir(w.nodes, InfoPath)
    ensures WriteEncrypted(w, InfoPath, j.stringify(info), c).r.Ok?
    ensures ReadDeviceInfo(WriteEncrypted(w, InfoPath, j.stringify(info), c).w.nodes, c, j) == info
  {
    EncryptedJsonRoundTrip(w, InfoPath, info, c, j, DeviceInfo("", ""));
  }
}
