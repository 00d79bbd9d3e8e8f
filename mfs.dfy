/** An abstract model of the IPFS mutable file system (MFS) as the reconciler
    drives it: a map from slash-separated paths (as segment sequences) to
    nodes, the log of mutating operations issued against it, and the error
    conditions under which MFS calls throw. */
module Mfs {
  import opened Wrappers

  type Path = seq<string>
  type Blob = seq<bv8>
  type Cid = string

  datatype Node = DirNode | FileNode(data: Blob)

  /** The `type` of an `ls` entry: "directory" or "file". */
  datatype Kind = Directory | File

  datatype RemoteEntry = RemoteEntry(name: string, kind: Kind)

  /** Mutating MFS calls, as they appear in the operation log. */
  datatype Op =
    | Mkdir(path: Path, parents: bool)
    | Write(path: Path, data: Blob, create: bool, truncate: bool)
    | Rm(path: Path, recursive: bool)

  datatype StoreError =
    | NotFound(path: Path)
    | AlreadyExists(path: Path)
    | NotADirectory(path: Path)
    | IsADirectory(path: Path)
    | CannotRemoveRoot

  type Nodes = map<Path, Node>

  /** The store contents together with the log of operations applied so far. */
  datatype World = World(nodes: Nodes, log: seq<Op>)

  /** The state after a (possibly failed) sequence of calls and its outcome.
      On failure the state holds every operation applied before the error. */
  datatype Run<+T> = Run(w: World, r: Result<T, StoreError>)

  function Parent(p: Path): Path
    requires p != []
  {
    p[..|p| - 1]
  }

  /** The root always exists and is a directory. */
  predicate IsDir(n: Nodes, p: Path) {
    p == [] || (p in n && n[p].DirNode?)
  }

  predicate IsFile(n: Nodes, p: Path) {
    p in n && n[p].FileNode?
  }

  /** q lies strictly below p. */
  predicate Under(q: Path, p: Path) {
    |p| < |q| && q[..|p|] == p
  }

  function KindOf(node: Node): Kind {
    if node.DirNode? then Directory else File
  }

  /** `files.mkdir(p, {parents})`: with `parents` an existing directory is
      accepted and missing ancestors are created; without it the parent must
      exist and `p` must not. */
  function MkdirNodes(n: Nodes, p: Path, parents: bool): (r: Result<Nodes, StoreError>)
    decreases |p|
    ensures r.Ok? ==> IsDir(r.value, p)
    ensures r.Ok? ==> forall q :: q in n ==> q in r.value && r.value[q] == n[q]
  {
    if p == [] then
      if parents then Ok(n) else Err(AlreadyExists(p))
    else if p in n then
      if parents && n[p].DirNode? then Ok(n) else Err(AlreadyExists(p))
    else if parents then
      match MkdirNodes(n, Parent(p), true)
      case Ok(n') => Ok(n'[p := DirNode])
      case Err(e) => Err(e)
    else if IsDir(n, Parent(p)) then Ok(n[p := DirNode])
    else Err(NotFound(Parent(p)))
  }

  /** The bytes of a file after writing `data` at offset 0 over `before`:
      without `truncate`, trailing bytes of a longer old content survive. */
  function Overwrite(before: Blob, data: Blob, truncate: bool): (r: Blob)
    ensures |data| <= |r| && r[..|data|] == data
    ensures truncate ==> r == data
    ensures !truncate && |data| < |before| ==> r[|data|..] == before[|data|..]
  {
    if truncate || |before| <= |data| then data else data + before[|data|..]
  }

  /** `files.write(p, data, {create, truncate})`. */
  function WriteNodes(n: Nodes, p: Path, data: Blob, create: bool, truncate: bool): (r: Result<Nodes, StoreError>)
    ensures r.Ok? <==> !IsDir(n, p) && IsDir(n, Parent(p)) && (create || p in n)
    ensures r.Ok? && create && truncate ==> r.value == n[p := FileNode(data)]
  {
    if IsDir(n, p) then Err(IsADirectory(p))
    else if !IsDir(n, Parent(p)) then Err(NotFound(Parent(p)))
    else if p !in n && !create then Err(NotFound(p))
    else
      var before := if p in n then n[p].data else [];
      Ok(n[p := FileNode(Overwrite(before, data, truncate))])
  }

  /** `files.rm(p, {recursive})`: a directory needs `recursive`, and then it
      disappears with everything below it; without it only a file can go. */
  function RmNodes(n: Nodes, p: Path, recursive: bool): (r: Result<Nodes, StoreError>)
    ensures r.Ok? <==> p != [] && p in n && (recursive || n[p].FileNode?)
    ensures r.Ok? ==> forall q :: q in r.value <==> q in n && q != p && (!recursive || !Under(q, p))
    ensures r.Ok? ==> forall q :: q in r.value ==> r.value[q] == n[q]
  {
    if p == [] then Err(CannotRemoveRoot)
    else if p !in n then Err(NotFound(p))
    else if n[p].DirNode? && !recursive then Err(IsADirectory(p))
    else if !recursive then Ok(n - {p})
    else Ok(map q | q in n && q != p && !Under(q, p) :: n[q])
  }

  function Effect(n: Nodes, op: Op): Result<Nodes, StoreError> {
    match op
    case Mkdir(p, parents) => MkdirNodes(n, p, parents)
    case Write(p, data, create, truncate) => WriteNodes(n, p, data, create, truncate)
    case Rm(p, recursive) => RmNodes(n, p, recursive)
  }

  /** Issues one mutating call: on success the store changes and the call is
      logged; on failure nothing changes. */
  function Exec(w: World, op: Op): (r: Run<()>)
    ensures r.r.Ok? ==> r.w.log == w.log + [op]
    ensures r.r.Err? ==> r.w == w
  {
    match Effect(w.nodes, op)
    case Ok(n) => Run(World(n, w.log + [op]), Ok(()))
    case Err(e) => Run(w, Err(e))
  }

  /** `files.ls(p)`: the entries directly below a directory. */
  function Listing(n: Nodes, p: Path): Result<set<RemoteEntry>, StoreError> {
    if !IsDir(n, p) then Err(if p in n then NotADirectory(p) else NotFound(p))
    else Ok(set q | q in n && |q| == |p| + 1 && q[..|p|] == p :: RemoteEntry(q[|p|], KindOf(n[q])))
  }

  /** `files.stat(p).cid`, with the content identifier given by `cid`. */
  function Stat(n: Nodes, p: Path, cid: Node -> Cid): Result<Cid, StoreError> {
    if p == [] then Ok(cid(DirNode))
    else if p in n then Ok(cid(n[p]))
    else Err(NotFound(p))
  }

  /** `files.read(p)`. */
  function Read(n: Nodes, p: Path): (r: Result<Blob, StoreError>)
    ensures r.Ok? <==> p in n && n[p].FileNode?
  {
    if p in n && n[p].FileNode? then Ok(n[p].data)
    else if IsDir(n, p) then Err(IsADirectory(p))
    else Err(NotFound(p))
  }

  /** An `ls` listing names exactly the children of `p`, each with its kind. */
  lemma ListingEntries(n: Nodes, p: Path, name: string, k: Kind)
    requires IsDir(n, p)
    ensures RemoteEntry(name, k) in Listing(n, p).value <==> p + [name] in n && KindOf(n[p + [name]]) == k
  {
    var q := p + [name];
    assert q[..|p|] == p && q[|p|] == name;
    if RemoteEntry(name, k) in Listing(n, p).value {
      var q' :| q' in n && |q'| == |p| + 1 && q'[..|p|] == p && RemoteEntry(q'[|p|], KindOf(n[q'])) == RemoteEntry(name, k);
      assert q' == q'[..|p|] + [q'[|p|]];
    }
  }

  /** Node `q` is the same in both stores (absent from both, or equal). */
  ghost predicate Same(n1: Nodes, n2: Nodes, q: Path) {
    (q in n1 <==> q in n2) && (q in n1 ==> n1[q] == n2[q])
  }

  /** Everything outside the subtree strictly below `p` is untouched. */
  ghost predicate FramedUnder(n1: Nodes, n2: Nodes, p: Path) {
    forall q :: !Under(q, p) ==> Same(n1, n2, q)
  }

  lemma UnderTrans(r: Path, q: Path, p: Path)
    requires Under(r, q) && (q == p || Under(q, p))
    ensures Under(r, p)
  {
    assert r[..|p|] == r[..|q|][..|p|];
  }

  lemma {:induction false} MkdirFrame(n: Nodes, q: Path, p: Path)
    requires IsDir(n, p) && Under(q, p)
    requires MkdirNodes(n, q, true).Ok?
    ensures FramedUnder(n, MkdirNodes(n, q, true).value, p)
  {
    if q !in n {
      var pq := Parent(q);
      if pq != p {
        assert Under(pq, p) by { assert pq[..|p|] == q[..|p|]; }
        MkdirFrame(n, pq, p);
      }
    }
  }

  /** A successful call aimed strictly below the directory `p` changes nothing
      outside `p`'s subtree. */
  lemma ExecFrame(w: World, op: Op, p: Path)
    requires IsDir(w.nodes, p) && Under(op.path, p)
    ensures FramedUnder(w.nodes, Exec(w, op).w.nodes, p)
  {
    var n := w.nodes;
    match op
    case Mkdir(q, parents) =>
      if parents && MkdirNodes(n, q, true).Ok? { MkdirFrame(n, q, p); }
    case Write(q, data, create, truncate) =>
    case Rm(q, recursive) =>
      if RmNodes(n, q, recursive).Ok? {
        forall r | Under(r, q) ensures Under(r, p) { UnderTrans(r, q, p); }
      }
  }

  lemma FramedTrans(n1: Nodes, n2: Nodes, n3: Nodes, p: Path)
    requires FramedUnder(n1, n2, p) && FramedUnder(n2, n3, p)
    ensures FramedUnder(n1, n3, p)
  {
  }

  /** A store framed under `p` still has the directory `p`. */
  lemma FramedKeepsRoot(n1: Nodes, n2: Nodes, p: Path)
    requires FramedUnder(n1, n2, p) && IsDir(n1, p)
    ensures IsDir(n2, p)
  {
    assert !Under(p, p) && Same(n1, n2, p);
  }

  /** Only nodes at least two levels below `p` differ. */
  ghost predicate FramedDeep(n1: Nodes, n2: Nodes, p: Path) {
    forall q :: !(Under(q, p) && |q| > |p| + 1) ==> Same(n1, n2, q)
  }

  lemma FramedDeepOfChild(n1: Nodes, n2: Nodes, p: Path, name: string)
    requires FramedUnder(n1, n2, p + [name])
    ensures FramedDeep(n1, n2, p)
  {
    forall q | Under(q, p + [name]) ensures Under(q, p) && |q| > |p| + 1 {
      ChildUnder(p, name);
      UnderTrans(q, p + [name], p);
    }
  }

  lemma ChildUnder(p: Path, name: string)
    ensures Under(p + [name], p)
  {
    assert (p + [name])[..|p|] == p;
  }

  /** Children of one directory with different names are disjoint. */
  lemma SiblingsApart(p: Path, a: string, b: string)
    requires a != b
    ensures p + [a] != p + [b] && !Under(p + [a], p + [b])
  {
    assert (p + [a])[|p|] == a && (p + [b])[|p|] == b;
  }

  /** Every directory of `n1` is still a directory in `n2`. */
  ghost predicate DirsKept(n1: Nodes, n2: Nodes) {
    forall q :: IsDir(n1, q) ==> IsDir(n2, q)
  }

  /** Only a recursive `rm` can make a directory disappear. */
  lemma ExecKeepsDirs(w: World, op: Op)
    requires !(op.Rm? && op.recursive)
    ensures DirsKept(w.nodes, Exec(w, op).w.nodes)
  {
    var n := w.nodes;
    match op
    case Mkdir(q, parents) =>
    case Write(q, data, create, truncate) =>
    case Rm(q, recursive) =>
      if RmNodes(n, q, recursive).Ok? {
        assert n[q].FileNode?;
      }
  }

  /** The MFS client: the store contents and the log of mutating calls. */
  class Store {
    var nodes: Nodes
    var log: seq<Op>

    function State(): World
      reads this
    {
      World(nodes, log)
    }

    constructor (initial: Nodes)
      ensures State() == World(initial, [])
    {
      nodes, log := initial, [];
    }

    method Apply(op: Op) returns (r: Result<(), StoreError>)
      modifies this
      ensures Run(State(), r) == Exec(old(State()), op)
    {
      var e := Effect(nodes, op);
      if e.Err? {
        return Err(e.error);
      }
      nodes, log := e.value, log + [op];
      return Ok(());
    }

    method Mkdir(p: Path, parents: bool) returns (r: Result<(), StoreError>)
      modifies this
      ensures Run(State(), r) == Exec(old(State()), Op.Mkdir(p, parents))
    {
      r := Apply(Op.Mkdir(p, parents));
    }

    method Write(p: Path, data: Blob, create: bool, truncate: bool) returns (r: Result<(), StoreError>)
      modifies this
      ensures Run(State(), r) == Exec(old(State()), Op.Write(p, data, create, truncate))
    {
      r := Apply(Op.Write(p, data, create, truncate));
    }

    method Rm(p: Path, recursive: bool) returns (r: Result<(), StoreError>)
      modifies this
      ensures Run(State(), r) == Exec(old(State()), Op.Rm(p, recursive))
    {
      r := Apply(Op.Rm(p, recursive));
    }

    method Ls(p: Path) returns (r: Result<set<RemoteEntry>, StoreError>)
      ensures r == Listing(nodes, p)
    {
      r := Listing(nodes, p);
    }

    method StatCid(p: Path, cid: Node -> Cid) returns (r: Result<Cid, StoreError>)
      ensures r == Stat(nodes, p, cid)
    {
      r := Stat(nodes, p, cid);
    }

    method ReadFile(p: Path) returns (r: Result<Blob, StoreError>)
      ensures r == Read(nodes, p)
    {
      r := Read(nodes, p);
    }

    method Exists(p: Path) returns (b: bool)
      ensures b <==> p == [] || p in nodes
    {
      b := p == [] || p in nodes;
    }
  }
}
