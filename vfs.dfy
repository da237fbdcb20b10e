/** The interface of the virtual file system that the mocked stream writes to:
    a registry of nodes keyed by absolute path, a set of paths on which the
    harness injects simulated I/O faults, and the answer `createFile` gives.
    The store's own internals are not part of this model; its operations are
    given by their contracts, and the stream's proofs rely on nothing else. */
module Vfs {
  import opened JavaInts

  datatype Option<T> = None | Some(value: T)

  /** An absolute path, already resolved by the file abstraction. */
  type Path = string

  /** A file-system object: its flags, queried afresh on every operation,
      and, for a regular file, its bytes. */
  datatype Node = Node(deleted: bool, folder: bool, writable: bool, content: seq<Byte>)

  /** True of a node a stream may be opened on. */
  predicate Usable(n: Node)
  {
    !n.deleted && !n.folder && n.writable
  }

  /** What `createFile(path)` does on a path that has no node: refuse, create
      the given node, or report success without a node being found there. */
  datatype CreateOutcome = Refused | Creates(node: Node) | ReportsOnly

  /** One call of a file node's `writeBytes(position, b, off, len)` and the
      count it answered. */
  datatype WriteRequest = WriteRequest(path: Path, position: int32, b: seq<Byte>, off: int32, len: int32, written: int32)

  /** The node at `path` is the only one whose content may differ, and its
      flags are the same. */
  predicate ContentOnlyChangedAt(before: map<Path, Node>, after: map<Path, Node>, path: Path)
  {
    after.Keys == before.Keys &&
    (forall p :: p in before && p != path ==> after[p] == before[p]) &&
    (path in before ==>
       after[path].deleted == before[path].deleted &&
       after[path].folder == before[path].folder &&
       after[path].writable == before[path].writable)
  }

  /** The bytes the store accepted may be anything from none to all `len`. */
  predicate AcceptedCount(len: int32, written: int32)
  {
    0 <= written && (written == 0 || written <= len)
  }

  class VirtualFileSystem {
    var nodes: map<Path, Node>
    var faults: set<Path>
    var createOutcome: CreateOutcome
    /** Every call of a node's write method, in order. */
    ghost var writeLog: seq<WriteRequest>

    constructor (nodes: map<Path, Node>, faults: set<Path>, createOutcome: CreateOutcome)
      ensures this.nodes == nodes && this.faults == faults && this.createOutcome == createOutcome
      ensures writeLog == []
    {
      this.nodes := nodes;
      this.faults := faults;
      this.createOutcome := createOutcome;
      writeLog := [];
    }

    /** `findFSObject(path)`. */
    function Find(path: Path): (r: Option<Node>)
      reads this
      ensures r.Some? <==> path in nodes
      ensures r.Some? ==> r.value == nodes[path]
    {
      if path in nodes then Some(nodes[path]) else None
    }

    /** Whether `throwSimuledIOExceptionIfNeeded(path)` throws. */
    predicate InjectsFault(path: Path): (r: bool)
      reads this
      ensures r <==> path in faults
    {
      path in faults
    }

    /** `createFile(path)`: true when the store reports a new file. */
    method CreateFile(path: Path) returns (created: bool)
      modifies this
      ensures created <==> path !in old(nodes) && !old(createOutcome).Refused?
      ensures nodes == if path !in old(nodes) && old(createOutcome).Creates?
                       then old(nodes)[path := old(createOutcome).node]
                       else old(nodes)
      ensures faults == old(faults) && createOutcome == old(createOutcome) && writeLog == old(writeLog)
    {
      created := false;
      if path !in nodes {
        match createOutcome
        case Refused =>
        case Creates(n) =>
          nodes := nodes[path := n];
          created := true;
        case ReportsOnly =>
          created := true;
      }
    }

    /** `eraseData()` on the file node at `path`. */
    method EraseData(path: Path)
      requires path in nodes
      modifies this
      ensures nodes == old(nodes)[path := old(nodes)[path].(content := [])]
      ensures faults == old(faults) && createOutcome == old(createOutcome) && writeLog == old(writeLog)
    {
      nodes := nodes[path := nodes[path].(content := [])];
    }

    /** `writeBytes(position, b, off, len)` on the file node at `path`.
        Callers may rely only on the contract. The body is one admissible
        store: it overwrites in place from `position` and refuses writes it
        cannot place. */
    method WriteBytes(path: Path, position: int32, b: seq<Byte>, off: int32, len: int32) returns (written: int32)
      requires path in nodes && !nodes[path].folder
      modifies this
      ensures AcceptedCount(len, written)
      ensures ContentOnlyChangedAt(old(nodes), nodes, path)
      ensures written == 0 ==> nodes == old(nodes)
      ensures writeLog == old(writeLog) + [WriteRequest(path, position, b, off, len, written)]
      ensures faults == old(faults) && createOutcome == old(createOutcome)
    {
      var n := nodes[path];
      if n.deleted || !n.writable || off < 0 || len <= 0 || off as int + len as int > |b|
         || position < 0 || position as int > |n.content| {
        written := 0;
      } else {
        var data := b[off..off as int + len as int];
        var tail := if position as int + |data| < |n.content| then n.content[position as int + |data|..] else [];
        nodes := nodes[path := n.(content := n.content[..position] + data + tail)];
        written := len;
      }
      writeLog := writeLog + [WriteRequest(path, position, b, off, len, written)];
    }
  }
}
