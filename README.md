# MockFileOutputStream, modelled in Dafny

EvoSuite's `MockFileOutputStream` takes the place of `java.io.FileOutputStream`
in generated tests. Its writes go to an in-memory virtual file system (VFS)
instead of the disk. This project models the stream as a small state machine
and proves properties of it. The machine has a `closed` flag that only goes
from false to true, a 32-bit write position held in an `AtomicInteger`, and at
most one lazily created `EvoFileChannel` that shares that position cell.

Files:

- `java_ints.dfy` (module `JavaInts`): Java `int` with wrap-around addition,
  the `(byte)` cast, and `AtomicInteger`.
- `vfs.dfy` (module `Vfs`): the interface of the virtual file system. It holds
  a map from absolute path to node (`deleted`, `folder`, `writable`, content),
  the set of paths with injected faults, and the answer `createFile` gives. A
  ghost log records every call of a node's `writeBytes`.
- `stream_model.dfy` (module `StreamModel`): the stream as a pure state machine.
  Each call is a function of the state and of the store's answers: open, the
  ordered write checks, write, close, getChannel. It also has lemmas about
  whole runs of calls.
- `mock_file_output_stream.dfy` (module `MockIO`): the classes
  `MockFileOutputStream` and `EvoFileChannel`. Each method is proved to move the
  object's state exactly as the state machine says. Each method also states
  what it did to the store.

Every failure is returned as a distinct value, not thrown. Opening has one
error, `FileNotFound`. A write can fail with `FileDoesNotExist`,
`CannotWriteToFolder`, `StreamClosed`, `InjectedFault` or `WriteRejected`
("Error in writing to file"). A close can fail with `InjectedFault`.

The VFS singleton becomes an explicit `VirtualFileSystem` object that is passed
to `Open`. Fault injection (`throwSimuledIOExceptionIfNeeded`) becomes
membership of the path in `faults`. A node's `writeBytes` is specified only by
its contract. It answers a count between 0 and `len`, changes at most the
content of its own node, and changes nothing when it answers 0. The stream's
proofs use nothing about where the bytes go.

Two consequences of the code that the model keeps:

- The code treats only a count of 0 from the node as a failure (line 105), so
  `WriteStep` treats any non-zero count as success. A negative count would move
  the cursor back; only the node's contract rules that out. This is why
  `CursorIsExactWithoutOverflow` assumes the counts are not negative.
- An append-mode stream also starts at position 0 (line 32) and asks the node
  to write there (line 104). Whether earlier content survives is therefore up
  to the node, and the model states nothing about it.

## Model

| member | source | states |
|---|---|---|
| JavaInts.Add | src/main/java/org/evosuite/mock/java/io/MockFileOutputStream.java:108 | the position update is Java int addition: equal to the exact sum modulo 2^32, and equal to it outright when there is no overflow |
| JavaInts.ToByte | src/main/java/org/evosuite/mock/java/io/MockFileOutputStream.java:113 | `(byte) b` keeps b modulo 256 and leaves a value already in byte range unchanged |
| JavaInts.WrapAbsorbs | src/main/java/org/evosuite/mock/java/io/MockFileOutputStream.java:108 | adding counts one at a time with wrap-around gives the same int as wrapping the exact total once |
| JavaInts.AtomicInteger.AddAndGet | src/main/java/org/evosuite/mock/java/io/MockFileOutputStream.java:108 | the cell's new value is the old value plus the count, and that new value is returned |
| JavaInts.AtomicInteger.constructor | src/main/java/org/evosuite/mock/java/io/MockFileOutputStream.java:32 | a new cell holds the given initial value (0 for the stream) |
| JavaInts.AtomicInteger.Get | src/main/java/org/evosuite/mock/java/io/MockFileOutputStream.java:104 | the read returns the cell's current value |
| Vfs.VirtualFileSystem.InjectsFault | src/main/java/org/evosuite/mock/java/io/MockFileOutputStream.java:101 | a fault is injected exactly on the paths configured for it |
| StreamModel.Admit | src/main/java/org/evosuite/mock/java/io/MockFileOutputStream.java:65-71 | a found target is accepted exactly when usable; a rejection leaves the store as it was; an accepted target is erased unless appending and kept unchanged when appending |
| MockIO.EvoFileChannel.constructor | src/main/java/org/evosuite/mock/java/io/MockFileOutputStream.java:163 | the channel holds the given position cell and path with the given read and write flags, and starts open |
| Vfs.VirtualFileSystem.Find | src/main/java/org/evosuite/mock/java/io/MockFileOutputStream.java:57 | the lookup finds a node exactly when one is registered at the path, and returns that node |
| Vfs.VirtualFileSystem.CreateFile | src/main/java/org/evosuite/mock/java/io/MockFileOutputStream.java:59-60 | creation is reported only on a path with no node and a store that does not refuse; only a created node is added |
| Vfs.VirtualFileSystem.EraseData | src/main/java/org/evosuite/mock/java/io/MockFileOutputStream.java:70 | the node's content becomes empty, and everything else in the store is unchanged |
| Vfs.VirtualFileSystem.WriteBytes | src/main/java/org/evosuite/mock/java/io/MockFileOutputStream.java:104 | the node answers a count in [0, len]; only that node's content may change; it changes nothing when the count is 0; the call is logged |
| StreamModel.OpenTarget | src/main/java/org/evosuite/mock/java/io/MockFileOutputStream.java:57-71 | an existing node opens exactly when it is not deleted, not a folder and writable; a missing path opens only if the store creates a usable node; a refused creation opens nothing and changes nothing; the opened file is emptied unless appending, and kept as it was when appending; a created node that is then rejected stays in the store; no other path is touched |
| StreamModel.WriteCheck | src/main/java/org/evosuite/mock/java/io/MockFileOutputStream.java:88-101 | a write reaches the node exactly when the node exists, is not a folder, the stream is open and no fault is injected; the checks run in the order missing, folder, closed, fault, so a closed stream reports closed even on a faulty path |
| StreamModel.WriteStep | src/main/java/org/evosuite/mock/java/io/MockFileOutputStream.java:88-108 | a write succeeds exactly when it passes the checks and the node accepts a non-zero count; a failed check makes the write report that check's error; a count of 0 is the WriteRejected error; every failure leaves the state unchanged; a success moves the cursor by exactly the accepted count (mod 2^32) |
| StreamModel.CloseStep | src/main/java/org/evosuite/mock/java/io/MockFileOutputStream.java:129-142 | after close the stream is closed and the cursor has not moved; a repeat close is an Ok no-op; a first close closes the channel and fails only with an injected fault, and then the stream stays closed |
| StreamModel.ChannelStep | src/main/java/org/evosuite/mock/java/io/MockFileOutputStream.java:160-167 | after getChannel a channel exists; an existing one is kept and nothing changes; the cursor and the closed flag are never touched |
| StreamModel.CursorCountsAcceptedBytes | src/main/java/org/evosuite/mock/java/io/MockFileOutputStream.java:104-108 | over any run of calls, the final cursor is the start cursor plus the sum of the counts accepted by the successful writes, in Java int arithmetic |
| StreamModel.CursorIsExactWithoutOverflow | src/main/java/org/evosuite/mock/java/io/MockFileOutputStream.java:104-108 | when counts are not negative and the total does not overflow, the final cursor is the exact sum and never below the start |
| StreamModel.NothingAfterClose | src/main/java/org/evosuite/mock/java/io/MockFileOutputStream.java:97-99 | after close, over any run: the stream stays closed and the cursor fixed; every write fails before the node is asked (StreamClosed when the target is still a file); every further close succeeds |
| StreamModel.ChannelIsCreatedOnce | src/main/java/org/evosuite/mock/java/io/MockFileOutputStream.java:162-165 | once a channel exists, no later call of any kind removes it |
| StreamModel.CloseIsIdempotent | src/main/java/org/evosuite/mock/java/io/MockFileOutputStream.java:132-141 | after any close, even one that reported an injected fault, the stream is closed and a second close is an Ok no-op |
| MockIO.MockFileOutputStream.Attach | src/main/java/org/evosuite/mock/java/io/MockFileOutputStream.java:27-32 | a new stream has position 0 in a fresh cell of its own, is not closed and has no channel |
| MockIO.MockFileOutputStream.Open | src/main/java/org/evosuite/mock/java/io/MockFileOutputStream.java:51-72 | the store ends as OpenTarget says, a stream is returned exactly when OpenTarget succeeds, it starts in the initial state, and no node write is made |
| MockIO.MockFileOutputStream.WriteBytes | src/main/java/org/evosuite/mock/java/io/MockFileOutputStream.java:85-109 | the state moves as WriteStep says; a write stopped by a check leaves the store and its write log untouched; otherwise the node is called once, at the current position, with the caller's range, and the cursor moves by its answer |
| MockIO.MockFileOutputStream.Write | src/main/java/org/evosuite/mock/java/io/MockFileOutputStream.java:111-114 | as WriteBytes, on the one-byte range holding `(byte) b` |
| MockIO.MockFileOutputStream.WriteAll | src/main/java/org/evosuite/mock/java/io/MockFileOutputStream.java:116-119 | as WriteBytes, on the whole array, from 0 for its full length |
| MockIO.MockFileOutputStream.WriteRange | src/main/java/org/evosuite/mock/java/io/MockFileOutputStream.java:121-124 | as WriteBytes, on the caller's range passed on unchecked |
| MockIO.MockFileOutputStream.Close | src/main/java/org/evosuite/mock/java/io/MockFileOutputStream.java:129-142 | the state moves as CloseStep says; a repeat close leaves the channel as it was; the store is never modified |
| MockIO.MockFileOutputStream.GetChannel | src/main/java/org/evosuite/mock/java/io/MockFileOutputStream.java:159-167 | the same channel on every call, fresh and open on the first; it holds this stream's own position cell (the same object) and path; nothing else changes |
| MockIO.EvoFileChannel.Close | src/main/java/org/evosuite/mock/java/io/MockFileOutputStream.java:137-138 | the channel is closed afterwards |

## Left out

- The `FileDescriptor` constructor (lines 75-78) is not modelled. It bypasses the
  store and only sets an empty path, and the source itself says it is not
  really handled.
- The `super(...)` call (line 53) is not modelled. It opens a real temporary
  file only to satisfy the compiler, which is real I/O.
- The `String` and `File` constructors (lines 36-48) are modelled as `Open`.
  They differ only in how they build the file and in making `append` default
  to false. Making a path absolute (`MockFile`, `getAbsolutePath`) is not
  modelled: a `Path` is taken as already absolute.
- A `null` file or name (lines 37, 42, 55) is not modelled. What it does depends
  on `findFSObject(null)`, which is not part of this model.
- A `null` buffer is not modelled, because a `seq<Byte>` cannot be null.
  `write(byte[] b)` would throw a NullPointerException at `b.length` (line 118)
  before any check; `write(b, off, len)` would pass the null on to the node
  (line 123).
- Concurrency is not modelled: `volatile closed`, the atomicity of
  `AtomicInteger`, and the `synchronized` block in `getChannel`. The model has
  one sequential object. "Shared cursor" is the channel holding the very
  `AtomicInteger` object the stream holds.
- The internals of the VFS, `FSObject`, `VFile` and `EvoFileChannel` are not
  modelled, apart from the interface above. The body of
  `VirtualFileSystem.WriteBytes` is one admissible store: it overwrites in place
  and refuses writes it cannot place. The stream's proofs depend only on that
  method's contract. What `VFile.writeBytes` does with a negative or
  out-of-bounds `(off, len)` is left to that contract.
- The channel's own read, write and seek operations are not modelled. Its
  `close()` is modelled only as setting its open flag to false.
- The commented-out `getFD` (lines 152-157) and the exception message texts are
  not modelled.
- Vfs.VirtualFileSystem.WriteBytes: does not state which content the node
  holds after an accepted write, because the node's content layout is not
  part of this model. For the same reason, no property of file content after
  writes (truncate-then-write yields exactly the written bytes, append keeps
  the earlier bytes) is proved beyond erase-on-open and "untouched when no
  write reaches the node".
