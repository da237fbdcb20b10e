/** `MockFileOutputStream`: a file output stream whose writes go to the
    virtual file system, and the `EvoFileChannel` it hands out. Every method
    is proved to do what the state machine of module StreamModel says. */
module MockIO {
  import opened JavaInts
  import opened Vfs
  import opened StreamModel

  datatype Result<T, E> = Success(value: T) | Failure(error: E)

  /** The constructor's `FileNotFoundException`. */
  datatype OpenError = FileNotFound

  /** The channel view: it holds the stream's own position cell and path,
      is open for writing and not for reading. */
  class EvoFileChannel {
    const position: AtomicInteger
    const path: Path
    const readable: bool
    const writable: bool
    var open: bool

    constructor (position: AtomicInteger, path: Path, readable: bool, writable: bool)
      ensures this.position == position && this.path == path
      ensures this.readable == readable && this.writable == writable && open
    {
      this.position := position;
      this.path := path;
      this.readable := readable;
      this.writable := writable;
      open := true;
    }

    method Close()
      modifies this
      ensures !open
    {
      open := false;
    }
  }

  class MockFileOutputStream {
    const path: Path
    /** The virtual file system, passed in rather than reached as a singleton. */
    const fs: VirtualFileSystem
    /** The position to write at next; the channel shares this very cell. */
    const position: AtomicInteger
    var closed: bool
    /** The channel, created on the first `GetChannel`. */
    var channel: EvoFileChannel?

    /** A channel, once it exists, is this stream's: same cursor cell, same
        path, write-only. */
    ghost predicate Valid()
      reads this, channel
    {
      channel != null ==>
        channel.position == position && channel.path == path && !channel.readable && channel.writable
    }

    /** The stream as a value of the state machine. */
    ghost function State(): StreamState
      reads this, position, channel
    {
      StreamState(position.value, closed, if channel == null then NoChannel else Channel(channel.open))
    }

    /** The field initialisers: position 0, not closed, no channel yet. */
    constructor Attach(fs: VirtualFileSystem, path: Path)
      ensures this.fs == fs && this.path == path && fresh(position)
      ensures Valid() && State() == Initial
    {
      this.fs := fs;
      this.path := path;
      position := new AtomicInteger(0);
      closed := false;
      channel := null;
    }

    /** `new MockFileOutputStream(file, append)`: resolve the path, create
        the file if it is missing, reject a deleted, folder or read-only
        target, and erase the file unless appending. */
    static method Open(fs: VirtualFileSystem, path: Path, append: bool) returns (r: Result<MockFileOutputStream, OpenError>)
      modifies fs
      ensures var spec := OpenTarget(old(fs.nodes), old(fs.createOutcome), path, append);
              fs.nodes == spec.nodes && (r.Success? <==> spec.ok)
      ensures fs.faults == old(fs.faults) && fs.createOutcome == old(fs.createOutcome)
      ensures fs.writeLog == old(fs.writeLog)
      ensures r.Success? ==> fresh(r.value) && fresh(r.value.position)
      ensures r.Success? ==> r.value.fs == fs && r.value.path == path
      ensures r.Success? ==> r.value.Valid() && r.value.State() == Initial
    {
      var target := fs.Find(path);
      if target == None {
        var created := fs.CreateFile(path);
        if !created {
          return Failure(FileNotFound);
        }
        target := fs.Find(path);
      }
      if target == None || target.value.deleted || target.value.folder || !target.value.writable {
        return Failure(FileNotFound);
      }
      if !append {
        fs.EraseData(path);
      }
      var s := new MockFileOutputStream.Attach(fs, path);
      return Success(s);
    }

    /** What a write call did to the virtual file system, given the count
        `accepted` the node answered: a write stopped by a check leaves the
        store untouched and calls no node; one that passes the checks calls
        the node's write exactly once, at the stream's cursor, with the
        caller's range. */
    twostate predicate WroteThrough(b: seq<Byte>, off: int32, len: int32, accepted: int32)
      reads this, fs, position
    {
      fs.faults == old(fs.faults) && fs.createOutcome == old(fs.createOutcome) &&
      if WriteCheck(old(fs.Find(path)), old(closed), old(fs.InjectsFault(path))).Some? then
        fs.nodes == old(fs.nodes) && fs.writeLog == old(fs.writeLog)
      else
        AcceptedCount(len, accepted) &&
        ContentOnlyChangedAt(old(fs.nodes), fs.nodes, path) &&
        (accepted == 0 ==> fs.nodes == old(fs.nodes)) &&
        fs.writeLog == old(fs.writeLog) + [WriteRequest(path, old(position.value), b, off, len, accepted)]
    }

    /** The private `writeBytes(b, off, len)` every write funnels into.
        `accepted` is the node's answer (0 when the node is not called). */
    method WriteBytes(b: seq<Byte>, off: int32, len: int32) returns (r: Outcome, ghost accepted: int32)
      requires Valid()
      modifies fs, position
      ensures Valid()
      ensures (State(), r) == WriteStep(old(State()), old(fs.Find(path)), old(fs.InjectsFault(path)), accepted)
      ensures WroteThrough(b, off, len, accepted)
    {
      accepted := 0;
      var target := fs.Find(path);
      if target == None {
        return Err(FileDoesNotExist), accepted;
      }
      if target.value.folder {
        return Err(CannotWriteToFolder), accepted;
      }
      if closed {
        return Err(StreamClosed), accepted;
      }
      if fs.InjectsFault(path) {
        return Err(InjectedFault), accepted;
      }
      var at := position.Get();
      var written := fs.WriteBytes(path, at, b, off, len);
      accepted := written;
      if written == 0 {
        return Err(WriteRejected), accepted;
      }
      var _ := position.AddAndGet(written);
      r := Ok;
    }

    /** `write(int b)`: the one-byte range holding `(byte) b`. */
    method Write(b: int32) returns (r: Outcome, ghost accepted: int32)
      requires Valid()
      modifies fs, position
      ensures Valid()
      ensures (State(), r) == WriteStep(old(State()), old(fs.Find(path)), old(fs.InjectsFault(path)), accepted)
      ensures WroteThrough([ToByte(b)], 0, 1, accepted)
    {
      r, accepted := WriteBytes([ToByte(b)], 0, 1);
    }

    /** `write(byte[] b)`: the whole array, from 0 for `b.length` bytes. */
    method WriteAll(b: seq<Byte>) returns (r: Outcome, ghost accepted: int32)
      requires Valid()
      requires |b| <= MAX_INT  // a Java array's length is an int
      modifies fs, position
      ensures Valid()
      ensures (State(), r) == WriteStep(old(State()), old(fs.Find(path)), old(fs.InjectsFault(path)), accepted)
      ensures WroteThrough(b, 0, |b| as int32, accepted)
    {
      r, accepted := WriteBytes(b, 0, |b| as int32);
    }

    /** `write(byte[] b, int off, int len)`: the range is passed on unchecked. */
    method WriteRange(b: seq<Byte>, off: int32, len: int32) returns (r: Outcome, ghost accepted: int32)
      requires Valid()
      modifies fs, position
      ensures Valid()
      ensures (State(), r) == WriteStep(old(State()), old(fs.Find(path)), old(fs.InjectsFault(path)), accepted)
      ensures WroteThrough(b, off, len, accepted)
    {
      r, accepted := WriteBytes(b, off, len);
    }

    /** `close()`: returns at once when already closed; otherwise marks the
        stream closed, closes the channel if there is one, and then reports
        an injected fault if the path has one. */
    method Close() returns (r: Outcome)
      requires Valid()
      modifies this, channel
      ensures Valid() && channel == old(channel)
      ensures (State(), r) == CloseStep(old(State()), fs.InjectsFault(path))
      ensures old(closed) ==> channel == null || channel.open == old(channel.open)
    {
      if closed {
        return Ok;
      }
      closed := true;
      if channel != null {
        channel.Close();
      }
      if fs.InjectsFault(path) {
        return Err(InjectedFault);
      }
      r := Ok;
    }

    /** `getChannel()`: the single channel, created on the first call and
        bound to this stream's own position cell. */
    method GetChannel() returns (ch: EvoFileChannel)
      requires Valid()
      modifies this
      ensures Valid() && channel == ch
      ensures ch.position == position && ch.path == path
      ensures old(channel) != null ==> ch == old(channel)
      ensures old(channel) == null ==> fresh(ch) && ch.open
      ensures closed == old(closed)
      ensures State() == ChannelStep(old(State()))
    {
      if channel == null {
        channel := new EvoFileChannel(position, path, false, true);
      }
      ch := channel;
    }
  }
}
