/** The mocked file output stream as a state machine over values: what one
    call of open, write, close or getChannel does to the stream's flags and
    cursor, given what the virtual file system answers, and what whole runs
    of calls do. The class in module MockIO is proved to follow it. */
module StreamModel {
  import opened JavaInts
  import opened Vfs

  /** Why a write or close fails; each is a distinct `IOException` site. */
  datatype StreamError =
    | FileDoesNotExist      // no node at the path any more
    | CannotWriteToFolder   // the node is a folder
    | StreamClosed          // the stream was closed
    | InjectedFault         // the harness injects a fault on the path
    | WriteRejected         // the node accepted no byte ("Error in writing to file")

  datatype Outcome = Ok | Err(error: StreamError)

  /** The lazily created channel: absent, or present and open or closed. */
  datatype ChannelView = NoChannel | Channel(open: bool)

  datatype StreamState = StreamState(cursor: int32, closed: bool, channel: ChannelView)

  /** The state of a freshly constructed stream. */
  const Initial: StreamState := StreamState(0, false, NoChannel)

  // ---------------------------------------------------------------- open

  /** The virtual file system after opening `path`, and whether the open
      succeeded. */
  datatype OpenResult = OpenResult(nodes: map<Path, Node>, ok: bool)

  /** Opening a stream on `path`: resolve the node, create it if missing,
      reject an unusable target, and erase the content unless appending. */
  function OpenTarget(nodes: map<Path, Node>, create: CreateOutcome, path: Path, append: bool): (r: OpenResult)
    // a node already at the path is used as it is, and only a usable one opens
    ensures path in nodes ==> (r.ok <==> Usable(nodes[path]))
    ensures path in nodes && !r.ok ==> r.nodes == nodes
    // a missing path is created; it opens only if the created node is usable
    ensures path !in nodes ==> (r.ok <==> create.Creates? && Usable(create.node))
    ensures path !in nodes && !create.Creates? ==> r.nodes == nodes
    ensures path !in nodes && create.Creates? ==> path in r.nodes
    // a created node that is then rejected stays in the store
    ensures path !in nodes && create.Creates? && !r.ok ==> r.nodes == nodes[path := create.node]
    // the opened file is a usable node, emptied unless appending
    ensures r.ok ==> path in r.nodes && Usable(r.nodes[path])
    ensures r.ok && append ==> r.nodes[path] == (if path in nodes then nodes[path] else create.node)
    ensures r.ok && !append ==> r.nodes[path].content == []
    // only the node at the path is touched
    ensures forall p :: p != path ==> (p in r.nodes <==> p in nodes)
    ensures forall p :: p != path && p in nodes ==> r.nodes[p] == nodes[p]
  {
    if path in nodes then Admit(nodes, path, append)
    else match create
      case Refused => OpenResult(nodes, false)
      case ReportsOnly => OpenResult(nodes, false)
      case Creates(n) => Admit(nodes[path := n], path, append)
  }

  /** The checks once the target is found: deleted, folder or read-only
      targets fail; otherwise the content is erased unless appending. */
  function Admit(nodes: map<Path, Node>, path: Path, append: bool): (r: OpenResult)
    requires path in nodes
    ensures r.ok <==> Usable(nodes[path])
    ensures !r.ok ==> r.nodes == nodes
    ensures r.ok && append ==> r.nodes == nodes
    ensures r.ok && !append ==> r.nodes == nodes[path := nodes[path].(content := [])]
  {
    var target := nodes[path];
    if target.deleted || target.folder || !target.writable then OpenResult(nodes, false)
    else if append then OpenResult(nodes, true)
    else OpenResult(nodes[path := target.(content := [])], true)
  }

  // ---------------------------------------------------------------- write

  /** The checks a write makes before it reaches the node, in their order:
      missing node, folder, closed stream, injected fault. */
  function WriteCheck(target: Option<Node>, closed: bool, faulty: bool): (r: Option<StreamError>)
    ensures r.None? <==> target.Some? && !target.value.folder && !closed && !faulty
    ensures target.None? ==> r == Some(FileDoesNotExist)
    ensures target.Some? && target.value.folder ==> r == Some(CannotWriteToFolder)
    // a closed stream reports that it is closed, fault or no fault
    ensures target.Some? && !target.value.folder && closed ==> r == Some(StreamClosed)
    ensures r == Some(InjectedFault) <==> target.Some? && !target.value.folder && !closed && faulty
    ensures r != Some(WriteRejected)
  {
    if target.None? then Some(FileDoesNotExist)
    else if target.value.folder then Some(CannotWriteToFolder)
    else if closed then Some(StreamClosed)
    else if faulty then Some(InjectedFault)
    else None
  }

  /** One write: `target` and `faulty` are what the store answers to the
      lookup and the fault query, `accepted` what the node answers if the
      write reaches it. */
  function WriteStep(s: StreamState, target: Option<Node>, faulty: bool, accepted: int32): (r: (StreamState, Outcome))
    ensures r.1 == Ok <==> WriteCheck(target, s.closed, faulty).None? && accepted != 0
    // the first failing check's error is the write's outcome
    ensures WriteCheck(target, s.closed, faulty).Some? ==> r == (s, Err(WriteCheck(target, s.closed, faulty).value))
    ensures r.1.Err? ==> r.0 == s
    ensures r.1 == Err(WriteRejected) <==> WriteCheck(target, s.closed, faulty).None? && accepted == 0
    ensures r.1 == Ok ==> r.0 == s.(cursor := Add(s.cursor, accepted))
    ensures r.1 == Ok && 0 <= accepted && s.cursor as int + accepted as int <= MAX_INT ==>
              r.0.cursor as int == s.cursor as int + accepted as int
  {
    match WriteCheck(target, s.closed, faulty)
    case Some(e) => (s, Err(e))
    case None =>
      if accepted == 0 then (s, Err(WriteRejected))
      else (s.(cursor := Add(s.cursor, accepted)), Ok)
  }

  // ---------------------------------------------------------------- close

  /** `close()`: a no-op when already closed; otherwise mark closed, close
      the channel, and only then consult fault injection. */
  function CloseStep(s: StreamState, faulty: bool): (r: (StreamState, Outcome))
    ensures r.0.closed && r.0.cursor == s.cursor
    ensures s.closed ==> r == (s, Ok)
    ensures !s.closed ==> (r.1 == Ok <==> !faulty) && (r.1.Err? ==> r.1.error == InjectedFault)
    ensures !s.closed ==> (r.0.channel == NoChannel <==> s.channel == NoChannel)
    ensures !s.closed && r.0.channel.Channel? ==> !r.0.channel.open
  {
    if s.closed then (s, Ok)
    else
      var ch := if s.channel.Channel? then Channel(false) else NoChannel;
      (s.(closed := true, channel := ch), if faulty then Err(InjectedFault) else Ok)
  }

  // ---------------------------------------------------------------- channel

  /** `getChannel()`: create the channel on first use, then keep it. */
  function ChannelStep(s: StreamState): (r: StreamState)
    ensures r.channel.Channel?
    ensures s.channel.Channel? ==> r == s
    ensures r.cursor == s.cursor && r.closed == s.closed
  {
    if s.channel == NoChannel then s.(channel := Channel(true)) else s
  }

  // ---------------------------------------------------------------- runs

  /** One call on the stream, with the store's answers it depends on. */
  datatype Call =
    | WriteCall(target: Option<Node>, faulty: bool, accepted: int32)
    | CloseCall(faulty: bool)
    | ChannelCall

  function Step(s: StreamState, c: Call): (StreamState, Outcome)
  {
    match c
    case WriteCall(t, f, a) => WriteStep(s, t, f, a)
    case CloseCall(f) => CloseStep(s, f)
    case ChannelCall => (ChannelStep(s), Ok)
  }

  /** The final state and the outcome of every call, one per call. */
  function Run(s: StreamState, cs: seq<Call>): (r: (StreamState, seq<Outcome>))
    ensures |r.1| == |cs|
    decreases |cs|
  {
    if cs == [] then (s, [])
    else
      var (s1, o) := Step(s, cs[0]);
      var rest := Run(s1, cs[1..]);
      (rest.0, [o] + rest.1)
  }

  /** The bytes the node accepted in the writes that succeeded. */
  function AcceptedTotal(cs: seq<Call>, os: seq<Outcome>): (total: int)
    requires |cs| == |os|
    ensures (forall i :: 0 <= i < |cs| && cs[i].WriteCall? ==> 0 <= cs[i].accepted) ==> total >= 0
    decreases |cs|
  {
    if cs == [] then 0
    else
      (if cs[0].WriteCall? && os[0] == Ok then cs[0].accepted as int else 0)
      + AcceptedTotal(cs[1..], os[1..])
  }

  /** The cursor is the start cursor plus, in Java int arithmetic, exactly
      the bytes accepted by the writes that succeeded: failed writes, closes
      and channel requests leave it where it is. */
  lemma {:induction false} CursorCountsAcceptedBytes(s: StreamState, cs: seq<Call>)
    ensures Run(s, cs).0.cursor == Wrap(s.cursor as int + AcceptedTotal(cs, Run(s, cs).1))
    decreases |cs|
  {
    if cs == [] {
    } else {
      var (s1, o) := Step(s, cs[0]);
      var rest := Run(s1, cs[1..]);
      assert Run(s, cs) == (rest.0, [o] + rest.1);
      assert ([o] + rest.1)[1..] == rest.1;
      var a := if cs[0].WriteCall? && o == Ok then cs[0].accepted as int else 0;
      assert AcceptedTotal(cs, Run(s, cs).1) == a + AcceptedTotal(cs[1..], rest.1);
      assert s1.cursor == Wrap(s.cursor as int + a);
      CursorCountsAcceptedBytes(s1, cs[1..]);
      WrapAbsorbs(s.cursor as int + a, AcceptedTotal(cs[1..], rest.1));
    }
  }

  /** Without int overflow the cursor grows by exactly the accepted bytes
      and so never moves backwards, when the node only answers counts
      that are not negative. */
  lemma CursorIsExactWithoutOverflow(s: StreamState, cs: seq<Call>)
    requires forall i :: 0 <= i < |cs| && cs[i].WriteCall? ==> 0 <= cs[i].accepted
    requires s.cursor as int + AcceptedTotal(cs, Run(s, cs).1) <= MAX_INT
    ensures Run(s, cs).0.cursor as int == s.cursor as int + AcceptedTotal(cs, Run(s, cs).1)
    ensures s.cursor <= Run(s, cs).0.cursor
  {
    CursorCountsAcceptedBytes(s, cs);
  }

  /** Once closed, a stream stays closed; every write fails without reaching
      the node, with the closed error when the target is still a file; every
      further close succeeds; and the cursor does not move. */
  lemma {:induction false} NothingAfterClose(s: StreamState, cs: seq<Call>)
    requires s.closed
    ensures Run(s, cs).0.closed && Run(s, cs).0.cursor == s.cursor
    ensures forall i :: 0 <= i < |cs| && cs[i].WriteCall? ==>
              Run(s, cs).1[i].Err? && Run(s, cs).1[i].error != WriteRejected
    ensures forall i :: 0 <= i < |cs| && cs[i].WriteCall? && cs[i].target.Some? && !cs[i].target.value.folder ==>
              Run(s, cs).1[i] == Err(StreamClosed)
    ensures forall i :: 0 <= i < |cs| && cs[i].CloseCall? ==> Run(s, cs).1[i] == Ok
    decreases |cs|
  {
    if cs != [] {
      var (s1, o) := Step(s, cs[0]);
      var rest := Run(s1, cs[1..]);
      assert Run(s, cs) == (rest.0, [o] + rest.1);
      assert s1.closed && s1.cursor == s.cursor;
      NothingAfterClose(s1, cs[1..]);
      forall i | 1 <= i < |cs|
        ensures Run(s, cs).1[i] == rest.1[i - 1] && cs[i] == cs[1..][i - 1]
      {
      }
    }
  }

  /** Once the channel exists, no later call of any kind drops it. */
  lemma {:induction false} ChannelIsCreatedOnce(s: StreamState, cs: seq<Call>)
    requires s.channel.Channel?
    ensures Run(s, cs).0.channel.Channel?
    decreases |cs|
  {
    if cs != [] {
      var (s1, o) := Step(s, cs[0]);
      assert s1.channel.Channel?;
      ChannelIsCreatedOnce(s1, cs[1..]);
    }
  }

  /** A second `close()` in a row succeeds and changes nothing, and a close
      that reports an injected fault has still closed the stream. */
  lemma CloseIsIdempotent(s: StreamState, f1: bool, f2: bool)
    ensures var s1 := CloseStep(s, f1).0; s1.closed && CloseStep(s1, f2) == (s1, Ok)
  {
  }
}
