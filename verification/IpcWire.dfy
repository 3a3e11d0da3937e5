/** The compositor connection as the client reads it: one socket that carries
    replies, stream events and descriptors in the order they were written. */
module IpcWire {
  import opened Wrappers
  import opened Frames
  import opened Cast

  /** A descriptor in transit, with what the receiver can find out about it. */
  datatype File = File(token: Descriptor, regular: bool, fullySealed: bool, length: nat)

  datatype Lease = Lease(id: nat, ttlMs: nat)

  datatype WireMessage =
    | StreamFrameHeader(streamId: StreamId, width: u32, height: u32, stride: u32, format: PixelFormat,
                        damage: Damage, byteLen: nat, slot: Option<u32>)
    | StreamEndedEvent(streamId: StreamId)
    | StreamGeometryEvent(streamId: StreamId, width: u32, height: u32)
    | LeaseRenewedReply(lease: Lease)
    | StartedReply(streamId: StreamId, width: u32, height: u32, format: PixelFormat,
                   slots: Option<nat>, slotStride: Option<u32>, slotBytes: Option<nat>)
    | StoppedReply(streamId: StreamId)
    | ReleasedReply(streamId: StreamId, released: nat)
    | OutputsReply(outputs: seq<OutputInfo>)
    | ErrorReply
    | OtherReply
    | WithoutType

  datatype OutputInfo = OutputInfo(connector: string, x: int, y: int)

  datatype Item = Text(message: WireMessage) | Attached(file: File)

  datatype ClientError =
    | TimedOut
    | OutOfStep
    | BadDescriptor
    | PartialSlotTable
    | Refused
    | WrongReply
    | NoType
    | Unsupported

  /** The reading half of a client: the unread socket and the events that were
      read while a reply was awaited. */
  datatype Connection = Connection(wire: seq<Item>, pending: seq<Message>, lease: Option<Lease>)

  // ---------- descriptors ----------

  predicate Acceptable(file: File, expected: nat, memfd: bool)
  {
    if memfd then file.regular && file.length == expected && file.fullySealed else file.length >= expected
  }

  function ReceiveFile(c: Connection, expected: nat, memfd: bool): (r: (Result<Descriptor, ClientError>, Connection))
    ensures |r.1.wire| <= |c.wire|
  {
    if expected == 0 || expected > MAX_BLOB_BYTES then (Err(BadDescriptor), c)
    else if c.wire == [] then (Err(TimedOut), c)
    else
      var rest := c.(wire := c.wire[1..]);
      if c.wire[0].Attached? && Acceptable(c.wire[0].file, expected, memfd) then (Ok(c.wire[0].file.token), rest)
      else (Err(BadDescriptor), rest)
  }

  /** The descriptors of a slot table, in slot order. */
  function ReceiveTable(c: Connection, count: nat, stride: u32, bytes: nat,
                        table: seq<SlotFile>): (r: (Result<seq<SlotFile>, ClientError>, Connection))
    ensures |r.1.wire| <= |c.wire|
    decreases count
  {
    if count == 0 then (Ok(table), c)
    else
      var (file, rest) := ReceiveFile(c, bytes, false);
      if file.Err? then (Err(file.error), rest)
      else ReceiveTable(rest, count - 1, stride, bytes, table + [SlotFile(file.value, stride, bytes)])
  }

  // ---------- one message ----------

  /** A message as a stream event, with the descriptor that follows it; nothing
      for messages a stream reader skips. */
  function StreamMessage(c: Connection, m: WireMessage): (r: (Result<Option<Message>, ClientError>, Connection))
    ensures |r.1.wire| <= |c.wire|
  {
    match m
    case StreamFrameHeader(id, width, height, stride, format, damage, byteLen, slot) =>
      if slot.Some? then (Ok(Some(FrameReady(StreamFrame(id, width, height, stride, format, damage, slot, InSlot)))), c)
      else
        var (file, rest) := ReceiveFile(c, byteLen, !format.DmabufPixels?);
        if file.Err? then (Err(file.error), rest)
        else
          var carried := if format.DmabufPixels? then DmabufFile(file.value) else Memfd(file.value);
          (Ok(Some(FrameReady(StreamFrame(id, width, height, stride, format, damage, None, carried)))), rest)
    case StreamEndedEvent(id) => (Ok(Some(StreamEnded(id))), c)
    case StreamGeometryEvent(id, width, height) => (Ok(Some(GeometryChanged(id, width, height))), c)
    case LeaseRenewedReply(lease) => (Ok(Some(LeaseRenewed)), c.(lease := Some(lease)))
    case ErrorReply => (Err(Refused), c)
    case WithoutType => (Err(NoType), c)
    case _ => (Ok(None), c)
  }

  /** The slot table announced by a start reply is read at once. */
  function FinishStart(c: Connection, m: WireMessage): (r: (Result<StreamInfo, ClientError>, Connection))
    requires m.StartedReply?
  {
    if m.format.DmabufPixels? && m.slots.Some? && m.slotStride.Some? && m.slotBytes.Some? then
      var (table, rest) := ReceiveTable(c, m.slots.value, m.slotStride.value, m.slotBytes.value, []);
      if table.Err? then (Err(table.error), rest)
      else (Ok(StreamInfo(m.streamId, m.width, m.height, m.format, Some(table.value))), rest)
    else if m.slots.None? && m.slotStride.None? && m.slotBytes.None? then
      (Ok(StreamInfo(m.streamId, m.width, m.height, m.format, None)), c)
    else (Err(PartialSlotTable), c)
  }

  // ---------- waiting for a reply ----------

  /** Read until the start reply, keeping the events that come before it. */
  function AwaitStarted(c: Connection): (Result<StreamInfo, ClientError>, Connection)
    decreases |c.wire|
  {
    if c.wire == [] then (Err(TimedOut), c)
    else if c.wire[0].Attached? then (Err(OutOfStep), c)
    else
      var m, rest := c.wire[0].message, c.(wire := c.wire[1..]);
      if m.StartedReply? then FinishStart(rest, m)
      else
        var (event, next) := StreamMessage(rest, m);
        if event.Err? then (Err(event.error), next)
        else if event.value.None? then AwaitStarted(next)
        else AwaitStarted(next.(pending := next.pending + [event.value.value]))
  }

  function AwaitStopped(c: Connection, id: StreamId): (Result<(), ClientError>, Connection)
    decreases |c.wire|
  {
    if c.wire == [] then (Err(TimedOut), c)
    else if c.wire[0].Attached? then (Err(OutOfStep), c)
    else
      var m, rest := c.wire[0].message, c.(wire := c.wire[1..]);
      if m.StoppedReply? then (if m.streamId == id then Ok(()) else Err(WrongReply), rest)
      else
        var (event, next) := StreamMessage(rest, m);
        if event.Err? then (Err(event.error), next)
        else if event.value.None? then AwaitStopped(next, id)
        else AwaitStopped(next.(pending := next.pending + [event.value.value]), id)
  }

  function ReadEvent(c: Connection): (Result<Message, ClientError>, Connection)
    decreases |c.wire|
  {
    if c.wire == [] then (Err(TimedOut), c)
    else if c.wire[0].Attached? then (Err(OutOfStep), c)
    else
      var (event, next) := StreamMessage(c.(wire := c.wire[1..]), c.wire[0].message);
      if event.Err? then (Err(event.error), next)
      else if event.value.None? then ReadEvent(next)
      else (Ok(event.value.value), next)
  }

  /** Kept events first, then the socket. */
  function NextStreamMessage(c: Connection): (Result<Message, ClientError>, Connection)
  {
    if c.pending != [] then (Ok(c.pending[0]), c.(pending := c.pending[1..])) else ReadEvent(c)
  }

  /** The output lookup reads one message and takes it for its reply; kept events
      are not looked at. */
  function ReadOutputs(c: Connection): (Result<seq<OutputInfo>, ClientError>, Connection)
  {
    if c.wire == [] then (Err(TimedOut), c)
    else if c.wire[0].Attached? then (Err(OutOfStep), c)
    else
      var rest := c.(wire := c.wire[1..]);
      match c.wire[0].message
      case OutputsReply(outputs) => (Ok(outputs), rest)
      case ErrorReply => (Err(Refused), rest)
      case _ => (Err(WrongReply), rest)
  }

  /** A stream start hands on slot tables of one stride and one bounded length. */
  lemma {:induction false} TableIsBounded(c: Connection, count: nat, stride: u32, bytes: nat, table: seq<SlotFile>)
    requires TableBounded(table)
    ensures ReceiveTable(c, count, stride, bytes, table).0.Ok? ==> TableBounded(ReceiveTable(c, count, stride, bytes, table).0.value)
    decreases count
  {
    if count > 0 {
      var (file, rest) := ReceiveFile(c, bytes, false);
      if file.Ok? { TableIsBounded(rest, count - 1, stride, bytes, table + [SlotFile(file.value, stride, bytes)]); }
    }
  }

  lemma {:induction false} StartedTableIsBounded(c: Connection)
    ensures AwaitStarted(c).0.Ok? ==> TableBounded(SlotsOf(AwaitStarted(c).0.value))
    decreases |c.wire|
  {
    hide StreamMessage, ReceiveTable;
    if c.wire != [] && c.wire[0].Text? {
      var m, rest := c.wire[0].message, c.(wire := c.wire[1..]);
      if m.StartedReply? {
        if m.slots.Some? && m.slotStride.Some? && m.slotBytes.Some? {
          TableIsBounded(rest, m.slots.value, m.slotStride.value, m.slotBytes.value, []);
        }
      } else {
        var (event, next) := StreamMessage(rest, m);
        if event.Ok? && event.value.None? { StartedTableIsBounded(next); }
        if event.Ok? && event.value.Some? { StartedTableIsBounded(next.(pending := next.pending + [event.value.value])); }
      }
    }
  }

  // ---------- requests ----------

  /** A start request as the negotiated protocol version allows it. */
  datatype StartRequest = StartRequest(target: Target, dmabuf: bool, cursor: Option<CursorMode>)

  function StartRequestFor(version: nat, target: Target, dmabuf: bool, cursor: Option<CursorMode>): Result<StartRequest, ClientError>
  {
    if version < 29 && target.Output? && target.connector.Some? then Err(Unsupported)
    else Ok(StartRequest(target, dmabuf && version >= 25, if version >= 29 then cursor else None))
  }
}
