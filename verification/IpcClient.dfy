/** The client's read loops, each proved to read the connection as module
    IpcWire says. */
module IpcClient {
  import opened Wrappers
  import opened Frames
  import opened Cast
  import opened IpcWire

  datatype Written = StartOutput(start: StartRequest) | StopOutput(streamId: StreamId) | EnumerateOutputs

  class Client {
    const version: nat
    var wire: seq<Item>
    var pending: seq<Message>
    var lease: Option<Lease>
    var written: seq<Written>

    function View(): Connection
      reads this
    {
      Connection(wire, pending, lease)
    }

    constructor (version: nat, wire: seq<Item>)
      ensures this.version == version && View() == Connection(wire, [], None) && written == []
    {
      this.version, this.wire, pending, lease, written := version, wire, [], None, [];
    }

    method ReadMsg() returns (r: Result<WireMessage, ClientError>)
      modifies this`wire
      ensures old(wire) == [] ==> r == Err(TimedOut) && wire == []
      ensures old(wire) != [] && old(wire)[0].Attached? ==> r == Err(OutOfStep) && wire == old(wire)
      ensures old(wire) != [] && old(wire)[0].Text? ==> r == Ok(old(wire)[0].message) && wire == old(wire)[1..]
    {
      if wire == [] { return Err(TimedOut); }
      if wire[0].Attached? { return Err(OutOfStep); }
      r := Ok(wire[0].message);
      wire := wire[1..];
    }

    method ReceiveDescriptor(expected: nat, memfd: bool) returns (r: Result<Descriptor, ClientError>)
      modifies this`wire
      ensures (r, View()) == ReceiveFile(old(View()), expected, memfd)
    {
      if expected == 0 || expected > MAX_BLOB_BYTES { return Err(BadDescriptor); }
      if wire == [] { return Err(TimedOut); }
      var item := wire[0];
      wire := wire[1..];
      if !item.Attached? || !Acceptable(item.file, expected, memfd) { return Err(BadDescriptor); }
      r := Ok(item.file.token);
    }

    method StreamEvent(m: WireMessage) returns (r: Result<Option<Message>, ClientError>)
      modifies this`wire, this`lease
      ensures (r, View()) == StreamMessage(old(View()), m)
    {
      match m {
        case StreamFrameHeader(id, width, height, stride, format, damage, byteLen, slot) =>
          var carried := InSlot;
          if slot.None? {
            var file := ReceiveDescriptor(byteLen, !format.DmabufPixels?);
            if file.Err? { return Err(file.error); }
            carried := if format.DmabufPixels? then DmabufFile(file.value) else Memfd(file.value);
          }
          r := Ok(Some(FrameReady(StreamFrame(id, width, height, stride, format, damage, slot, carried))));
        case StreamEndedEvent(id) => r := Ok(Some(StreamEnded(id)));
        case StreamGeometryEvent(id, width, height) => r := Ok(Some(GeometryChanged(id, width, height)));
        case LeaseRenewedReply(granted) =>
          lease := Some(granted);
          r := Ok(Some(LeaseRenewed));
        case ErrorReply => r := Err(Refused);
        case WithoutType => r := Err(NoType);
        case _ => r := Ok(None);
      }
    }

    method ReadSlotTable(count: nat, stride: u32, bytes: nat) returns (r: Result<seq<SlotFile>, ClientError>)
      modifies this`wire
      ensures (r, View()) == ReceiveTable(old(View()), count, stride, bytes, [])
    {
      var table: seq<SlotFile> := [];
      for i := 0 to count
        invariant ReceiveTable(View(), count - i, stride, bytes, table) == ReceiveTable(old(View()), count, stride, bytes, [])
      {
        var file := ReceiveDescriptor(bytes, false);
        if file.Err? { return Err(file.error); }
        table := table + [SlotFile(file.value, stride, bytes)];
      }
      r := Ok(table);
    }

    method StartOutputStream(target: Target, dmabuf: bool, cursor: Option<CursorMode>) returns (r: Result<StreamInfo, ClientError>)
      modifies this
      ensures var request := StartRequestFor(version, target, dmabuf, cursor);
              if request.Err? then r == Err(request.error) && View() == old(View()) && written == old(written)
              else (r, View()) == AwaitStarted(old(View())) && written == old(written) + [StartOutput(request.value)]
    {
      var honoured := dmabuf && version >= 25;
      var shown := if version >= 29 then cursor else None;
      if version < 29 && target.Output? && target.connector.Some? { return Err(Unsupported); }
      written := written + [StartOutput(StartRequest(target, honoured, shown))];
      var started: WireMessage;
      while true
        invariant AwaitStarted(View()) == AwaitStarted(old(View()))
        invariant written == old(written) + [StartOutput(StartRequest(target, honoured, shown))]
        decreases |wire|
      {
        var m := ReadMsg();
        if m.Err? { return Err(m.error); }
        if m.value.StartedReply? { started := m.value; break; }
        var event := StreamEvent(m.value);
        if event.Err? { return Err(event.error); }
        if event.value.Some? { pending := pending + [event.value.value]; }
      }
      r := CompleteStart(started);
    }

    method CompleteStart(m: WireMessage) returns (r: Result<StreamInfo, ClientError>)
      requires m.StartedReply?
      modifies this`wire
      ensures (r, View()) == FinishStart(old(View()), m)
    {
      var slots: Option<seq<SlotFile>> := None;
      if m.format.DmabufPixels? && m.slots.Some? && m.slotStride.Some? && m.slotBytes.Some? {
        var table := ReadSlotTable(m.slots.value, m.slotStride.value, m.slotBytes.value);
        if table.Err? { return Err(table.error); }
        slots := Some(table.value);
      } else if m.slots.Some? || m.slotStride.Some? || m.slotBytes.Some? {
        return Err(PartialSlotTable);
      }
      r := Ok(StreamInfo(m.streamId, m.width, m.height, m.format, slots));
    }

    method StopOutputStream(id: StreamId) returns (r: Result<(), ClientError>)
      modifies this
      ensures (r, View()) == AwaitStopped(old(View()), id) && written == old(written) + [StopOutput(id)]
    {
      written := written + [StopOutput(id)];
      while true
        invariant AwaitStopped(View(), id) == AwaitStopped(old(View()), id)
        invariant written == old(written) + [StopOutput(id)]
        decreases |wire|
      {
        var m := ReadMsg();
        if m.Err? { return Err(m.error); }
        if m.value.StoppedReply? {
          return if m.value.streamId == id then Ok(()) else Err(WrongReply);
        }
        var event := StreamEvent(m.value);
        if event.Err? { return Err(event.error); }
        if event.value.Some? { pending := pending + [event.value.value]; }
      }
    }

    method LookUpOutputs() returns (r: Result<seq<OutputInfo>, ClientError>)
      modifies this
      ensures (r, View()) == ReadOutputs(old(View())) && written == old(written) + [EnumerateOutputs]
    {
      written := written + [EnumerateOutputs];
      var m := ReadMsg();
      if m.Err? { return Err(m.error); }
      match m.value {
        case OutputsReply(outputs) => r := Ok(outputs);
        case ErrorReply => r := Err(Refused);
        case _ => r := Err(WrongReply);
      }
    }

    method NextMessage() returns (r: Result<Message, ClientError>)
      modifies this`wire, this`pending, this`lease
      ensures (r, View()) == NextStreamMessage(old(View()))
    {
      if pending != [] {
        r := Ok(pending[0]);
        pending := pending[1..];
        return;
      }
      while true
        invariant pending == [] && ReadEvent(View()) == ReadEvent(old(View()))
        decreases |wire|
      {
        var m := ReadMsg();
        if m.Err? { return Err(m.error); }
        var event := StreamEvent(m.value);
        if event.Err? { return Err(event.error); }
        if event.value.Some? { return Ok(event.value.value); }
      }
    }
  }
}
