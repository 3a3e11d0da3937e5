/** The cast thread's objects and callbacks, each proved to do to the cast's
    state exactly what its function in module Cast says. */
module CastStream {
  import opened Wrappers
  import opened Frames
  import opened Cast

  /** What the PipeWire stream has handed back, and what it was given. */
  class PwStream {
    var returned: seq<BufferId>
    var queued: seq<Queued>

    constructor ()
      ensures returned == [] && queued == []
    {
      returned, queued := [], [];
    }

    method DequeueRawBuffer() returns (buffer: Option<BufferId>)
      modifies this`returned
      ensures old(returned) == [] ==> buffer == None && returned == []
      ensures old(returned) != [] ==> buffer == Some(old(returned)[0]) && returned == old(returned)[1..]
    {
      if returned == [] { return None; }
      buffer := Some(returned[0]);
      returned := returned[1..];
    }

    method QueueRawBuffer(buffer: Queued)
      modifies this`queued
      ensures queued == old(queued) + [buffer]
    {
      queued := queued + [buffer];
    }
  }

  /** The sending half of the compositor connection. */
  class Client {
    var sent: seq<Request>

    constructor ()
      ensures sent == []
    {
      sent := [];
    }

    method Send(request: Request)
      modifies this
      ensures sent == old(sent) + [request]
    {
      sent := sent + [request];
    }
  }

  class Transport {
    var streamId: StreamId
    const target: Target
    const cursor: CursorMode
    var dmabuf: bool
    var width: u32
    var height: u32
    var announced: Announced
    var offeredModifier: Option<nat>
    var slotFiles: seq<SlotFile>
    var bindings: seq<Binding>

    function View(): TransportState
      reads this
    {
      TransportState(streamId, target, cursor, dmabuf, width, height, announced, offeredModifier, slotFiles, bindings)
    }

    constructor (t: TransportState)
      ensures View() == t
    {
      streamId, target, cursor, dmabuf := t.streamId, t.target, t.cursor, t.dmabuf;
      width, height, announced, offeredModifier := t.width, t.height, t.announced, t.offeredModifier;
      slotFiles, bindings := t.slotFiles, t.bindings;
    }

    method FindBinding(pool: Option<BufferId>) returns (slot: Option<nat>)
      ensures slot == FirstWith(bindings, pool)
      ensures slot.Some? ==> slot.value < |bindings| && bindings[slot.value].pool == pool
    {
      var i := 0;
      while i < |bindings|
        invariant i <= |bindings|
        invariant FirstWith(bindings, pool) == Shifted(FirstWith(bindings[i..], pool), i)
      {
        FirstStep(bindings[i..], pool);
        if bindings[i].pool == pool { return Some(i); }
        assert bindings[i..][1..] == bindings[i + 1..];
        i := i + 1;
      }
      slot := None;
    }

    method SetBinding(slot: nat, binding: Binding)
      requires slot < |bindings|
      modifies this`bindings
      ensures bindings == old(bindings)[slot := binding]
    {
      bindings := bindings[slot := binding];
    }

    method SwapRestarted(info: StreamInfo, withDmabuf: bool) returns (swapped: Option<Announced>)
      modifies this
      ensures swapped == AnnouncedFormat(info.format)
      ensures View() == if swapped.Some? then Cast.SwapRestarted(old(View()), info, swapped.value, withDmabuf) else old(View())
    {
      swapped := AnnouncedFormat(info.format);
      if swapped.None? { return; }
      streamId, width, height := info.streamId, info.width, info.height;
      dmabuf, announced := withDmabuf, swapped.value;
      slotFiles := SlotsOf(info);
      bindings := FreshBindings(|slotFiles|);
    }
  }

  function Shifted(at: Option<nat>, offset: nat): Option<nat>
  {
    if at.Some? then Some(at.value + offset) else None
  }

  lemma FirstStep(bindings: seq<Binding>, pool: Option<BufferId>)
    requires bindings != []
    ensures FirstWith(bindings, pool) ==
            if bindings[0].pool == pool then Some(0) else Shifted(FirstWith(bindings[1..], pool), 1)
  {
  }

  class StreamData {
    const transport: Transport
    const client: Client
    const stream: PwStream
    var mode: DeliveryMode
    var dataTypes: Option<u32>
    var latest: Option<Payload>
    var pending: bool
    var pool: seq<BufferId>
    var memory: map<BufferId, nat>
    var sequence: nat
    var dropped: nat
    var quit: bool

    function View(): State
      reads this, transport, client, stream
    {
      State(transport.View(), mode, dataTypes, latest, pending, pool, memory, sequence, dropped, quit,
            stream.returned, stream.queued, client.sent)
    }

    predicate Valid()
      reads this, transport, client, stream
    {
      Cast.Valid(View())
    }

    constructor (t: TransportState)
      requires TransportValid(t)
      ensures Valid() && View() == Initial(t)
      ensures fresh(transport) && fresh(client) && fresh(stream)
    {
      transport := new Transport(t);
      client := new Client();
      stream := new PwStream();
      mode, dataTypes, latest, pending := ShmDelivery, None, None, false;
      pool, memory, sequence, dropped, quit := [], map[], 0, 0, false;
    }

    method ReleaseSlot(slot: nat)
      modifies client
      ensures View() == Cast.ReleaseSlot(old(View()), slot)
    {
      if transport.slotFiles == [] { return; }
      client.Send(BufferRelease(transport.streamId, slot));
    }

    method ReplaceLatest(payload: Payload)
      modifies this`latest, this`pending, client
      ensures View() == Cast.ReplaceLatest(old(View()), payload)
    {
      var superseded := latest;
      latest := Some(payload);
      if pending && superseded.Some? && superseded.value.Slot? {
        ReleaseSlot(superseded.value.slot);
      }
      pending := true;
    }

    method ReclaimReturnedBuffers()
      modifies this`pool, transport`bindings, client, stream`returned
      ensures View() == Reclaim(old(View()))
    {
      hide FirstWith;
      ghost var was := View();
      while true
        invariant Reclaim(View()) == Reclaim(was)
        decreases |stream.returned|
      {
        label cycle:
        var raw := stream.DequeueRawBuffer();
        if raw.None? { break; }
        var bound := transport.FindBinding(raw);
        if bound.Some? {
          if transport.bindings[bound.value].inFlight {
            transport.SetBinding(bound.value, Binding(raw, false));
            ReleaseSlot(bound.value);
          }
        } else {
          pool := pool + [raw.value];
        }
        assert View() == ReclaimOne(old@cycle(View()).(returned := stream.returned), raw.value);
      }
    }

    method TakeFreeBuffer() returns (buffer: Option<BufferId>)
      modifies this`pool, stream`returned
      ensures buffer.Some? <==> TakeBuffer(old(View())).Some?
      ensures if buffer.Some? then (buffer.value, View()) == TakeBuffer(old(View())).value else View() == old(View())
    {
      if pool != [] {
        buffer := Some(pool[0]);
        pool := pool[1..];
      } else {
        buffer := stream.DequeueRawBuffer();
      }
    }

    method CopyIntoPool(file: Descriptor, stride: u32, damage: Damage, source: Source) returns (done: bool)
      requires Valid()
      modifies this`pool, this`dropped, this`sequence, stream
      ensures Valid() && (done, View()) == Cast.CopyIntoPool(old(View()), file, stride, damage, source)
    {
      hide GeometryOk, FrameLen, Needed;
      FrameLenIff(transport.width, transport.height);
      var rowBytes, height := transport.width * 4, transport.height;
      if source.length.None? { dropped := dropped + 1; return true; }
      var needed := Needed(stride, rowBytes, height);
      if source.length.value < needed || needed > MAX_FRAME_BYTES { dropped := dropped + 1; return true; }
      if !source.mappable { dropped := dropped + 1; return true; }
      var buffer := TakeFreeBuffer();
      if buffer.None? { return false; }
      if buffer.value !in memory || memory[buffer.value] < height * rowBytes {
        pool := pool + [buffer.value];
        dropped := dropped + 1;
      } else {
        var frame := Queued(buffer.value, sequence, damage, Copied(file, stride, transport.width, height));
        sequence := sequence + 1;
        stream.QueueRawBuffer(frame);
      }
      return true;
    }

    method PublishSlot(slot: nat, damage: Damage, source: Source)
      requires Valid()
      modifies this`pool, this`dropped, this`sequence, transport`bindings, stream, client
      ensures Valid() && View() == Cast.PublishSlot(old(View()), slot, damage, source)
    {
      hide GeometryOk, Cast.CopyIntoPool;
      if slot >= |transport.bindings| { dropped := dropped + 1; return; }
      var binding := transport.bindings[slot];
      if binding.inFlight { dropped := dropped + 1; return; }
      var forward := ForwardingEligible(View());
      if forward && binding.pool.Some? {
        transport.SetBinding(slot, Binding(binding.pool, true));
        var frame := Queued(binding.pool.value, sequence, damage, InPlace(transport.streamId, slot));
        sequence := sequence + 1;
        stream.QueueRawBuffer(frame);
      } else if !CpuMappable(transport.announced) {
        dropped := dropped + 1;
        ReleaseSlot(slot);
      } else {
        var file := transport.slotFiles[slot];
        var _ := CopyIntoPool(file.file, file.stride, damage, source);
        ReleaseSlot(slot);
      }
    }

    /** The process callback. */
    method ProcessFrame(source: Source)
      requires Valid()
      modifies this`pool, this`dropped, this`sequence, this`pending, transport`bindings, stream, client
      ensures Valid() && View() == Process(old(View()), source)
    {
      hide GeometryOk, Cast.CopyIntoPool, Cast.PublishSlot, Reclaim;
      ReclaimKeeps(View());
      ReclaimReturnedBuffers();
      if !pending { return; }
      match latest {
        case None => pending := false;
        case Some(Described(file, stride, damage)) =>
          var done := CopyIntoPool(file, stride, damage, source);
          if done { pending := false; }
        case Some(Slot(slot, damage)) =>
          PublishSlot(slot, damage, source);
          pending := false;
      }
    }

    method AddBuffer(buffer: BufferId, hasData: bool, backed: bool)
      requires Valid()
      modifies this`memory, transport`bindings
      ensures Valid() && View() == Cast.AddBuffer(old(View()), buffer, hasData, backed)
    {
      hide GeometryOk, FirstWith;
      var bind: Option<nat> := None;
      if ForwardingEligible(View()) {
        bind := transport.FindBinding(None);
        if bind.Some? {
          transport.SetBinding(bind.value, Binding(Some(buffer), transport.bindings[bind.value].inFlight));
        }
      }
      if !hasData || bind.Some? { return; }
      if backed { memory := memory[buffer := transport.width * transport.height * 4]; }
    }

    method Retain(buffer: BufferId)
      modifies this`pool
      ensures pool == Without(old(pool), buffer)
    {
      var kept: seq<BufferId> := [];
      var i := 0;
      while i < |pool|
        invariant i <= |pool| && pool == old(pool)
        invariant Without(pool, buffer) == kept + Without(pool[i..], buffer)
      {
        assert pool[i..][1..] == pool[i + 1..];
        if pool[i] != buffer { kept := kept + [pool[i]]; }
        i := i + 1;
      }
      pool := kept;
    }

    method RemoveBuffer(buffer: BufferId)
      requires Valid()
      modifies this`memory, this`pool, transport`bindings, client
      ensures Valid() && View() == Cast.RemoveBuffer(old(View()), buffer)
    {
      hide GeometryOk, FirstWith, Without;
      memory := memory - {buffer};
      Retain(buffer);
      var bound := transport.FindBinding(Some(buffer));
      if bound.None? { return; }
      var wasInFlight := transport.bindings[bound.value].inFlight;
      transport.SetBinding(bound.value, Binding(None, false));
      if wasInFlight { ReleaseSlot(bound.value); }
    }

    /** The consumer started or resumed streaming. */
    method OnStreaming()
      modifies this`pending
      ensures View() == Streaming(old(View()))
    {
      if latest.Some? { pending := true; }
    }

    method OnBuffersParam(mask: u32)
      modifies this`dataTypes
      ensures View() == BuffersParam(old(View()), mask)
    {
      dataTypes := Some(mask);
    }

    method SyncTransport(fixated: Option<nat>, restart: Restart) returns (ok: bool)
      modifies this`latest, this`pending, transport, client
      ensures (ok, View()) == Cast.SyncTransport(old(View()), fixated, restart)
    {
      hide FreshBindings;
      var want := transport.offeredModifier.Some? && fixated == transport.offeredModifier;
      var isDmabuf := transport.announced.Dmabuf?;
      var needs := if want then !isDmabuf else isDmabuf && !CpuMappable(transport.announced);
      if !needs { return true; }
      client.Send(OutputStop(transport.streamId));
      if restart.StopFails? { return false; }
      client.Send(OutputStart(transport.target, want, transport.cursor));
      assert client.sent == old(client.sent) + [OutputStop(transport.streamId), OutputStart(transport.target, want, transport.cursor)];
      if restart.StartFails? { return false; }
      if restart.info.width != transport.width || restart.info.height != transport.height { return false; }
      var announced := AnnouncedFormat(restart.info.format);
      if announced.None? || announced.value.format != transport.announced.format { return false; }
      var _ := transport.SwapRestarted(restart.info, want);
      latest, pending := None, false;
      return true;
    }

    method ApplyFixatedFormat(fixated: Option<nat>, restart: Restart)
      modifies this`latest, this`pending, this`mode, this`quit, transport, client
      ensures View() == Cast.ApplyFixatedFormat(old(View()), fixated, restart)
    {
      hide Cast.SyncTransport;
      var ok := SyncTransport(fixated, restart);
      if !ok { quit := true; return; }
      mode := ModeFor(transport.View(), fixated);
    }

    method RestartStreamGeometry(streamId: StreamId, width: u32, height: u32, restart: Restart) returns (ok: bool)
      modifies this`latest, this`pending, transport, client
      ensures (ok, View()) == RestartGeometry(old(View()), streamId, width, height, restart)
    {
      hide FreshBindings, FrameLen;
      if transport.streamId != streamId { return false; }
      if FrameLen(width, height).Err? { return false; }
      client.Send(OutputStop(streamId));
      if restart.StopFails? { return false; }
      client.Send(OutputStart(transport.target, transport.dmabuf, transport.cursor));
      assert client.sent == old(client.sent) + [OutputStop(streamId), OutputStart(transport.target, transport.dmabuf, transport.cursor)];
      if restart.StartFails? { return false; }
      if restart.info.width != width || restart.info.height != height { return false; }
      var announced := transport.SwapRestarted(restart.info, transport.dmabuf);
      if announced.None? { return false; }
      transport.offeredModifier := OfferedModifier(announced.value, |transport.slotFiles|);
      latest, pending := None, false;
      return true;
    }

    /** The IPC source read one message. */
    method OnMessage(message: Message, restart: Restart)
      modifies this`latest, this`pending, this`quit, transport, client
      ensures View() == ReadMessage(old(View()), message, restart)
    {
      hide RestartGeometry, ValidateFrame;
      match message {
        case LeaseRenewed =>
        case StreamEnded(_) => quit := true;
        case FrameReady(frame) =>
          if frame.streamId != transport.streamId { return; }
          var checked := ValidateFrame(frame, transport.width, transport.height, transport.announced, |transport.slotFiles|);
          if checked.Ok? { ReplaceLatest(checked.value); }
        case GeometryChanged(streamId, width, height) =>
          if streamId != transport.streamId { return; }
          var ok := RestartStreamGeometry(streamId, width, height, restart);
          if !ok { quit := true; }
      }
    }

    method KeepaliveNeedsCycle() returns (needed: bool)
      ensures needed == NeedsCycle(View())
    {
      if pending { return true; }
      for i := 0 to |transport.bindings|
        invariant forall k | 0 <= k < i :: !transport.bindings[k].inFlight
      {
        if transport.bindings[i].inFlight { return true; }
      }
      return false;
    }

    /** After the main loop: hand back every slot the consumer still holds. */
    method TearDown()
      modifies this`memory, client
      ensures View() == Teardown(old(View()))
    {
      memory := map[];
      var i := 0;
      ghost var was := client.sent;
      while i < |transport.bindings|
        invariant i <= |transport.bindings|
        invariant View() == old(View()).(memory := map[], sent := client.sent)
        invariant client.sent + InFlightReleases(transport.View(), i) == was + InFlightReleases(transport.View(), 0)
      {
        if transport.bindings[i].inFlight {
          client.Send(BufferRelease(transport.streamId, i));
        }
        i := i + 1;
      }
    }
  }
}
