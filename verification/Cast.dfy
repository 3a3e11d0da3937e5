/** What one callback of a running cast does, as functions on the cast's state:
    the compositor transport with its dmabuf slots, the latest frame, the pool
    of PipeWire buffers, and what has been queued and requested so far. */
module Cast {
  import opened Wrappers
  import opened Frames

  const DMABUF_DATA_TYPE_BIT: nat := 8
  const MAX_BLOB_BYTES: nat := 288 * 1024 * 1024

  type BufferId = nat
  type StreamId = nat

  datatype Target = Output(connector: Option<string>) | Window(window: nat)
  datatype CursorMode = Hidden | Embedded
  datatype DeliveryMode = ShmDelivery | DmabufDelivery

  datatype SlotFile = SlotFile(file: Descriptor, stride: u32, byteLen: nat)

  /** The pool buffer a slot is bound to, and whether the consumer has it. */
  datatype Binding = Binding(pool: Option<BufferId>, inFlight: bool)

  datatype TransportState = TransportState(
    streamId: StreamId, target: Target, cursor: CursorMode, dmabuf: bool,
    width: u32, height: u32, announced: Announced, offeredModifier: Option<nat>,
    slotFiles: seq<SlotFile>, bindings: seq<Binding>)

  datatype Request =
    | BufferRelease(streamId: StreamId, slot: nat)
    | OutputStop(streamId: StreamId)
    | OutputStart(target: Target, dmabuf: bool, cursor: CursorMode)

  /** The pixels a queued buffer shows: a slot of the compositor in place, or
      the rows copied out of a file. */
  datatype Shown = InPlace(streamId: StreamId, slot: nat) | Copied(file: Descriptor, stride: u32, width: u32, height: u32)

  datatype Queued = Queued(buffer: BufferId, sequence: nat, damage: Damage, shown: Shown)

  datatype State = State(
    transport: TransportState, mode: DeliveryMode, dataTypes: Option<u32>,
    latest: Option<Payload>, pending: bool,
    pool: seq<BufferId>, memory: map<BufferId, nat>,
    sequence: nat, dropped: nat, quit: bool,
    returned: seq<BufferId>, queued: seq<Queued>, sent: seq<Request>)

  /** Messages of the compositor, in the order they are read. */
  datatype Message =
    | FrameReady(frame: StreamFrame)
    | LeaseRenewed
    | GeometryChanged(streamId: StreamId, width: u32, height: u32)
    | StreamEnded(streamId: StreamId)

  /** What stopping and starting the compositor stream again came to. */
  datatype StreamInfo = StreamInfo(streamId: StreamId, width: u32, height: u32, format: PixelFormat, slots: Option<seq<SlotFile>>)

  datatype Restart = StopFails | StartFails | Restarts(info: StreamInfo)

  /** The client hands on slot tables only with descriptors of bounded size. */
  predicate TableBounded(table: seq<SlotFile>)
  {
    forall f <- table :: 0 < f.byteLen <= MAX_BLOB_BYTES
  }

  /** What the operating system said about a frame's file. */
  datatype Source = Source(length: Option<nat>, mappable: bool)

  // ---------- the transport ----------

  function SlotsOf(info: StreamInfo): seq<SlotFile>
  {
    if info.slots.Some? then info.slots.value else []
  }

  function FreshBindings(count: nat): seq<Binding>
  {
    seq(count, _ => Binding(None, false))
  }

  function OfferedModifier(announced: Announced, slotCount: nat): Option<nat>
  {
    if announced.Dmabuf? && slotCount > 0 then Some(announced.modifier) else None
  }

  function NewTransport(info: StreamInfo, target: Target, cursor: CursorMode, dmabuf: bool): Option<TransportState>
  {
    match AnnouncedFormat(info.format)
    case None => None
    case Some(announced) =>
      Some(TransportState(info.streamId, target, cursor, dmabuf, info.width, info.height, announced,
                          OfferedModifier(announced, |SlotsOf(info)|), SlotsOf(info), FreshBindings(|SlotsOf(info)|)))
  }

  /** A restarted stream takes over everything but the target, the cursor mode
      and the offered modifier. */
  function SwapRestarted(t: TransportState, info: StreamInfo, announced: Announced, dmabuf: bool): TransportState
  {
    t.(streamId := info.streamId, width := info.width, height := info.height, dmabuf := dmabuf, announced := announced,
       slotFiles := SlotsOf(info), bindings := FreshBindings(|SlotsOf(info)|))
  }

  predicate TransportValid(t: TransportState)
  {
    |t.bindings| == |t.slotFiles| && GeometryOk(t.width, t.height)
  }

  predicate Valid(s: State)
  {
    TransportValid(s.transport)
  }

  function Initial(t: TransportState): State
  {
    State(t, ShmDelivery, None, None, false, [], map[], 0, 0, false, [], [], [])
  }

  /** The first binding to `pool`; with `None`, the first free slot. */
  function FirstWith(bindings: seq<Binding>, pool: Option<BufferId>): Option<nat>
  {
    if bindings == [] then None
    else if bindings[0].pool == pool then Some(0)
    else match FirstWith(bindings[1..], pool) case None => None case Some(i) => Some(i + 1)
  }

  predicate ForwardingEligible(s: State)
  {
    s.mode == DmabufDelivery && (s.dataTypes.None? || s.dataTypes.value / DMABUF_DATA_TYPE_BIT % 2 == 1)
  }

  function WithBinding(s: State, slot: nat, binding: Binding): State
    requires slot < |s.transport.bindings|
  {
    s.(transport := s.transport.(bindings := s.transport.bindings[slot := binding]))
  }

  // ---------- slots and the latest frame ----------

  function ReleaseSlot(s: State, slot: nat): State
  {
    if s.transport.slotFiles == [] then s
    else s.(sent := s.sent + [BufferRelease(s.transport.streamId, slot)])
  }

  function ReplaceLatest(s: State, payload: Payload): State
  {
    var r := if s.pending && s.latest.Some? && s.latest.value.Slot? then ReleaseSlot(s, s.latest.value.slot) else s;
    r.(latest := Some(payload), pending := true)
  }

  function Drop(s: State): State
  {
    s.(dropped := s.dropped + 1)
  }

  function Queue(s: State, buffer: BufferId, damage: Damage, shown: Shown): State
  {
    s.(sequence := s.sequence + 1, queued := s.queued + [Queued(buffer, s.sequence, damage, shown)])
  }

  // ---------- process ----------

  function ReclaimOne(s: State, buffer: BufferId): State
  {
    match FirstWith(s.transport.bindings, Some(buffer))
    case None => s.(pool := s.pool + [buffer])
    case Some(slot) =>
      if slot < |s.transport.bindings| && s.transport.bindings[slot].inFlight
      then ReleaseSlot(WithBinding(s, slot, Binding(Some(buffer), false)), slot)
      else s
  }

  function Reclaim(s: State): State
    decreases |s.returned|
  {
    if s.returned == [] then s
    else Reclaim(ReclaimOne(s.(returned := s.returned[1..]), s.returned[0]))
  }

  /** The buffer the copy path fills: the stash first, then a last look at what
      PipeWire has returned. */
  function TakeBuffer(s: State): Option<(BufferId, State)>
  {
    if s.pool != [] then Some((s.pool[0], s.(pool := s.pool[1..])))
    else if s.returned != [] then Some((s.returned[0], s.(returned := s.returned[1..])))
    else None
  }

  /** Copy a frame's file into a pool buffer. False only when there is no
      buffer to copy into. */
  function CopyIntoPool(s: State, file: Descriptor, stride: u32, damage: Damage, source: Source): (bool, State)
    requires Valid(s)
  {
    FrameLenIff(s.transport.width, s.transport.height);
    var width, height := s.transport.width, s.transport.height;
    var needed := Needed(stride, width * 4, height);
    if source.length.None? then (true, Drop(s))
    else if source.length.value < needed || needed > MAX_FRAME_BYTES then (true, Drop(s))
    else if !source.mappable then (true, Drop(s))
    else match TakeBuffer(s)
      case None => (false, s)
      case Some((buffer, rest)) =>
        if buffer !in s.memory || s.memory[buffer] < height * (width * 4)
        then (true, Drop(rest.(pool := rest.pool + [buffer])))
        else (true, Queue(rest, buffer, damage, Copied(file, stride, width, height)))
  }

  function PublishSlot(s: State, slot: nat, damage: Damage, source: Source): State
    requires Valid(s)
  {
    var t := s.transport;
    if slot >= |t.bindings| then Drop(s)
    else if t.bindings[slot].inFlight then Drop(s)
    else if ForwardingEligible(s) && t.bindings[slot].pool.Some? then
      var buffer := t.bindings[slot].pool.value;
      Queue(WithBinding(s, slot, Binding(Some(buffer), true)), buffer, damage, InPlace(t.streamId, slot))
    else if !CpuMappable(t.announced) then ReleaseSlot(Drop(s), slot)
    else ReleaseSlot(CopyIntoPool(s, t.slotFiles[slot].file, t.slotFiles[slot].stride, damage, source).1, slot)
  }

  /** Publish the pending frame of a cast that has nothing left to reclaim. */
  function Publish(s: State, source: Source): State
    requires Valid(s)
  {
    if !s.pending then s
    else match s.latest
      case None => s.(pending := false)
      case Some(Described(file, stride, damage)) =>
        var (done, r) := CopyIntoPool(s, file, stride, damage, source);
        if done then r.(pending := false) else r
      case Some(Slot(slot, damage)) => PublishSlot(s, slot, damage, source).(pending := false)
  }

  /** Reclaiming touches the in-flight marks, the stash, what is left to
      reclaim and what is sent. */
  predicate OnlyReclaimed(s: State, r: State)
  {
    && r == s.(transport := r.transport, pool := r.pool, returned := r.returned, sent := r.sent)
    && r.transport == s.transport.(bindings := r.transport.bindings)
    && |r.transport.bindings| == |s.transport.bindings|
  }

  lemma ReclaimOneKeeps(s: State, buffer: BufferId)
    ensures OnlyReclaimed(s, ReclaimOne(s, buffer)) && ReclaimOne(s, buffer).returned == s.returned
  {
    hide FirstWith;
  }

  lemma {:induction false} ReclaimKeeps(s: State)
    ensures OnlyReclaimed(s, Reclaim(s)) && Reclaim(s).returned == []
    decreases |s.returned|
  {
    hide ReclaimOne;
    if s.returned != [] {
      var next := s.(returned := s.returned[1..]);
      ReclaimOneKeeps(next, s.returned[0]);
      ReclaimKeeps(ReclaimOne(next, s.returned[0]));
    }
  }

  function Process(s: State, source: Source): State
    requires Valid(s)
  {
    ReclaimKeeps(s);
    Publish(Reclaim(s), source)
  }

  // ---------- pool buffers ----------

  /** A new pool buffer is bound to the next free slot, or backed by memory of
      the portal. */
  function AddBuffer(s: State, buffer: BufferId, hasData: bool, backed: bool): State
  {
    var bind := if ForwardingEligible(s) then FirstWith(s.transport.bindings, None) else None;
    match bind
    case Some(slot) =>
      if slot < |s.transport.bindings|
      then WithBinding(s, slot, Binding(Some(buffer), s.transport.bindings[slot].inFlight))
      else s
    case None =>
      if hasData && backed then s.(memory := s.memory[buffer := s.transport.width * s.transport.height * 4]) else s
  }

  function Without(pool: seq<BufferId>, buffer: BufferId): seq<BufferId>
  {
    if pool == [] then []
    else if pool[0] == buffer then Without(pool[1..], buffer)
    else [pool[0]] + Without(pool[1..], buffer)
  }

  function RemoveBuffer(s: State, buffer: BufferId): State
  {
    var r := s.(memory := s.memory - {buffer}, pool := Without(s.pool, buffer));
    match FirstWith(s.transport.bindings, Some(buffer))
    case None => r
    case Some(slot) =>
      if slot < |s.transport.bindings| then
        var unbound := WithBinding(r, slot, Binding(None, false));
        if s.transport.bindings[slot].inFlight then ReleaseSlot(unbound, slot) else unbound
      else r
  }

  // ---------- negotiation and restarts ----------

  function Streaming(s: State): State
  {
    if s.latest.Some? then s.(pending := true) else s
  }

  function BuffersParam(s: State, mask: u32): State
  {
    s.(dataTypes := Some(mask))
  }

  predicate WantsDmabuf(t: TransportState, fixated: Option<nat>)
  {
    t.offeredModifier.Some? && fixated == t.offeredModifier
  }

  predicate NeedsSwitch(t: TransportState, fixated: Option<nat>)
  {
    if WantsDmabuf(t, fixated) then !t.announced.Dmabuf? else t.announced.Dmabuf? && !CpuMappable(t.announced)
  }

  /** Switch the compositor between dmabuf slots and shared memory when the
      live stream cannot serve the modifier the consumer fixated. */
  function SyncTransport(s: State, fixated: Option<nat>, restart: Restart): (bool, State)
  {
    var t := s.transport;
    var want := WantsDmabuf(t, fixated);
    if !NeedsSwitch(t, fixated) then (true, s)
    else if restart.StopFails? then (false, s.(sent := s.sent + [OutputStop(t.streamId)]))
    else
      var asked := s.(sent := s.sent + [OutputStop(t.streamId), OutputStart(t.target, want, t.cursor)]);
      if restart.StartFails? then (false, asked)
      else if restart.info.width != t.width || restart.info.height != t.height then (false, asked)
      else match AnnouncedFormat(restart.info.format)
        case None => (false, asked)
        case Some(announced) =>
          if announced.format != t.announced.format then (false, asked)
          else (true, asked.(transport := SwapRestarted(t, restart.info, announced, want), latest := None, pending := false))
  }

  function ModeFor(t: TransportState, fixated: Option<nat>): DeliveryMode
  {
    if t.announced.Dmabuf? && fixated == Some(t.announced.modifier) && t.slotFiles != [] then DmabufDelivery else ShmDelivery
  }

  function ApplyFixatedFormat(s: State, fixated: Option<nat>, restart: Restart): State
  {
    var (ok, r) := SyncTransport(s, fixated, restart);
    if ok then r.(mode := ModeFor(r.transport, fixated)) else r.(quit := true)
  }

  function RestartGeometry(s: State, streamId: StreamId, width: u32, height: u32, restart: Restart): (bool, State)
  {
    var t := s.transport;
    if t.streamId != streamId || !GeometryOk(width, height) then (false, s)
    else if restart.StopFails? then (false, s.(sent := s.sent + [OutputStop(t.streamId)]))
    else
      var asked := s.(sent := s.sent + [OutputStop(t.streamId), OutputStart(t.target, t.dmabuf, t.cursor)]);
      if restart.StartFails? then (false, asked)
      else if restart.info.width != width || restart.info.height != height then (false, asked)
      else match AnnouncedFormat(restart.info.format)
        case None => (false, asked)
        case Some(announced) =>
          var swapped := SwapRestarted(t, restart.info, announced, t.dmabuf);
          (true, asked.(transport := swapped.(offeredModifier := OfferedModifier(announced, |swapped.slotFiles|)),
                        latest := None, pending := false))
  }

  // ---------- the compositor's messages ----------

  function ReadMessage(s: State, message: Message, restart: Restart): State
  {
    match message
    case LeaseRenewed => s
    case StreamEnded(_) => s.(quit := true)
    case FrameReady(frame) =>
      var t := s.transport;
      if frame.streamId != t.streamId then s
      else
        var checked := ValidateFrame(frame, t.width, t.height, t.announced, |t.slotFiles|);
        if checked.Ok? then ReplaceLatest(s, checked.value) else s
    case GeometryChanged(streamId, width, height) =>
      if streamId != s.transport.streamId then s
      else
        var (ok, r) := RestartGeometry(s, streamId, width, height, restart);
        if ok then r else r.(quit := true)
  }

  /** The keepalive's question: is there work only a cycle can do? */
  predicate NeedsCycle(s: State)
  {
    s.pending || exists i | 0 <= i < |s.transport.bindings| :: s.transport.bindings[i].inFlight
  }

  // ---------- layouts ----------

  const SHM_POOL_BUFFERS: nat := 4

  /** The buffers the portal offers, and the chunk of one buffer, as the signed
      and unsigned fields of PipeWire hold them. */
  datatype Layout = Layout(buffers: nat, stride: int, size: int)
  datatype Chunk = Chunk(size: nat, stride: int)

  function BuffersOffer(s: State): Layout
  {
    var t := s.transport;
    if s.mode == DmabufDelivery && t.slotFiles != [] then
      Layout(|t.slotFiles|, AsI32(t.slotFiles[0].stride), AsI32(t.slotFiles[0].byteLen))
    else Layout(SHM_POOL_BUFFERS, AsI32(AsU32(t.width * 4)), AsI32(AsU32(AsU32(t.width * t.height) * 4)))
  }

  function SlotChunk(f: SlotFile): Chunk
  {
    Chunk(AsU32(f.byteLen), AsI32(f.stride))
  }

  function CopyChunk(t: TransportState): Chunk
  {
    Chunk(AsU32(t.height * (t.width * 4)), AsI32(t.width * 4))
  }

  /** The layout the slots have, where their stride fits. */
  predicate StridesFit(table: seq<SlotFile>)
  {
    forall f <- table :: f.stride <= I32_MAX
  }

  /** Every chunk of a slot says what the slot is if and only if every stride of
      the table fits a signed field; the byte lengths always do. */
  lemma SlotChunksExactIff(table: seq<SlotFile>)
    requires TableBounded(table)
    ensures (forall f <- table :: SlotChunk(f) == Chunk(f.byteLen, f.stride)) <==> StridesFit(table)
  {
    forall f <- table ensures SlotChunk(f) == Chunk(f.byteLen, f.stride) <==> f.stride <= I32_MAX {
      AsI32Iff(f.stride);
    }
  }

  /** The offer is the layout of what is delivered, unless slots go out whose
      stride does not fit. */
  lemma OfferExactIff(s: State)
    requires Valid(s) && TableBounded(s.transport.slotFiles)
    ensures var t := s.transport; var slots := s.mode == DmabufDelivery && t.slotFiles != [];
            BuffersOffer(s) == (if slots then Layout(|t.slotFiles|, t.slotFiles[0].stride, t.slotFiles[0].byteLen)
                                else Layout(SHM_POOL_BUFFERS, t.width * 4, t.width * t.height * 4))
            <==> !slots || t.slotFiles[0].stride <= I32_MAX
  {
    UncheckedProductsFit(s.transport.width, s.transport.height);
    var t := s.transport;
    if s.mode == DmabufDelivery && t.slotFiles != [] {
      hide GeometryOk, AsI32;
      AsI32Iff(t.slotFiles[0].stride);
      AsI32Iff(t.slotFiles[0].byteLen);
    } else {
      hide GeometryOk, AsI32, TableBounded;
      assert AsU32(t.width * t.height) == t.width * t.height;
      AsI32Iff(t.width * 4);
      AsI32Iff(t.width * t.height * 4);
    }
  }

  lemma CopyChunkExact(t: TransportState)
    requires TransportValid(t)
    ensures CopyChunk(t) == Chunk(t.width * t.height * 4, t.width * 4)
  {
    UncheckedProductsFit(t.width, t.height);
    AsI32Iff(t.width * 4);
    assert t.height * (t.width * 4) == t.width * t.height * 4;
  }

  // ---------- teardown ----------

  function InFlightReleases(t: TransportState, from: nat): seq<Request>
    requires from <= |t.bindings|
    decreases |t.bindings| - from
  {
    if from == |t.bindings| then []
    else (if t.bindings[from].inFlight then [BufferRelease(t.streamId, from)] else []) + InFlightReleases(t, from + 1)
  }

  function Teardown(s: State): State
  {
    s.(memory := map[], sent := s.sent + InFlightReleases(s.transport, 0))
  }
}
