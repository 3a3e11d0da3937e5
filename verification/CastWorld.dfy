/** A running cast among its peers: the compositor that renders into slots, the
    wire between them, PipeWire and the consumer. Every interleaving of their
    steps is a run. */
module CastWorld {
  import opened Wrappers
  import opened Frames
  import opened Cast
  import opened CastInvariants
  import opened CastBuffers

  /** What lies on the socket: an event, a reply the stream reader skips, an
      error reply, or a descriptor whose message is gone. */
  datatype Arrival = Event(message: Message) | Skipped | Refusal | Stray

  datatype World = World(
    cast: State,
    live: StreamInfo,           // the compositor's stream the portal follows
    owned: set<nat>,            // its slots the compositor may render into
    kept: seq<Message>,         // read while a reply was awaited, not delivered yet
    wire: seq<Arrival>,         // on the socket, not read yet
    consumer: set<BufferId>,    // buffers PipeWire's consumer has
    held: set<BufferId>,        // buffers the portal has
    nextId: StreamId,           // stream ids from here on are new
    latestFrom: StreamId,       // the stream the latest frame came from
    opening: bool,              // the output lookup of a named connector is still to come
    stopped: bool,              // a failed restart may have stopped the live stream
    streaming: bool)            // PipeWire's stream is Streaming

  datatype Step =
    | Emit(frame: StreamFrame)
    | Announce(message: Message)
    | Reply
    | Refuse
    | HandleRelease
    | Lookup
    | Read(restart: Restart, early: seq<Message>)
    | Cycle(source: Source)
    | NewBuffer(buffer: BufferId, hasData: bool, backed: bool)
    | DropBuffer(buffer: BufferId)
    | ReturnBuffer(buffer: BufferId)
    | StartStreaming
    | PauseStreaming
    | Fixate(modifier: Option<nat>, restart: Restart, early: seq<Message>)
    | AcceptTypes(mask: u32)
    | Stop

  predicate IsSlot(slot: nat, info: StreamInfo)
  {
    slot < |SlotsOf(info)|
  }

  predicate CarriesSlot(message: Message, id: StreamId, slot: nat)
  {
    message.FrameReady? && message.frame.streamId == id && message.frame.slot.Some? && message.frame.slot.value == slot
  }

  function FramesFor(messages: seq<Message>, id: StreamId, slot: nat): nat
  {
    if messages == [] then 0
    else (if CarriesSlot(messages[0], id, slot) then 1 else 0) + FramesFor(messages[1..], id, slot)
  }

  function EventIn(a: Arrival): seq<Message>
  {
    if a.Event? then [a.message] else []
  }

  function EventsOf(wire: seq<Arrival>): seq<Message>
  {
    if wire == [] then [] else EventIn(wire[0]) + EventsOf(wire[1..])
  }

  /** The slots of a new stream no early frame has used. */
  function Unused(info: StreamInfo, early: seq<Message>): set<nat>
  {
    set i: nat | i < |SlotsOf(info)| && IsSlot(i, info) && FramesFor(early, info.streamId, i) == 0
  }

  predicate FrameOk(message: Message, info: StreamInfo)
  {
    message.FrameReady? ==> message.frame.streamId == info.streamId && IsFrame(message.frame, info)
  }

  /** What a new stream sends before its start reply: frames the portal accepts,
      in different slots. */
  ghost predicate EarlyOk(early: seq<Message>, info: StreamInfo)
  {
    && (forall m <- early :: FrameOk(m, info))
    && (forall slot: nat :: FramesFor(early, info.streamId, slot) <= 1)
  }

  /** A cast begins with a started stream, with what came before the reply kept;
      a named connector is looked up before the loop runs. */
  function Begin(info: StreamInfo, target: Target, cursor: CursorMode, early: seq<Message>): Option<World>
  {
    if !GeometryOk(info.width, info.height) then None
    else match NewTransport(info, target, cursor, true)
      case None => None
      case Some(t) =>
        Some(World(Initial(t), info, Unused(info, early), early, [], {}, {}, info.streamId + 1, info.streamId,
                   target.Output? && target.connector.Some?, false, false))
  }

  // ---------- steps ----------

  predicate IsFrame(frame: StreamFrame, info: StreamInfo)
  {
    FrameOf(frame, info.width, info.height, info.format, |SlotsOf(info)|)
  }

  /** A restart reads up to the new stream's start reply; with an error reply or a
      stray descriptor ahead of it none succeeds. */
  ghost predicate FreshRestart(w: World, restart: Restart, early: seq<Message>)
  {
    restart.Restarts? ==>
      && restart.info.streamId >= w.nextId && TableBounded(SlotsOf(restart.info))
      && EarlyOk(early, restart.info) && Stray !in w.wire && Refusal !in w.wire
  }

  function Now(w: World): Buffers
  {
    BuffersOf(w.cast, w.consumer, w.held)
  }

  function AfterSkipped(wire: seq<Arrival>): seq<Arrival>
  {
    if wire != [] && wire[0].Skipped? then AfterSkipped(wire[1..]) else wire
  }

  /** The message source runs when the socket has something to read, and comes
      back with a kept event or the first one on the socket. */
  predicate Readable(w: World)
  {
    w.wire != [] && (w.kept != [] || AfterSkipped(w.wire) != [])
  }

  ghost predicate Enabled(w: World, step: Step)
  {
    && !w.cast.quit
    && match step
       case Emit(frame) =>
         && frame.streamId == w.live.streamId && IsFrame(frame, w.live)
         && (frame.slot.Some? ==> frame.slot.value in w.owned)
       case Announce(message) => !message.FrameReady?
       case Reply => true
       case Refuse => true
       case HandleRelease => w.cast.sent != []
       case Lookup => w.opening
       case Read(restart, early) => !w.opening && Readable(w) && FreshRestart(w, restart, early)
       case Fixate(_, restart, early) => !w.opening && FreshRestart(w, restart, early)
       case NewBuffer(buffer, _, _) => !w.opening && !Known(Now(w), buffer)
       case DropBuffer(buffer) => Known(Now(w), buffer)
       case ReturnBuffer(buffer) => buffer in w.consumer
       case _ => !w.opening
  }

  /** The portal reached `r`. If it restarted the stream, everything on the
      socket and the new stream's early events were kept on the way, and the
      compositor has read all requests. If a restart failed the stream may
      have been stopped. */
  function Settle(w: World, r: State, restart: Restart, early: seq<Message>): World
  {
    if r.transport.streamId != w.live.streamId && restart.Restarts? then
      w.(cast := r.(sent := []), live := restart.info, owned := Unused(restart.info, early), nextId := restart.info.streamId + 1,
         kept := w.kept + EventsOf(w.wire) + early, wire := [])
    else w.(cast := r, stopped := w.stopped || (r.quit && r.sent != w.cast.sent))
  }

  /** The message is a frame of the live stream. */
  predicate Stores(w: World, message: Message)
  {
    message.FrameReady? && message.frame.streamId == w.live.streamId && IsFrame(message.frame, w.live)
  }

  function Taken(w: World, frame: StreamFrame): set<nat>
  {
    if frame.slot.Some? then w.owned - {frame.slot.value} else w.owned
  }

  /** The output lookup reads one message, whatever it is. An event is gone; the
      descriptor of a frame stays behind without its message. */
  function AfterLookup(wire: seq<Arrival>): seq<Arrival>
  {
    if wire == [] then []
    else if wire[0].Event? && wire[0].message.FrameReady? && wire[0].message.frame.slot.None? then [Stray] + wire[1..]
    else if wire[0].Stray? then wire
    else wire[1..]
  }

  /** The event a read delivers, and the world without it. */
  function Delivered(w: World): (Arrival, World)
    requires Readable(w)
  {
    if w.kept != [] then (Event(w.kept[0]), w.(kept := w.kept[1..]))
    else (AfterSkipped(w.wire)[0], w.(wire := AfterSkipped(w.wire)[1..]))
  }

  ghost function Next(w: World, step: Step): World
    requires Valid(w.cast) && Enabled(w, step)
  {
    match step
    case Emit(frame) => w.(owned := Taken(w, frame), wire := w.wire + [Event(FrameReady(frame))])
    case Announce(message) => w.(wire := w.wire + [Event(message)])
    case Reply => w.(wire := w.wire + [Skipped])
    case Refuse => w.(wire := w.wire + [Refusal])
    case HandleRelease =>
      var r := w.cast.sent[0];
      w.(cast := w.cast.(sent := w.cast.sent[1..]), wire := w.wire + [Skipped],
         owned := if r.BufferRelease? && r.streamId == w.live.streamId then w.owned + {r.slot} else w.owned)
    case Lookup => w.(wire := AfterLookup(w.wire), opening := false)
    case Read(restart, early) =>
      var (arrival, rest) := Delivered(w);
      if !arrival.Event? then rest.(cast := w.cast.(quit := true))
      else
        Settle(rest.(latestFrom := if Stores(w, arrival.message) then arrival.message.frame.streamId else w.latestFrom),
               ReadMessage(w.cast, arrival.message, restart), restart, early)
    case Cycle(source) =>
      var r := Process(w.cast, source);
      var back, queued := w.held + Elements(w.cast.returned), NewlyQueued(w.cast, r);
      w.(cast := r, held := back - queued, consumer := w.consumer + queued)
    case NewBuffer(buffer, hasData, backed) =>
      w.(cast := AddBuffer(w.cast, buffer, hasData, backed).(returned := w.cast.returned + [buffer]))
    case DropBuffer(buffer) =>
      w.(cast := RemoveBuffer(w.cast, buffer).(returned := Without(w.cast.returned, buffer)),
         consumer := w.consumer - {buffer}, held := w.held - {buffer})
    case ReturnBuffer(buffer) =>
      w.(cast := w.cast.(returned := w.cast.returned + [buffer]), consumer := w.consumer - {buffer})
    case StartStreaming => w.(cast := Streaming(w.cast), streaming := true)
    case PauseStreaming => w.(streaming := false)
    case Fixate(modifier, restart, early) => Settle(w, ApplyFixatedFormat(w.cast, modifier, restart), restart, early)
    case AcceptTypes(mask) => w.(cast := BuffersParam(w.cast, mask))
    case Stop => w.(cast := w.cast.(quit := true))
  }

  // ---------- the invariant ----------

  /** The portal's transport is the stream it follows, as a whole. */
  predicate Agrees(w: World)
  {
    var t := w.cast.transport;
    && t.streamId == w.live.streamId && t.width == w.live.width && t.height == w.live.height
    && t.slotFiles == SlotsOf(w.live) && AnnouncedFormat(w.live.format) == Some(t.announced)
    && w.live.streamId < w.nextId && TableBounded(t.slotFiles)
  }

  /** Frames on the way are of streams already started, and those of the live
      stream are ones the portal accepts. */
  predicate MessageOk(w: World, message: Message)
  {
    message.FrameReady? ==>
      message.frame.streamId < w.nextId && (message.frame.streamId == w.live.streamId ==> IsFrame(message.frame, w.live))
  }

  predicate InboundOk(w: World)
  {
    && (forall m <- w.kept :: MessageOk(w, m))
    && (forall m <- EventsOf(w.wire) :: MessageOk(w, m))
  }

  predicate Inv(w: World)
  {
    && Coherent(w.cast) && Agrees(w) && InboundOk(w)
    && Placed(Now(w))
    && (forall slot <- w.owned :: slot < SlotCount(w.cast))
    && (w.cast.latest.Some? ==> w.latestFrom == w.live.streamId)
    && (w.stopped ==> w.cast.quit)
  }

  lemma {:induction false} EventsAppended(wire: seq<Arrival>, a: Arrival)
    ensures EventsOf(wire + [a]) == EventsOf(wire) + EventIn(a)
  {
    hide EventIn;
    if wire == [] {
      assert wire + [a] == [a] && [a][1..] == [];
    } else {
      assert (wire + [a])[1..] == wire[1..] + [a];
      EventsAppended(wire[1..], a);
    }
  }

  lemma {:induction false} EventsAfterSkipped(wire: seq<Arrival>)
    ensures EventsOf(AfterSkipped(wire)) == EventsOf(wire)
    ensures AfterSkipped(wire) != [] ==> !AfterSkipped(wire)[0].Skipped?
  {
    if wire != [] && wire[0].Skipped? { EventsAfterSkipped(wire[1..]); }
  }

  /** A read takes the first event there is, kept ones first. */
  lemma DeliveredFirst(w: World)
    requires Readable(w)
    ensures var (a, rest) := Delivered(w);
            && rest == w.(kept := rest.kept, wire := rest.wire)
            && (if a.Event? then w.kept + EventsOf(w.wire) == [a.message] + (rest.kept + EventsOf(rest.wire))
                else w.kept == [] && rest.kept == [] && EventsOf(w.wire) == EventsOf(rest.wire))
  {
    hide EventsOf, AfterSkipped;
    EventsAfterSkipped(w.wire);
    if w.kept != [] {
      KeptFirst(w.kept, EventsOf(w.wire));
    } else {
      assert [] + EventsOf(w.wire) == EventsOf(w.wire);
      WireFirst(AfterSkipped(w.wire));
      assert [] + EventsOf(AfterSkipped(w.wire)[1..]) == EventsOf(AfterSkipped(w.wire)[1..]);
    }
  }

  lemma KeptFirst(kept: seq<Message>, others: seq<Message>)
    requires kept != []
    ensures kept + others == [kept[0]] + (kept[1..] + others)
  {
  }

  lemma WireFirst(wire: seq<Arrival>)
    requires wire != []
    ensures EventsOf(wire) == EventIn(wire[0]) + EventsOf(wire[1..])
  {
  }

  /** A lookup swallows the event at the head of the socket, if there is one. */
  lemma LookupSwallows(wire: seq<Arrival>)
    ensures EventsOf(AfterLookup(wire)) == if wire != [] && wire[0].Event? then EventsOf(wire)[1..] else EventsOf(wire)
  {
    if wire != [] {
      WireFirst(wire);
      WireFirst([Stray] + wire[1..]);
      hide EventsOf;
      assert ([Stray] + wire[1..])[1..] == wire[1..];
    }
  }

  lemma BeginIsInv(info: StreamInfo, target: Target, cursor: CursorMode, early: seq<Message>)
    requires Begin(info, target, cursor, early).Some? && TableBounded(SlotsOf(info)) && EarlyOk(early, info)
    ensures Inv(Begin(info, target, cursor, early).value)
  {
    hide GeometryOk, AnnouncedFormat, IsFrame, FramesFor;
    var w := Begin(info, target, cursor, early).value;
    forall m <- w.kept ensures MessageOk(w, m) { assert FrameOk(m, info); }
  }

  /** More or fewer messages on the way do not touch the rest. */
  lemma OtherMessages(w: World, n: World)
    requires Inv(w) && n == w.(kept := n.kept, wire := n.wire, opening := n.opening)
    requires forall m <- n.kept + EventsOf(n.wire) :: MessageOk(w, m)
    ensures Inv(n)
  {
    hide GeometryOk, AnnouncedFormat, Coherent, Placed, IsFrame, EventsOf;
    forall m <- n.kept ensures MessageOk(n, m) { assert m in n.kept + EventsOf(n.wire); assert MessageOk(w, m); }
    forall m <- EventsOf(n.wire) ensures MessageOk(n, m) { assert m in n.kept + EventsOf(n.wire); assert MessageOk(w, m); }
  }

  lemma ArrivalInv(w: World, a: Arrival)
    requires Inv(w) && (a.Event? ==> MessageOk(w, a.message))
    ensures Inv(w.(wire := w.wire + [a]))
  {
    hide Coherent, Placed, Agrees, EventsOf, MessageOk;
    EventsAppended(w.wire, a);
    OtherMessages(w, w.(wire := w.wire + [a]));
  }

  lemma OwnedInv(w: World, owned: set<nat>)
    requires Inv(w) && forall slot <- owned :: slot < SlotCount(w.cast)
    ensures Inv(w.(owned := owned))
  {
    hide Coherent, Placed, EventsOf, IsFrame;
    var n := w.(owned := owned);
    assert forall m :: MessageOk(w, m) ==> MessageOk(n, m);
  }

  lemma EmitInv(w: World, frame: StreamFrame)
    requires Inv(w) && Enabled(w, Emit(frame))
    ensures Inv(Next(w, Emit(frame)))
  {
    hide GeometryOk, AnnouncedFormat, Coherent, Placed, IsFrame, EventsOf;
    OwnedInv(w, Taken(w, frame));
    var n := w.(owned := Taken(w, frame));
    assert MessageOk(n, FrameReady(frame));
    ArrivalInv(n, Event(FrameReady(frame)));
  }

  lemma HandleReleaseInv(w: World)
    requires Inv(w) && Enabled(w, HandleRelease)
    ensures Inv(Next(w, HandleRelease))
  {
    hide GeometryOk, AnnouncedFormat, Placed, IsFrame, EventsOf;
    var r := w.cast.sent[0];
    assert r in w.cast.sent;
    var owned := if r.BufferRelease? && r.streamId == w.live.streamId then w.owned + {r.slot} else w.owned;
    OwnedInv(w, owned);
    ArrivalInv(w.(owned := owned), Skipped);
    ReleaseReadInv(w.(owned := owned, wire := w.wire + [Skipped]));
  }

  lemma ReleaseReadInv(w: World)
    requires Inv(w) && w.cast.sent != []
    ensures Inv(w.(cast := w.cast.(sent := w.cast.sent[1..])))
  {
    hide GeometryOk, AnnouncedFormat, Placed, IsFrame, EventsOf;
    var n := w.(cast := w.cast.(sent := w.cast.sent[1..]));
    assert forall r <- n.cast.sent :: r in w.cast.sent;
    assert forall m :: MessageOk(w, m) ==> MessageOk(n, m);
  }

  lemma LookupInv(w: World)
    requires Inv(w) && Enabled(w, Lookup)
    ensures Inv(Next(w, Lookup))
  {
    CoherentIsValid(w.cast);
    hide GeometryOk, AnnouncedFormat, Coherent, Placed, IsFrame, EventsOf, AfterLookup, MessageOk, Valid;
    LookupSwallows(w.wire);
    OtherMessages(w, Next(w, Lookup));
  }

  /** Restarting replaces the stream on both sides at once. */
  lemma SettleRestarted(w: World, r: State, restart: Restart, early: seq<Message>)
    requires Inv(w) && FreshRestart(w, restart, early) && restart.Restarts? && Restarted(w.cast, r, restart.info)
    ensures Inv(Settle(w, r, restart, early))
  {
    hide GeometryOk, AnnouncedFormat, Coherent, Placed, IsFrame, EventsOf, FramesFor;
    RestartedIsCoherent(w.cast, r, restart.info, 0);
    RestartBuffers(w.cast, r, restart.info, w.consumer, w.held);
    assert BuffersOf(r.(sent := []), w.consumer, w.held) == BuffersOf(r, w.consumer, w.held);
    var n := Settle(w, r, restart, early);
    forall m <- n.kept ensures MessageOk(n, m) {
      if m in early { assert FrameOk(m, restart.info); } else { assert MessageOk(w, m); }
    }
    assert EventsOf(n.wire) == [] by { NoEvents(); }
  }

  lemma NoEvents()
    ensures EventsOf([]) == []
  {
  }

  /** A failed restart only adds requests and ends the cast. */
  lemma SettleFailed(w: World, r: State, asked: bool, restart: Restart, early: seq<Message>)
    requires Inv(w) && FailedRestart(w.cast, r, asked)
    ensures Inv(Settle(w, r, restart, early)) && Settle(w, r, restart, early) == w.(cast := r, stopped := w.stopped || r.sent != w.cast.sent)
  {
    hide GeometryOk, AnnouncedFormat, Coherent, Placed, IsFrame, EventsOf;
    FailedIsCoherent(w.cast, r, asked, 0);
    var n := Settle(w, r, restart, early);
    assert BuffersOf(r, w.consumer, w.held) == Now(w);
    assert forall m :: MessageOk(w, m) ==> MessageOk(n, m);
  }

  /** A state that differs only where the invariant does not look. */
  lemma SettleSame(w: World, r: State, restart: Restart, early: seq<Message>)
    requires Inv(w) && Coherent(r) && r.transport == w.cast.transport && r.sent == w.cast.sent
    requires BuffersOf(r, w.consumer, w.held) == Now(w) && r.latest == w.cast.latest && (w.stopped ==> r.quit)
    ensures Inv(Settle(w, r, restart, early)) && Settle(w, r, restart, early) == w.(cast := r)
  {
    hide GeometryOk, AnnouncedFormat, Coherent, Placed, IsFrame, EventsOf;
    assert forall m :: MessageOk(w, m) ==> MessageOk(w.(cast := r), m);
  }

  lemma FixateInv(w: World, modifier: Option<nat>, restart: Restart, early: seq<Message>)
    requires Inv(w) && Enabled(w, Fixate(modifier, restart, early))
    ensures Inv(Next(w, Fixate(modifier, restart, early)))
  {
    var r := ApplyFixatedFormat(w.cast, modifier, restart);
    CoherentIsValid(w.cast);
    FixateRestarts(w.cast, modifier, restart);
    ModeKeeps(w.cast, r.mode);
    hide GeometryOk, AnnouncedFormat, ApplyFixatedFormat, Restarted, FailedRestart, Coherent, Inv, Settle;
    if r.quit {
      SettleFailed(w, r, Asked(w.cast, Fixate(modifier, restart, early)), restart, early);
    } else if restart.Restarts? && Restarted(w.cast, r, restart.info) {
      SettleRestarted(w, r, restart, early);
    } else {
      assert r == w.cast.(mode := r.mode);
      assert !w.stopped by { NotStopped(w); }
      SettleSame(w, r, restart, early);
    }
  }

  lemma NotStopped(w: World)
    requires Inv(w) && !w.cast.quit
    ensures !w.stopped && Coherent(w.cast)
  {
  }

  lemma ModeKeeps(s: State, mode: DeliveryMode)
    requires Coherent(s)
    ensures Coherent(s.(mode := mode))
  {
    hide GeometryOk;
  }

  /** The world without the message a read delivers. */
  lemma DeliveredInv(w: World)
    requires Inv(w) && Readable(w)
    ensures var (a, rest) := Delivered(w); Inv(rest) && (a.Event? ==> MessageOk(w, a.message))
  {
    hide Coherent, Placed, Agrees, EventsOf, MessageOk, Delivered;
    DeliveredFirst(w);
    var (a, rest) := Delivered(w);
    assert forall m <- w.kept + EventsOf(w.wire) :: MessageOk(w, m);
    assert forall m <- rest.kept + EventsOf(rest.wire) :: m in w.kept + EventsOf(w.wire);
    OtherMessages(w, rest);
  }

  /** A frame message is stored, as what it brings, if and only if it is a frame
      of the live stream; it supersedes a pending slot frame, whose slot is
      released. Any other one changes nothing. */
  lemma FrameIsStoredIff(w: World, frame: StreamFrame, restart: Restart)
    requires Inv(w)
    ensures var r := ReadMessage(w.cast, FrameReady(frame), restart);
            if !Stores(w, FrameReady(frame)) then r == w.cast
            else
              && PayloadFits(w.cast, PayloadOf(frame)) && r == ReplaceLatest(w.cast, PayloadOf(frame))
              && r == w.cast.(latest := Some(PayloadOf(frame)), pending := true, sent := r.sent)
              && r.sent == w.cast.sent + (if w.cast.pending && w.cast.latest.value.Slot?
                                          then [BufferRelease(w.live.streamId, w.cast.latest.value.slot)] else [])
  {
    hide GeometryOk, AnnouncedFormat, ValidateFrame, Placed, EventsOf;
    AcceptedIff(frame, w.live.width, w.live.height, w.live.format, SlotCount(w.cast));
    if Stores(w, FrameReady(frame)) && frame.carried.DmabufFile? { LinearIsMappable(w.live.format); }
    if Stores(w, FrameReady(frame)) && frame.carried.Memfd? { PlainIsMappable(w.live.format); }
  }

  lemma LinearIsMappable(format: PixelFormat)
    requires format.DmabufPixels? && format.modifier == DRM_FORMAT_MOD_LINEAR && AnnouncedFormat(format).Some?
    ensures CpuMappable(AnnouncedFormat(format).value)
  {
  }

  lemma PlainIsMappable(format: PixelFormat)
    requires !format.DmabufPixels? && AnnouncedFormat(format).Some?
    ensures CpuMappable(AnnouncedFormat(format).value)
  {
  }

  lemma ReadFrameInv(w: World, frame: StreamFrame, restart: Restart, early: seq<Message>)
    requires Inv(w) && !w.cast.quit
    ensures var from := if Stores(w, FrameReady(frame)) then frame.streamId else w.latestFrom;
            Inv(Settle(w.(latestFrom := from), ReadMessage(w.cast, FrameReady(frame), restart), restart, early))
  {
    FrameIsStoredIff(w, frame, restart);
    hide GeometryOk, AnnouncedFormat, ReadMessage, Coherent, Placed, IsFrame, PayloadFits, EventsOf, ReplaceLatest;
    if Stores(w, FrameReady(frame)) {
      ReplaceCoherent(w.cast, PayloadOf(frame));
      var r := ReplaceLatest(w.cast, PayloadOf(frame));
      assert BuffersOf(r, w.consumer, w.held) == Now(w);
      var n := w.(latestFrom := frame.streamId, cast := r);
      assert forall m :: MessageOk(w, m) ==> MessageOk(n, m);
    }
  }

  lemma QuitKeeps(w: World)
    requires Inv(w)
    ensures Inv(w.(cast := w.cast.(quit := true)))
  {
    hide GeometryOk, AnnouncedFormat, Placed, IsFrame, EventsOf;
    var n := w.(cast := w.cast.(quit := true));
    assert BuffersOf(n.cast, w.consumer, w.held) == Now(w);
    assert forall m :: MessageOk(w, m) ==> MessageOk(n, m);
  }

  lemma ReadNoticeInv(w: World, message: Message, restart: Restart, early: seq<Message>)
    requires Inv(w) && !w.cast.quit && !message.FrameReady? && FreshRestart(w, restart, early)
    ensures Inv(Settle(w, ReadMessage(w.cast, message, restart), restart, early))
  {
    NotStopped(w);
    CoherentIsValid(w.cast);
    match message
    case LeaseRenewed => SettleSame(w, w.cast, restart, early);
    case StreamEnded(_) =>
      QuitKeeps(w);
      QuitSettles(w, restart, early);
    case GeometryChanged(streamId, width, height) =>
      GeometryRestarts(w.cast, width, height, restart);
      hide GeometryOk, AnnouncedFormat, RestartGeometry, Restarted, FailedRestart, Coherent, Inv, Settle, Valid;
      if streamId == w.cast.transport.streamId {
        var (ok, r) := RestartGeometry(w.cast, streamId, width, height, restart);
        if ok { SettleRestarted(w, r, restart, early); } else { SettleFailed(w, r.(quit := true), w.cast.transport.dmabuf, restart, early); }
      } else {
        SettleSame(w, w.cast, restart, early);
      }
  }

  lemma QuitSettles(w: World, restart: Restart, early: seq<Message>)
    requires Inv(w)
    ensures Settle(w, w.cast.(quit := true), restart, early) == w.(cast := w.cast.(quit := true))
  {
    hide Coherent, Placed;
  }

  lemma ReadInv(w: World, restart: Restart, early: seq<Message>)
    requires Inv(w) && Enabled(w, Read(restart, early))
    ensures Inv(Next(w, Read(restart, early)))
  {
    DeliveredInv(w);
    DeliveredFirst(w);
    var (a, rest) := Delivered(w);
    if !a.Event? {
      QuitKeeps(rest);
    } else if a.message.FrameReady? {
      ReadFrameInv(rest, a.message.frame, restart, early);
    } else {
      StillFresh(w, restart, early);
      hide Inv, FreshRestart, ReadMessage, Settle;
      ReadNoticeInv(rest, a.message, restart, early);
    }
  }

  /** What a read does, by what it finds. */
  lemma NextReads(w: World, restart: Restart, early: seq<Message>)
    requires Valid(w.cast) && Enabled(w, Read(restart, early))
    ensures !w.cast.quit && !w.opening && Readable(w) && FreshRestart(w, restart, early)
    ensures var (a, rest) := Delivered(w);
            Next(w, Read(restart, early)) ==
            if !a.Event? then rest.(cast := w.cast.(quit := true))
            else Settle(rest.(latestFrom := if Stores(w, a.message) then a.message.frame.streamId else w.latestFrom),
                        ReadMessage(w.cast, a.message, restart), restart, early)
  {
    hide Readable, FreshRestart, Delivered, Settle, ReadMessage, Stores, Valid;
  }

  lemma NextFixates(w: World, modifier: Option<nat>, restart: Restart, early: seq<Message>)
    requires Valid(w.cast) && Enabled(w, Fixate(modifier, restart, early))
    ensures !w.cast.quit && !w.opening && FreshRestart(w, restart, early)
    ensures Next(w, Fixate(modifier, restart, early)) == Settle(w, ApplyFixatedFormat(w.cast, modifier, restart), restart, early)
  {
    hide FreshRestart, Settle, ApplyFixatedFormat, Valid;
  }

  lemma StillFresh(w: World, restart: Restart, early: seq<Message>)
    requires Readable(w) && FreshRestart(w, restart, early)
    ensures FreshRestart(Delivered(w).1, restart, early)
  {
    hide EarlyOk;
    NoneMore(w.wire);
  }

  lemma {:induction false} NoneMore(wire: seq<Arrival>)
    ensures forall a <- AfterSkipped(wire) :: a in wire
  {
    if wire != [] && wire[0].Skipped? { NoneMore(wire[1..]); }
  }

  lemma CoherentIsValid(s: State)
    requires Coherent(s)
    ensures Valid(s)
  {
  }

  lemma CycleInv(w: World, source: Source)
    requires Inv(w) && Enabled(w, Cycle(source))
    ensures Inv(Next(w, Cycle(source)))
  {
    NotStopped(w);
    CoherentIsValid(w.cast);
    ProcessCoherent(w.cast, source);
    ProcessBuffers(w.cast, source, w.consumer, w.held);
    ProcessKeepsStream(w.cast, source);
    var r := Process(w.cast, source);
    var back, queued := w.held + Elements(w.cast.returned), NewlyQueued(w.cast, r);
    hide Inv, Coherent, Process, Placed, Elements, NewlyQueued;
    PortalInv(w, r, w.consumer + queued, back - queued);
  }

  /** A cycle leaves the stream and the stored frame alone. */
  lemma ProcessKeepsStream(s: State, source: Source)
    requires Coherent(s)
    ensures Process(s, source).transport == s.transport.(bindings := Process(s, source).transport.bindings)
    ensures Process(s, source).latest == s.latest && Process(s, source).quit == s.quit
  {
    hide GeometryOk, Reclaim, PublishSlot, CopyIntoPool, FirstWith;
    ReclaimKeeps(s);
    ReclaimCoherent(s);
    var c := Reclaim(s);
    if c.pending {
      match c.latest.value
      case Described(file, stride, damage) => CopyKeeps(c, file, stride, damage, source);
      case Slot(slot, damage) => PublishSlotKeepsStream(c, slot, damage, source);
    }
  }

  lemma PublishSlotKeepsStream(s: State, slot: nat, damage: Damage, source: Source)
    requires Coherent(s)
    ensures var r := PublishSlot(s, slot, damage, source);
            r.transport == s.transport.(bindings := r.transport.bindings) && r.latest == s.latest && r.quit == s.quit
  {
    hide GeometryOk, CopyIntoPool;
    if slot < |s.transport.bindings| {
      CopyKeeps(s, s.transport.slotFiles[slot].file, s.transport.slotFiles[slot].stride, damage, source);
    }
  }

  /** A portal step that stays on the stream and leaves the stored frame. */
  lemma PortalInv(w: World, r: State, consumer: set<BufferId>, held: set<BufferId>)
    requires Inv(w) && !w.cast.quit && Coherent(r) && BuffersOk(r, consumer, held)
    requires r.transport == w.cast.transport.(bindings := r.transport.bindings) && r.latest == w.cast.latest
    ensures Inv(w.(cast := r, consumer := consumer, held := held))
  {
    NotStopped(w);
    hide GeometryOk, AnnouncedFormat, Placed, IsFrame, EventsOf, Coherent;
    var n := w.(cast := r, consumer := consumer, held := held);
    assert forall m :: MessageOk(w, m) ==> MessageOk(n, m);
  }

  lemma AddedKeepsStream(s: State, buffer: BufferId, hasData: bool, backed: bool)
    ensures var r := AddBuffer(s, buffer, hasData, backed);
            r.transport == s.transport.(bindings := r.transport.bindings) && r.latest == s.latest && r.quit == s.quit
  {
    hide FirstWith;
  }

  lemma RemovedKeepsStream(s: State, buffer: BufferId)
    ensures var r := RemoveBuffer(s, buffer);
            r.transport == s.transport.(bindings := r.transport.bindings) && r.latest == s.latest && r.quit == s.quit
  {
    hide FirstWith, Without;
  }

  /** Only a message or a fixation can change the stream, and only these and a
      stop end the cast. */
  lemma SteadyStep(w: World, step: Step)
    requires Inv(w) && Enabled(w, step) && !step.Read? && !step.Fixate?
    ensures var n := Next(w, step);
            && n.cast.transport == w.cast.transport.(bindings := n.cast.transport.bindings)
            && n.live == w.live && (n.cast.quit <==> step.Stop?)
  {
    NotStopped(w);
    CoherentIsValid(w.cast);
    match step
    case Cycle(source) => ProcessKeepsStream(w.cast, source); hide Inv, Valid, Process;
    case NewBuffer(b, hasData, backed) => AddedKeepsStream(w.cast, b, hasData, backed); hide Inv, Valid, AddBuffer;
    case DropBuffer(b) => RemovedKeepsStream(w.cast, b); hide Inv, Valid, RemoveBuffer, Without;
    case _ => hide Inv, Valid, AfterLookup;
  }

  lemma ReturnedIsNoMatter(s: State, returned: seq<BufferId>)
    requires Coherent(s)
    ensures Coherent(s.(returned := returned))
  {
    hide GeometryOk;
  }

  lemma NewBufferInv(w: World, buffer: BufferId, hasData: bool, backed: bool)
    requires Inv(w) && Enabled(w, NewBuffer(buffer, hasData, backed))
    ensures Inv(Next(w, NewBuffer(buffer, hasData, backed)))
  {
    NotStopped(w);
    assert InFlightIsBound(w.cast.transport.bindings);
    var r := AddBuffer(w.cast, buffer, hasData, backed);
    AddBufferKeeps(w.cast, buffer, hasData, backed, 0);
    AddBufferBuffers(w.cast, buffer, hasData, backed, w.consumer, w.held);
    AddedKeepsStream(w.cast, buffer, hasData, backed);
    ReturnedIsNoMatter(r, w.cast.returned + [buffer]);
    hide Inv, Coherent, AddBuffer, Placed;
    PortalInv(w, r.(returned := w.cast.returned + [buffer]), w.consumer, w.held);
  }

  lemma DropBufferInv(w: World, buffer: BufferId)
    requires Inv(w) && Enabled(w, DropBuffer(buffer))
    ensures Inv(Next(w, DropBuffer(buffer)))
  {
    NotStopped(w);
    var r := RemoveBuffer(w.cast, buffer);
    RemoveBufferCoherent(w.cast, buffer);
    RemoveBufferBuffers(w.cast, buffer, w.consumer, w.held);
    RemovedKeepsStream(w.cast, buffer);
    ReturnedIsNoMatter(r, Without(w.cast.returned, buffer));
    hide Inv, Coherent, RemoveBuffer, Without, Placed;
    PortalInv(w, r.(returned := Without(w.cast.returned, buffer)), w.consumer - {buffer}, w.held - {buffer});
  }

  lemma GiveBack(b: Buffers, x: BufferId)
    requires Placed(b) && x in b.consumer
    ensures Placed(b.(returned := b.returned + [x], consumer := b.consumer - {x}))
  {
    var r := b.(returned := b.returned + [x], consumer := b.consumer - {x});
    assert forall y :: Known(b, y) ==> Known(r, y);
    assert forall i | 0 <= i < |r.bindings| :: BindingOk(b, b.bindings[i]) ==> BindingOk(r, r.bindings[i]);
  }

  lemma ReturnBufferInv(w: World, buffer: BufferId)
    requires Inv(w) && Enabled(w, ReturnBuffer(buffer))
    ensures Inv(Next(w, ReturnBuffer(buffer)))
  {
    NotStopped(w);
    GiveBack(Now(w), buffer);
    ReturnedIsNoMatter(w.cast, w.cast.returned + [buffer]);
    hide Coherent, Placed, Inv;
    PortalInv(w, w.cast.(returned := w.cast.returned + [buffer]), w.consumer - {buffer}, w.held);
  }

  lemma SettingsInv(w: World, step: Step)
    requires Inv(w) && Enabled(w, step) && (step.StartStreaming? || step.PauseStreaming? || step.AcceptTypes?)
    ensures Inv(Next(w, step))
  {
    hide GeometryOk, AnnouncedFormat, Placed, IsFrame, EventsOf;
    var n := Next(w, step);
    assert forall m :: MessageOk(w, m) ==> MessageOk(n, m);
  }

  /** Every step keeps the invariant, the last one of a cast included. */
  lemma StepKeepsInv(w: World, step: Step)
    requires Inv(w) && Enabled(w, step)
    ensures Inv(Next(w, step))
  {
    hide Inv, Next;
    match step
    case Emit(frame) => EmitInv(w, frame);
    case Announce(message) => PlainInv(w, Event(message)); NextPlain(w, step);
    case Reply => PlainInv(w, Skipped); NextPlain(w, step);
    case Refuse => PlainInv(w, Refusal); NextPlain(w, step);
    case HandleRelease => HandleReleaseInv(w);
    case Lookup => LookupInv(w);
    case Read(restart, early) => ReadInv(w, restart, early);
    case Cycle(source) => CycleInv(w, source);
    case NewBuffer(buffer, hasData, backed) => NewBufferInv(w, buffer, hasData, backed);
    case DropBuffer(buffer) => DropBufferInv(w, buffer);
    case ReturnBuffer(buffer) => ReturnBufferInv(w, buffer);
    case Fixate(modifier, restart, early) => FixateInv(w, modifier, restart, early);
    case StartStreaming => SettingsInv(w, step);
    case PauseStreaming => SettingsInv(w, step);
    case AcceptTypes(_) => SettingsInv(w, step);
    case Stop => QuitKeeps(w); NextPlain(w, step);
  }

  /** Whether a restart in the step asks for dmabufs: a fixation if the modifier
      on offer was taken, a change of geometry as the last start did. */
  predicate Asked(s: State, step: Step)
  {
    if step.Fixate? then step.modifier.Some? && step.modifier == s.transport.offeredModifier else s.transport.dmabuf
  }

  /** The step that ends a cast changes nothing else of its state but the
      requests of a failed restart; and then, only if the stop was written, the
      stream may be gone. */
  lemma StepQuits(w: World, step: Step)
    requires Inv(w) && Enabled(w, step) && Next(w, step).cast.quit
    ensures var n := Next(w, step);
            && n == w.(cast := n.cast, kept := n.kept, wire := n.wire, latestFrom := n.latestFrom, stopped := n.stopped)
            && (n.cast == w.cast.(quit := true) || FailedRestart(w.cast, n.cast, Asked(w.cast, step)))
            && (n.stopped <==> n.cast.sent != w.cast.sent)
  {
    NotStopped(w);
    CoherentIsValid(w.cast);
    match step
    case Read(restart, early) => ReadQuits(w, restart, early);
    case Fixate(modifier, restart, early) =>
      NextFixates(w, modifier, restart, early);
      FixateRestarts(w.cast, modifier, restart);
      FailedKeepsId(w.cast, ApplyFixatedFormat(w.cast, modifier, restart), Asked(w.cast, step));
      hide Coherent, Placed, InboundOk, Next, Enabled, EventsOf, ApplyFixatedFormat, FreshRestart, FailedRestart, Restarted;
    case Stop => NextPlain(w, step); hide Inv, Enabled, Next, FailedRestart;
    case _ => SteadyStep(w, step); hide Inv, Enabled, Next, FailedRestart;
  }

  lemma ReadQuits(w: World, restart: Restart, early: seq<Message>)
    requires Inv(w) && Enabled(w, Read(restart, early)) && Next(w, Read(restart, early)).cast.quit
    ensures var n := Next(w, Read(restart, early));
            && n == w.(cast := n.cast, kept := n.kept, wire := n.wire, latestFrom := n.latestFrom, stopped := n.stopped)
            && (n.cast == w.cast.(quit := true) || FailedRestart(w.cast, n.cast, w.cast.transport.dmabuf))
            && (n.stopped <==> n.cast.sent != w.cast.sent)
  {
    NotStopped(w);
    CoherentIsValid(w.cast);
    NextReads(w, restart, early);
    DeliveredFirst(w);
    var (a, rest) := Delivered(w);
    if a.Event? { ReadEnds(w.cast, a.message, restart); }
    hide Coherent, Placed, EventsOf, FreshRestart, ReadMessage, Delivered, FailedRestart, Next, Enabled, InboundOk, Readable, Stores;
  }

  /** A message that ends the cast is a closed stream or a restart that fails. */
  lemma ReadEnds(s: State, message: Message, restart: Restart)
    requires Valid(s) && !s.quit && ReadMessage(s, message, restart).quit
    ensures var r := ReadMessage(s, message, restart);
            r.transport == s.transport && (r == s.(quit := true) || FailedRestart(s, r, s.transport.dmabuf))
  {
    if message.GeometryChanged? {
      GeometryRestarts(s, message.width, message.height, restart);
      FailedKeepsId(s, ReadMessage(s, message, restart), s.transport.dmabuf);
    }
    hide AnnouncedFormat, GeometryOk, RestartGeometry, ValidateFrame, Valid, FailedRestart, Restarted;
  }

  lemma FailedKeepsId(s: State, r: State, asked: bool)
    ensures FailedRestart(s, r, asked) ==> r.transport == s.transport
  {
  }

  lemma PlainInv(w: World, a: Arrival)
    requires Inv(w) && (a.Event? ==> !a.message.FrameReady?)
    ensures Inv(w.(wire := w.wire + [a]))
  {
    hide Inv;
    ArrivalInv(w, a);
  }

  lemma NextPlain(w: World, step: Step)
    requires Inv(w) && Enabled(w, step)
    ensures step.Announce? ==> Next(w, step) == w.(wire := w.wire + [Event(step.message)])
    ensures step.Reply? ==> Next(w, step) == w.(wire := w.wire + [Skipped])
    ensures step.Refuse? ==> Next(w, step) == w.(wire := w.wire + [Refusal])
    ensures step.Stop? ==> Next(w, step) == w.(cast := w.cast.(quit := true))
  {
    hide Placed;
  }
}
