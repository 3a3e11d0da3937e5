/** Who owns each dmabuf slot, over every run of a cast. */
module CastOwnership {
  import opened Wrappers
  import opened Frames
  import opened Cast
  import opened CastInvariants
  import opened CastBuffers
  import opened CastWorld

  // ---------- the holders of a slot ----------

  /** Frames carrying a slot that were read early or lie on the socket. */
  function FramesOnTheWay(w: World, slot: nat): nat
  {
    FramesFor(w.kept, w.live.streamId, slot) + FramesFor(EventsOf(w.wire), w.live.streamId, slot)
  }

  /** Every claim on a slot of the live stream: by the compositor, by a frame on
      the way, and by the portal. */
  ghost function Holders(w: World, slot: nat): nat
  {
    (if slot in w.owned then 1 else 0) + FramesOnTheWay(w, slot) + Share(w.cast, slot)
  }

  ghost predicate NothingLeaked(w: World)
  {
    forall slot: nat | slot < SlotCount(w.cast) :: Holders(w, slot) >= 1
  }

  ghost predicate Exact(w: World)
  {
    forall slot: nat | slot < SlotCount(w.cast) :: Holders(w, slot) == 1
  }

  /** The latest frame shows a slot that was published already: marking it
      pending again claims the slot once more. */
  predicate RearmsPublished(s: State)
  {
    !s.pending && s.latest.Some? && s.latest.value.Slot?
  }

  function Rearmed(s: State, slot: nat): nat
  {
    if RearmsPublished(s) && s.latest.value.slot == slot then 1 else 0
  }

  /** Claims stay, or shrink without the slot being lost. */
  predicate Kept(before: nat, after: nat)
  {
    before == after || 1 <= after < before
  }

  lemma {:induction false} FramesJoined(a: seq<Message>, b: seq<Message>, id: StreamId, slot: nat)
    ensures FramesFor(a + b, id, slot) == FramesFor(a, id, slot) + FramesFor(b, id, slot)
  {
    hide CarriesSlot;
    if a == [] {
      assert a + b == b;
    } else {
      assert (a + b)[1..] == a[1..] + b;
      FramesJoined(a[1..], b, id, slot);
    }
  }

  lemma OneFrame(message: Message, id: StreamId, slot: nat)
    ensures FramesFor([message], id, slot) == if CarriesSlot(message, id, slot) then 1 else 0
    ensures FramesFor([], id, slot) == 0
  {
    assert [message][1..] == [];
  }

  lemma {:induction false} NoFramesOfNewStream(messages: seq<Message>, id: StreamId, slot: nat)
    requires forall m <- messages :: m.FrameReady? ==> m.frame.streamId < id
    ensures FramesFor(messages, id, slot) == 0
  {
    if messages != [] { NoFramesOfNewStream(messages[1..], id, slot); }
  }

  /** The event the output lookup takes off the socket. */
  function Swallowed(w: World, slot: nat): nat
  {
    if w.wire != [] && w.wire[0].Event? && CarriesSlot(w.wire[0].message, w.live.streamId, slot) then 1 else 0
  }

  // ---------- one step ----------

  lemma ArrivalHolders(w: World, a: Arrival, slot: nat)
    ensures FramesOnTheWay(w.(wire := w.wire + [a]), slot) ==
            FramesOnTheWay(w, slot) + if a.Event? && CarriesSlot(a.message, w.live.streamId, slot) then 1 else 0
  {
    hide FramesFor, EventsOf, CarriesSlot;
    EventsAppended(w.wire, a);
    FramesJoined(EventsOf(w.wire), EventIn(a), w.live.streamId, slot);
    if a.Event? { OneFrame(a.message, w.live.streamId, slot); } else { OneFrame(LeaseRenewed, w.live.streamId, slot); }
  }

  lemma EmitHolders(w: World, frame: StreamFrame, slot: nat)
    requires Inv(w) && Enabled(w, Emit(frame))
    ensures Holders(Next(w, Emit(frame)), slot) == Holders(w, slot) && Next(w, Emit(frame)).live == w.live
  {
    hide Inv, Share, FramesFor, IsFrame, EventsOf;
    ArrivalHolders(w, Event(FrameReady(frame)), slot);
  }

  /** Taking the first request away drops its claim. */
  lemma ReleaseHandled(s: State, slot: nat)
    requires s.sent != []
    ensures var r := s.sent[0];
            Share(s.(sent := s.sent[1..]), slot) + (if r == BufferRelease(s.transport.streamId, slot) then 1 else 0) == Share(s, slot)
  {
    assert s.sent == [s.sent[0]] + s.sent[1..];
    assert multiset(s.sent) == multiset{s.sent[0]} + multiset(s.sent[1..]);
  }

  lemma ReleaseHolders(w: World, slot: nat)
    requires Inv(w) && Enabled(w, HandleRelease)
    ensures Kept(Holders(w, slot), Holders(Next(w, HandleRelease), slot)) && Next(w, HandleRelease).live == w.live
  {
    NotStopped(w);
    ArrivalHolders(w, Skipped, slot);
    ReleaseHandled(w.cast, slot);
    hide Inv, Placed, FramesFor, EventsOf, Share, Valid, Coherent;
  }

  lemma LookupHolders(w: World, slot: nat)
    requires Inv(w) && Enabled(w, Lookup)
    ensures Holders(Next(w, Lookup), slot) + Swallowed(w, slot) == Holders(w, slot) && Next(w, Lookup).live == w.live
    ensures Next(w, Lookup).cast == w.cast
  {
    hide Inv, Share, IsFrame, EventsOf, FramesFor, AfterLookup;
    LookupSwallows(w.wire);
    if w.wire != [] {
      WireFirst(w.wire);
      if w.wire[0].Event? {
        assert EventsOf(w.wire)[1..] == EventsOf(w.wire[1..]);
        FramesJoined([w.wire[0].message], EventsOf(w.wire[1..]), w.live.streamId, slot);
        OneFrame(w.wire[0].message, w.live.streamId, slot);
      }
    }
  }

  lemma SettledHolders(w: World, r: State, restart: Restart, early: seq<Message>, slot: nat)
    requires Inv(w) && FreshRestart(w, restart, early) && restart.Restarts? && Restarted(w.cast, r, restart.info)
    requires slot < |SlotsOf(restart.info)|
    ensures Settle(w, r, restart, early).live == restart.info
    ensures Holders(Settle(w, r, restart, early), slot) == 1
  {
    hide GeometryOk, AnnouncedFormat, Coherent, Placed, IsFrame, Share, FramesFor, EventsOf;
    RestartedIsCoherent(w.cast, r, restart.info, slot);
    var id := restart.info.streamId;
    assert forall m <- w.kept :: MessageOk(w, m);
    assert forall m <- EventsOf(w.wire) :: MessageOk(w, m);
    NoFramesOfNewStream(w.kept, id, slot);
    NoFramesOfNewStream(EventsOf(w.wire), id, slot);
    FramesJoined(w.kept, EventsOf(w.wire), id, slot);
    FramesJoined(w.kept + EventsOf(w.wire), early, id, slot);
    NoEvents();
    OneFrame(LeaseRenewed, id, slot);
    assert IsSlot(slot, restart.info);
  }

  lemma FailedHolders(w: World, r: State, asked: bool, restart: Restart, early: seq<Message>, slot: nat)
    requires Inv(w) && FailedRestart(w.cast, r, asked)
    ensures Settle(w, r, restart, early).live == w.live && Holders(Settle(w, r, restart, early), slot) == Holders(w, slot)
  {
    hide Share, FramesFor, EventsOf, Settle;
    SettleFailed(w, r, asked, restart, early);
    FailedIsCoherent(w.cast, r, asked, slot);
  }

  lemma FixateHolders(w: World, modifier: Option<nat>, restart: Restart, early: seq<Message>, slot: nat)
    requires Inv(w) && Enabled(w, Fixate(modifier, restart, early))
    requires slot < SlotCount(Next(w, Fixate(modifier, restart, early)).cast)
    ensures var n := Next(w, Fixate(modifier, restart, early));
            Holders(n, slot) == if n.live.streamId == w.live.streamId then Holders(w, slot) else 1
  {
    var r := ApplyFixatedFormat(w.cast, modifier, restart);
    CoherentIsValid(w.cast);
    NextFixates(w, modifier, restart, early);
    FixateRestarts(w.cast, modifier, restart);
    LiveIsOld(w);
    hide Inv, Enabled, Next, ApplyFixatedFormat, Valid, Share, FramesFor, FailedRestart, EventsOf;
    if r.quit {
      FailedHolders(w, r, Asked(w.cast, Fixate(modifier, restart, early)), restart, early, slot);
    } else if restart.Restarts? && Restarted(w.cast, r, restart.info) {
      SettledHolders(w, r, restart, early, slot);
    } else {
      assert r == w.cast.(mode := r.mode);
      ModeIsNoShare(w.cast, r.mode, slot);
    }
  }

  lemma LiveIsOld(w: World)
    requires Inv(w)
    ensures w.cast.transport.streamId == w.live.streamId < w.nextId
  {
    hide Placed, Coherent;
  }

  lemma ModeIsNoShare(s: State, mode: DeliveryMode, slot: nat)
    ensures Share(s.(mode := mode), slot) == Share(s, slot)
  {
  }

  /** Taking a message off the way, before the portal acts on it. */
  lemma DeliveredHolders(w: World, slot: nat)
    requires Readable(w)
    ensures var (a, rest) := Delivered(w);
            FramesOnTheWay(w, slot) ==
            FramesOnTheWay(rest, slot) + if a.Event? && CarriesSlot(a.message, w.live.streamId, slot) then 1 else 0
  {
    hide EventsOf, FramesFor, CarriesSlot, Delivered;
    DeliveredFirst(w);
    var (a, rest) := Delivered(w);
    var id := w.live.streamId;
    FramesJoined(w.kept, EventsOf(w.wire), id, slot);
    FramesJoined(rest.kept, EventsOf(rest.wire), id, slot);
    if a.Event? {
      FramesJoined([a.message], rest.kept + EventsOf(rest.wire), id, slot);
      OneFrame(a.message, id, slot);
    } else {
      assert w.kept == rest.kept;
    }
  }

  lemma ReadFrameHolders(w: World, frame: StreamFrame, restart: Restart, early: seq<Message>, slot: nat)
    requires Inv(w) && MessageOk(w, FrameReady(frame))
    ensures var n := Settle(w, ReadMessage(w.cast, FrameReady(frame), restart), restart, early);
            && n.live == w.live && n.owned == w.owned && n.kept == w.kept && n.wire == w.wire
            && Share(n.cast, slot) == Share(w.cast, slot) + if CarriesSlot(FrameReady(frame), w.live.streamId, slot) then 1 else 0
  {
    hide GeometryOk, AnnouncedFormat, ReadMessage, ReplaceLatest, Coherent, Placed, Share, EventsOf;
    FrameIsStoredIff(w, frame, restart);
    if Stores(w, FrameReady(frame)) { ReplaceShare(w.cast, PayloadOf(frame), slot); }
  }

  /** What a slot is held by does not depend on these fields. */
  lemma OtherFieldsHoldNothing(s: State, r: State, slot: nat)
    requires r == s.(returned := r.returned, dataTypes := r.dataTypes, quit := r.quit)
    ensures Share(r, slot) == Share(s, slot)
  {
  }

  lemma ReadNoticeHolders(w: World, message: Message, restart: Restart, early: seq<Message>, slot: nat)
    requires Inv(w) && !w.cast.quit && !message.FrameReady? && FreshRestart(w, restart, early)
    requires slot < SlotCount(Settle(w, ReadMessage(w.cast, message, restart), restart, early).cast)
    ensures var n := Settle(w, ReadMessage(w.cast, message, restart), restart, early);
            Holders(n, slot) == if n.live.streamId == w.live.streamId then Holders(w, slot) else 1
  {
    CoherentIsValid(w.cast);
    LiveIsOld(w);
    if message.GeometryChanged? && message.streamId == w.cast.transport.streamId {
      GeometryRestarts(w.cast, message.width, message.height, restart);
      var (ok, r) := RestartGeometry(w.cast, message.streamId, message.width, message.height, restart);
      hide GeometryOk, AnnouncedFormat, RestartGeometry, Placed, IsFrame, FailedRestart, Coherent, Share, FramesFor,
           EventsOf, Inv, FreshRestart;
      if ok {
        SettledHolders(w, r, restart, early, slot);
      } else {
        FailedHolders(w, r.(quit := true), w.cast.transport.dmabuf, restart, early, slot);
      }
    } else {
      OtherFieldsHoldNothing(w.cast, w.cast.(quit := true), slot);
      hide Coherent, Placed, Share, FramesFor, EventsOf, GeometryOk, AnnouncedFormat, IsFrame;
    }
  }

  /** A frame that is read takes its slot from the socket into the state. */
  lemma FrameReadHolders(w: World, frame: StreamFrame, restart: Restart, early: seq<Message>, slot: nat)
    requires Inv(w) && MessageOk(w, FrameReady(frame))
    ensures var from := if Stores(w, FrameReady(frame)) then frame.streamId else w.latestFrom;
            var n := Settle(w.(latestFrom := from), ReadMessage(w.cast, FrameReady(frame), restart), restart, early);
            && n.live == w.live
            && Holders(n, slot) == Holders(w, slot) + if CarriesSlot(FrameReady(frame), w.live.streamId, slot) then 1 else 0
  {
    var from := if Stores(w, FrameReady(frame)) then frame.streamId else w.latestFrom;
    FromIsNoMatter(w, from, FrameReady(frame));
    hide Inv, FramesFor, EventsOf, CarriesSlot, Share, ReadMessage, Settle, MessageOk, Stores;
    ReadFrameHolders(w.(latestFrom := from), frame, restart, early, slot);
  }

  /** Taking a message off the socket moves its claim to the reader. */
  lemma ReadDelivers(w: World, restart: Restart, early: seq<Message>, slot: nat)
    requires Inv(w) && Enabled(w, Read(restart, early))
    ensures var (a, rest) := Delivered(w);
            && Inv(rest) && !rest.cast.quit && FreshRestart(rest, restart, early)
            && rest == w.(kept := rest.kept, wire := rest.wire) && (a.Event? ==> MessageOk(rest, a.message))
            && Holders(w, slot) == Holders(rest, slot) + if a.Event? && CarriesSlot(a.message, w.live.streamId, slot) then 1 else 0
  {
    NotStopped(w);
    CoherentIsValid(w.cast);
    NextReads(w, restart, early);
    DeliveredInv(w);
    DeliveredFirst(w);
    DeliveredHolders(w, slot);
    StillFresh(w, restart, early);
    hide Inv, Enabled, FreshRestart, Readable, Delivered, FramesOnTheWay, Share, CarriesSlot;
  }

  lemma ReadHolders(w: World, restart: Restart, early: seq<Message>, slot: nat)
    requires Inv(w) && Enabled(w, Read(restart, early)) && slot < SlotCount(Next(w, Read(restart, early)).cast)
    ensures var n := Next(w, Read(restart, early));
            Holders(n, slot) == if n.live.streamId == w.live.streamId then Holders(w, slot) else 1
  {
    InvIsValid(w);
    NextReads(w, restart, early);
    ReadDelivers(w, restart, early, slot);
    var (a, rest) := Delivered(w);
    hide Inv, Enabled, Next, Readable, FreshRestart, Delivered, ReadMessage, Stores, Settle, MessageOk, FramesOnTheWay, Share;
    if a.Event? && a.message.FrameReady? {
      FrameReadHolders(rest, a.message.frame, restart, early, slot);
    } else if a.Event? {
      ReadNoticeHolders(rest, a.message, restart, early, slot);
    } else {
      OtherFieldsHoldNothing(w.cast, w.cast.(quit := true), slot);
    }
  }

  lemma FromIsNoMatter(w: World, from: StreamId, message: Message)
    requires Inv(w) && MessageOk(w, message)
    requires (Stores(w, message) ==> from == message.frame.streamId) && (!Stores(w, message) ==> from == w.latestFrom)
    ensures Inv(w.(latestFrom := from)) && MessageOk(w.(latestFrom := from), message)
  {
    hide Coherent, Placed, EventsOf, IsFrame;
    var n := w.(latestFrom := from);
    assert forall m :: MessageOk(w, m) ==> MessageOk(n, m);
  }

  lemma PortalHolders(w: World, step: Step, slot: nat)
    requires Inv(w) && Enabled(w, step)
    requires || step.Cycle? || step.NewBuffer? || step.DropBuffer? || step.ReturnBuffer?
             || step.PauseStreaming? || step.AcceptTypes? || step.Stop?
    ensures var n := Next(w, step); n.live == w.live && n.kept == w.kept && n.wire == w.wire && n.owned == w.owned
    ensures Conserves(w.cast, Next(w, step).cast, slot)
  {
    NotStopped(w);
    CoherentIsValid(w.cast);
    var n := Next(w, step);
    hide Inv, Valid, Process, AddBuffer, RemoveBuffer, Coherent, Elements, NewlyQueued, Share;
    match step
    case Cycle(source) => ProcessConserves(w.cast, source, slot);
    case NewBuffer(buffer, hasData, backed) =>
      AddBufferKeeps(w.cast, buffer, hasData, backed, slot);
      OtherFieldsHoldNothing(AddBuffer(w.cast, buffer, hasData, backed), n.cast, slot);
    case DropBuffer(buffer) =>
      RemoveBufferShare(w.cast, buffer, slot);
      OtherFieldsHoldNothing(RemoveBuffer(w.cast, buffer), n.cast, slot);
    case _ => OtherFieldsHoldNothing(w.cast, n.cast, slot);
  }

  /** What one step does to the claims on a slot: a restart settles them, a
      Streaming transition may add one, the output lookup may swallow one, and
      everything else passes them on. */
  lemma StepHolders(w: World, step: Step, slot: nat)
    requires Inv(w) && Enabled(w, step) && slot < SlotCount(Next(w, step).cast)
    ensures var n := Next(w, step);
            if n.live.streamId != w.live.streamId then Holders(n, slot) == 1
            else if step.StartStreaming? then Holders(n, slot) == Holders(w, slot) + Rearmed(w.cast, slot)
            else if step.Lookup? then Holders(n, slot) + Swallowed(w, slot) == Holders(w, slot)
            else Kept(Holders(w, slot), Holders(n, slot))
  {
    KeptItself(Holders(w, slot));
    match step
    case Emit(frame) => hide *; EmitHolders(w, frame, slot);
    case Announce(message) => hide *; ArrivesHolders(w, step, Event(message), slot);
    case Reply => hide *; ArrivesHolders(w, step, Skipped, slot);
    case Refuse => hide *; ArrivesHolders(w, step, Refusal, slot);
    case HandleRelease => hide *; ReleaseHolders(w, slot);
    case Lookup => hide *; LookupHolders(w, slot);
    case Read(restart, early) => hide *; ReadHolders(w, restart, early, slot);
    case Fixate(modifier, restart, early) => hide *; FixateHolders(w, modifier, restart, early, slot);
    case StartStreaming => hide *; StreamingHolders(w, slot);
    case _ =>
      hide Inv, Enabled, Next, Share, FramesFor, SlotCount, EventsOf;
      PortalHolders(w, step, slot);
  }

  /** What arrives without a slot changes no claim. */
  lemma ArrivesHolders(w: World, step: Step, a: Arrival, slot: nat)
    requires Inv(w) && Enabled(w, step)
    requires step == (match a case Event(message) => Announce(message) case Skipped => Reply case _ => Refuse)
    requires a == Skipped || a == Refusal || a.Event?
    ensures Next(w, step).live == w.live && Holders(Next(w, step), slot) == Holders(w, slot)
  {
    NextPlain(w, step);
    ArrivalHolders(w, a, slot);
    if a.Event? { NoticeCarriesNothing(w, step); }
    hide Inv, Next, Enabled, Share, FramesOnTheWay;
  }

  lemma NoticeCarriesNothing(w: World, step: Step)
    requires Enabled(w, step)
    ensures step.Announce? ==> !step.message.FrameReady?
  {
  }

  lemma KeptItself(n: nat)
    ensures Kept(n, n)
  {
  }

  lemma StreamingHolders(w: World, slot: nat)
    requires Inv(w) && Enabled(w, StartStreaming)
    ensures Next(w, StartStreaming).live == w.live && SlotCount(Next(w, StartStreaming).cast) == SlotCount(w.cast)
    ensures Holders(Next(w, StartStreaming), slot) == Holders(w, slot) + Rearmed(w.cast, slot)
  {
    hide GeometryOk, AnnouncedFormat, Placed, FramesFor, EventsOf;
  }

  /** The slots are those of the live stream. */
  lemma SameStreamSameSlots(w: World, n: World)
    requires Inv(w) && Inv(n) && w.live == n.live
    ensures SlotCount(w.cast) == SlotCount(n.cast)
  {
    hide Coherent, Placed;
  }

  /** A step that stays on the stream keeps its slots. */
  lemma StepLive(w: World, step: Step)
    requires Inv(w) && Enabled(w, step)
    ensures Next(w, step).live.streamId == w.live.streamId ==> Next(w, step).live == w.live
  {
    hide Coherent, Placed, ReadMessage, ApplyFixatedFormat, Process, AnnouncedFormat, EventsOf, FramesFor, AfterSkipped;
  }

  lemma InvIsValid(w: World)
    requires Inv(w)
    ensures Valid(w.cast)
  {
    hide Placed;
  }

  /** The lookup's read takes a frame that carries a slot of the live stream. */
  ghost predicate SwallowsSlot(w: World, step: Step)
  {
    step.Lookup? && exists slot: nat | slot < SlotCount(w.cast) :: Swallowed(w, slot) > 0
  }

  /** Nothing is leaked, and nothing is claimed twice before the loop runs. */
  ghost predicate Sound(w: World)
  {
    NothingLeaked(w) && (w.opening ==> Exact(w))
  }

  lemma OpeningStays(w: World, step: Step)
    requires Inv(w) && Enabled(w, step)
    ensures Next(w, step).opening ==>
              w.opening && (|| step.Emit? || step.Announce? || step.Reply? || step.Refuse?
                            || step.HandleRelease? || step.DropBuffer? || step.ReturnBuffer?)
    ensures step.Lookup? ==> w.opening
  {
    hide Coherent, Placed, ReadMessage, ApplyFixatedFormat, Process, AnnouncedFormat, EventsOf, FramesFor, AfterSkipped;
  }

  /** No step leaks a slot but the output lookup, and that one leaks if and only
      if it swallows a slot frame. */
  lemma StepLeaksIff(w: World, step: Step)
    requires Inv(w) && Enabled(w, step) && Sound(w)
    ensures NothingLeaked(Next(w, step)) <==> !SwallowsSlot(w, step)
    ensures !SwallowsSlot(w, step) ==> Sound(Next(w, step))
  {
    hide Inv, Enabled, Next, Holders, SlotCount, Swallowed;
    InvIsValid(w);
    var n := Next(w, step);
    StepKeepsInv(w, step);
    StepLive(w, step);
    OpeningStays(w, step);
    if n.live == w.live { SameStreamSameSlots(w, n); }
    if SwallowsSlot(w, step) {
      var slot: nat :| slot < SlotCount(w.cast) && Swallowed(w, slot) > 0;
      LookupHolders(w, slot);
      assert Holders(n, slot) == 0;
    } else {
      forall slot: nat | slot < SlotCount(n.cast) ensures Holders(n, slot) >= 1 && (n.opening ==> Holders(n, slot) == 1) {
        StepHolders(w, step, slot);
        if step.Lookup? { LookupHolders(w, slot); }
      }
    }
  }

  /** Exact ownership is lost in two ways only: by a Streaming transition that
      marks a published slot frame pending again, and by a lookup that swallows
      a slot frame. */
  lemma StepKeepsExactIff(w: World, step: Step)
    requires Inv(w) && Enabled(w, step) && Exact(w)
    ensures Exact(Next(w, step)) <==> !(step.StartStreaming? && RearmsPublished(w.cast)) && !SwallowsSlot(w, step)
  {
    hide Inv, Enabled, Next, Holders, SlotCount, Swallowed;
    InvIsValid(w);
    var n := Next(w, step);
    StepKeepsInv(w, step);
    StepLive(w, step);
    if n.live == w.live { SameStreamSameSlots(w, n); }
    if step.StartStreaming? && RearmsPublished(w.cast) {
      var slot := w.cast.latest.value.slot;
      LatestSlotInside(w);
      StreamingHolders(w, slot);
      assert Holders(n, slot) == 2;
    } else if SwallowsSlot(w, step) {
      var slot: nat :| slot < SlotCount(w.cast) && Swallowed(w, slot) > 0;
      LookupHolders(w, slot);
      assert Holders(n, slot) == 0;
    } else {
      forall slot: nat | slot < SlotCount(n.cast) ensures Holders(n, slot) == 1 {
        StepHolders(w, step, slot);
        if step.StartStreaming? { StreamingHolders(w, slot); }
        if step.Lookup? { LookupHolders(w, slot); }
      }
    }
  }

  lemma LatestSlotInside(w: World)
    requires Inv(w) && w.cast.latest.Some? && w.cast.latest.value.Slot?
    ensures w.cast.latest.value.slot < SlotCount(w.cast)
  {
    hide Placed, GeometryOk, EventsOf;
  }

  // ---------- runs ----------

  ghost predicate Possible(w: World, steps: seq<Step>)
    decreases |steps|
  {
    steps == [] || (Valid(w.cast) && Enabled(w, steps[0]) && Possible(Next(w, steps[0]), steps[1..]))
  }

  ghost function After(w: World, steps: seq<Step>): World
    requires Possible(w, steps)
    decreases |steps|
  {
    if steps == [] then w else After(Next(w, steps[0]), steps[1..])
  }

  ghost predicate NeverRearms(w: World, steps: seq<Step>)
    requires Possible(w, steps)
    decreases |steps|
  {
    steps == [] || (!(steps[0].StartStreaming? && RearmsPublished(w.cast)) && NeverRearms(Next(w, steps[0]), steps[1..]))
  }

  ghost predicate NeverSwallows(w: World, steps: seq<Step>)
    requires Possible(w, steps)
    decreases |steps|
  {
    steps == [] || (!SwallowsSlot(w, steps[0]) && NeverSwallows(Next(w, steps[0]), steps[1..]))
  }

  ghost predicate LeakFreeThroughout(w: World, steps: seq<Step>)
    requires Possible(w, steps)
    decreases |steps|
  {
    NothingLeaked(w) && (steps == [] || LeakFreeThroughout(Next(w, steps[0]), steps[1..]))
  }

  ghost predicate ExactThroughout(w: World, steps: seq<Step>)
    requires Possible(w, steps)
    decreases |steps|
  {
    Exact(w) && (steps == [] || ExactThroughout(Next(w, steps[0]), steps[1..]))
  }

  lemma {:induction false} RunKeepsInv(w: World, steps: seq<Step>)
    requires Inv(w) && Possible(w, steps)
    ensures Inv(After(w, steps))
    decreases |steps|
  {
    hide Inv, Enabled, Next;
    if steps != [] {
      StepKeepsInv(w, steps[0]);
      RunKeepsInv(Next(w, steps[0]), steps[1..]);
    }
  }

  /** A run leaks no slot, however often it is republished, if and only if the
      output lookup swallows no slot frame. */
  lemma {:induction false} RunLeaksIff(w: World, steps: seq<Step>)
    requires Inv(w) && Sound(w) && Possible(w, steps)
    ensures LeakFreeThroughout(w, steps) <==> NeverSwallows(w, steps)
    ensures NeverSwallows(w, steps) ==> NothingLeaked(After(w, steps))
    decreases |steps|
  {
    hide Inv, Enabled, Next, NothingLeaked, Exact, SwallowsSlot;
    if steps != [] {
      StepKeepsInv(w, steps[0]);
      StepLeaksIff(w, steps[0]);
      if !SwallowsSlot(w, steps[0]) { RunLeaksIff(Next(w, steps[0]), steps[1..]); }
    }
  }

  /** A run owns every slot exactly, from its first state to its last, if and
      only if no Streaming transition in it re-arms a published slot frame and
      the output lookup swallows none. */
  lemma {:induction false} ExactIff(w: World, steps: seq<Step>)
    requires Inv(w) && Exact(w) && Possible(w, steps)
    ensures ExactThroughout(w, steps) <==> NeverRearms(w, steps) && NeverSwallows(w, steps)
    ensures ExactThroughout(w, steps) ==> Exact(After(w, steps))
    decreases |steps|
  {
    hide Inv, Enabled, Next, Exact, RearmsPublished, SwallowsSlot;
    if steps != [] {
      StepKeepsInv(w, steps[0]);
      StepKeepsExactIff(w, steps[0]);
      if Exact(Next(w, steps[0])) { ExactIff(Next(w, steps[0]), steps[1..]); }
    }
  }

  /** What the client guarantees of a started stream. */
  ghost predicate Started(info: StreamInfo, target: Target, cursor: CursorMode, early: seq<Message>)
  {
    Begin(info, target, cursor, early).Some? && TableBounded(SlotsOf(info)) && EarlyOk(early, info)
  }

  lemma BeginIsExact(info: StreamInfo, target: Target, cursor: CursorMode, early: seq<Message>)
    requires Started(info, target, cursor, early)
    ensures Exact(Begin(info, target, cursor, early).value)
  {
    hide GeometryOk, AnnouncedFormat, FramesFor, IsFrame;
    var w := Begin(info, target, cursor, early).value;
    forall slot: nat | slot < SlotCount(w.cast) ensures Holders(w, slot) == 1 {
      NoEvents();
      OneFrame(LeaseRenewed, info.streamId, slot);
      assert IsSlot(slot, info);
    }
  }

  /** Without a named connector there is no lookup. */
  lemma {:induction false} NoLookupNoSwallow(w: World, steps: seq<Step>)
    requires Inv(w) && !w.opening && Possible(w, steps)
    ensures NeverSwallows(w, steps)
    decreases |steps|
  {
    hide Inv, Enabled, Next, Swallowed;
    if steps != [] {
      StepKeepsInv(w, steps[0]);
      OpeningStays(w, steps[0]);
      NoLookupNoSwallow(Next(w, steps[0]), steps[1..]);
    }
  }

  /** From the start of any cast: every run keeps the invariant; it leaks no slot
      if and only if the output lookup swallows no slot frame, which it never
      does unless the cast is of a named connector; and it owns every slot
      exactly if and only if, besides, it never re-arms. */
  lemma EveryCast(info: StreamInfo, target: Target, cursor: CursorMode, early: seq<Message>, steps: seq<Step>)
    requires Started(info, target, cursor, early) && Possible(Begin(info, target, cursor, early).value, steps)
    ensures var w := Begin(info, target, cursor, early).value; var n := After(w, steps);
            && Inv(n)
            && (LeakFreeThroughout(w, steps) <==> NeverSwallows(w, steps))
            && (ExactThroughout(w, steps) <==> NeverSwallows(w, steps) && NeverRearms(w, steps))
            && (!(target.Output? && target.connector.Some?) ==> NeverSwallows(w, steps))
            && (NeverSwallows(w, steps) ==> NothingLeaked(n))
            && (NeverSwallows(w, steps) && NeverRearms(w, steps) ==> Exact(n))
  {
    var w := Begin(info, target, cursor, early).value;
    BeginIsInv(info, target, cursor, early);
    BeginIsExact(info, target, cursor, early);
    BeginOpens(info, target, cursor, early);
    hide Inv, Enabled, Next, Holders, Begin, Started;
    RunKeepsInv(w, steps);
    RunLeaksIff(w, steps);
    ExactIff(w, steps);
    if !w.opening { NoLookupNoSwallow(w, steps); }
  }

  lemma BeginOpens(info: StreamInfo, target: Target, cursor: CursorMode, early: seq<Message>)
    requires Begin(info, target, cursor, early).Some?
    ensures Begin(info, target, cursor, early).value.opening <==> target.Output? && target.connector.Some?
  {
  }
}
