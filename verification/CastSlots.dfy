/** How slots come to be bound to buffers, and what that does for their frames. */
module CastSlots {
  import opened Wrappers
  import opened Frames
  import opened Cast
  import opened CastInvariants
  import opened CastBuffers
  import opened CastWorld
  import opened CastOwnership
  import opened CastTheorems

  predicate IsFree(bindings: seq<Binding>, slot: nat)
  {
    slot < |bindings| && bindings[slot].pool.None?
  }

  function BoundCount(bindings: seq<Binding>): (n: nat)
    ensures n <= |bindings|
  {
    if bindings == [] then 0 else (if bindings[0].pool.Some? then 1 else 0) + BoundCount(bindings[1..])
  }

  function NewBuffers(steps: seq<Step>): nat
  {
    if steps == [] then 0 else (if steps[0].NewBuffer? then 1 else 0) + NewBuffers(steps[1..])
  }

  predicate TakesDmabufs(mask: u32)
  {
    mask / DMABUF_DATA_TYPE_BIT % 2 == 1
  }

  /** Slots go out in place: dmabufs are negotiated, and the consumer has named
      no types or theirs among them. */
  predicate Forwarding(s: State)
  {
    s.mode == DmabufDelivery && (s.dataTypes.Some? ==> TakesDmabufs(s.dataTypes.value))
  }

  lemma {:induction false} FirstFreeIs(bindings: seq<Binding>, slot: nat)
    requires IsFree(bindings, slot) && forall i | 0 <= i < slot :: !IsFree(bindings, i)
    ensures FirstWith(bindings, None) == Some(slot)
  {
    if slot > 0 {
      assert !IsFree(bindings, 0);
      forall i | 0 <= i < slot - 1 ensures !IsFree(bindings[1..], i) { assert !IsFree(bindings, i + 1); }
      FirstFreeIs(bindings[1..], slot - 1);
    }
  }

  /** While slots go out in place a new buffer is bound to the lowest free slot,
      and gets no memory ... */
  lemma AddBufferBinds(s: State, buffer: BufferId, hasData: bool, backed: bool, slot: nat)
    requires Forwarding(s) && IsFree(s.transport.bindings, slot) && forall i | 0 <= i < slot :: !IsFree(s.transport.bindings, i)
    ensures var bindings := s.transport.bindings;
            AddBuffer(s, buffer, hasData, backed) ==
            s.(transport := s.transport.(bindings := bindings[slot := bindings[slot].(pool := Some(buffer))]))
  {
    hide FirstWith;
    FirstFreeIs(s.transport.bindings, slot);
  }

  /** ... and otherwise, or when every slot is bound, it gets the memory one frame
      needs, if there is any to get, and no slot changes. */
  lemma AddBufferBacks(s: State, buffer: BufferId, hasData: bool, backed: bool)
    requires Forwarding(s) ==> forall slot: nat :: !IsFree(s.transport.bindings, slot)
    ensures AddBuffer(s, buffer, hasData, backed) ==
            if hasData && backed then s.(memory := s.memory[buffer := s.transport.width * s.transport.height * 4]) else s
  {
    hide FirstWith;
    FirstWithFinds(s.transport.bindings, None);
    var at := FirstWith(s.transport.bindings, None);
    if at.Some? { assert IsFree(s.transport.bindings, at.value); }
  }

  // ---------- counting what is bound ----------

  lemma {:induction false} BindingCounts(bindings: seq<Binding>, slot: nat, buffer: BufferId)
    requires IsFree(bindings, slot)
    ensures BoundCount(bindings[slot := bindings[slot].(pool := Some(buffer))]) == BoundCount(bindings) + 1
  {
    var bound := bindings[slot := bindings[slot].(pool := Some(buffer))];
    if slot == 0 {
      assert bound[1..] == bindings[1..];
    } else {
      assert bound[1..] == bindings[1..][slot - 1 := bindings[1..][slot - 1].(pool := Some(buffer))];
      BindingCounts(bindings[1..], slot - 1, buffer);
    }
  }

  lemma {:induction false} FullIff(bindings: seq<Binding>)
    ensures BoundCount(bindings) == |bindings| <==> forall slot: nat :: !IsFree(bindings, slot)
  {
    if bindings != [] {
      FullIff(bindings[1..]);
      forall slot: nat | IsFree(bindings[1..], slot) ensures IsFree(bindings, slot + 1) {}
      forall slot: nat | IsFree(bindings, slot) && slot > 0 ensures IsFree(bindings[1..], slot - 1) {}
      if forall slot: nat :: !IsFree(bindings, slot) { assert !IsFree(bindings, 0); }
    }
  }

  lemma LowestFree(bindings: seq<Binding>, any: nat) returns (slot: nat)
    requires IsFree(bindings, any)
    ensures IsFree(bindings, slot) && forall i | 0 <= i < slot :: !IsFree(bindings, i)
    decreases any
  {
    if i :| 0 <= i < any && IsFree(bindings, i) { slot := LowestFree(bindings, i); } else { slot := any; }
  }

  lemma {:induction false} SamePoolsCount(a: seq<Binding>, b: seq<Binding>)
    requires |a| == |b| && forall i | 0 <= i < |a| :: a[i].pool == b[i].pool
    ensures BoundCount(a) == BoundCount(b)
  {
    if a != [] { SamePoolsCount(a[1..], b[1..]); }
  }

  predicate SamePools(s: State, r: State)
  {
    && |r.transport.bindings| == |s.transport.bindings|
    && forall i | 0 <= i < |s.transport.bindings| :: r.transport.bindings[i].pool == s.transport.bindings[i].pool
  }

  lemma PublishKeepsPools(s: State, source: Source)
    requires Coherent(s) && s.returned == []
    ensures SamePools(s, Publish(s, source))
  {
    hide GeometryOk, CopyIntoPool;
    if s.pending {
      match s.latest.value
      case Described(file, stride, damage) => CopyKeeps(s, file, stride, damage, source);
      case Slot(slot, damage) => CopyKeeps(s, s.transport.slotFiles[slot].file, s.transport.slotFiles[slot].stride, damage, source);
    }
  }

  lemma CycleKeepsPools(s: State, source: Source)
    requires Coherent(s)
    ensures SamePools(s, Process(s, source))
  {
    hide GeometryOk, Reclaim, Publish;
    ReclaimKeeps(s);
    ReclaimCoherent(s);
    forall slot | 0 <= slot < |s.transport.bindings|
      ensures Reclaim(s).transport.bindings[slot].pool == s.transport.bindings[slot].pool
    {
      ReclaimKeepsBuffer(s, slot);
    }
    PublishKeepsPools(Reclaim(s), source);
  }

  /** No buffer leaves, no format is fixated, no mask without dmabufs comes, and
      the stream is not restarted. */
  ghost predicate Undisturbed(w: World, steps: seq<Step>)
    requires Possible(w, steps)
    decreases |steps|
  {
    steps == [] ||
    (&& !steps[0].DropBuffer? && !steps[0].Fixate?
     && (steps[0].AcceptTypes? ==> TakesDmabufs(steps[0].mask))
     && Next(w, steps[0]).live == w.live
     && Undisturbed(Next(w, steps[0]), steps[1..]))
  }

  function AtMost(n: nat, limit: nat): nat
  {
    if n <= limit then n else limit
  }

  lemma AddedCounts(s: State, buffer: BufferId, hasData: bool, backed: bool)
    requires Forwarding(s)
    ensures var r := AddBuffer(s, buffer, hasData, backed);
            && |r.transport.bindings| == |s.transport.bindings|
            && BoundCount(r.transport.bindings) == AtMost(BoundCount(s.transport.bindings) + 1, |s.transport.bindings|)
  {
    var bindings := s.transport.bindings;
    FullIff(bindings);
    hide AddBuffer, BoundCount, Forwarding;
    if any: nat :| IsFree(bindings, any) {
      var slot := LowestFree(bindings, any);
      AddBufferBinds(s, buffer, hasData, backed, slot);
      BindingCounts(bindings, slot, buffer);
    } else {
      AddBufferBacks(s, buffer, hasData, backed);
    }
  }

  lemma ReadKeepsPools(w: World, restart: Restart, early: seq<Message>)
    requires Inv(w) && Enabled(w, Read(restart, early)) && Next(w, Read(restart, early)).live == w.live
    ensures var n := Next(w, Read(restart, early)).cast; n.transport == w.cast.transport && n.mode == w.cast.mode && n.dataTypes == w.cast.dataTypes
  {
    NotStopped(w);
    InvIsValid(w);
    NextReads(w, restart, early);
    LiveIsOld(w);
    var a := Delivered(w).0;
    if a.Event? { MessageKeepsStream(w, a.message, restart, early); }
    DeliveredFirst(w);
    StillFresh(w, restart, early);
    hide Inv, Enabled, Next, Delivered, ReadMessage, Readable, Stores, Valid, EarlyOk;
  }

  /** A message either leaves the transport or starts a new stream. */
  lemma MessageKeepsStream(w: World, message: Message, restart: Restart, early: seq<Message>)
    requires Inv(w) && !w.cast.quit && FreshRestart(w, restart, early)
    ensures var r := ReadMessage(w.cast, message, restart);
            || (r.transport == w.cast.transport && r.mode == w.cast.mode && r.dataTypes == w.cast.dataTypes)
            || (restart.Restarts? && r.transport.streamId == restart.info.streamId >= w.nextId)
  {
    InvIsValid(w);
    LiveIsOld(w);
    match message
    case FrameReady(frame) =>
      FrameIsStoredIff(w, frame, restart);
      hide Inv, ReadMessage, ReplaceLatest, Stores, PayloadFits;
    case GeometryChanged(streamId, width, height) =>
      GeometryRestarts(w.cast, width, height, restart);
      hide Inv, RestartGeometry, GeometryOk, AnnouncedFormat, EarlyOk;
    case _ =>
  }

  /** An undisturbed step that is no new buffer leaves the bindings' buffers. */
  lemma StepBinds(w: World, step: Step)
    requires Inv(w) && Enabled(w, step) && Forwarding(w.cast)
    requires !step.DropBuffer? && !step.Fixate? && (step.AcceptTypes? ==> TakesDmabufs(step.mask)) && Next(w, step).live == w.live
    ensures var n := Next(w, step).cast;
            && Forwarding(n) && |n.transport.bindings| == |w.cast.transport.bindings|
            && BoundCount(n.transport.bindings) ==
               AtMost(BoundCount(w.cast.transport.bindings) + if step.NewBuffer? then 1 else 0, |w.cast.transport.bindings|)
  {
    NotStopped(w);
    InvIsValid(w);
    StepMask(w, step);
    var n := Next(w, step).cast;
    match step
    case Cycle(source) =>
      CycleKeepsPools(w.cast, source);
      NextCycles(w, source);
      CycleKeepsMode(w.cast, source);
      hide Inv, Enabled, Next, Process;
      SamePoolsCount(n.transport.bindings, w.cast.transport.bindings);
    case NewBuffer(buffer, hasData, backed) =>
      AddedCounts(w.cast, buffer, hasData, backed);
      AddBufferKeepsMode(w.cast, buffer, hasData, backed);
      hide Inv, AddBuffer, BoundCount;
    case Read(restart, early) =>
      ReadKeepsPools(w, restart, early);
      hide Inv, Enabled, Next;
    case _ => hide Inv, Valid, AfterLookup;
  }

  lemma AddBufferKeepsMode(s: State, buffer: BufferId, hasData: bool, backed: bool)
    ensures AddBuffer(s, buffer, hasData, backed).mode == s.mode
  {
    hide FirstWith;
  }

  lemma CycleKeepsMode(s: State, source: Source)
    requires Coherent(s)
    ensures Process(s, source).mode == s.mode
  {
    hide GeometryOk, Reclaim, CopyIntoPool;
    ReclaimKeeps(s);
    ReclaimCoherent(s);
    var c := Reclaim(s);
    if c.pending {
      match c.latest.value
      case Described(file, stride, damage) => CopyKeeps(c, file, stride, damage, source);
      case Slot(slot, damage) => CopyKeeps(c, c.transport.slotFiles[slot].file, c.transport.slotFiles[slot].stride, damage, source);
    }
  }

  /** Undisturbed, every new buffer binds one more slot until all are bound. */
  lemma {:induction false} RunBinds(w: World, steps: seq<Step>)
    requires Inv(w) && Possible(w, steps) && Forwarding(w.cast) && Undisturbed(w, steps)
    ensures var n := After(w, steps).cast;
            && Forwarding(n) && |n.transport.bindings| == |w.cast.transport.bindings|
            && BoundCount(n.transport.bindings) ==
               AtMost(BoundCount(w.cast.transport.bindings) + NewBuffers(steps), |w.cast.transport.bindings|)
    decreases |steps|
  {
    hide Inv, Enabled, Next, Forwarding, BoundCount, TakesDmabufs;
    if steps != [] {
      StepKeepsInv(w, steps[0]);
      StepBinds(w, steps[0]);
      RunBinds(Next(w, steps[0]), steps[1..]);
    }
  }

  /** A fixation negotiates delivery in place if and only if the stream that is
      live then has slots in the modifier that was fixated. */
  lemma FixationForwardsIff(w: World, modifier: Option<nat>, restart: Restart, early: seq<Message>)
    requires Inv(w) && Enabled(w, Fixate(modifier, restart, early)) && !Next(w, Fixate(modifier, restart, early)).cast.quit
    ensures var n := Next(w, Fixate(modifier, restart, early));
            n.cast.mode == DmabufDelivery
            <==> n.live.format.DmabufPixels? && modifier == Some(n.live.format.modifier) && SlotsOf(n.live) != []
  {
    NextFixates(w, modifier, restart, early);
    StepKeepsInv(w, Fixate(modifier, restart, early));
    var r, n := ApplyFixatedFormat(w.cast, modifier, restart), Next(w, Fixate(modifier, restart, early));
    ModeOfFixation(w.cast, modifier, restart);
    StreamOf(n);
    hide Inv, Enabled, Next, ApplyFixatedFormat, FreshRestart;
  }

  lemma ModeOfFixation(s: State, modifier: Option<nat>, restart: Restart)
    requires !ApplyFixatedFormat(s, modifier, restart).quit
    ensures var r := ApplyFixatedFormat(s, modifier, restart);
            r.mode == DmabufDelivery
            <==> r.transport.announced.Dmabuf? && modifier == Some(r.transport.announced.modifier) && r.transport.slotFiles != []
  {
    hide SyncTransport;
  }

  lemma StreamOf(w: World)
    requires Inv(w)
    ensures w.cast.transport.slotFiles == SlotsOf(w.live)
    ensures w.cast.transport.announced.Dmabuf? <==> w.live.format.DmabufPixels?
    ensures w.cast.transport.announced.Dmabuf? ==> w.cast.transport.announced.modifier == w.live.format.modifier
  {
    hide Coherent, Placed, InboundOk;
  }

  /** Whenever a consumer that has not refused dmabufs fixates the modifier of a
      stream with slots: once, undisturbed, as many buffers are added as there
      are slots, every slot is bound; then the cycle that finds a slot frame
      pending sends it out in place if and only if its slot is idle or its buffer
      has come back. */
  lemma EverySlotGoesOut(w: World, fixation: Step, steps: seq<Step>, source: Source)
    requires Inv(w) && fixation.Fixate? && Valid(w.cast) && Enabled(w, fixation)
    requires w.cast.dataTypes.Some? ==> TakesDmabufs(w.cast.dataTypes.value)
    requires var n := Next(w, fixation);
             && !n.cast.quit && n.live.format.DmabufPixels? && fixation.modifier == Some(n.live.format.modifier)
             && SlotsOf(n.live) != [] && Possible(n, steps) && Undisturbed(n, steps) && NewBuffers(steps) >= |SlotsOf(n.live)|
    ensures AllGoOut(After(Next(w, fixation), steps), source)
  {
    hide Enabled, Next, Inv, Undisturbed, After, Possible, NewBuffers, AllGoOut;
    NextForwards(w, fixation);
    AllBoundGoOut(Next(w, fixation), steps, source);
  }

  /** Every slot is bound, and a pending slot frame goes out in place whenever its
      buffer is with the portal after the reclaim. */
  ghost predicate AllGoOut(m: World, source: Source)
  {
    && (forall slot: nat | slot < SlotCount(m.cast) ::
          slot < |m.cast.transport.bindings| && m.cast.transport.bindings[slot].pool.Some?)
    && (!m.cast.quit && m.cast.pending && m.cast.latest.Some? && m.cast.latest.value.Slot? ==>
          && Valid(m.cast) && m.cast.latest.value.slot < |m.cast.transport.bindings|
          && var r, binding := Process(m.cast, source), m.cast.transport.bindings[m.cast.latest.value.slot];
             (|r.queued| > |m.cast.queued| && r.queued[|m.cast.queued|].shown.InPlace?) <==>
             !binding.inFlight || (binding.pool.Some? && binding.pool.value in m.cast.returned))
  }

  lemma NextForwards(w: World, fixation: Step)
    requires Inv(w) && fixation.Fixate? && Enabled(w, fixation) && (w.cast.dataTypes.Some? ==> TakesDmabufs(w.cast.dataTypes.value))
    requires var n := Next(w, fixation);
             !n.cast.quit && n.live.format.DmabufPixels? && fixation.modifier == Some(n.live.format.modifier) && SlotsOf(n.live) != []
    ensures Inv(Next(w, fixation)) && Forwarding(Next(w, fixation).cast)
  {
    StepMask(w, fixation);
    StepKeepsInv(w, fixation);
    FixationForwardsIff(w, fixation.modifier, fixation.restart, fixation.early);
    hide Inv, Enabled, Next, TakesDmabufs;
  }

  /** The same from a state in which slots go out in place. */
  lemma AllBoundGoOut(n: World, steps: seq<Step>, source: Source)
    requires Inv(n) && Forwarding(n.cast) && Possible(n, steps) && Undisturbed(n, steps) && NewBuffers(steps) >= |SlotsOf(n.live)|
    ensures AllGoOut(After(n, steps), source)
  {
    hide Enabled, Next, Inv, Undisturbed, BoundCount, Forwarding, NewBuffers;
    StreamOf(n);
    BindingsPerSlot(n);
    RunBinds(n, steps);
    RunKeepsInv(n, steps);
    var m := After(n, steps);
    BindingsPerSlot(m);
    FullIff(m.cast.transport.bindings);
    forall slot: nat | slot < SlotCount(m.cast) ensures m.cast.transport.bindings[slot].pool.Some? {
      assert !IsFree(m.cast.transport.bindings, slot);
    }
    hide After, Possible;
    if !m.cast.quit && m.cast.pending && m.cast.latest.Some? && m.cast.latest.value.Slot? {
      LatestSlotInside(m);
      SlotGoesOut(m, source);
      ForwardingIs(m.cast);
      hide Process;
    }
  }

  lemma ForwardingIs(s: State)
    ensures ForwardingEligible(s) <==> Forwarding(s)
  {
  }

  lemma BindingsPerSlot(w: World)
    requires Inv(w)
    ensures |w.cast.transport.bindings| == SlotCount(w.cast)
  {
    hide Placed, GeometryOk;
  }
}
