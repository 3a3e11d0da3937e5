/** What the invariants of a cast mean for the compositor and the consumer. */
module CastTheorems {
  import opened Wrappers
  import opened Frames
  import opened Cast
  import opened CastInvariants
  import opened CastBuffers
  import opened CastWorld
  import opened CastOwnership

  // ---------- releases ----------

  /** Under exact ownership a release on its way is the only one for its slot,
      the compositor does not own the slot yet, and no buffer showing the slot
      is with the consumer. */
  lemma ReleasesAreSafe(w: World, k: nat)
    requires Inv(w) && Exact(w) && k < |w.cast.sent| && w.cast.sent[k].BufferRelease?
    ensures w.cast.sent[k].streamId == w.live.streamId
    ensures var slot := w.cast.sent[k].slot;
            && slot < SlotCount(w.cast) && slot !in w.owned
            && multiset(w.cast.sent)[w.cast.sent[k]] == 1
            && !w.cast.transport.bindings[slot].inFlight
            && (w.cast.transport.bindings[slot].pool.Some? ==> w.cast.transport.bindings[slot].pool.value !in w.consumer)
  {
    hide GeometryOk, AnnouncedFormat, FramesFor, EventsOf, OneOwner, StashOk, MemoryOk;
    assert w.cast.sent[k] in w.cast.sent;
    var slot := w.cast.sent[k].slot;
    assert multiset(w.cast.sent)[w.cast.sent[k]] >= 1;
    assert Holders(w, slot) == 1;
    assert BindingOk(Now(w), w.cast.transport.bindings[slot]);
  }

  // ---------- no circular wait ----------

  /** The keepalive triggers a cycle: PipeWire streams and there is work. */
  predicate Keepalive(w: World)
  {
    w.streaming && NeedsCycle(w.cast)
  }

  /** The portal itself holds the slot, in the pending frame or in flight. */
  predicate Inside(w: World, slot: nat)
  {
    PendingShare(w.cast, slot) + FlightShare(w.cast, slot) > 0
  }

  /** Where a slot can be while the keepalive skips its cycles: with the
      compositor, in a frame on the socket, in a release, in a frame that was
      read early and not delivered, or, while PipeWire does not stream, with
      the portal. */
  lemma IdleHoldsNoSlot(w: World, slot: nat)
    requires Inv(w) && NothingLeaked(w) && slot < SlotCount(w.cast) && !Keepalive(w)
    ensures || slot in w.owned
            || FramesFor(w.kept, w.live.streamId, slot) > 0
            || FramesFor(EventsOf(w.wire), w.live.streamId, slot) > 0
            || BufferRelease(w.live.streamId, slot) in w.cast.sent
            || (!w.streaming && Inside(w, slot))
  {
    hide GeometryOk, AnnouncedFormat, FramesFor, EventsOf, Placed;
    assert Holders(w, slot) >= 1;
  }

  /** Compositor and portal wait for each other: the compositor has no slot to
      render into, no message is there to wake the reader, no release is on its
      way, and the keepalive skips. */
  predicate WaitsInCircle(w: World)
  {
    SlotCount(w.cast) > 0 && w.owned == {} && w.wire == [] && w.cast.sent == [] && !Keepalive(w)
  }

  /** A slot is in a frame that was read early, or with a portal that does not
      stream. */
  predicate Stuck(w: World, slot: nat)
  {
    FramesFor(w.kept, w.live.streamId, slot) == 1 || (!w.streaming && Inside(w, slot))
  }

  /** A cast waits in a circle if and only if nothing is under way and every slot
      is in a frame that was read early and never delivered, or with a portal
      that does not stream. */
  lemma WaitsInCircleIff(w: World)
    requires Inv(w) && Exact(w)
    ensures WaitsInCircle(w) <==>
            && SlotCount(w.cast) > 0 && w.wire == [] && w.cast.sent == [] && !Keepalive(w)
            && forall slot: nat | slot < SlotCount(w.cast) :: Stuck(w, slot)
  {
    hide Stuck, Inv, Exact;
    if w.wire == [] && w.cast.sent == [] && !Keepalive(w) {
      forall slot: nat | slot < SlotCount(w.cast) ensures slot !in w.owned <==> Stuck(w, slot) {
        IdleClaims(w, slot);
      }
      OwnedInside(w);
      NoneOwnedIff(w);
    }
  }

  lemma NoneOwnedIff(w: World)
    requires forall slot: nat | slot < SlotCount(w.cast) :: slot !in w.owned <==> Stuck(w, slot)
    requires forall slot <- w.owned :: slot < SlotCount(w.cast)
    ensures w.owned == {} <==> forall slot: nat | slot < SlotCount(w.cast) :: Stuck(w, slot)
  {
    hide Stuck;
    if w.owned != {} {
      var slot :| slot in w.owned;
      assert !Stuck(w, slot);
    }
  }

  lemma OwnedInside(w: World)
    requires Inv(w)
    ensures forall slot <- w.owned :: slot < SlotCount(w.cast)
  {
    hide Placed, Coherent;
  }

  lemma IdleClaims(w: World, slot: nat)
    requires Inv(w) && Exact(w) && slot < SlotCount(w.cast) && w.wire == [] && w.cast.sent == [] && !Keepalive(w)
    ensures slot !in w.owned <==> Stuck(w, slot)
  {
    hide GeometryOk, AnnouncedFormat, Placed, FramesFor;
    assert Holders(w, slot) == 1;
    OneFrame(LeaseRenewed, w.live.streamId, slot);
    NoEvents();
  }

  /** So while PipeWire streams no wait is circular once what was read early is
      delivered, or while anything lies on the socket, republished frames
      included. */
  lemma NoCircleUnlessKept(w: World)
    requires Inv(w) && NothingLeaked(w) && w.streaming && (w.kept == [] || w.wire != [])
    ensures !WaitsInCircle(w)
  {
    hide GeometryOk, AnnouncedFormat, Placed;
    if w.kept == [] && WaitsInCircle(w) {
      IdleHoldsNoSlot(w, 0);
      OneFrame(LeaseRenewed, w.live.streamId, 0);
      NoEvents();
    }
  }

  /** What ends such a wait. The reply to the lease renewal wakes the reader, and
      every read of a kept event leaves that reply there for the next one, until
      all are delivered. Where nothing was kept, PipeWire does not stream, and
      the keepalive goes on when it does. */
  lemma WaitEnds(w: World)
    requires Inv(w) && Exact(w) && WaitsInCircle(w) && !w.cast.quit && !w.opening
    ensures w.kept != [] ==>
              var renewed := Next(w, Announce(LeaseRenewed));
              && Enabled(renewed, Read(StopFails, [])) && !WaitsInCircle(renewed)
              && Delivered(renewed).0 == Event(w.kept[0]) && Delivered(renewed).1.wire == renewed.wire != []
    ensures w.kept == [] ==> !w.streaming && NeedsCycle(w.cast) && Keepalive(Next(w, StartStreaming))
  {
    InvIsValid(w);
    if w.kept == [] {
      hide GeometryOk, AnnouncedFormat, Placed, Coherent;
      assert Holders(w, 0) == 1;
      OneFrame(LeaseRenewed, w.live.streamId, 0);
      NoEvents();
    }
  }

  lemma {:induction false} BoundIsFound(bindings: seq<Binding>, slot: nat)
    requires slot < |bindings| && bindings[slot].pool.Some? && DistinctBindings(bindings)
    ensures FirstWith(bindings, bindings[slot].pool) == Some(slot)
  {
    if slot > 0 {
      assert forall i, j | 0 <= i < j < |bindings| - 1 :: bindings[1..][i] == bindings[i + 1] && bindings[1..][j] == bindings[j + 1];
      BoundIsFound(bindings[1..], slot - 1);
    }
  }

  lemma ReclaimOneBinding(s: State, buffer: BufferId, slot: nat)
    requires Coherent(s) && DistinctBindings(s.transport.bindings)
    requires slot < |s.transport.bindings| && s.transport.bindings[slot].pool.Some?
    ensures var r := ReclaimOne(s, buffer);
            && |r.transport.bindings| == |s.transport.bindings| && DistinctBindings(r.transport.bindings)
            && r.transport.bindings[slot].pool == s.transport.bindings[slot].pool
            && r.transport.bindings[slot].inFlight == (s.transport.bindings[slot].inFlight && s.transport.bindings[slot].pool != Some(buffer))
  {
    hide GeometryOk, FirstWith;
    FirstWithFinds(s.transport.bindings, Some(buffer));
    if s.transport.bindings[slot].pool == Some(buffer) { BoundIsFound(s.transport.bindings, slot); }
  }

  /** A cycle takes back every slot whose buffer has been returned. */
  lemma {:induction false} ReclaimedIsIdle(s: State, slot: nat)
    requires Coherent(s) && DistinctBindings(s.transport.bindings)
    requires slot < |s.transport.bindings| && s.transport.bindings[slot].pool.Some?
    ensures |Reclaim(s).transport.bindings| == |s.transport.bindings|
    ensures Reclaim(s).transport.bindings[slot].inFlight ==
            (s.transport.bindings[slot].inFlight && s.transport.bindings[slot].pool.value !in s.returned)
    decreases |s.returned|
  {
    hide GeometryOk, ReclaimOne;
    if s.returned != [] {
      var buffer, next := s.returned[0], s.(returned := s.returned[1..]);
      assert s.returned == [buffer] + next.returned;
      ReclaimOneBinding(next, buffer, slot);
      ReclaimOneCoherent(next, buffer);
      ReclaimOneKeeps(next, buffer);
      ReclaimedIsIdle(ReclaimOne(next, buffer), slot);
    }
  }

  /** Once the consumer has returned everything and no frame waits, a single
      cycle leaves no slot in flight: every one is with the compositor, in a
      frame on the way, or released. */
  lemma OneCycleReleasesAll(w: World, source: Source, slot: nat)
    requires Inv(w) && NothingLeaked(w) && Enabled(w, Cycle(source)) && slot < SlotCount(w.cast)
    requires w.consumer == {} && !w.cast.pending
    ensures var n := Next(w, Cycle(source));
            && !NeedsCycle(n.cast)
            && (|| slot in n.owned || FramesOnTheWay(n, slot) > 0 || BufferRelease(n.live.streamId, slot) in n.cast.sent)
  {
    var n := Next(w, Cycle(source));
    StepKeepsInv(w, Cycle(source));
    CycleStays(w, source);
    NothingInFlight(w, source);
    StepHolders(w, Cycle(source), slot);
    StepLive(w, Cycle(source));
    CycleKeepsLive(w, source);
    hide Inv, Next, Enabled, NothingLeaked, FramesFor, EventsOf;
    assert Holders(w, slot) >= 1 by { LeakFree(w, slot); }
    IdleClaimsOf(n, slot);
  }

  lemma LeakFree(w: World, slot: nat)
    requires NothingLeaked(w) && slot < SlotCount(w.cast)
    ensures Holders(w, slot) >= 1
  {
  }

  lemma CycleKeepsLive(w: World, source: Source)
    requires Inv(w) && Enabled(w, Cycle(source))
    ensures Next(w, Cycle(source)).live == w.live
  {
    hide Placed, Process;
  }

  lemma IdleClaimsOf(w: World, slot: nat)
    requires Inv(w) && Holders(w, slot) >= 1 && !NeedsCycle(w.cast) && slot < SlotCount(w.cast)
    ensures slot in w.owned || FramesOnTheWay(w, slot) > 0 || BufferRelease(w.live.streamId, slot) in w.cast.sent
  {
    hide GeometryOk, AnnouncedFormat, FramesFor, EventsOf, Placed;
  }

  lemma CycleStays(w: World, source: Source)
    requires Inv(w) && Enabled(w, Cycle(source))
    ensures SlotCount(Next(w, Cycle(source)).cast) == SlotCount(w.cast)
  {
    hide GeometryOk, AnnouncedFormat, Placed, Process, Coherent;
    CoherentIsValid(w.cast);
    ProcessKeepsStream(w.cast, source);
  }

  lemma NothingInFlight(w: World, source: Source)
    requires Inv(w) && Enabled(w, Cycle(source)) && w.consumer == {} && !w.cast.pending
    ensures !NeedsCycle(Next(w, Cycle(source)).cast)
  {
    hide GeometryOk, AnnouncedFormat, Reclaim, OneOwner, StashOk, MemoryOk, FirstWith, Elements, NewlyQueued;
    var s := w.cast;
    ReclaimKeeps(s);
    ReclaimCoherent(s);
    var r := Reclaim(s);
    assert Process(s, source) == r;
    forall i | 0 <= i < |r.transport.bindings| ensures !r.transport.bindings[i].inFlight {
      assert BindingOk(Now(w), s.transport.bindings[i]);
      if s.transport.bindings[i].pool.Some? {
        ReclaimedIsIdle(s, i);
      } else {
        UnboundStaysIdle(s, i);
      }
    }
  }

  lemma {:induction false} UnboundStaysIdle(s: State, slot: nat)
    requires Coherent(s) && slot < |s.transport.bindings| && s.transport.bindings[slot].pool.None?
    ensures |Reclaim(s).transport.bindings| == |s.transport.bindings| && !Reclaim(s).transport.bindings[slot].inFlight
    decreases |s.returned|
  {
    hide GeometryOk, FirstWith;
    if s.returned != [] {
      var buffer, next := s.returned[0], s.(returned := s.returned[1..]);
      FirstWithFinds(next.transport.bindings, Some(buffer));
      ReclaimOneCoherent(next, buffer);
      ReclaimOneKeeps(next, buffer);
      UnboundStaysIdle(ReclaimOne(next, buffer), slot);
    }
  }

  // ---------- what consumers see ----------

  /** A queued buffer shows the stored frame of the live stream: its slot, bound
      to this very buffer and marked in flight, or a copy of a mappable file
      into memory it fits. */
  ghost predicate ShowsLatest(s: State, r: State, q: Queued, source: Source)
  {
    && s.latest.Some? && q.damage == s.latest.value.damage && q.sequence == s.sequence
    && match q.shown
       case InPlace(id, slot) =>
         && id == s.transport.streamId && s.latest.value.Slot? && s.latest.value.slot == slot
         && slot < |r.transport.bindings| && r.transport.bindings[slot] == Binding(Some(q.buffer), true)
         && slot < |s.transport.bindings| && s.transport.bindings[slot] == Binding(Some(q.buffer), false)
       case Copied(file, stride, width, height) =>
         && CpuMappable(s.transport.announced) && width == s.transport.width && height == s.transport.height && height > 0
         && (match s.latest.value
             case Described(f, st, _) => file == f && stride == st
             case Slot(slot, _) => slot < SlotCount(s) && file == s.transport.slotFiles[slot].file && stride == s.transport.slotFiles[slot].stride)
         && source.length.Some? && q.buffer in s.memory
         && CopyAllowed(source.length.value, stride, width, height, s.memory[q.buffer])
  }

  ghost predicate QueuesOnlyLatest(s: State, r: State, source: Source)
  {
    r.queued == s.queued || exists q: Queued :: r.queued == s.queued + [q] && ShowsLatest(s, r, q, source)
  }

  lemma CopyQueues(s: State, file: Descriptor, stride: u32, damage: Damage, source: Source)
    requires Valid(s) && s.returned == []
    ensures var r := CopyIntoPool(s, file, stride, damage, source).1; var t := s.transport;
            || r.queued == s.queued
            || (&& r.queued == s.queued + [Queued(s.pool[0], s.sequence, damage, Copied(file, stride, t.width, t.height))]
                && source.length.Some? && s.pool[0] in s.memory && t.height > 0
                && CopyAllowed(source.length.value, stride, t.width, t.height, s.memory[s.pool[0]]))
  {
    hide Needed;
    FrameLenIff(s.transport.width, s.transport.height);
  }

  lemma PublishSlotShows(s: State, slot: u32, damage: Damage, source: Source)
    requires Coherent(s) && s.returned == [] && s.latest == Some(Slot(slot, damage))
    ensures QueuesOnlyLatest(s, PublishSlot(s, slot, damage, source), source)
  {
    hide GeometryOk, CopyIntoPool, CopyAllowed;
    var r := PublishSlot(s, slot, damage, source);
    var t := s.transport;
    CopyQueues(s, t.slotFiles[slot].file, t.slotFiles[slot].stride, damage, source);
    if r.queued != s.queued {
      var q := r.queued[|s.queued|];
      assert r.queued == s.queued + [q];
      assert ShowsLatest(s, r, q, source);
    }
  }

  lemma PublishShows(s: State, source: Source)
    requires Coherent(s) && s.returned == []
    ensures QueuesOnlyLatest(s, Publish(s, source), source)
  {
    hide GeometryOk, CopyIntoPool, PublishSlot, CopyAllowed;
    if s.pending {
      match s.latest.value
      case Described(file, stride, damage) =>
        CopyQueues(s, file, stride, damage, source);
        var r := Publish(s, source);
        if r.queued != s.queued {
          var q := r.queued[|s.queued|];
          assert r.queued == s.queued + [q];
          assert ShowsLatest(s, r, q, source);
        }
      case Slot(slot, damage) =>
        PublishSlotShows(s, slot, damage, source);
        var c, r := PublishSlot(s, slot, damage, source), Publish(s, source);
        if c.queued != s.queued {
          var q: Queued :| c.queued == s.queued + [q] && ShowsLatest(s, c, q, source);
          assert r.queued == s.queued + [q] && ShowsLatest(s, r, q, source);
        }
    }
  }

  /** Publishing sends the pending slot frame out in place if and only if slots
      are forwarded and its slot is bound and idle. */
  lemma InPlaceIff(s: State, source: Source)
    requires Coherent(s) && s.returned == [] && s.pending && s.latest.value.Slot?
    ensures var r, slot := Publish(s, source), s.latest.value.slot;
            && slot < |s.transport.bindings|
            && ((|r.queued| > |s.queued| && r.queued[|s.queued|].shown.InPlace?) <==>
                ForwardingEligible(s) && s.transport.bindings[slot].pool.Some? && !s.transport.bindings[slot].inFlight)
  {
    hide GeometryOk, CopyIntoPool;
    var slot := s.latest.value.slot;
    CopyQueues(s, s.transport.slotFiles[slot].file, s.transport.slotFiles[slot].stride, s.latest.value.damage, source);
  }

  /** The mask of buffer types the consumer sent last in a run. */
  function LastMask(mask: Option<u32>, steps: seq<Step>): Option<u32>
    decreases |steps|
  {
    if steps == [] then mask else LastMask(if steps[0].AcceptTypes? then Some(steps[0].mask) else mask, steps[1..])
  }

  lemma MessageKeepsMask(s: State, message: Message, restart: Restart)
    ensures ReadMessage(s, message, restart).dataTypes == s.dataTypes
  {
    hide GeometryOk, AnnouncedFormat, ValidateFrame;
  }

  lemma CycleKeepsMask(s: State, source: Source)
    requires Coherent(s)
    ensures Process(s, source).dataTypes == s.dataTypes
  {
    hide GeometryOk, Reclaim, CopyIntoPool;
    ReclaimKeeps(s);
    ReclaimCoherent(s);
    var c := Reclaim(s);
    if c.pending {
      match c.latest.value
      case Described(file, stride, damage) => CopyKeeps(c, file, stride, damage, source);
      case Slot(slot, damage) => CopyKeeps(c, c.transport.slotFiles[slot].file, c.transport.slotFiles[slot].stride, damage, source);
    }
  }

  lemma StepMask(w: World, step: Step)
    requires Inv(w) && Enabled(w, step)
    ensures Next(w, step).cast.dataTypes == if step.AcceptTypes? then Some(step.mask) else w.cast.dataTypes
  {
    NotStopped(w);
    InvIsValid(w);
    match step
    case Cycle(source) => CycleKeepsMask(w.cast, source); hide Inv, Process, Enabled;
    case Read(restart, early) =>
      var a := Delivered(w).0;
      if a.Event? { MessageKeepsMask(w.cast, a.message, restart); }
      hide Inv, ReadMessage, AfterSkipped, FreshRestart;
    case Fixate(modifier, restart, early) => FixateKeepsMask(w.cast, modifier, restart); hide Inv, ApplyFixatedFormat, FreshRestart;
    case _ => hide Inv, FirstWith, Without;
  }

  lemma FixateKeepsMask(s: State, modifier: Option<nat>, restart: Restart)
    ensures ApplyFixatedFormat(s, modifier, restart).dataTypes == s.dataTypes
  {
    hide AnnouncedFormat;
  }

  lemma {:induction false} RunMask(w: World, steps: seq<Step>)
    requires Inv(w) && Possible(w, steps)
    ensures After(w, steps).cast.dataTypes == LastMask(w.cast.dataTypes, steps)
    decreases |steps|
  {
    hide Inv, Enabled, Next;
    if steps != [] {
      StepKeepsInv(w, steps[0]);
      StepMask(w, steps[0]);
      RunMask(Next(w, steps[0]), steps[1..]);
    }
  }

  /** After any run of a cast, the cycle that finds a slot frame pending sends it
      out in place if and only if dmabufs are negotiated, the mask the consumer
      sent last, if any, has their bit, and the slot is bound to a buffer that is
      idle or has come back. */
  lemma LastMaskDecides(info: StreamInfo, target: Target, cursor: CursorMode, early: seq<Message>, steps: seq<Step>, source: Source)
    requires Started(info, target, cursor, early) && Possible(Begin(info, target, cursor, early).value, steps)
    requires var n := After(Begin(info, target, cursor, early).value, steps);
             !n.cast.quit && n.cast.pending && n.cast.latest.Some? && n.cast.latest.value.Slot?
    ensures var n := After(Begin(info, target, cursor, early).value, steps);
            var mask, slot := LastMask(None, steps), n.cast.latest.value.slot;
            && Valid(n.cast) && slot < |n.cast.transport.bindings|
            && var r, binding := Process(n.cast, source), n.cast.transport.bindings[slot];
               (|r.queued| > |n.cast.queued| && r.queued[|n.cast.queued|].shown.InPlace?) <==>
               && n.cast.mode == DmabufDelivery && (mask.None? || mask.value / DMABUF_DATA_TYPE_BIT % 2 == 1)
               && binding.pool.Some? && (!binding.inFlight || binding.pool.value in n.cast.returned)
  {
    var w := Begin(info, target, cursor, early).value;
    BeginIsInv(info, target, cursor, early);
    assert w.cast.dataTypes == None;
    hide Begin, Started, Enabled, Next, Inv;
    RunKeepsInv(w, steps);
    RunMask(w, steps);
    hide After, Possible;
    SlotGoesOut(After(w, steps), source);
  }

  lemma SlotGoesOut(n: World, source: Source)
    requires Inv(n) && !n.cast.quit && n.cast.pending && n.cast.latest.Some? && n.cast.latest.value.Slot?
    ensures var slot := n.cast.latest.value.slot;
            && Valid(n.cast) && slot < |n.cast.transport.bindings|
            && var r, binding := Process(n.cast, source), n.cast.transport.bindings[slot];
               (|r.queued| > |n.cast.queued| && r.queued[|n.cast.queued|].shown.InPlace?) <==>
               ForwardingEligible(n.cast) && binding.pool.Some? && (!binding.inFlight || binding.pool.value in n.cast.returned)
  {
    NotStopped(n);
    InvIsValid(n);
    DistinctInside(n);
    var s := n.cast;
    ReclaimKeeps(s);
    ReclaimCoherent(s);
    InPlaceIff(Reclaim(s), source);
    var slot := s.latest.value.slot;
    ReclaimKeepsBuffer(s, slot);
    if s.transport.bindings[slot].pool.Some? { ReclaimedIsIdle(s, slot); }
    hide Inv, Coherent, Reclaim, Publish;
  }

  /** Taking buffers back binds no slot to another one. */
  lemma {:induction false} ReclaimKeepsBuffer(s: State, slot: nat)
    requires Coherent(s) && slot < |s.transport.bindings|
    ensures |Reclaim(s).transport.bindings| == |s.transport.bindings|
    ensures Reclaim(s).transport.bindings[slot].pool == s.transport.bindings[slot].pool
    decreases |s.returned|
  {
    hide GeometryOk, FirstWith;
    if s.returned != [] {
      var buffer, next := s.returned[0], s.(returned := s.returned[1..]);
      FirstWithFinds(next.transport.bindings, Some(buffer));
      ReclaimOneCoherent(next, buffer);
      ReclaimOneKeeps(next, buffer);
      ReclaimKeepsBuffer(ReclaimOne(next, buffer), slot);
    }
  }

  lemma DistinctInside(w: World)
    requires Inv(w)
    ensures DistinctBindings(w.cast.transport.bindings)
  {
    hide Coherent, Agrees, InboundOk;
  }


  /** Whatever a cycle queues was held by the portal, not by the consumer, and
      shows the live stream's latest frame; tiled pixels are never copied. */
  lemma CycleShowsLive(w: World, source: Source)
    requires Inv(w) && Enabled(w, Cycle(source))
    ensures var n, c := Next(w, Cycle(source)), Reclaim(w.cast);
            && (w.cast.latest.Some? ==> w.latestFrom == w.live.streamId)
            && c.latest == w.cast.latest && c.transport.streamId == w.live.streamId
            && AnnouncedFormat(w.live.format) == Some(c.transport.announced)
            && (n.cast.queued == w.cast.queued
                || exists q: Queued :: n.cast.queued == w.cast.queued + [q] && ShowsLatest(c, n.cast, q, source)
                     && q.buffer in w.held + Elements(w.cast.returned) && q.buffer !in w.consumer && q.buffer in n.consumer)
  {
    hide GeometryOk, AnnouncedFormat, Publish, Placed, Coherent, Reclaim, ShowsLatest;
    CoherentIsValid(w.cast);
    var c := Reclaim(w.cast);
    ReclaimKeeps(w.cast);
    ReclaimCoherent(w.cast);
    PublishShows(c, source);
    ProcessBuffers(w.cast, source, w.consumer, w.held);
    var r := Process(w.cast, source);
    if r.queued != w.cast.queued {
      var q: Queued :| r.queued == c.queued + [q] && ShowsLatest(c, r, q, source);
      assert r.queued[|w.cast.queued|..] == [q];
      assert NewlyQueued(w.cast, r) == {q.buffer};
      assert r.queued == w.cast.queued + [q] && ShowsLatest(c, r, q, source);
    }
  }

  /** In every run of a cast the frames it queues are numbered from zero, without
      a gap, across restarts and switches of delivery. */
  lemma RunNumbers(info: StreamInfo, target: Target, cursor: CursorMode, early: seq<Message>, steps: seq<Step>, k: nat)
    requires Started(info, target, cursor, early) && Possible(Begin(info, target, cursor, early).value, steps)
    requires k < |After(Begin(info, target, cursor, early).value, steps).cast.queued|
    ensures After(Begin(info, target, cursor, early).value, steps).cast.queued[k].sequence == k
  {
    EveryCast(info, target, cursor, early, steps);
    hide Begin, After, Started, Placed, GeometryOk, EventsOf;
  }

  // ---------- geometry and restarts ----------

  /** In every state a run reaches: the products computed without a check fit
      their types, for any stride a frame or slot can have; copied chunks and
      the lengths of slots are exact; and the chunks of the slots are exact if
      and only if all strides of the table fit a signed field. */
  lemma RunArithmeticFits(info: StreamInfo, target: Target, cursor: CursorMode, early: seq<Message>, steps: seq<Step>, stride: u32)
    requires Started(info, target, cursor, early) && Possible(Begin(info, target, cursor, early).value, steps)
    ensures var s := After(Begin(info, target, cursor, early).value, steps).cast; var t := s.transport;
            && 0 < t.width && 0 < t.height
            && t.width * 4 <= I32_MAX && t.width * t.height * 4 <= I32_MAX && t.width * t.height * 4 <= MAX_FRAME_BYTES
            && Needed(stride, t.width * 4, t.height) < USIZE
            && CopyChunk(t) == Chunk(t.width * t.height * 4, t.width * 4)
            && ((forall f <- t.slotFiles :: SlotChunk(f) == Chunk(f.byteLen, f.stride)) <==> StridesFit(t.slotFiles))
            && (StridesFit(t.slotFiles) ==>
                  BuffersOffer(s) == if s.mode == DmabufDelivery && t.slotFiles != []
                                     then Layout(|t.slotFiles|, t.slotFiles[0].stride, t.slotFiles[0].byteLen)
                                     else Layout(SHM_POOL_BUFFERS, t.width * 4, t.width * t.height * 4))
  {
    EveryCast(info, target, cursor, early, steps);
    var n := After(Begin(info, target, cursor, early).value, steps);
    var s, t := n.cast, n.cast.transport;
    assert Valid(s) && TableBounded(t.slotFiles) by { hide Begin, After, Placed, GeometryOk; }
    hide Inv, Begin, After, Needed, SlotChunk, CopyChunk, BuffersOffer, Started;
    FrameLenIff(t.width, t.height);
    UncheckedProductsFit(t.width, t.height);
    NeededFits(stride, t.width, t.height);
    CopyChunkExact(t);
    SlotChunksExactIff(t.slotFiles);
    OfferExactIff(s);
  }

  // ---------- negotiation ----------

  /** While tiled dmabufs stream, the offer is the modifier they have. */
  predicate OfferStands(t: TransportState)
  {
    t.offeredModifier.Some? && !CpuMappable(t.announced) ==>
      t.announced.Dmabuf? && t.offeredModifier == Some(t.announced.modifier) && t.slotFiles != []
  }

  /** A restarted stream the standing offer is true of. */
  predicate OfferFits(offered: Option<nat>, info: StreamInfo)
  {
    match AnnouncedFormat(info.format)
    case None => false
    case Some(announced) => offered.None? || CpuMappable(announced) || (offered == Some(announced.modifier) && SlotsOf(info) != [])
  }

  lemma FixateKeepsOfferIff(s: State, fixated: Option<nat>, restart: Restart)
    requires OfferStands(s.transport) && !s.quit && !ApplyFixatedFormat(s, fixated, restart).quit
    ensures OfferStands(ApplyFixatedFormat(s, fixated, restart).transport)
       <==> !NeedsSwitch(s.transport, fixated) || (restart.Restarts? && OfferFits(s.transport.offeredModifier, restart.info))
  {
    hide AnnouncedFormat, FreshBindings;
  }

  lemma ReadKeepsOffer(s: State, message: Message, restart: Restart)
    requires OfferStands(s.transport)
    ensures OfferStands(ReadMessage(s, message, restart).transport)
  {
    hide AnnouncedFormat, FreshBindings, ValidateFrame, GeometryOk;
  }

  /** A fixation that had to switch the stream and got one its offer is not true
      of. */
  ghost predicate Misanswered(w: World, step: Step)
  {
    && step.Fixate? && NeedsSwitch(w.cast.transport, step.modifier)
    && !ApplyFixatedFormat(w.cast, step.modifier, step.restart).quit
    && !(step.restart.Restarts? && OfferFits(w.cast.transport.offeredModifier, step.restart.info))
  }

  lemma StepKeepsOfferIff(w: World, step: Step)
    requires Inv(w) && Enabled(w, step) && OfferStands(w.cast.transport)
    ensures OfferStands(Next(w, step).cast.transport) <==> !Misanswered(w, step)
  {
    InvIsValid(w);
    match step
    case Read(restart, early) =>
      NextReads(w, restart, early);
      DeliveredFirst(w);
      var a := Delivered(w).0;
      if a.Event? { ReadKeepsOffer(w.cast, a.message, restart); }
      hide Inv, Enabled, Next, Delivered, ReadMessage, Readable, FreshRestart, Stores, OfferStands;
    case Fixate(modifier, restart, early) =>
      NextFixates(w, modifier, restart, early);
      var r := ApplyFixatedFormat(w.cast, modifier, restart);
      FixateRestarts(w.cast, modifier, restart);
      if r.quit {
        FailedKeepsId(w.cast, r, Asked(w.cast, step));
      } else {
        FixateKeepsOfferIff(w.cast, modifier, restart);
      }
      hide Inv, Enabled, Next, ApplyFixatedFormat, OfferStands, FreshRestart, OfferFits, NeedsSwitch, FailedRestart, Restarted;
    case _ => SteadyStep(w, step); hide Inv, Enabled, Next;
  }

  ghost predicate OfferThroughout(w: World, steps: seq<Step>)
    requires Possible(w, steps)
    decreases |steps|
  {
    OfferStands(w.cast.transport) && (steps == [] || OfferThroughout(Next(w, steps[0]), steps[1..]))
  }

  ghost predicate NeverMisanswered(w: World, steps: seq<Step>)
    requires Possible(w, steps)
    decreases |steps|
  {
    steps == [] || (!Misanswered(w, steps[0]) && NeverMisanswered(Next(w, steps[0]), steps[1..]))
  }

  lemma {:induction false} OfferIff(w: World, steps: seq<Step>)
    requires Inv(w) && OfferStands(w.cast.transport) && Possible(w, steps)
    ensures OfferThroughout(w, steps) <==> NeverMisanswered(w, steps)
    decreases |steps|
  {
    hide Inv, Enabled, Next, OfferStands, Misanswered;
    if steps != [] {
      StepKeepsInv(w, steps[0]);
      StepKeepsOfferIff(w, steps[0]);
      if OfferStands(Next(w, steps[0]).cast.transport) { OfferIff(Next(w, steps[0]), steps[1..]); }
    }
  }

  /** Over a whole run, the modifier on offer is the one that streams, whenever
      pixels are tiled, if and only if every switch of the stream was answered
      with one the offer is true of; geometry restarts never break it. */
  lemma RunKeepsOfferIff(info: StreamInfo, target: Target, cursor: CursorMode, early: seq<Message>, steps: seq<Step>)
    requires Started(info, target, cursor, early) && Possible(Begin(info, target, cursor, early).value, steps)
    ensures var w := Begin(info, target, cursor, early).value;
            OfferThroughout(w, steps) <==> NeverMisanswered(w, steps)
  {
    var w := Begin(info, target, cursor, early).value;
    BeginIsInv(info, target, cursor, early);
    assert OfferStands(w.cast.transport);
    hide Begin, Inv, OfferStands, Started;
    OfferIff(w, steps);
  }

  /** The consumer gets frames one way or the other: in place, in the modifier
      it fixated, or copied from pixels that may be mapped. */
  predicate Served(s: State, fixated: Option<nat>)
  {
    match s.mode
    case DmabufDelivery => s.transport.announced.Dmabuf? && s.transport.slotFiles != [] && fixated == Some(s.transport.announced.modifier)
    case ShmDelivery => CpuMappable(s.transport.announced)
  }

  /** The compositor's answer suits what the consumer fixated. */
  predicate Suits(info: StreamInfo, fixated: Option<nat>)
  {
    match AnnouncedFormat(info.format)
    case None => false
    case Some(announced) => CpuMappable(announced) || (fixated == Some(announced.modifier) && SlotsOf(info) != [])
  }

  /** A fixation leaves the consumer served if and only if no switch was needed
      or the restarted stream suits it. */
  lemma FixationServesIff(s: State, fixated: Option<nat>, restart: Restart)
    requires OfferStands(s.transport) && !ApplyFixatedFormat(s, fixated, restart).quit
    ensures Served(ApplyFixatedFormat(s, fixated, restart), fixated)
       <==> !NeedsSwitch(s.transport, fixated) || (restart.Restarts? && Suits(restart.info, fixated))
  {
    hide AnnouncedFormat, FreshBindings;
  }

  /** A restart for dmabufs that answers with another, tiled modifier is not
      made up for: fixating again changes nothing, and no frame is queued. */
  lemma OtherModifierStaysUnserved(s: State, fixated: Option<nat>, restart: Restart, again: Restart, source: Source)
    requires Coherent(s) && NeedsSwitch(s.transport, fixated) && WantsDmabuf(s.transport, fixated)
    requires !ApplyFixatedFormat(s, fixated, restart).quit && restart.Restarts? && restart.info.format.DmabufPixels?
    requires !Suits(restart.info, fixated)
    ensures var r := ApplyFixatedFormat(s, fixated, restart);
            && ApplyFixatedFormat(r, fixated, again) == r
            && forall slot: u32, damage: Damage | slot < SlotCount(r) ::
                 var shown := r.(latest := Some(Slot(slot, damage)), pending := true, returned := []);
                 Valid(shown) && Publish(shown, source).queued == r.queued
  {
    hide CopyIntoPool, GeometryOk;
    FixateRestarts(s, fixated, restart);
    var r := ApplyFixatedFormat(s, fixated, restart);
    assert r.transport.announced.Dmabuf? && !CpuMappable(r.transport.announced) && r.mode == ShmDelivery;
    assert Valid(r);
  }

  // ---------- teardown ----------

  /** Claims on a slot when the cast has torn down. */
  ghost function LastClaims(w: World, slot: nat): nat
  {
    (if slot in w.owned then 1 else 0) + FramesOnTheWay(w, slot) + PendingShare(w.cast, slot) + ReleaseShare(Teardown(w.cast), slot)
  }

  lemma TeardownKeepsClaims(w: World, slot: nat)
    ensures LastClaims(w, slot) == Holders(w, slot)
  {
    hide FramesFor, EventsOf, Teardown;
    TeardownReleasesFlight(w.cast, slot);
  }

  /** The stop of a failed restart is on its way exactly when the stream may be
      gone. */
  predicate StopKnown(w: World)
  {
    if w.stopped then OutputStop(w.live.streamId) in w.cast.sent else forall r <- w.cast.sent :: r.BufferRelease?
  }

  lemma LiveSendsReleases(w: World)
    requires Inv(w) && !w.cast.quit
    ensures !w.stopped && StopKnown(w) && forall r <- w.cast.sent :: r.BufferRelease?
  {
    hide Placed, GeometryOk, AnnouncedFormat;
  }

  lemma FailedRestartWrites(s: State, r: State, asked: bool)
    requires FailedRestart(s, r, asked) && r.sent != s.sent
    ensures OutputStop(s.transport.streamId) in r.sent
  {
    assert r.sent[|s.sent|] == OutputStop(s.transport.streamId);
  }

  lemma StepKnowsStop(w: World, step: Step)
    requires Inv(w) && Enabled(w, step)
    ensures StopKnown(Next(w, step))
  {
    StepKeepsInv(w, step);
    InvIsValid(w);
    NotQuitYet(w, step);
    LiveSendsReleases(w);
    LiveIsOld(w);
    hide Inv, Enabled, Next;
    var n := Next(w, step);
    if n.cast.quit {
      StepQuits(w, step);
      if n.stopped { FailedRestartWrites(w.cast, n.cast, Asked(w.cast, step)); }
    } else {
      LiveSendsReleases(n);
    }
  }

  lemma NotQuitYet(w: World, step: Step)
    requires Enabled(w, step)
    ensures !w.cast.quit
  {
  }

  lemma {:induction false} RunKnowsStop(w: World, steps: seq<Step>)
    requires Inv(w) && StopKnown(w) && Possible(w, steps)
    ensures StopKnown(After(w, steps))
    decreases |steps|
  {
    hide Inv, Enabled, Next, StopKnown;
    if steps != [] {
      StepKeepsInv(w, steps[0]);
      StepKnowsStop(w, steps[0]);
      RunKnowsStop(Next(w, steps[0]), steps[1..]);
    }
  }

  /** Every cast that ends tears down with each slot accounted for without the
      consumer, exactly once if it never re-armed a published frame. Each
      release it leaves on the wire names the stream it followed and a slot of
      its table; and a stop of that stream is on the wire with them exactly when
      a restart failed after writing it, so that only then the compositor may
      read releases of a stream it has stopped. */
  lemma EveryTeardown(info: StreamInfo, target: Target, cursor: CursorMode, early: seq<Message>, steps: seq<Step>, slot: nat)
    requires Started(info, target, cursor, early) && Possible(Begin(info, target, cursor, early).value, steps)
    requires slot < SlotCount(After(Begin(info, target, cursor, early).value, steps).cast)
    ensures var w := Begin(info, target, cursor, early).value; var n := After(w, steps);
            && (NeverSwallows(w, steps) ==> LastClaims(n, slot) >= 1)
            && (NeverSwallows(w, steps) && NeverRearms(w, steps) ==> LastClaims(n, slot) == 1)
            && (n.stopped <==> OutputStop(n.live.streamId) in Teardown(n.cast).sent)
            && (n.stopped ==> n.cast.quit)
            && (forall r <- Teardown(n.cast).sent :: r.BufferRelease? ==> r.streamId == n.live.streamId && r.slot < SlotCount(n.cast))
            && (!n.stopped ==> forall r <- Teardown(n.cast).sent :: r.BufferRelease?)
  {
    var w := Begin(info, target, cursor, early).value;
    EveryCast(info, target, cursor, early, steps);
    BeginIsInv(info, target, cursor, early);
    assert StopKnown(w);
    hide Begin, Next, Enabled, Started, Holders;
    RunKnowsStop(w, steps);
    var n := After(w, steps);
    TeardownKeepsClaims(n, slot);
    hide After, Possible, NeverSwallows, NeverRearms, ExactThroughout, LeakFreeThroughout, LastClaims;
    if NeverSwallows(w, steps) { LeakFree(n, slot); }
    TeardownSends(n);
  }

  lemma TeardownSends(n: World)
    requires Inv(n) && StopKnown(n)
    ensures n.stopped ==> n.cast.quit
    ensures n.stopped <==> OutputStop(n.live.streamId) in Teardown(n.cast).sent
    ensures forall r <- Teardown(n.cast).sent :: r.BufferRelease? ==> r.streamId == n.live.streamId && r.slot < SlotCount(n.cast)
    ensures !n.stopped ==> forall r <- Teardown(n.cast).sent :: r.BufferRelease?
  {
    hide Placed, GeometryOk, AnnouncedFormat, EventsOf, InFlightReleases;
    InFlightReleasesName(n.cast.transport, 0);
  }

  lemma {:induction false} InFlightReleasesName(t: TransportState, from: nat)
    requires from <= |t.bindings|
    ensures forall r <- InFlightReleases(t, from) :: r.BufferRelease? && r.streamId == t.streamId && r.slot < |t.bindings|
    decreases |t.bindings| - from
  {
    if from < |t.bindings| { InFlightReleasesName(t, from + 1); }
  }

  // ---------- when a second claim ends by itself ----------

  /** A re-armed frame is dropped by the next cycle, and ownership exact again, if
      and only if its slot is still in flight and the consumer has not returned
      the buffer: otherwise the slot is published or released once more. */
  lemma RearmHealsIff(w: World, source: Source)
    requires Inv(w) && Exact(w) && Enabled(w, StartStreaming) && RearmsPublished(w.cast)
    ensures var armed := Next(w, StartStreaming); var slot := w.cast.latest.value.slot;
            && Enabled(armed, Cycle(source)) && slot < |w.cast.transport.bindings|
            && (Exact(Next(armed, Cycle(source))) <==>
                w.cast.transport.bindings[slot].inFlight && w.cast.transport.bindings[slot].pool.Some? &&
                w.cast.transport.bindings[slot].pool.value !in w.cast.returned)
  {
    var slot := w.cast.latest.value.slot;
    LatestSlotInside(w);
    StepKeepsInv(w, StartStreaming);
    var armed := Next(w, StartStreaming);
    ArmedIs(w);
    CycleStays(armed, source);
    CycleKeepsLive(armed, source);
    FlightIsBound(w, slot);
    forall other: nat | other < SlotCount(w.cast)
      ensures Holders(Next(armed, Cycle(source)), other) ==
              1 + if other == slot && FlightShare(Reclaim(armed.cast), slot) == 0 then 1 else 0
    {
      StreamingHolders(w, other);
      ArmedCycle(armed, source, other);
      assert Holders(w, other) == 1;
    }
    ReclaimedSlot(armed.cast, slot);
    hide Inv, Enabled, Next, Holders, Reclaim;
    if FlightShare(Reclaim(armed.cast), slot) == 0 { assert Holders(Next(armed, Cycle(source)), slot) == 2; }
  }

  lemma ArmedIs(w: World)
    requires Inv(w) && Enabled(w, StartStreaming) && RearmsPublished(w.cast)
    ensures Next(w, StartStreaming).cast == w.cast.(pending := true)
    ensures Enabled(Next(w, StartStreaming), Cycle(Source(None, false))) && forall source :: Enabled(Next(w, StartStreaming), Cycle(source))
  {
    hide Placed, Coherent;
  }

  lemma FlightIsBound(w: World, slot: nat)
    requires Inv(w) && slot < SlotCount(w.cast)
    ensures slot < |w.cast.transport.bindings| && (w.cast.transport.bindings[slot].inFlight ==> w.cast.transport.bindings[slot].pool.Some?)
    ensures DistinctBindings(w.cast.transport.bindings)
  {
    hide GeometryOk, OneOwner, StashOk, MemoryOk;
  }

  /** A cycle that publishes a slot frame moves that slot's claims by one unless
      it was in flight after the reclaim. */
  lemma ArmedCycle(w: World, source: Source, slot: nat)
    requires Inv(w) && Enabled(w, Cycle(source)) && w.cast.pending && w.cast.latest.Some? && w.cast.latest.value.Slot?
    ensures var n, c, published := Next(w, Cycle(source)), Reclaim(w.cast), w.cast.latest.value.slot;
            Holders(n, slot) + (if slot == published then 1 else 0) ==
            Holders(w, slot) + if slot == published && FlightShare(c, slot) == 0 then 1 else 0
  {
    var s := w.cast;
    NextCycles(w, source);
    ReclaimKeeps(s);
    ReclaimCoherent(s);
    ReclaimShare(s, slot);
    var c := Reclaim(s);
    var payload := s.latest.value;
    PublishSlotShare(c, payload.slot, payload.damage, source, slot);
    PendingPublished(c, source, slot);
    hide Inv, Enabled, Next, Valid, Reclaim, Publish, PublishSlot, FramesOnTheWay, Coherent, ReleaseShare, FlightShare;
  }

  lemma NextCycles(w: World, source: Source)
    requires Inv(w) && Enabled(w, Cycle(source))
    ensures var n := Next(w, Cycle(source));
            Coherent(w.cast) && n == w.(cast := Process(w.cast, source), held := n.held, consumer := n.consumer)
  {
    NotStopped(w);
    hide Inv, Process, Elements, NewlyQueued, Coherent;
  }

  lemma PendingPublished(c: State, source: Source, slot: nat)
    requires Coherent(c) && c.pending && c.latest.Some? && c.latest.value.Slot?
    ensures var r, p := Publish(c, source), PublishSlot(c, c.latest.value.slot, c.latest.value.damage, source);
            && FlightShare(r, slot) == FlightShare(p, slot) && ReleaseShare(r, slot) == ReleaseShare(p, slot) && PendingShare(r, slot) == 0
  {
    hide GeometryOk, PublishSlot;
  }

  lemma ReclaimedSlot(s: State, slot: nat)
    requires Coherent(s) && DistinctBindings(s.transport.bindings) && slot < |s.transport.bindings|
    ensures FlightShare(Reclaim(s), slot) ==
            if s.transport.bindings[slot].inFlight && s.transport.bindings[slot].pool.Some? && s.transport.bindings[slot].pool.value !in s.returned then 1 else 0
  {
    hide GeometryOk, Reclaim;
    if s.transport.bindings[slot].pool.Some? { ReclaimedIsIdle(s, slot); } else { UnboundStaysIdle(s, slot); }
  }

  // ---------- runs that fail ----------

  const ONE_SLOT: StreamInfo :=
    StreamInfo(7, 1, 1, DmabufPixels(Fourcc('X', 'R', '2', '4'), 0), Some([SlotFile(3, 4, 4)]))
  const ITS_FRAME: StreamFrame :=
    StreamFrame(7, 1, 1, 4, DmabufPixels(Fourcc('X', 'R', '2', '4'), 0), [], Some(0), InSlot)
  const UNREADABLE: Source := Source(None, false)
  const ITS_PAYLOAD: Payload := Slot(0, [])

  function Republished(): seq<Step>
  {
    [Emit(ITS_FRAME)] + ([Read(StopFails, [])] + ([Cycle(UNREADABLE)] + ([HandleRelease] + ([StartStreaming] + ([Cycle(UNREADABLE)] + [])))))
  }

  function OneSlotTransport(target: Target): TransportState
  {
    TransportState(7, target, Hidden, true, 1, 1, Dmabuf(Fourcc('X', 'R', '2', '4'), 0, BGRx), Some(0),
                   [SlotFile(3, 4, 4)], [Binding(None, false)])
  }

  /** The states of the runs. */
  function At(wire: seq<Arrival>, owned: set<nat>, latest: Option<Payload>, pending: bool, sent: seq<Request>,
              dropped: nat, streaming: bool): World
  {
    World(State(OneSlotTransport(Window(1)), ShmDelivery, None, latest, pending, [], map[], 0, dropped, false, [], [], sent),
          ONE_SLOT, owned, [], wire, {}, {}, 8, 7, false, false, streaming)
  }

  lemma ItsFrameIsOk()
    ensures GeometryOk(1, 1) && IsFrame(ITS_FRAME, ONE_SLOT) && PayloadOf(ITS_FRAME) == ITS_PAYLOAD
    ensures CarriesSlot(FrameReady(ITS_FRAME), 7, 0)
  {
    FrameLenIff(1, 1);
    hide GeometryOk;
  }

  lemma OneSlotBegins(target: Target, early: seq<Message>)
    requires forall m <- early :: m == FrameReady(ITS_FRAME)
    requires |early| <= 1
    ensures Started(ONE_SLOT, target, Hidden, early)
    ensures Begin(ONE_SLOT, target, Hidden, early) ==
            Some(World(Initial(OneSlotTransport(target)), ONE_SLOT, if early == [] then {0} else {}, early, [], {}, {}, 8, 7,
                       target.Output? && target.connector.Some?, false, false))
  {
    ItsFrameIsOk();
    hide GeometryOk;
    assert FreshBindings(1) == [Binding(None, false)];
    if early != [] { assert early[0] in early; assert early == [FrameReady(ITS_FRAME)]; }
    OneFrame(FrameReady(ITS_FRAME), 7, 0);
    assert IsSlot(0, ONE_SLOT);
    assert Unused(ONE_SLOT, early) == if early == [] then {0} else {};
    assert EarlyOk(early, ONE_SLOT) by {
      forall slot: nat ensures FramesFor(early, 7, slot) <= 1 { OneFrame(FrameReady(ITS_FRAME), 7, slot); }
    }
  }

  lemma EmitsAndReads()
    ensures GeometryOk(1, 1)
    ensures var w0, w1 := At([], {0}, None, false, [], 0, false), At([Event(FrameReady(ITS_FRAME))], {}, None, false, [], 0, false);
            var w2 := At([], {}, Some(ITS_PAYLOAD), true, [], 0, false);
            && Enabled(w0, Emit(ITS_FRAME)) && Next(w0, Emit(ITS_FRAME)) == w1
            && Enabled(w1, Read(StopFails, [])) && Next(w1, Read(StopFails, [])) == w2
  {
    ItsFrameIsOk();
    hide GeometryOk, FramesFor;
  }

  lemma PublishesUnreadable(owned: set<nat>, wire: seq<Arrival>, dropped: nat, streaming: bool)
    ensures GeometryOk(1, 1)
    ensures var w := At(wire, owned, Some(ITS_PAYLOAD), true, [], dropped, streaming);
            Enabled(w, Cycle(UNREADABLE)) &&
            Next(w, Cycle(UNREADABLE)) == At(wire, owned, Some(ITS_PAYLOAD), false, [BufferRelease(7, 0)], dropped + 1, streaming)
  {
    FrameLenIff(1, 1);
    hide GeometryOk;
    var s := At(wire, owned, Some(ITS_PAYLOAD), true, [], dropped, streaming).cast;
    assert Reclaim(s) == s;
    assert PublishSlot(s, 0, [], UNREADABLE) == ReleaseSlot(Drop(s), 0);
  }

  lemma ReleasesAndRepublishes()
    ensures GeometryOk(1, 1)
    ensures var w3 := At([], {}, Some(ITS_PAYLOAD), false, [BufferRelease(7, 0)], 1, false);
            var w4, w5 := At([Skipped], {0}, Some(ITS_PAYLOAD), false, [], 1, false), At([Skipped], {0}, Some(ITS_PAYLOAD), true, [], 1, true);
            && Enabled(w3, HandleRelease) && Next(w3, HandleRelease) == w4
            && Enabled(w4, StartStreaming) && Next(w4, StartStreaming) == w5
  {
    FrameLenIff(1, 1);
    hide GeometryOk;
  }

  lemma RunOnward(w: World, step: Step, n: World, rest: seq<Step>, last: World)
    requires Valid(w.cast) && Enabled(w, step) && Next(w, step) == n && Possible(n, rest) && After(n, rest) == last
    ensures Possible(w, [step] + rest) && After(w, [step] + rest) == last
  {
    hide Enabled, Next;
    assert ([step] + rest)[1..] == rest;
  }

  lemma TheRepublishedRun()
    ensures Begin(ONE_SLOT, Window(1), Hidden, []) == Some(At([], {0}, None, false, [], 0, false))
    ensures Possible(At([], {0}, None, false, [], 0, false), Republished())
    ensures After(At([], {0}, None, false, [], 0, false), Republished()) == At([Skipped], {0}, Some(ITS_PAYLOAD), false, [BufferRelease(7, 0)], 2, true)
  {
    OneSlotBegins(Window(1), []);
    EmitsAndReads();
    PublishesUnreadable({}, [], 0, false);
    ReleasesAndRepublishes();
    PublishesUnreadable({0}, [Skipped], 1, true);
    hide Begin, Next, Enabled, GeometryOk;
    var last := At([Skipped], {0}, Some(ITS_PAYLOAD), false, [BufferRelease(7, 0)], 2, true);
    var w5 := At([Skipped], {0}, Some(ITS_PAYLOAD), true, [], 1, true);
    var w4 := At([Skipped], {0}, Some(ITS_PAYLOAD), false, [], 1, false);
    var w3 := At([], {}, Some(ITS_PAYLOAD), false, [BufferRelease(7, 0)], 1, false);
    var w2 := At([], {}, Some(ITS_PAYLOAD), true, [], 0, false);
    var w1 := At([Event(FrameReady(ITS_FRAME))], {}, None, false, [], 0, false);
    RunOnward(w5, Cycle(UNREADABLE), last, [], last);
    RunOnward(w4, StartStreaming, w5, [Cycle(UNREADABLE)] + [], last);
    RunOnward(w3, HandleRelease, w4, [StartStreaming] + ([Cycle(UNREADABLE)] + []), last);
    RunOnward(w2, Cycle(UNREADABLE), w3, [HandleRelease] + ([StartStreaming] + ([Cycle(UNREADABLE)] + [])), last);
    var fromRead := [Cycle(UNREADABLE)] + ([HandleRelease] + ([StartStreaming] + ([Cycle(UNREADABLE)] + [])));
    RunOnward(w1, Read(StopFails, []), w2, fromRead, last);
    RunOnward(At([], {0}, None, false, [], 0, false), Emit(ITS_FRAME), w1, [Read(StopFails, [])] + fromRead, last);
  }

  /** The run is possible, and at its end the compositor owns slot 0 while a
      second release of it is on the wire. */
  lemma RepublishedSlotIsReleasedTwice()
    ensures Begin(ONE_SLOT, Window(1), Hidden, []).Some?
    ensures var w := Begin(ONE_SLOT, Window(1), Hidden, []).value;
            && Possible(w, Republished())
            && 0 in After(w, Republished()).owned
            && BufferRelease(7, 0) in After(w, Republished()).cast.sent
  {
    TheRepublishedRun();
    hide Begin, Possible, After, Republished;
  }

  /** The world of a one-slot cast of a named connector, before its loop. */
  function Opening(owned: set<nat>, wire: seq<Arrival>, opening: bool): World
  {
    World(Initial(OneSlotTransport(Output(Some("DP-1")))), ONE_SLOT, owned, [], wire, {}, {}, 8, 7, opening, false, false)
  }

  lemma EmitsAndLooksUp()
    ensures GeometryOk(1, 1)
    ensures var w0, w1, w2 := Opening({0}, [], true), Opening({}, [Event(FrameReady(ITS_FRAME))], true), Opening({}, [], false);
            && Enabled(w0, Emit(ITS_FRAME)) && Next(w0, Emit(ITS_FRAME)) == w1
            && Enabled(w1, Lookup) && Next(w1, Lookup) == w2
  {
    ItsFrameIsOk();
    hide GeometryOk, FramesFor, EventsOf;
  }

  lemma NobodyHoldsIt()
    ensures Holders(Opening({}, [], false), 0) == 0 && SlotCount(Opening({}, [], false).cast) == 1
  {
    hide Holders, Fourcc;
    NobodyHolds(Opening({}, [], false));
  }

  /** Nothing owned, nothing on the way, and a portal that has seen no frame. */
  lemma NobodyHolds(w: World)
    requires w.owned == {} && w.kept == [] && w.wire == []
    requires !w.cast.pending && w.cast.sent == [] && |w.cast.transport.bindings| == 1 && !w.cast.transport.bindings[0].inFlight
    ensures Holders(w, 0) == 0
  {
    OneFrame(LeaseRenewed, w.live.streamId, 0);
    NoEvents();
  }

  lemma OpeningBegins()
    ensures Started(ONE_SLOT, Output(Some("DP-1")), Hidden, [])
    ensures Begin(ONE_SLOT, Output(Some("DP-1")), Hidden, []) == Some(Opening({0}, [], true))
  {
    hide Started, Begin;
    OneSlotBegins(Output(Some("DP-1")), []);
  }

  lemma LooksUp()
    ensures var w0, w2, steps := Opening({0}, [], true), Opening({}, [], false), [Emit(ITS_FRAME)] + ([Lookup] + []);
            Possible(w0, steps) && After(w0, steps) == w2
  {
    EmitsAndLooksUp();
    var w0, w1, w2 := Opening({0}, [], true), Opening({}, [Event(FrameReady(ITS_FRAME))], true), Opening({}, [], false);
    assert Possible(w2, []) && After(w2, []) == w2;
    hide Next, Enabled, Possible, After, Opening;
    RunOnward(w1, Lookup, w2, [], w2);
    RunOnward(w0, Emit(ITS_FRAME), w1, [Lookup] + [], w2);
  }

  /** A one-slot cast of a named connector whose first frame is on the socket
      when the output is looked up: the slot is nowhere any more. */
  lemma LookupLosesASlot()
    ensures var target := Output(Some("DP-1"));
            && Started(ONE_SLOT, target, Hidden, [])
            && var w := Begin(ONE_SLOT, target, Hidden, []).value; var steps := [Emit(ITS_FRAME)] + ([Lookup] + []);
               Possible(w, steps) && SlotCount(After(w, steps).cast) == 1 && Holders(After(w, steps), 0) == 0
  {
    OpeningBegins();
    NobodyHoldsIt();
    LooksUp();
    hide *;
  }

  /** A one-slot cast whose only frame came before the start reply waits in a
      circle once PipeWire streams. */
  lemma EarlyFrameWaitsInCircle()
    ensures Started(ONE_SLOT, Window(1), Hidden, [FrameReady(ITS_FRAME)])
    ensures var w := Begin(ONE_SLOT, Window(1), Hidden, [FrameReady(ITS_FRAME)]).value;
            Possible(w, [StartStreaming] + []) && After(w, [StartStreaming] + []).streaming && WaitsInCircle(After(w, [StartStreaming] + []))
  {
    OneSlotBegins(Window(1), [FrameReady(ITS_FRAME)]);
    var w := Begin(ONE_SLOT, Window(1), Hidden, [FrameReady(ITS_FRAME)]).value;
    StreamsIdly(w);
    hide Begin, Started, Next, Enabled, WaitsInCircle;
    RunOnward(w, StartStreaming, w.(streaming := true), [], w.(streaming := true));
  }

  lemma StreamsIdly(w: World)
    requires w.cast == Initial(OneSlotTransport(Window(1))) && w.owned == {} && w.wire == [] && !w.opening
    ensures Valid(w.cast) && Enabled(w, StartStreaming) && Next(w, StartStreaming) == w.(streaming := true)
    ensures WaitsInCircle(w.(streaming := true))
  {
    FrameLenIff(1, 1);
    hide GeometryOk;
  }
}
