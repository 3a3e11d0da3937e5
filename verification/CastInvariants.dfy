/** What every callback of a cast keeps: a coherent state, and for each slot of
    the live stream the portal's share in its ownership. */
module CastInvariants {
  import opened Wrappers
  import opened Frames
  import opened Cast

  function SlotCount(s: State): nat
  {
    |s.transport.slotFiles|
  }

  // ---------- coherence ----------

  /** A stored frame of the live stream: a slot of its table, or a file whose
      pixels may be mapped. */
  predicate PayloadFits(s: State, payload: Payload)
  {
    match payload
    case Slot(slot, _) => slot < SlotCount(s)
    case Described(_, _, _) => CpuMappable(s.transport.announced)
  }

  predicate LatestFits(s: State)
  {
    && (s.pending ==> s.latest.Some?)
    && (s.latest.Some? ==> PayloadFits(s, s.latest.value))
  }

  predicate InFlightIsBound(bindings: seq<Binding>)
  {
    forall i | 0 <= i < |bindings| :: bindings[i].inFlight ==> bindings[i].pool.Some?
  }

  /** Releases on their way name slots of the stream; until the cast quits
      nothing else is on its way. */
  predicate ReleasesFit(s: State)
  {
    forall r <- s.sent ::
      && (r.BufferRelease? ==> r.streamId == s.transport.streamId && r.slot < SlotCount(s))
      && (r.BufferRelease? || s.quit)
  }

  predicate Numbered(s: State)
  {
    s.sequence == |s.queued| && forall i | 0 <= i < |s.queued| :: s.queued[i].sequence == i
  }

  predicate Coherent(s: State)
  {
    Valid(s) && LatestFits(s) && InFlightIsBound(s.transport.bindings) && ReleasesFit(s) && Numbered(s)
  }

  // ---------- the portal's share of a slot ----------

  function PendingShare(s: State, slot: nat): nat
  {
    if s.pending && s.latest.Some? && s.latest.value.Slot? && s.latest.value.slot == slot then 1 else 0
  }

  function FlightShare(s: State, slot: nat): nat
  {
    if slot < |s.transport.bindings| && s.transport.bindings[slot].inFlight then 1 else 0
  }

  ghost function ReleaseShare(s: State, slot: nat): nat
  {
    multiset(s.sent)[BufferRelease(s.transport.streamId, slot)]
  }

  /** How often the portal accounts for a slot: as the pending frame, in flight
      at the consumer, and as releases on their way. */
  ghost function Share(s: State, slot: nat): nat
  {
    PendingShare(s, slot) + FlightShare(s, slot) + ReleaseShare(s, slot)
  }

  /** Ownership is passed on, or a surplus claim is given up without the slot
      being lost. */
  ghost predicate Conserves(s: State, r: State, slot: nat)
  {
    Share(r, slot) == Share(s, slot) || 1 <= Share(r, slot) < Share(s, slot)
  }

  lemma ReleaseAdds(s: State, released: nat, slot: nat)
    requires released < SlotCount(s)
    ensures var r := ReleaseSlot(s, released);
            r == s.(sent := r.sent) && ReleaseShare(r, slot) == ReleaseShare(s, slot) + if slot == released then 1 else 0
  {
  }

  lemma ReleaseCoherent(s: State, released: nat)
    requires Coherent(s) && released < SlotCount(s)
    ensures Coherent(ReleaseSlot(s, released))
  {
    hide GeometryOk;
  }

  // ---------- looking up bindings ----------

  lemma {:induction false} FirstWithFinds(bindings: seq<Binding>, pool: Option<BufferId>)
    ensures FirstWith(bindings, pool).Some? ==>
              FirstWith(bindings, pool).value < |bindings| && bindings[FirstWith(bindings, pool).value].pool == pool
    ensures FirstWith(bindings, pool).None? ==> forall i | 0 <= i < |bindings| :: bindings[i].pool != pool
  {
    if bindings != [] {
      FirstWithFinds(bindings[1..], pool);
      assert forall i | 1 <= i < |bindings| :: bindings[i] == bindings[1..][i - 1];
    }
  }

  // ---------- storing a frame ----------

  lemma ReplaceCoherent(s: State, payload: Payload)
    requires Coherent(s) && PayloadFits(s, payload)
    ensures Coherent(ReplaceLatest(s, payload))
  {
    hide GeometryOk;
    if s.pending && s.latest.Some? && s.latest.value.Slot? { ReleaseCoherent(s, s.latest.value.slot); }
  }

  /** Storing a slot frame takes the slot over; a superseded one is released. */
  lemma ReplaceShare(s: State, payload: Payload, slot: nat)
    requires Coherent(s)
    ensures Share(ReplaceLatest(s, payload), slot) == Share(s, slot) + if payload.Slot? && payload.slot == slot then 1 else 0
  {
    hide GeometryOk;
    if s.pending && s.latest.Some? && s.latest.value.Slot? { ReleaseAdds(s, s.latest.value.slot, slot); }
  }

  // ---------- reclaiming ----------

  lemma ReclaimOneCoherent(s: State, buffer: BufferId)
    requires Coherent(s)
    ensures Coherent(ReclaimOne(s, buffer))
  {
    hide GeometryOk, FirstWith;
    FirstWithFinds(s.transport.bindings, Some(buffer));
    var at := FirstWith(s.transport.bindings, Some(buffer));
    if at.Some? && s.transport.bindings[at.value].inFlight {
      var unmarked := WithBinding(s, at.value, Binding(Some(buffer), false));
      assert Coherent(unmarked);
      ReleaseCoherent(unmarked, at.value);
    }
  }

  lemma ReclaimOneShare(s: State, buffer: BufferId, slot: nat)
    requires Coherent(s)
    ensures Share(ReclaimOne(s, buffer), slot) == Share(s, slot)
  {
    hide GeometryOk, FirstWith;
    FirstWithFinds(s.transport.bindings, Some(buffer));
    var at := FirstWith(s.transport.bindings, Some(buffer));
    if at.Some? && s.transport.bindings[at.value].inFlight {
      ReleaseAdds(WithBinding(s, at.value, Binding(Some(buffer), false)), at.value, slot);
    }
  }

  lemma {:induction false} ReclaimCoherent(s: State)
    requires Coherent(s)
    ensures Coherent(Reclaim(s))
    decreases |s.returned|
  {
    hide ReclaimOne, GeometryOk;
    if s.returned != [] {
      var next := s.(returned := s.returned[1..]);
      assert Coherent(next);
      ReclaimOneCoherent(next, s.returned[0]);
      ReclaimOneKeeps(next, s.returned[0]);
      ReclaimCoherent(ReclaimOne(next, s.returned[0]));
    }
  }

  lemma {:induction false} ReclaimShare(s: State, slot: nat)
    requires Coherent(s)
    ensures Share(Reclaim(s), slot) == Share(s, slot)
    decreases |s.returned|
  {
    hide ReclaimOne, GeometryOk;
    if s.returned != [] {
      var next := s.(returned := s.returned[1..]);
      assert Coherent(next) && Share(next, slot) == Share(s, slot);
      ReclaimOneCoherent(next, s.returned[0]);
      ReclaimOneShare(next, s.returned[0], slot);
      ReclaimOneKeeps(next, s.returned[0]);
      ReclaimShare(ReclaimOne(next, s.returned[0]), slot);
    }
  }

  // ---------- publishing ----------

  lemma CopyTouches(s: State, file: Descriptor, stride: u32, damage: Damage, source: Source)
    requires Valid(s)
    ensures var r := CopyIntoPool(s, file, stride, damage, source).1;
            r == s.(pool := r.pool, returned := r.returned, dropped := r.dropped, sequence := r.sequence, queued := r.queued)
  {
    hide GeometryOk, FrameLen, Needed, Valid;
  }

  lemma CopyNumbers(s: State, file: Descriptor, stride: u32, damage: Damage, source: Source)
    requires Valid(s) && Numbered(s)
    ensures Numbered(CopyIntoPool(s, file, stride, damage, source).1)
  {
    var taken := TakeBuffer(s);
    if taken.Some? {
      QueueNumbers(taken.value.1, taken.value.0, damage, Copied(file, stride, s.transport.width, s.transport.height));
    }
    hide GeometryOk, FrameLen, Needed, Valid, Queue;
  }

  lemma QueueNumbers(s: State, buffer: BufferId, damage: Damage, shown: Shown)
    requires Numbered(s)
    ensures Numbered(Queue(s, buffer, damage, shown))
  {
  }

  /** A copy touches nothing but the stash, the counters and the queue. */
  lemma CopyKeeps(s: State, file: Descriptor, stride: u32, damage: Damage, source: Source)
    requires Coherent(s)
    ensures var r := CopyIntoPool(s, file, stride, damage, source).1;
            && r == s.(pool := r.pool, returned := r.returned, dropped := r.dropped, sequence := r.sequence, queued := r.queued)
            && Coherent(r)
  {
    CopyTouches(s, file, stride, damage, source);
    CopyNumbers(s, file, stride, damage, source);
    hide CopyIntoPool, Numbered, InFlightIsBound, GeometryOk;
  }

  lemma PublishSlotCoherent(s: State, slot: nat, damage: Damage, source: Source)
    requires Coherent(s) && slot < SlotCount(s)
    ensures Coherent(PublishSlot(s, slot, damage, source))
  {
    hide GeometryOk, CopyIntoPool;
    var file := s.transport.slotFiles[slot];
    CopyKeeps(s, file.file, file.stride, damage, source);
    ReleaseCoherent(Drop(s), slot);
    ReleaseCoherent(CopyIntoPool(s, file.file, file.stride, damage, source).1, slot);
  }

  /** Publishing moves a slot to the consumer or gives it back; it is lost to
      neither only when it was with the consumer already. */
  lemma PublishSlotShare(s: State, published: nat, damage: Damage, source: Source, slot: nat)
    requires Coherent(s) && published < SlotCount(s)
    ensures var r := PublishSlot(s, published, damage, source);
            && r.pending == s.pending && r.latest == s.latest
            && FlightShare(r, slot) + ReleaseShare(r, slot) ==
               FlightShare(s, slot) + ReleaseShare(s, slot) +
               if slot == published && FlightShare(s, slot) == 0 then 1 else 0
  {
    hide GeometryOk, CopyIntoPool;
    var file := s.transport.slotFiles[published];
    CopyKeeps(s, file.file, file.stride, damage, source);
    ReleaseAdds(Drop(s), published, slot);
    ReleaseAdds(CopyIntoPool(s, file.file, file.stride, damage, source).1, published, slot);
  }

  lemma PublishCoherent(s: State, source: Source)
    requires Coherent(s)
    ensures Coherent(Publish(s, source))
  {
    hide GeometryOk, CopyIntoPool, PublishSlot;
    if s.pending {
      match s.latest.value
      case Described(file, stride, damage) => CopyKeeps(s, file, stride, damage, source);
      case Slot(slot, damage) => PublishSlotCoherent(s, slot, damage, source);
    }
  }

  lemma PublishConserves(s: State, source: Source, slot: nat)
    requires Coherent(s)
    ensures Conserves(s, Publish(s, source), slot)
  {
    hide GeometryOk, CopyIntoPool, PublishSlot;
    if s.pending {
      match s.latest.value
      case Described(file, stride, damage) => CopyKeeps(s, file, stride, damage, source);
      case Slot(published, damage) => PublishSlotShare(s, published, damage, source, slot);
    }
  }

  lemma ProcessCoherent(s: State, source: Source)
    requires Coherent(s)
    ensures Coherent(Process(s, source))
  {
    hide GeometryOk, Reclaim, Publish;
    ReclaimCoherent(s);
    PublishCoherent(Reclaim(s), source);
  }

  lemma ProcessConserves(s: State, source: Source, slot: nat)
    requires Coherent(s)
    ensures Conserves(s, Process(s, source), slot)
  {
    hide GeometryOk, Reclaim, Publish, Share;
    ReclaimCoherent(s);
    ReclaimShare(s, slot);
    PublishConserves(Reclaim(s), source, slot);
  }

  // ---------- pool buffers ----------

  lemma AddBufferKeeps(s: State, buffer: BufferId, hasData: bool, backed: bool, slot: nat)
    requires Coherent(s)
    ensures Coherent(AddBuffer(s, buffer, hasData, backed)) && Share(AddBuffer(s, buffer, hasData, backed), slot) == Share(s, slot)
  {
    hide GeometryOk, FirstWith;
    FirstWithFinds(s.transport.bindings, None);
  }

  lemma RemoveBufferCoherent(s: State, buffer: BufferId)
    requires Coherent(s)
    ensures Coherent(RemoveBuffer(s, buffer))
  {
    hide GeometryOk, FirstWith, Without;
    FirstWithFinds(s.transport.bindings, Some(buffer));
    var at := FirstWith(s.transport.bindings, Some(buffer));
    if at.Some? {
      var r := s.(memory := s.memory - {buffer}, pool := Without(s.pool, buffer));
      var unbound := WithBinding(r, at.value, Binding(None, false));
      assert Coherent(unbound);
      ReleaseCoherent(unbound, at.value);
    }
  }

  lemma RemoveBufferShare(s: State, buffer: BufferId, slot: nat)
    requires Coherent(s)
    ensures Share(RemoveBuffer(s, buffer), slot) == Share(s, slot)
  {
    hide GeometryOk, FirstWith, Without;
    FirstWithFinds(s.transport.bindings, Some(buffer));
    var at := FirstWith(s.transport.bindings, Some(buffer));
    if at.Some? {
      var r := s.(memory := s.memory - {buffer}, pool := Without(s.pool, buffer));
      ReleaseAdds(WithBinding(r, at.value, Binding(None, false)), at.value, slot);
    }
  }

  // ---------- restarts ----------

  /** A restarted stream begins with nothing of the old one: no frame, no
      binding, and the geometry the consumer knows or was told. What it was
      asked for is what the transport has from then on. */
  predicate Restarted(s: State, r: State, info: StreamInfo)
  {
    && AnnouncedFormat(info.format) == Some(r.transport.announced)
    && r.transport.streamId == info.streamId && r.transport.width == info.width && r.transport.height == info.height
    && r.transport.slotFiles == SlotsOf(info) && r.transport.bindings == FreshBindings(|SlotsOf(info)|)
    && r.transport.target == s.transport.target && r.transport.cursor == s.transport.cursor
    && r == s.(transport := r.transport, mode := r.mode, latest := None, pending := false, sent := r.sent)
    && GeometryOk(info.width, info.height)
    && r.sent == s.sent + [OutputStop(s.transport.streamId), OutputStart(s.transport.target, r.transport.dmabuf, s.transport.cursor)]
  }

  /** A failed restart leaves the state as it was but for the requests it got
      to write, and ends the cast. */
  predicate FailedRestart(s: State, r: State, asked: bool)
  {
    && r == s.(sent := r.sent, quit := true)
    && (|| r.sent == s.sent
        || r.sent == s.sent + [OutputStop(s.transport.streamId)]
        || r.sent == s.sent + [OutputStop(s.transport.streamId), OutputStart(s.transport.target, asked, s.transport.cursor)])
  }

  /** The live stream cannot serve what the consumer fixated: it is shared memory
      and the modifier on offer was taken, or it is tiled and was not. */
  predicate Unservable(s: State, fixated: Option<nat>)
  {
    if fixated.Some? && fixated == s.transport.offeredModifier then s.transport.announced.Shm?
    else s.transport.announced.Dmabuf? && s.transport.announced.modifier != DRM_FORMAT_MOD_LINEAR
  }

  /** An answer a consumer that has fixated its format can live with. */
  predicate SameShape(s: State, info: StreamInfo)
  {
    && info.width == s.transport.width && info.height == s.transport.height
    && AnnouncedFormat(info.format).Some? && AnnouncedFormat(info.format).value.format == s.transport.announced.format
  }

  /** A fixation switches the stream if and only if the live one cannot serve it.
      The switch asks for dmabufs if and only if the modifier on offer was
      fixated, and works out if and only if the answer has the same shape. */
  lemma FixateRestarts(s: State, fixated: Option<nat>, restart: Restart)
    requires Valid(s) && !s.quit
    ensures var r := ApplyFixatedFormat(s, fixated, restart);
            var taken := fixated.Some? && fixated == s.transport.offeredModifier;
            && (r.quit <==> Unservable(s, fixated) && !(restart.Restarts? && SameShape(s, restart.info)))
            && (if r.quit then
                  && FailedRestart(s, r, taken) && OutputStop(s.transport.streamId) == r.sent[|s.sent|]
                  && (|r.sent| == |s.sent| + 1 <==> restart.StopFails?)
                else if !Unservable(s, fixated) then r == s.(mode := r.mode)
                else && restart.Restarts? && Restarted(s, r, restart.info)
                     && r.transport.dmabuf == taken && r.transport.offeredModifier == s.transport.offeredModifier)
  {
    hide GeometryOk, AnnouncedFormat, FreshBindings;
  }

  /** A geometry restart asks for what the last start asked for, works out if and
      only if the geometry is one to accept and the answer has it in a known
      format, and puts the modifier of the new slots on offer. */
  lemma GeometryRestarts(s: State, width: u32, height: u32, restart: Restart)
    requires Valid(s) && !s.quit
    ensures var (ok, r) := RestartGeometry(s, s.transport.streamId, width, height, restart);
            && (ok <==> && GeometryOk(width, height) && restart.Restarts? && restart.info.width == width && restart.info.height == height
                        && AnnouncedFormat(restart.info.format).Some?)
            && (if ok then
                  && Restarted(s, r, restart.info) && !r.quit && r.transport.width == width && r.transport.height == height
                  && r.transport.dmabuf == s.transport.dmabuf && r.mode == s.mode
                  && r.transport.offeredModifier == (if restart.info.format.DmabufPixels? && SlotsOf(restart.info) != []
                                                     then Some(restart.info.format.modifier) else None)
                else
                  && FailedRestart(s, r.(quit := true), s.transport.dmabuf)
                  && (r.sent == s.sent <==> !GeometryOk(width, height))
                  && (|r.sent| == |s.sent| + 1 <==> GeometryOk(width, height) && restart.StopFails?))
  {
    hide GeometryOk, FreshBindings;
  }

  /** After a failed restart the state is coherent and every claim stands; the
      releases go to a stream that may have been stopped. */
  lemma FailedIsCoherent(s: State, r: State, asked: bool, slot: nat)
    requires Coherent(s) && FailedRestart(s, r, asked)
    ensures Coherent(r) && Share(r, slot) == Share(s, slot)
  {
    hide GeometryOk;
    var more := r.sent[|s.sent|..];
    assert r.sent == s.sent + more;
    assert forall x <- more :: !x.BufferRelease?;
    assert multiset(r.sent) == multiset(s.sent) + multiset(more);
    assert multiset(more)[BufferRelease(s.transport.streamId, slot)] == 0;
  }

  /** Once the compositor has read the stop and the start, nothing is owed. */
  lemma RestartedIsCoherent(s: State, r: State, info: StreamInfo, slot: nat)
    requires Coherent(s) && Restarted(s, r, info)
    ensures Coherent(r.(sent := [])) && Share(r.(sent := []), slot) == 0
  {
    hide GeometryOk, AnnouncedFormat;
  }

  // ---------- teardown ----------

  lemma CountAppended(first: seq<Request>, rest: seq<Request>, r: Request)
    requires |first| <= 1
    ensures multiset(first + rest)[r] == multiset(rest)[r] + if first == [r] then 1 else 0
  {
    if first != [] { assert first == [first[0]]; }
  }

  lemma {:induction false} InFlightReleasesCount(t: TransportState, from: nat, slot: nat)
    requires from <= |t.bindings|
    ensures multiset(InFlightReleases(t, from))[BufferRelease(t.streamId, slot)] ==
            if from <= slot < |t.bindings| && t.bindings[slot].inFlight then 1 else 0
    decreases |t.bindings| - from
  {
    if from < |t.bindings| {
      InFlightReleasesCount(t, from + 1, slot);
      var first := if t.bindings[from].inFlight then [BufferRelease(t.streamId, from)] else [];
      assert InFlightReleases(t, from) == first + InFlightReleases(t, from + 1);
      hide InFlightReleases;
      CountAppended(first, InFlightReleases(t, from + 1), BufferRelease(t.streamId, slot));
      assert first == [BufferRelease(t.streamId, slot)] <==> slot == from && t.bindings[from].inFlight;
    }
  }

  /** Tearing down releases exactly the slots the consumer still holds, each
      once. */
  lemma TeardownReleasesFlight(s: State, slot: nat)
    ensures ReleaseShare(Teardown(s), slot) == ReleaseShare(s, slot) + FlightShare(s, slot)
    ensures Teardown(s).memory == map[]
  {
    InFlightReleasesCount(s.transport, 0, slot);
  }
}
