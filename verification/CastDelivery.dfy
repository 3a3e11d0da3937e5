/** What becomes of the frames of a cast: none disappears uncounted, and none
    counts twice. */
module CastDelivery {
  import opened Wrappers
  import opened Frames
  import opened Cast
  import opened CastInvariants
  import opened CastBuffers
  import opened CastWorld
  import opened CastOwnership
  import opened CastRequests
  import opened CastPool

  function Waiting(s: State): nat
  {
    if s.pending then 1 else 0
  }

  // ---------- one cycle ----------

  /** A copy finds no buffer: none is stashed and none came back without a slot. */
  predicate OutOfBuffers(s: State, source: Source)
    requires Valid(s)
  {
    Copies(Reclaimed(s), source) && Stash(s) == []
  }

  predicate StoredInSlot(s: State)
  {
    s.latest.Some? && s.latest.value.Slot?
  }

  lemma CopyAccounts(s: State, file: Descriptor, stride: u32, damage: Damage, source: Source)
    requires Valid(s) && s.returned == []
    ensures var (done, r) := CopyIntoPool(s, file, stride, damage, source);
            && r == s.(queued := r.queued, dropped := r.dropped, pool := r.pool, sequence := r.sequence)
            && |r.queued| + r.dropped == |s.queued| + s.dropped + (if done then 1 else 0)
            && (done <==> !(Copyable(s, stride, source) && s.pool == []))
  {
    hide GeometryOk, FrameLen, Needed;
  }

  lemma PublishAccounts(s: State, source: Source)
    requires Valid(s) && s.returned == [] && (s.pending ==> s.latest.Some?)
    ensures var r := Publish(s, source); var without := Copies(s, source) && s.pool == [];
            && r.latest == s.latest && (r.pending <==> without && !StoredInSlot(s))
            && |r.queued| + r.dropped + Waiting(r) + (if without && StoredInSlot(s) then 1 else 0)
               == |s.queued| + s.dropped + Waiting(s)
  {
    hide GeometryOk, Copyable, CopyIntoPool, ForwardingEligible, CpuMappable;
    if s.pending {
      match s.latest.value
      case Described(file, stride, damage) => CopyAccounts(s, file, stride, damage, source);
      case Slot(slot, damage) =>
        if slot < |s.transport.bindings| {
          CopyAccounts(s, s.transport.slotFiles[slot].file, s.transport.slotFiles[slot].stride, damage, source);
        }
    }
  }

  /** A cycle that finds a frame waiting queues it or counts it as dropped, once.
      Out of buffers, a frame in a file goes on waiting, and one in a slot is given
      up without being counted. */
  lemma CycleAccounts(s: State, source: Source)
    requires Valid(s) && (s.pending ==> s.latest.Some?)
    ensures var r := Process(s, source); var without := OutOfBuffers(s, source);
            && r.latest == s.latest && (r.pending <==> without && !StoredInSlot(s))
            && |r.queued| + r.dropped + Waiting(r) + (if without && StoredInSlot(s) then 1 else 0)
               == |s.queued| + s.dropped + Waiting(s)
  {
    ReclaimStashes(s);
    PublishAccounts(Reclaimed(s), source);
    hide Publish, Reclaim, Copies, Unbound;
  }

  // ---------- removing a buffer ----------

  /** Removing a buffer unbinds it, releases its slot if the consumer had it, and
      touches nothing of any other buffer. */
  lemma RemoveBufferTouches(s: State, buffer: BufferId)
    requires DistinctBindings(s.transport.bindings)
    ensures var r := RemoveBuffer(s, buffer); var b := s.transport.bindings;
            && r == s.(transport := s.transport.(bindings := r.transport.bindings), memory := s.memory - {buffer},
                       pool := Except(s.pool, {buffer}), sent := r.sent)
            && |r.transport.bindings| == |b|
            && (forall i | 0 <= i < |b| ::
                  && r.transport.bindings[i] == (if b[i].pool == Some(buffer) then Binding(None, false) else b[i])
                  && (b[i].pool == Some(buffer) ==>
                        r.sent == s.sent + if b[i].inFlight && s.transport.slotFiles != []
                                           then [BufferRelease(s.transport.streamId, i)] else []))
            && ((forall i | 0 <= i < |b| :: b[i].pool != Some(buffer)) ==> r.sent == s.sent)
  {
    ExceptOne(s.pool, buffer);
    FirstWithFinds(s.transport.bindings, Some(buffer));
    hide Without, Except, FirstWith;
  }

  // ---------- whole runs ----------

  /** Frames stored, stored frames that are to be shown once more, and those that
      made way for the next frame, for a restarted stream, or for want of a
      buffer. */
  datatype Tally = Tally(stored: nat, rearmed: nat, superseded: nat, cleared: nat, givenUp: nat)

  /** A read delivers a frame of the live stream. */
  predicate BringsFrame(w: World, step: Step)
  {
    step.Read? && Readable(w) && Delivered(w).0.Event? && Stores(w, Delivered(w).0.message)
  }

  ghost function Tallied(t: Tally, w: World, step: Step): Tally
    requires Valid(w.cast) && Enabled(w, step)
  {
    var s := w.cast;
    if BringsFrame(w, step) then t.(stored := t.stored + 1, superseded := t.superseded + Waiting(s))
    else if Switches(w, step) && !Next(w, step).cast.quit then t.(cleared := t.cleared + Waiting(s))
    else match step
      case StartStreaming => t.(rearmed := t.rearmed + if s.latest.Some? && !s.pending then 1 else 0)
      case Cycle(source) => t.(givenUp := t.givenUp + if StoredInSlot(s) && OutOfBuffers(s, source) then 1 else 0)
      case _ => t
  }

  ghost function TallyOf(t: Tally, w: World, steps: seq<Step>): Tally
    requires Possible(w, steps)
    decreases |steps|
  {
    if steps == [] then t else TallyOf(Tallied(t, w, steps[0]), Next(w, steps[0]), steps[1..])
  }

  /** Everything that was to be shown was queued, dropped, or made way, or waits. */
  predicate Accounted(s: State, t: Tally)
  {
    t.stored + t.rearmed == |s.queued| + s.dropped + t.superseded + t.cleared + t.givenUp + Waiting(s)
  }

  lemma ReadAccounts(w: World, restart: Restart, early: seq<Message>, t: Tally)
    requires Inv(w) && Valid(w.cast) && Enabled(w, Read(restart, early)) && Accounted(w.cast, t)
    ensures Accounted(Next(w, Read(restart, early)).cast, Tallied(t, w, Read(restart, early)))
  {
    NotStopped(w);
    LiveIsOld(w);
    NextReads(w, restart, early);
    var a := Delivered(w).0;
    if a.Event? { MessageAccounts(w, a.message, restart); }
    hide Inv, Valid, Enabled, Next, Delivered, FreshRestart, Readable, Stores, GeometryOk, ReadMessage;
  }

  lemma MessageAccounts(w: World, message: Message, restart: Restart)
    requires Inv(w) && Valid(w.cast) && !w.cast.quit
    ensures var r := ReadMessage(w.cast, message, restart);
            var switched := message.GeometryChanged? && message.streamId == w.live.streamId && GeometryOk(message.width, message.height);
            && |r.queued| == |w.cast.queued| && r.dropped == w.cast.dropped
            && Waiting(r) == if Stores(w, message) then 1 else if switched && !r.quit then 0 else Waiting(w.cast)
  {
    LiveIsOld(w);
    match message
    case FrameReady(frame) =>
      FrameIsStoredIff(w, frame, restart);
      hide Inv, Valid, ReadMessage, ReplaceLatest, Stores, PayloadFits;
    case GeometryChanged(streamId, width, height) =>
      GeometryRestarts(w.cast, width, height, restart);
      hide Inv, Valid, RestartGeometry, GeometryOk, AnnouncedFormat, FreshBindings;
    case _ => hide Inv, Valid, GeometryOk;
  }

  lemma FixateAccounts(w: World, modifier: Option<nat>, restart: Restart, early: seq<Message>, t: Tally)
    requires Inv(w) && Valid(w.cast) && Enabled(w, Fixate(modifier, restart, early)) && Accounted(w.cast, t)
    ensures Accounted(Next(w, Fixate(modifier, restart, early)).cast, Tallied(t, w, Fixate(modifier, restart, early)))
  {
    NextFixates(w, modifier, restart, early);
    FixateRestarts(w.cast, modifier, restart);
    hide Inv, Valid, Enabled, Next, FreshRestart, ApplyFixatedFormat, Unservable, SameShape, GeometryOk, AnnouncedFormat, FreshBindings;
  }

  lemma CycleStepAccounts(w: World, source: Source, t: Tally)
    requires Inv(w) && Valid(w.cast) && Enabled(w, Cycle(source)) && Accounted(w.cast, t)
    ensures Accounted(Next(w, Cycle(source)).cast, Tallied(t, w, Cycle(source)))
  {
    NotStopped(w);
    PendingIsStored(w.cast);
    CycleAccounts(w.cast, source);
    hide Inv, Coherent, Process, OutOfBuffers;
  }

  lemma StepAccounts(w: World, step: Step, t: Tally)
    requires Inv(w) && Enabled(w, step) && Accounted(w.cast, t)
    ensures Valid(w.cast) && Accounted(Next(w, step).cast, Tallied(t, w, step))
  {
    InvIsValid(w);
    match step
    case Read(restart, early) => ReadAccounts(w, restart, early, t); hide Inv, Enabled, Next, Tallied;
    case Fixate(modifier, restart, early) => FixateAccounts(w, modifier, restart, early, t); hide Inv, Enabled, Next, Tallied;
    case Cycle(source) => CycleStepAccounts(w, source, t); hide Inv, Enabled, Next, Tallied;
    case DropBuffer(buffer) =>
      BindingsDiffer(w);
      RemoveBufferTouches(w.cast, buffer);
      hide Inv, RemoveBuffer, Known;
    case _ => hide Inv, FirstWith, Process;
  }

  lemma BindingsDiffer(w: World)
    requires Inv(w)
    ensures DistinctBindings(w.cast.transport.bindings)
  {
    hide Coherent, Agrees, InboundOk;
  }

  lemma {:induction false} RunAccounts(w: World, steps: seq<Step>, t: Tally)
    requires Inv(w) && Possible(w, steps) && Accounted(w.cast, t)
    ensures Accounted(After(w, steps).cast, TallyOf(t, w, steps))
    decreases |steps|
  {
    hide Inv, Enabled, Next, Tallied, Accounted;
    if steps != [] {
      StepKeepsInv(w, steps[0]);
      StepAccounts(w, steps[0], t);
      RunAccounts(Next(w, steps[0]), steps[1..], Tallied(t, w, steps[0]));
    }
  }

  /** Over every run of any cast: the frames stored and the stored ones shown
      again are, to the number, those queued, those counted as dropped, those that
      made way, and the one still waiting. */
  lemma EveryFrameIsAccountedFor(info: StreamInfo, target: Target, cursor: CursorMode, early: seq<Message>, steps: seq<Step>)
    requires Started(info, target, cursor, early) && Possible(Begin(info, target, cursor, early).value, steps)
    ensures var w := Begin(info, target, cursor, early).value;
            Accounted(After(w, steps).cast, TallyOf(Tally(0, 0, 0, 0, 0), w, steps))
  {
    BeginIsInv(info, target, cursor, early);
    var w := Begin(info, target, cursor, early).value;
    assert Accounted(w.cast, Tally(0, 0, 0, 0, 0));
    hide Begin, Started, Inv, Enabled, Next;
    RunAccounts(w, steps, Tally(0, 0, 0, 0, 0));
  }
}
