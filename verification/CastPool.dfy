/** The portal's pool of buffers over whole runs: whether buffers are reused in
    the order they came back, and whether each can still be found. */
module CastPool {
  import opened Wrappers
  import opened Frames
  import opened Cast
  import opened CastInvariants
  import opened CastBuffers
  import opened CastWorld
  import opened CastOwnership

  // ---------- the order of return ----------

  function Except(pool: seq<BufferId>, gone: set<BufferId>): seq<BufferId>
  {
    if pool == [] then []
    else (if pool[0] in gone then [] else [pool[0]]) + Except(pool[1..], gone)
  }

  /** The buffers back without a slot, in the order they came back, kept without
      a look at the stash: a cycle takes what was returned and gives away what
      it queues. */
  ghost function OrderAfter(order: seq<BufferId>, w: World, step: Step): seq<BufferId>
    requires Valid(w.cast) && Enabled(w, step)
  {
    match step
    case Cycle(source) =>
      Except(order + Unbound(w.cast.transport.bindings, w.cast.returned), NewlyQueued(w.cast, Process(w.cast, source)))
    case DropBuffer(buffer) => Except(order, {buffer})
    case _ => order
  }

  /** The file a cycle copies from, when it copies. */
  function CopySource(s: State): Option<(Descriptor, u32)>
    requires Valid(s)
  {
    if !s.pending || s.latest.None? then None
    else match s.latest.value
      case Described(file, stride, _) => Some((file, stride))
      case Slot(slot, _) =>
        if slot >= |s.transport.bindings| || s.transport.bindings[slot].inFlight then None
        else if ForwardingEligible(s) && s.transport.bindings[slot].pool.Some? then None
        else if !CpuMappable(s.transport.announced) then None
        else Some((s.transport.slotFiles[slot].file, s.transport.slotFiles[slot].stride))
  }

  /** The frame's file can be copied out of. */
  predicate Copyable(s: State, stride: u32, source: Source)
    requires Valid(s)
  {
    FrameLenIff(s.transport.width, s.transport.height);
    var needed := Needed(stride, s.transport.width * 4, s.transport.height);
    source.length.Some? && source.length.value >= needed && needed <= MAX_FRAME_BYTES && source.mappable
  }

  /** A cycle gets as far as taking a buffer for a copy. */
  predicate Copies(s: State, source: Source)
    requires Valid(s)
  {
    CopySource(s).Some? && Copyable(s, CopySource(s).value.1, source)
  }

  predicate TooSmall(s: State, buffer: BufferId)
  {
    buffer !in s.memory || s.memory[buffer] < s.transport.height * (s.transport.width * 4)
  }

  function Stash(s: State): seq<BufferId>
  {
    s.pool + Unbound(s.transport.bindings, s.returned)
  }

  /** A cycle whose copy meets a first buffer that cannot hold the frame, while
      others are stashed behind it. */
  ghost predicate Rotates(w: World, step: Step)
    requires Valid(w.cast) && Enabled(w, step)
  {
    step.Cycle? && var s := Reclaimed(w.cast); Copies(s, step.source) && |Stash(w.cast)| > 1 && TooSmall(s, Stash(w.cast)[0])
  }

  /** The cast once everything returned is taken back. */
  function Reclaimed(s: State): (r: State)
    requires Valid(s)
    ensures Valid(r) && OnlyReclaimed(s, r) && r.returned == []
  {
    ReclaimKeeps(s);
    Reclaim(s)
  }

  lemma {:induction false} ExceptNone(pool: seq<BufferId>, gone: set<BufferId>)
    requires forall x <- pool :: x !in gone
    ensures Except(pool, gone) == pool
  {
    if pool != [] { ExceptNone(pool[1..], gone); }
  }

  lemma {:induction false} ExceptOne(pool: seq<BufferId>, buffer: BufferId)
    ensures Except(pool, {buffer}) == Without(pool, buffer)
  {
    if pool != [] { ExceptOne(pool[1..], buffer); }
  }

  lemma ExceptFirst(pool: seq<BufferId>)
    requires pool != [] && NoDuplicates(pool)
    ensures Except(pool, {pool[0]}) == pool[1..]
  {
    hide Except;
    assert forall x <- pool[1..] :: x != pool[0];
    ExceptNone(pool[1..], {pool[0]});
    ExceptStep(pool, {pool[0]});
  }

  lemma ExceptStep(pool: seq<BufferId>, gone: set<BufferId>)
    requires pool != []
    ensures Except(pool, gone) == (if pool[0] in gone then [] else [pool[0]]) + Except(pool[1..], gone)
  {
  }

  // ---------- what a cycle does to the stash ----------

  /** The stash and the queued buffers after publishing. */
  ghost predicate Published(s: State, r: State, source: Source)
    requires Valid(s)
  {
    var q := NewlyQueued(s, r);
    if Copies(s, source) && s.pool != [] then
      if TooSmall(s, s.pool[0]) then r.pool == s.pool[1..] + [s.pool[0]] && q == {}
      else r.pool == s.pool[1..] && q == {s.pool[0]}
    else
      r.pool == s.pool && (q == {} || exists i | 0 <= i < |s.transport.bindings| ::
                             s.transport.bindings[i].pool.Some? && q == {s.transport.bindings[i].pool.value})
  }

  lemma CopyPublished(s: State, file: Descriptor, stride: u32, damage: Damage, source: Source)
    requires Valid(s) && s.returned == []
    ensures var r := CopyIntoPool(s, file, stride, damage, source).1; var q := NewlyQueued(s, r);
            if Copyable(s, stride, source) && s.pool != [] then
              if TooSmall(s, s.pool[0]) then r.pool == s.pool[1..] + [s.pool[0]] && q == {}
              else r.pool == s.pool[1..] && q == {s.pool[0]}
            else r.pool == s.pool && q == {}
  {
    hide GeometryOk, FrameLen, Needed;
    NothingQueued(s.queued);
    if s.pool != [] { OneQueued(s.queued, Queued(s.pool[0], s.sequence, damage, Copied(file, stride, s.transport.width, s.transport.height))); }
  }

  lemma NothingQueued(queued: seq<Queued>)
    ensures queued[|queued|..] == []
  {
  }

  lemma OneQueued(queued: seq<Queued>, q: Queued)
    ensures (queued + [q])[|queued|..] == [q]
  {
  }

  lemma PublishPublished(s: State, source: Source)
    requires Valid(s) && s.returned == [] && (s.pending ==> s.latest.Some?)
    ensures Published(s, Publish(s, source), source)
  {
    hide GeometryOk, Copyable, CopyIntoPool, TooSmall;
    NothingQueued(s.queued);
    if s.pending {
      match s.latest.value
      case Described(file, stride, damage) => CopyPublished(s, file, stride, damage, source);
      case Slot(slot, damage) => SlotPublished(s, slot, damage, source);
    }
  }

  lemma SlotPublished(s: State, slot: u32, damage: Damage, source: Source)
    requires Valid(s) && s.returned == [] && s.pending && s.latest == Some(Slot(slot, damage))
    ensures Published(s, Publish(s, source), source)
  {
    hide GeometryOk, Copyable, CopyIntoPool, TooSmall, ForwardingEligible, CpuMappable;
    NothingQueued(s.queued);
    if slot < |s.transport.bindings| {
      var file, binding := s.transport.slotFiles[slot], s.transport.bindings[slot];
      if !binding.inFlight && ForwardingEligible(s) && binding.pool.Some? {
        OneQueued(s.queued, Queued(binding.pool.value, s.sequence, damage, InPlace(s.transport.streamId, slot)));
        hide NewlyQueued;
        InPlaceQueues(s, slot, damage, source);
      } else {
        CopyPublished(s, file.file, file.stride, damage, source);
        hide NewlyQueued;
        ReleaseQueuesNothing(s, CopyIntoPool(s, file.file, file.stride, damage, source).1, slot);
        ReleaseQueuesNothing(s, Drop(s), slot);
      }
    }
  }

  lemma InPlaceQueues(s: State, slot: nat, damage: Damage, source: Source)
    requires Valid(s) && slot < |s.transport.bindings| && !s.transport.bindings[slot].inFlight
    requires ForwardingEligible(s) && s.transport.bindings[slot].pool.Some?
    ensures var r := PublishSlot(s, slot, damage, source).(pending := false);
            r.pool == s.pool && NewlyQueued(s, r) == {s.transport.bindings[slot].pool.value}
  {
    hide GeometryOk, CopyIntoPool, ForwardingEligible;
    var q := Queued(s.transport.bindings[slot].pool.value, s.sequence, damage, InPlace(s.transport.streamId, slot));
    OneQueued(s.queued, q);
  }

  lemma ReleaseQueuesNothing(s: State, c: State, slot: nat)
    ensures NewlyQueued(s, ReleaseSlot(c, slot).(pending := false)) == NewlyQueued(s, c)
    ensures ReleaseSlot(c, slot).(pending := false).pool == c.pool
    ensures NewlyQueued(s, Drop(s)) == {} && NewlyQueued(s, Drop(s).(pending := false)) == {}
  {
    NothingQueued(s.queued);
  }

  // ---------- one step ----------

  /** The stash stays in the order of return over a step if and only if the step
      does not rotate it. */
  lemma StepKeepsOrderIff(w: World, step: Step)
    requires Inv(w) && Enabled(w, step)
    ensures Next(w, step).cast.pool == OrderAfter(w.cast.pool, w, step) <==> !Rotates(w, step)
  {
    InvIsValid(w);
    match step
    case Cycle(source) => CycleOrder(w, source); hide Inv, Enabled, Process, Except, Unbound, NewlyQueued;
    case DropBuffer(buffer) => ExceptOne(w.cast.pool, buffer); hide Inv, Except, Without;
    case Read(restart, early) => ReadKeepsPool(w, restart, early); hide Inv, Enabled, Next, Reclaim;
    case Fixate(modifier, restart, early) => FixateKeepsPool(w.cast, modifier, restart); hide Inv, ApplyFixatedFormat, FreshRestart;
    case NewBuffer(buffer, hasData, backed) => hide Inv, FirstWith;
    case _ => hide Inv;
  }

  lemma ReadKeepsPool(w: World, restart: Restart, early: seq<Message>)
    requires Valid(w.cast) && Enabled(w, Read(restart, early))
    ensures Next(w, Read(restart, early)).cast.pool == w.cast.pool
  {
    var a := Delivered(w).0;
    if a.Event? { MessageKeepsPool(w.cast, a.message, restart); }
    hide ReadMessage, FreshRestart, AfterSkipped, Valid;
  }

  lemma MessageKeepsPool(s: State, message: Message, restart: Restart)
    ensures ReadMessage(s, message, restart).pool == s.pool
  {
    hide GeometryOk, AnnouncedFormat, ValidateFrame;
  }

  lemma FixateKeepsPool(s: State, modifier: Option<nat>, restart: Restart)
    ensures ApplyFixatedFormat(s, modifier, restart).pool == s.pool
  {
    hide AnnouncedFormat;
  }

  lemma CycleOrder(w: World, source: Source)
    requires Inv(w) && Enabled(w, Cycle(source))
    ensures Valid(w.cast)
    ensures var s := Reclaimed(w.cast);
            Process(w.cast, source).pool == Except(Stash(w.cast), NewlyQueued(w.cast, Process(w.cast, source)))
            <==> !(Copies(s, source) && |Stash(w.cast)| > 1 && TooSmall(s, Stash(w.cast)[0]))
  {
    NotStopped(w);
    InvIsValid(w);
    var c := w.cast;
    ReclaimBuffers(c, w.consumer, w.held);
    ReclaimStashes(c);
    ReclaimCoherent(c);
    var s := Reclaimed(c);
    PendingIsStored(s);
    PublishPublished(s, source);
    hide Inv, Enabled, Reclaim, Publish, Copies, TooSmall, Coherent, Unbound, Except, NewlyQueued;
    var r := Publish(s, source);
    assert NewlyQueued(c, r) == NewlyQueued(s, r) by { SameQueue(c, s, r); }
    StashHasNoBound(BuffersOf(s, w.consumer, w.held + Elements(c.returned)));
    AfterPublishing(s, r, source);
  }

  lemma PendingIsStored(s: State)
    requires Coherent(s)
    ensures s.pending ==> s.latest.Some?
  {
    hide GeometryOk;
  }

  lemma SameQueue(c: State, s: State, r: State)
    requires c.queued == s.queued
    ensures NewlyQueued(c, r) == NewlyQueued(s, r)
  {
  }

  lemma StashHasNoBound(b: Buffers)
    requires Placed(b)
    ensures NoDuplicates(b.pool)
    ensures forall i | 0 <= i < |b.bindings| && b.bindings[i].pool.Some? :: b.bindings[i].pool.value !in b.pool
  {
  }

  lemma AfterPublishing(s: State, r: State, source: Source)
    requires Valid(s) && Published(s, r, source) && NoDuplicates(s.pool)
    requires forall i | 0 <= i < |s.transport.bindings| && s.transport.bindings[i].pool.Some? :: s.transport.bindings[i].pool.value !in s.pool
    ensures r.pool == Except(s.pool, NewlyQueued(s, r)) <==> !(Copies(s, source) && |s.pool| > 1 && TooSmall(s, s.pool[0]))
  {
    hide Copies, TooSmall, NewlyQueued, Except;
    var q := NewlyQueued(s, r);
    if Copies(s, source) && s.pool != [] {
      if TooSmall(s, s.pool[0]) {
        ExceptNone(s.pool, {});
        if |s.pool| > 1 {
          assert s.pool[1] != s.pool[0];
          assert (s.pool[1..] + [s.pool[0]])[0] == s.pool[1];
        }
      } else {
        ExceptFirst(s.pool);
      }
    } else {
      ExceptNone(s.pool, q);
    }
  }

  // ---------- runs ----------

  ghost predicate InOrderThroughout(w: World, order: seq<BufferId>, steps: seq<Step>)
    requires Possible(w, steps)
    decreases |steps|
  {
    w.cast.pool == order && (steps == [] || InOrderThroughout(Next(w, steps[0]), OrderAfter(order, w, steps[0]), steps[1..]))
  }

  ghost predicate NeverRotates(w: World, steps: seq<Step>)
    requires Possible(w, steps)
    decreases |steps|
  {
    steps == [] || (!Rotates(w, steps[0]) && NeverRotates(Next(w, steps[0]), steps[1..]))
  }

  /** A copy goes into the buffer that has been back longest. */
  ghost predicate CopiesOldest(w: World, order: seq<BufferId>, step: Step)
    requires Valid(w.cast) && Enabled(w, step)
  {
    step.Cycle? ==>
      var r := Process(w.cast, step.source);
      |r.queued| > |w.cast.queued| && r.queued[|w.cast.queued|].shown.Copied? ==>
        var back := order + Unbound(w.cast.transport.bindings, w.cast.returned);
        back != [] && r.queued[|w.cast.queued|].buffer == back[0]
  }

  ghost predicate CopiesOldestThroughout(w: World, order: seq<BufferId>, steps: seq<Step>)
    requires Possible(w, steps)
    decreases |steps|
  {
    steps == [] || (CopiesOldest(w, order, steps[0]) && CopiesOldestThroughout(Next(w, steps[0]), OrderAfter(order, w, steps[0]), steps[1..]))
  }

  lemma InOrderCopiesOldest(w: World, step: Step)
    requires Inv(w) && Enabled(w, step)
    ensures CopiesOldest(w, w.cast.pool, step)
  {
    InvIsValid(w);
    if step.Cycle? {
      OldestIsReusedFirst(w.cast, step.source);
      hide Inv, Enabled, Process, Unbound;
    }
  }

  /** The stash is in the order of return throughout a run if and only if the run
      never rotates it; and then every copy goes into the buffer that has been
      back longest. */
  lemma {:induction false} OrderIff(w: World, steps: seq<Step>)
    requires Inv(w) && Possible(w, steps)
    ensures InOrderThroughout(w, w.cast.pool, steps) <==> NeverRotates(w, steps)
    ensures NeverRotates(w, steps) ==> CopiesOldestThroughout(w, w.cast.pool, steps)
    decreases |steps|
  {
    hide Inv, Enabled, Next, Rotates, OrderAfter, CopiesOldest;
    if steps != [] {
      StepKeepsInv(w, steps[0]);
      StepKeepsOrderIff(w, steps[0]);
      InOrderCopiesOldest(w, steps[0]);
      var n, order := Next(w, steps[0]), OrderAfter(w.cast.pool, w, steps[0]);
      if n.cast.pool == order { OrderIff(n, steps[1..]); }
    }
  }

  /** The same from the start of any cast. */
  lemma EveryCastOrderIff(info: StreamInfo, target: Target, cursor: CursorMode, early: seq<Message>, steps: seq<Step>)
    requires Started(info, target, cursor, early) && Possible(Begin(info, target, cursor, early).value, steps)
    ensures var w := Begin(info, target, cursor, early).value;
            && (InOrderThroughout(w, [], steps) <==> NeverRotates(w, steps))
            && (NeverRotates(w, steps) ==> CopiesOldestThroughout(w, [], steps))
  {
    BeginIsInv(info, target, cursor, early);
    var w := Begin(info, target, cursor, early).value;
    assert w.cast.pool == [];
    hide Begin, Started, Inv, Enabled, Next;
    OrderIff(w, steps);
  }

  // ---------- buffers the portal can still find ----------

  predicate Bound(s: State, buffer: BufferId)
  {
    exists i | 0 <= i < |s.transport.bindings| :: s.transport.bindings[i].pool == Some(buffer)
  }

  /** Every buffer the portal has is stashed or bound to a slot. */
  predicate NoneLost(w: World)
  {
    forall x <- w.held :: x in w.cast.pool || Bound(w.cast, x)
  }

  /** A restart that succeeds while a slot is bound to a buffer the portal has. */
  ghost predicate LosesBuffer(w: World, step: Step)
    requires Valid(w.cast) && Enabled(w, step)
  {
    Next(w, step).live.streamId != w.live.streamId && exists x <- w.held :: Bound(w.cast, x)
  }

  lemma {:induction false} ReclaimPlaces(s: State, x: BufferId)
    requires Coherent(s)
    requires x in s.returned || x in s.pool || Bound(s, x)
    ensures x in Reclaim(s).pool || Bound(Reclaim(s), x)
    decreases |s.returned|
  {
    hide ReclaimOne, GeometryOk, Bound;
    if s.returned != [] {
      var b, next := s.returned[0], s.(returned := s.returned[1..]);
      assert s.returned == [b] + next.returned;
      ReclaimOnePlaces(next, b, x);
      assert Bound(next, x) == Bound(s, x) by { SameBound(s, next, x); }
      ReturnedCoherent(s, next.returned);
      ReclaimOneCoherent(next, b);
      ReclaimOneKeeps(next, b);
      ReclaimPlaces(ReclaimOne(next, b), x);
    }
  }

  lemma ReturnedCoherent(s: State, returned: seq<BufferId>)
    requires Coherent(s)
    ensures Coherent(s.(returned := returned))
  {
    hide GeometryOk;
  }

  lemma SameBound(s: State, r: State, x: BufferId)
    requires |r.transport.bindings| == |s.transport.bindings|
    requires forall i | 0 <= i < |s.transport.bindings| :: r.transport.bindings[i].pool == s.transport.bindings[i].pool
    ensures Bound(r, x) == Bound(s, x)
  {
  }

  /** Taking one buffer back: it is bound or stashed afterwards, and so is what was. */
  lemma ReclaimOnePlaces(s: State, buffer: BufferId, x: BufferId)
    requires Coherent(s)
    ensures x == buffer || x in s.pool || Bound(s, x) ==> x in ReclaimOne(s, buffer).pool || Bound(ReclaimOne(s, buffer), x)
  {
    hide FirstWith, GeometryOk;
    FirstWithFinds(s.transport.bindings, Some(buffer));
    var at, r := FirstWith(s.transport.bindings, Some(buffer)), ReclaimOne(s, buffer);
    if at.Some? {
      SameBound(s, r, x);
      assert s.transport.bindings[at.value].pool == Some(buffer);
    } else {
      SameBound(s, r, x);
    }
  }

  /** Publishing takes no buffer out of the stash but the one it queues. */
  lemma PublishPlaces(s: State, source: Source, x: BufferId)
    requires Coherent(s) && s.returned == [] && (x in s.pool || Bound(s, x))
    ensures var r := Publish(s, source); x in NewlyQueued(s, r) || x in r.pool || Bound(r, x)
  {
    PendingIsStored(s);
    PublishPublished(s, source);
    PublishBindings(s, source);
    hide Publish, NewlyQueued, Copies, TooSmall, Coherent, Bound;
    var r := Publish(s, source);
    SameBound(s, r, x);
    if x in s.pool && s.pool != [] {
      assert s.pool == [s.pool[0]] + s.pool[1..];
    }
  }

  lemma PublishBindings(s: State, source: Source)
    requires Coherent(s)
    ensures |Publish(s, source).transport.bindings| == |s.transport.bindings|
    ensures forall i | 0 <= i < |s.transport.bindings| :: Publish(s, source).transport.bindings[i].pool == s.transport.bindings[i].pool
  {
    hide GeometryOk, CopyIntoPool;
    if s.pending {
      match s.latest.value
      case Described(file, stride, damage) => CopyKeeps(s, file, stride, damage, source);
      case Slot(slot, damage) =>
        if slot < |s.transport.bindings| {
          CopyKeeps(s, s.transport.slotFiles[slot].file, s.transport.slotFiles[slot].stride, damage, source);
        }
    }
  }

  lemma CyclePlaces(w: World, source: Source)
    requires Inv(w) && Enabled(w, Cycle(source)) && NoneLost(w)
    ensures NoneLost(Next(w, Cycle(source)))
  {
    NotStopped(w);
    var c, n := w.cast, Next(w, Cycle(source));
    ReclaimKeeps(c);
    ReclaimCoherent(c);
    hide Inv, Enabled, Reclaim, Publish, Coherent, Bound, NewlyQueued;
    forall x <- n.held ensures x in n.cast.pool || Bound(n.cast, x) {
      ReclaimPlaces(c, x);
      PublishPlaces(Reclaim(c), source, x);
      SameQueue(c, Reclaim(c), n.cast);
    }
  }

  lemma DropPlaces(w: World, buffer: BufferId)
    requires Inv(w) && Enabled(w, DropBuffer(buffer)) && NoneLost(w)
    ensures NoneLost(Next(w, DropBuffer(buffer)))
  {
    InvIsValid(w);
    var n := Next(w, DropBuffer(buffer));
    forall x <- n.held ensures x in n.cast.pool || Bound(n.cast, x) { RemovedPlace(w.cast, buffer, x); }
    hide Inv, Bound, RemoveBuffer, Without;
  }

  /** Another buffer stays where it is. */
  lemma RemovedPlace(s: State, buffer: BufferId, x: BufferId)
    requires x != buffer && (x in s.pool || Bound(s, x))
    ensures x in RemoveBuffer(s, buffer).pool || Bound(RemoveBuffer(s, buffer), x)
  {
    hide FirstWith, Without;
    FirstWithFinds(s.transport.bindings, Some(buffer));
    WithoutIs(s.pool, buffer);
    if x !in s.pool {
      var i :| 0 <= i < |s.transport.bindings| && s.transport.bindings[i].pool == Some(x);
      assert RemoveBuffer(s, buffer).transport.bindings[i].pool == Some(x);
    }
  }

  lemma AddPlaces(w: World, buffer: BufferId, hasData: bool, backed: bool)
    requires Inv(w) && Enabled(w, NewBuffer(buffer, hasData, backed)) && NoneLost(w)
    ensures NoneLost(Next(w, NewBuffer(buffer, hasData, backed)))
  {
    InvIsValid(w);
    var n := Next(w, NewBuffer(buffer, hasData, backed));
    hide Inv, FirstWith;
    FirstWithFinds(w.cast.transport.bindings, None);
    forall x <- n.held ensures x in n.cast.pool || Bound(n.cast, x) {
      if x !in w.cast.pool {
        var i :| 0 <= i < |w.cast.transport.bindings| && w.cast.transport.bindings[i].pool == Some(x);
        assert n.cast.transport.bindings[i].pool == Some(x);
      }
    }
  }

  /** A restart drops every binding; buffers, stash and who has what stay. */
  lemma RestartPlaces(w: World, n: World)
    requires Inv(w) && NoneLost(w) && n.held == w.held && n.cast.pool == w.cast.pool
    requires forall i | 0 <= i < |n.cast.transport.bindings| :: n.cast.transport.bindings[i].pool.None?
    ensures NoneLost(n) <==> forall x <- w.held :: !Bound(w.cast, x)
  {
    hide Coherent, Agrees, InboundOk;
    StashHasNoBound(Now(w));
    hide Placed;
    forall x | x in w.held && Bound(w.cast, x) ensures !NoneLost(n) {
      assert x !in w.cast.pool && !Bound(n.cast, x);
    }
  }

  /** What a restarting step does to bindings, stash and held buffers. */
  lemma RestartingKeeps(w: World, step: Step)
    requires Inv(w) && Enabled(w, step) && (step.Read? || step.Fixate?)
    ensures var n := Next(w, step);
            && n.held == w.held && n.cast.pool == w.cast.pool
            && (if n.live.streamId != w.live.streamId
                then forall i | 0 <= i < |n.cast.transport.bindings| :: n.cast.transport.bindings[i].pool.None?
                else n.cast.transport.bindings == w.cast.transport.bindings)
  {
    InvIsValid(w);
    LiveIsOld(w);
    StepKeepsInv(w, step);
    match step
    case Read(restart, early) => ReadKeepsPool(w, restart, early); ReadBindings(w, restart, early);
    case Fixate(modifier, restart, early) => FixateKeepsPool(w.cast, modifier, restart); FixateBindings(w, modifier, restart, early);
  }

  lemma FixateBindings(w: World, modifier: Option<nat>, restart: Restart, early: seq<Message>)
    requires Inv(w) && Enabled(w, Fixate(modifier, restart, early))
    ensures var n := Next(w, Fixate(modifier, restart, early));
            && n.held == w.held
            && (if n.live.streamId != w.live.streamId
                then forall i | 0 <= i < |n.cast.transport.bindings| :: n.cast.transport.bindings[i].pool.None?
                else n.cast.transport.bindings == w.cast.transport.bindings)
  {
    NotStopped(w);
    LiveIsOld(w);
    FixateRestarts(w.cast, modifier, restart);
    var r := ApplyFixatedFormat(w.cast, modifier, restart);
    hide Coherent, Placed, EventsOf, ApplyFixatedFormat, EarlyOk, AnnouncedFormat, GeometryOk, InboundOk;
  }

  lemma ReadBindings(w: World, restart: Restart, early: seq<Message>)
    requires Inv(w) && Enabled(w, Read(restart, early))
    ensures var n := Next(w, Read(restart, early));
            && n.held == w.held
            && (if n.live.streamId != w.live.streamId
                then forall i | 0 <= i < |n.cast.transport.bindings| :: n.cast.transport.bindings[i].pool.None?
                else n.cast.transport.bindings == w.cast.transport.bindings)
  {
    InvIsValid(w);
    NextReads(w, restart, early);
    NotStopped(w);
    LiveIsOld(w);
    DeliveredFirst(w);
    var a := Delivered(w).0;
    if a.Event? { ReadTransport(w.cast, a.message, restart); }
    hide Inv, Enabled, Next, ReadMessage, Delivered, Readable, Stores, EarlyOk;
  }

  /** A message leaves the transport as it is or starts one without bindings. */
  lemma ReadTransport(s: State, message: Message, restart: Restart)
    requires Valid(s) && !s.quit
    ensures var t := ReadMessage(s, message, restart).transport;
            || t == s.transport
            || (restart.Restarts? && t.streamId == restart.info.streamId && forall i | 0 <= i < |t.bindings| :: t.bindings[i].pool.None?)
  {
    if message.GeometryChanged? { GeometryRestarts(s, message.width, message.height, restart); }
    hide RestartGeometry, AnnouncedFormat, GeometryOk, ValidateFrame, Valid;
  }

  /** The portal can find all its buffers after a step if and only if the step is
      no restart under a slot bound to a buffer it has. */
  lemma StepLosesIff(w: World, step: Step)
    requires Inv(w) && Enabled(w, step) && NoneLost(w)
    ensures NoneLost(Next(w, step)) <==> !LosesBuffer(w, step)
  {
    InvIsValid(w);
    match step
    case Cycle(source) => CyclePlaces(w, source); SteadyStep(w, step); hide Inv, Enabled, Next, NoneLost;
    case DropBuffer(buffer) => DropPlaces(w, buffer); SteadyStep(w, step); hide Inv, Enabled, Next, NoneLost;
    case NewBuffer(buffer, hasData, backed) => AddPlaces(w, buffer, hasData, backed); SteadyStep(w, step); hide Inv, Enabled, Next, NoneLost;
    case Read(_, _) => RestartingLoses(w, step);
    case Fixate(_, _, _) => RestartingLoses(w, step);
    case _ => SteadyStep(w, step); hide Inv;
  }

  lemma RestartingLoses(w: World, step: Step)
    requires Inv(w) && Enabled(w, step) && NoneLost(w) && (step.Read? || step.Fixate?)
    ensures NoneLost(Next(w, step)) <==> !LosesBuffer(w, step)
  {
    InvIsValid(w);
    RestartingKeeps(w, step);
    hide Inv, Enabled, Next, NoneLost, Bound;
    var n := Next(w, step);
    if n.live.streamId != w.live.streamId { RestartPlaces(w, n); } else { SamePlaces(w, n); }
  }

  lemma SamePlaces(w: World, n: World)
    requires NoneLost(w) && n.held == w.held && n.cast.pool == w.cast.pool && n.cast.transport.bindings == w.cast.transport.bindings
    ensures NoneLost(n)
  {
    hide Bound;
    forall x <- n.held ensures x in n.cast.pool || Bound(n.cast, x) { SameBound(w.cast, n.cast, x); }
  }

  ghost predicate NoneLostThroughout(w: World, steps: seq<Step>)
    requires Possible(w, steps)
    decreases |steps|
  {
    NoneLost(w) && (steps == [] || NoneLostThroughout(Next(w, steps[0]), steps[1..]))
  }

  ghost predicate NeverLoses(w: World, steps: seq<Step>)
    requires Possible(w, steps)
    decreases |steps|
  {
    steps == [] || (!LosesBuffer(w, steps[0]) && NeverLoses(Next(w, steps[0]), steps[1..]))
  }

  lemma {:induction false} LosesIff(w: World, steps: seq<Step>)
    requires Inv(w) && NoneLost(w) && Possible(w, steps)
    ensures NoneLostThroughout(w, steps) <==> NeverLoses(w, steps)
    decreases |steps|
  {
    hide Inv, Enabled, Next, NoneLost, LosesBuffer;
    if steps != [] {
      StepKeepsInv(w, steps[0]);
      StepLosesIff(w, steps[0]);
      if NoneLost(Next(w, steps[0])) { LosesIff(Next(w, steps[0]), steps[1..]); }
    }
  }

  /** In every run of a cast the portal can find all its buffers throughout if
      and only if no restart succeeds under a slot bound to a buffer it has. */
  lemma EveryCastLosesIff(info: StreamInfo, target: Target, cursor: CursorMode, early: seq<Message>, steps: seq<Step>)
    requires Started(info, target, cursor, early) && Possible(Begin(info, target, cursor, early).value, steps)
    ensures var w := Begin(info, target, cursor, early).value; NoneLostThroughout(w, steps) <==> NeverLoses(w, steps)
  {
    BeginIsInv(info, target, cursor, early);
    var w := Begin(info, target, cursor, early).value;
    assert NoneLost(w);
    hide Begin, Started, Inv, Enabled, Next, NoneLost;
    LosesIff(w, steps);
  }
}
