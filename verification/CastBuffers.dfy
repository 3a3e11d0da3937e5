/** Who has each PipeWire buffer: the consumer, the queue of returned buffers,
    or the portal, which keeps it stashed or bound to a slot. */
module CastBuffers {
  import opened Wrappers
  import opened Frames
  import opened Cast
  import opened CastInvariants

  predicate NoDuplicates(pool: seq<BufferId>)
  {
    forall i, j | 0 <= i < j < |pool| :: pool[i] != pool[j]
  }

  /** The bindings and lists of buffers, and who has which buffer. */
  datatype Buffers = Buffers(
    bindings: seq<Binding>, pool: seq<BufferId>, returned: seq<BufferId>, memory: set<BufferId>,
    consumer: set<BufferId>, held: set<BufferId>)

  function BuffersOf(s: State, consumer: set<BufferId>, held: set<BufferId>): Buffers
  {
    Buffers(s.transport.bindings, s.pool, s.returned, s.memory.Keys, consumer, held)
  }

  /** Every buffer has one owner. */
  predicate OneOwner(b: Buffers)
  {
    && b.consumer !! b.held
    && NoDuplicates(b.returned)
    && forall x <- b.returned :: x !in b.consumer && x !in b.held
  }

  predicate Known(b: Buffers, x: BufferId)
  {
    x in b.held || x in b.consumer || x in b.returned
  }

  /** The stash holds each of its buffers once, and none that is bound. */
  predicate StashOk(b: Buffers)
  {
    && NoDuplicates(b.pool)
    && (forall x <- b.pool :: x in b.held)
    && (forall i | 0 <= i < |b.bindings| :: b.bindings[i].pool.Some? ==> b.bindings[i].pool.value !in b.pool)
  }

  predicate DistinctBindings(bindings: seq<Binding>)
  {
    forall i, j | 0 <= i < j < |bindings| :: bindings[i].pool.Some? ==> bindings[i].pool != bindings[j].pool
  }

  /** A bound buffer is with the portal or on its way back when its slot is
      idle, and away when the slot is in flight; it is never portal memory. */
  predicate BindingOk(b: Buffers, binding: Binding)
  {
    binding.pool.Some? ==>
      && Known(b, binding.pool.value)
      && (if binding.inFlight then binding.pool.value !in b.held else binding.pool.value !in b.consumer)
      && binding.pool.value !in b.memory
  }

  predicate BindingsOk(b: Buffers)
  {
    DistinctBindings(b.bindings) && forall i | 0 <= i < |b.bindings| :: BindingOk(b, b.bindings[i])
  }

  predicate MemoryOk(b: Buffers)
  {
    forall x <- b.memory :: Known(b, x)
  }

  predicate Placed(b: Buffers)
  {
    OneOwner(b) && StashOk(b) && BindingsOk(b) && MemoryOk(b)
  }

  predicate BuffersOk(s: State, consumer: set<BufferId>, held: set<BufferId>)
  {
    Placed(BuffersOf(s, consumer, held))
  }

  function Elements(pool: seq<BufferId>): set<BufferId>
  {
    set b | b in pool
  }

  // ---------- moving one buffer ----------

  /** Taking the first returned buffer into the stash. */
  lemma StashFirst(b: Buffers)
    requires Placed(b) && b.returned != []
    requires forall i | 0 <= i < |b.bindings| :: b.bindings[i].pool != Some(b.returned[0])
    ensures Placed(b.(returned := b.returned[1..], pool := b.pool + [b.returned[0]], held := b.held + {b.returned[0]}))
  {
    var x := b.returned[0];
    assert b.returned == [x] + b.returned[1..];
    var r := b.(returned := b.returned[1..], pool := b.pool + [x], held := b.held + {x});
    assert forall y :: Known(b, y) ==> Known(r, y);
    assert OneOwner(r) && MemoryOk(r);
    assert StashOk(r);
    assert BindingsOk(r) by {
      forall i | 0 <= i < |r.bindings| ensures BindingOk(r, r.bindings[i]) { assert BindingOk(b, b.bindings[i]); }
    }
  }

  /** Taking back the first returned buffer when a slot is bound to it. */
  lemma TakeBackBound(b: Buffers, slot: nat)
    requires Placed(b) && b.returned != [] && slot < |b.bindings| && b.bindings[slot].pool == Some(b.returned[0])
    ensures Placed(b.(returned := b.returned[1..], bindings := b.bindings[slot := Binding(Some(b.returned[0]), false)],
                      held := b.held + {b.returned[0]}))
  {
    var x := b.returned[0];
    assert b.returned == [x] + b.returned[1..];
    var r := b.(returned := b.returned[1..], bindings := b.bindings[slot := Binding(Some(x), false)], held := b.held + {x});
    assert forall y :: Known(b, y) ==> Known(r, y);
    assert OneOwner(r) && MemoryOk(r);
    assert StashOk(r);
    assert BindingsOk(r) by {
      forall i | 0 <= i < |r.bindings| ensures BindingOk(r, r.bindings[i]) { assert BindingOk(b, b.bindings[i]); }
    }
  }

  /** Queueing the first stashed buffer. */
  lemma QueueFirst(b: Buffers)
    requires Placed(b) && b.returned == [] && b.pool != []
    ensures b.pool[0] in b.held
    ensures Placed(b.(pool := b.pool[1..], consumer := b.consumer + {b.pool[0]}, held := b.held - {b.pool[0]}))
  {
    var x := b.pool[0];
    assert b.pool == [x] + b.pool[1..];
    assert forall y <- b.pool[1..] :: y != x;
    var r := b.(pool := b.pool[1..], consumer := b.consumer + {x}, held := b.held - {x});
    assert forall y :: Known(b, y) ==> Known(r, y);
    assert OneOwner(r) && MemoryOk(r) && StashOk(r);
    assert BindingsOk(r) by {
      forall i | 0 <= i < |r.bindings| ensures BindingOk(r, r.bindings[i]) { assert BindingOk(b, b.bindings[i]); }
    }
  }

  /** Putting the first stashed buffer at the end of the stash. */
  lemma RotateStash(b: Buffers)
    requires Placed(b) && b.pool != []
    ensures Placed(b.(pool := b.pool[1..] + [b.pool[0]]))
  {
    assert b.pool == [b.pool[0]] + b.pool[1..];
    var r := b.(pool := b.pool[1..] + [b.pool[0]]);
    assert forall y :: y in r.pool <==> y in b.pool;
    assert StashOk(r);
    assert forall i | 0 <= i < |r.bindings| :: BindingOk(b, b.bindings[i]) ==> BindingOk(r, r.bindings[i]);
  }

  /** Queueing the buffer of an idle slot. */
  lemma QueueBound(b: Buffers, slot: nat)
    requires Placed(b) && b.returned == [] && slot < |b.bindings| && b.bindings[slot].pool.Some? && !b.bindings[slot].inFlight
    ensures b.bindings[slot].pool.value in b.held
    ensures var x := b.bindings[slot].pool.value;
            Placed(b.(bindings := b.bindings[slot := Binding(Some(x), true)], consumer := b.consumer + {x}, held := b.held - {x}))
  {
    var x := b.bindings[slot].pool.value;
    assert BindingOk(b, b.bindings[slot]);
    var r := b.(bindings := b.bindings[slot := Binding(Some(x), true)], consumer := b.consumer + {x}, held := b.held - {x});
    assert forall y :: Known(b, y) ==> Known(r, y);
    assert OneOwner(r) && MemoryOk(r) && StashOk(r);
    assert BindingsOk(r) by {
      forall i | 0 <= i < |r.bindings| ensures BindingOk(r, r.bindings[i]) { assert BindingOk(b, b.bindings[i]); }
    }
  }

  /** A new buffer waits to be taken by the portal, bound or not. */
  lemma AppendReturned(b: Buffers, x: BufferId)
    requires Placed(b) && !Known(b, x)
    ensures Placed(b.(returned := b.returned + [x]))
  {
    var r := b.(returned := b.returned + [x]);
    assert forall y :: Known(b, y) ==> Known(r, y);
    assert forall i | 0 <= i < |r.bindings| :: BindingOk(b, b.bindings[i]) ==> BindingOk(r, r.bindings[i]);
  }

  lemma BindNew(b: Buffers, slot: nat, x: BufferId)
    requires Placed(b) && slot < |b.bindings| && b.bindings[slot] == Binding(None, false)
    requires x in b.returned && x !in b.memory && forall i | 0 <= i < |b.bindings| :: b.bindings[i].pool != Some(x)
    ensures Placed(b.(bindings := b.bindings[slot := Binding(Some(x), false)]))
  {
    var r := b.(bindings := b.bindings[slot := Binding(Some(x), false)]);
    assert x !in b.pool;
    assert BindingsOk(r) by {
      forall i | 0 <= i < |r.bindings| ensures BindingOk(r, r.bindings[i]) { assert BindingOk(b, b.bindings[i]); }
    }
  }

  lemma BackNew(b: Buffers, x: BufferId)
    requires Placed(b) && Known(b, x) && forall i | 0 <= i < |b.bindings| :: b.bindings[i].pool != Some(x)
    ensures Placed(b.(memory := b.memory + {x}))
  {
    var r := b.(memory := b.memory + {x});
    assert forall i | 0 <= i < |r.bindings| :: BindingOk(b, b.bindings[i]) ==> BindingOk(r, r.bindings[i]);
  }

  /** Forgetting a buffer altogether. */
  lemma Forget(b: Buffers, x: BufferId, bindings: seq<Binding>)
    requires Placed(b) && |bindings| == |b.bindings|
    requires forall i | 0 <= i < |bindings| ::
               bindings[i] == if b.bindings[i].pool == Some(x) then Binding(None, false) else b.bindings[i]
    ensures Placed(Buffers(bindings, Without(b.pool, x), Without(b.returned, x), b.memory - {x}, b.consumer - {x}, b.held - {x}))
  {
    hide Without;
    WithoutIs(b.pool, x);
    WithoutIs(b.returned, x);
    var r := Buffers(bindings, Without(b.pool, x), Without(b.returned, x), b.memory - {x}, b.consumer - {x}, b.held - {x});
    assert forall y :: Known(b, y) && y != x ==> Known(r, y);
    assert OneOwner(r) && StashOk(r) && MemoryOk(r);
    assert BindingsOk(r) by {
      forall i | 0 <= i < |r.bindings| ensures BindingOk(r, r.bindings[i]) { assert BindingOk(b, b.bindings[i]); }
    }
  }

  lemma {:induction false} WithoutIs(pool: seq<BufferId>, buffer: BufferId)
    ensures forall b :: b in Without(pool, buffer) <==> b in pool && b != buffer
    ensures NoDuplicates(pool) ==> NoDuplicates(Without(pool, buffer))
  {
    if pool != [] {
      assert pool == [pool[0]] + pool[1..];
      WithoutIs(pool[1..], buffer);
      if NoDuplicates(pool) {
        assert NoDuplicates(pool[1..]) && pool[0] !in pool[1..];
        var rest := Without(pool[1..], buffer);
        assert NoDuplicates([pool[0]] + rest);
      }
    }
  }

  // ---------- reclaiming ----------

  lemma ReclaimOneBuffers(s: State, consumer: set<BufferId>, held: set<BufferId>)
    requires s.returned != [] && BuffersOk(s, consumer, held)
    ensures BuffersOk(ReclaimOne(s.(returned := s.returned[1..]), s.returned[0]), consumer, held + {s.returned[0]})
  {
    hide FirstWith, Placed;
    var x := s.returned[0];
    FirstWithFinds(s.transport.bindings, Some(x));
    var at := FirstWith(s.transport.bindings, Some(x));
    var b := BuffersOf(s, consumer, held);
    if at.None? {
      StashFirst(b);
    } else {
      TakeBackBound(b, at.value);
      assert !s.transport.bindings[at.value].inFlight ==> s.transport.bindings[at.value := Binding(Some(x), false)] == s.transport.bindings;
    }
  }

  lemma {:induction false} ReclaimBuffers(s: State, consumer: set<BufferId>, held: set<BufferId>)
    requires BuffersOk(s, consumer, held)
    ensures BuffersOk(Reclaim(s), consumer, held + Elements(s.returned))
    decreases |s.returned|
  {
    hide ReclaimOne, BuffersOk;
    if s.returned == [] {
      assert held + Elements(s.returned) == held;
    } else {
      var b, next := s.returned[0], s.(returned := s.returned[1..]);
      ReclaimOneBuffers(s, consumer, held);
      ReclaimOneKeeps(next, b);
      ReclaimBuffers(ReclaimOne(next, b), consumer, held + {b});
      assert s.returned == [b] + s.returned[1..];
      assert held + Elements(s.returned) == held + {b} + Elements(s.returned[1..]);
    }
  }

  // ---------- publishing ----------

  /** The buffers a step put on the queue. */
  function NewlyQueued(s: State, r: State): set<BufferId>
  {
    if |s.queued| <= |r.queued| then set q | q in r.queued[|s.queued|..] :: q.buffer else {}
  }

  /** A step queued nothing, or one buffer the portal held. */
  ghost predicate QueuedFromHeld(s: State, r: State, consumer: set<BufferId>, held: set<BufferId>)
  {
    && r.returned == []
    && (|| (r.queued == s.queued && BuffersOk(r, consumer, held))
        || (exists q: Queued :: r.queued == s.queued + [q] && q.buffer in held &&
              BuffersOk(r, consumer + {q.buffer}, held - {q.buffer})))
  }

  lemma CopyBuffers(s: State, file: Descriptor, stride: u32, damage: Damage, source: Source, consumer: set<BufferId>, held: set<BufferId>)
    requires Valid(s) && s.returned == [] && BuffersOk(s, consumer, held)
    ensures QueuedFromHeld(s, CopyIntoPool(s, file, stride, damage, source).1, consumer, held)
  {
    hide GeometryOk, FrameLen, Needed, Placed;
    if s.pool != [] {
      QueueFirst(BuffersOf(s, consumer, held));
      RotateStash(BuffersOf(s, consumer, held));
      var q := Queued(s.pool[0], s.sequence, damage, Copied(file, stride, s.transport.width, s.transport.height));
      assert s.queued + [q] == s.queued + [q];
    }
  }

  lemma PublishSlotBuffers(s: State, slot: nat, damage: Damage, source: Source, consumer: set<BufferId>, held: set<BufferId>)
    requires Valid(s) && s.returned == [] && BuffersOk(s, consumer, held)
    ensures QueuedFromHeld(s, PublishSlot(s, slot, damage, source), consumer, held)
  {
    hide GeometryOk, CopyIntoPool, Placed;
    if slot < |s.transport.bindings| {
      var file, binding := s.transport.slotFiles[slot], s.transport.bindings[slot];
      CopyBuffers(s, file.file, file.stride, damage, source, consumer, held);
      if !binding.inFlight && binding.pool.Some? {
        QueueBound(BuffersOf(s, consumer, held), slot);
        var q := Queued(binding.pool.value, s.sequence, damage, InPlace(s.transport.streamId, slot));
        assert s.queued + [q] == s.queued + [q];
      }
    }
  }

  lemma PublishBuffers(s: State, source: Source, consumer: set<BufferId>, held: set<BufferId>)
    requires Valid(s) && s.returned == [] && BuffersOk(s, consumer, held)
    ensures QueuedFromHeld(s, Publish(s, source), consumer, held)
  {
    hide GeometryOk, CopyIntoPool, PublishSlot, Placed;
    if s.pending && s.latest.Some? {
      match s.latest.value {
        case Described(file, stride, damage) => CopyBuffers(s, file, stride, damage, source, consumer, held);
        case Slot(slot, damage) => PublishSlotBuffers(s, slot, damage, source, consumer, held);
      }
    }
  }

  lemma QueuedFromHeldMoves(s: State, r: State, consumer: set<BufferId>, held: set<BufferId>)
    requires QueuedFromHeld(s, r, consumer, held)
    ensures var q := NewlyQueued(s, r); r.returned == [] && q <= held && BuffersOk(r, consumer + q, held - q)
  {
    hide BuffersOk;
    if r.queued == s.queued && BuffersOk(r, consumer, held) {
      assert NewlyQueued(s, r) == {} && consumer + {} == consumer && held - {} == held;
    } else {
      var q: Queued :| r.queued == s.queued + [q] && q.buffer in held && BuffersOk(r, consumer + {q.buffer}, held - {q.buffer});
      assert r.queued[|s.queued|..] == [q];
      assert NewlyQueued(s, r) == {q.buffer};
    }
  }

  /** One cycle, from the point of view of the buffers: everything returned is
      taken back, then what is queued comes out of what the portal holds. */
  lemma ProcessBuffers(s: State, source: Source, consumer: set<BufferId>, held: set<BufferId>)
    requires Valid(s) && BuffersOk(s, consumer, held)
    ensures var r := Process(s, source); var all, q := held + Elements(s.returned), NewlyQueued(s, r);
            r.returned == [] && q <= all && q !! consumer && BuffersOk(r, consumer + q, all - q)
  {
    hide GeometryOk, Publish, Reclaim, QueuedFromHeld, Placed;
    var c := Reclaim(s);
    ReclaimKeeps(s);
    ReclaimBuffers(s, consumer, held);
    PublishBuffers(c, source, consumer, held + Elements(s.returned));
    QueuedFromHeldMoves(c, Publish(c, source), consumer, held + Elements(s.returned));
    Apart(BuffersOf(c, consumer, held + Elements(s.returned)));
  }

  lemma Apart(b: Buffers)
    requires Placed(b)
    ensures b.consumer !! b.held
  {
  }

  // ---------- first in, first out ----------

  /** The returned buffers no slot is bound to, in the order they came back. */
  function Unbound(bindings: seq<Binding>, returned: seq<BufferId>): seq<BufferId>
  {
    if returned == [] then []
    else (if FirstWith(bindings, Some(returned[0])).None? then [returned[0]] else []) + Unbound(bindings, returned[1..])
  }

  lemma {:induction false} MarksDoNotUnbind(bindings: seq<Binding>, slot: nat, inFlight: bool, pool: Option<BufferId>)
    requires slot < |bindings|
    ensures FirstWith(bindings[slot := Binding(bindings[slot].pool, inFlight)], pool) == FirstWith(bindings, pool)
  {
    var marked := bindings[slot := Binding(bindings[slot].pool, inFlight)];
    if slot == 0 {
      assert marked[1..] == bindings[1..];
    } else {
      assert marked[1..] == bindings[1..][slot - 1 := Binding(bindings[1..][slot - 1].pool, inFlight)];
      MarksDoNotUnbind(bindings[1..], slot - 1, inFlight, pool);
    }
  }

  lemma {:induction false} MarksKeepUnbound(bindings: seq<Binding>, slot: nat, inFlight: bool, returned: seq<BufferId>)
    requires slot < |bindings|
    ensures Unbound(bindings[slot := Binding(bindings[slot].pool, inFlight)], returned) == Unbound(bindings, returned)
  {
    hide FirstWith;
    if returned != [] {
      MarksDoNotUnbind(bindings, slot, inFlight, Some(returned[0]));
      MarksKeepUnbound(bindings, slot, inFlight, returned[1..]);
    }
  }

  lemma ReclaimOneStashes(s: State, buffer: BufferId, rest: seq<BufferId>)
    ensures ReclaimOne(s, buffer).pool + Unbound(ReclaimOne(s, buffer).transport.bindings, rest)
         == s.pool + Unbound(s.transport.bindings, [buffer] + rest)
  {
    hide FirstWith;
    var bindings := s.transport.bindings;
    FirstWithFinds(bindings, Some(buffer));
    assert ([buffer] + rest)[1..] == rest;
    var at := FirstWith(bindings, Some(buffer));
    if at.Some? {
      MarksKeepUnbound(bindings, at.value, false, rest);
      assert Unbound(bindings, [buffer] + rest) == Unbound(bindings, rest);
    } else {
      assert Unbound(bindings, [buffer] + rest) == [buffer] + Unbound(bindings, rest);
    }
  }

  lemma {:induction false} ReclaimStashes(s: State)
    ensures Reclaim(s).pool == s.pool + Unbound(s.transport.bindings, s.returned)
    decreases |s.returned|
  {
    hide ReclaimOne, Unbound;
    if s.returned == [] {
      assert Unbound(s.transport.bindings, []) == [] by { NoneUnbound(s.transport.bindings); }
    } else {
      var b, next := s.returned[0], s.(returned := s.returned[1..]);
      assert s.returned == [b] + next.returned;
      ReclaimOneStashes(next, b, next.returned);
      ReclaimOneKeeps(next, b);
      ReclaimStashes(ReclaimOne(next, b));
    }
  }

  lemma NoneUnbound(bindings: seq<Binding>)
    ensures Unbound(bindings, []) == []
  {
  }

  /** What a step queued, if that is a copy, went into the oldest buffer of the
      stash, and the others kept their order. */
  ghost predicate TookOldest(s: State, r: State, stash: seq<BufferId>)
  {
    |r.queued| > |s.queued| && r.queued[|s.queued|].shown.Copied? ==>
      stash != [] && r.queued == s.queued + [r.queued[|s.queued|]] && r.queued[|s.queued|].buffer == stash[0] && r.pool == stash[1..]
  }

  lemma CopyTakesOldest(s: State, file: Descriptor, stride: u32, damage: Damage, source: Source)
    requires Valid(s) && s.returned == []
    ensures TookOldest(s, CopyIntoPool(s, file, stride, damage, source).1, s.pool)
  {
    hide GeometryOk, Needed, FrameLen;
  }

  lemma PublishSlotTakesOldest(s: State, slot: nat, damage: Damage, source: Source)
    requires Valid(s) && s.returned == []
    ensures TookOldest(s, PublishSlot(s, slot, damage, source), s.pool)
  {
    hide GeometryOk, CopyIntoPool;
    if slot < |s.transport.bindings| {
      CopyTakesOldest(s, s.transport.slotFiles[slot].file, s.transport.slotFiles[slot].stride, damage, source);
    }
  }

  lemma PublishTakesOldest(s: State, source: Source)
    requires Valid(s) && s.returned == []
    ensures TookOldest(s, Publish(s, source), s.pool)
  {
    hide GeometryOk, CopyIntoPool, PublishSlot;
    if s.pending && s.latest.Some? {
      match s.latest.value
      case Described(file, stride, damage) => CopyTakesOldest(s, file, stride, damage, source);
      case Slot(slot, damage) => PublishSlotTakesOldest(s, slot, damage, source);
    }
  }

  /** The buffer a cycle copies into is the one that has been back longest:
      first what the stash held, then what was returned, in order. */
  lemma OldestIsReusedFirst(s: State, source: Source)
    requires Valid(s)
    ensures TookOldest(s, Process(s, source), s.pool + Unbound(s.transport.bindings, s.returned))
  {
    hide GeometryOk, Unbound, Reclaim, Publish;
    ReclaimKeeps(s);
    ReclaimStashes(s);
    PublishTakesOldest(Reclaim(s), source);
  }

  // ---------- adding and removing ----------

  lemma UnknownIsUnbound(b: Buffers, x: BufferId)
    requires Placed(b) && !Known(b, x)
    ensures x !in b.memory && forall i | 0 <= i < |b.bindings| :: b.bindings[i].pool != Some(x)
  {
    forall i | 0 <= i < |b.bindings| ensures b.bindings[i].pool != Some(x) { assert BindingOk(b, b.bindings[i]); }
  }

  lemma AddBufferBuffers(s: State, buffer: BufferId, hasData: bool, backed: bool, consumer: set<BufferId>, held: set<BufferId>)
    requires BuffersOk(s, consumer, held) && !Known(BuffersOf(s, consumer, held), buffer)
    requires InFlightIsBound(s.transport.bindings)
    ensures BuffersOk(AddBuffer(s, buffer, hasData, backed).(returned := s.returned + [buffer]), consumer, held)
  {
    hide FirstWith, Placed;
    FirstWithFinds(s.transport.bindings, None);
    var b := BuffersOf(s, consumer, held);
    var waiting := b.(returned := s.returned + [buffer]);
    UnknownIsUnbound(b, buffer);
    AppendReturned(b, buffer);
    var at := FirstWith(s.transport.bindings, None);
    if ForwardingEligible(s) && at.Some? {
      assert s.transport.bindings[at.value] == Binding(None, false);
      BindNew(waiting, at.value, buffer);
    } else {
      BackNew(waiting, buffer);
      assert s.memory[buffer := s.transport.width * s.transport.height * 4].Keys == s.memory.Keys + {buffer};
    }
  }

  lemma RemoveBufferBuffers(s: State, buffer: BufferId, consumer: set<BufferId>, held: set<BufferId>)
    requires BuffersOk(s, consumer, held)
    ensures BuffersOk(RemoveBuffer(s, buffer).(returned := Without(s.returned, buffer)), consumer - {buffer}, held - {buffer})
  {
    hide FirstWith, Without;
    FirstWithFinds(s.transport.bindings, Some(buffer));
    var r := RemoveBuffer(s, buffer);
    assert (s.memory - {buffer}).Keys == s.memory.Keys - {buffer};
    Forget(BuffersOf(s, consumer, held), buffer, r.transport.bindings);
  }

  /** A restart leaves the buffers where they are and binds none of them. */
  lemma RestartBuffers(s: State, r: State, info: StreamInfo, consumer: set<BufferId>, held: set<BufferId>)
    requires BuffersOk(s, consumer, held) && Restarted(s, r, info)
    ensures BuffersOk(r, consumer, held)
  {
    hide GeometryOk, AnnouncedFormat;
  }
}
