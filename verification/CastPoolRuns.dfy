/** Two runs in which the pool does worse than it could: one copies into a buffer
    that has not been back longest, one loses a buffer for good. */
module CastPoolRuns {
  import opened Wrappers
  import opened Frames
  import opened Cast
  import opened CastInvariants
  import opened CastBuffers
  import opened CastWorld
  import opened CastOwnership
  import opened CastPool

  // ---------- runs with their order of return ----------

  /** The order of return over a run. */
  ghost function OrderOver(order: seq<BufferId>, w: World, steps: seq<Step>): seq<BufferId>
    requires Possible(w, steps)
    decreases |steps|
  {
    if steps == [] then order else OrderOver(OrderAfter(order, w, steps[0]), Next(w, steps[0]), steps[1..])
  }

  /** A run that ends in `last`, with its order of return. */
  ghost predicate Leads(w: World, order: seq<BufferId>, steps: seq<Step>, last: World, back: seq<BufferId>)
  {
    Possible(w, steps) && After(w, steps) == last && OrderOver(order, w, steps) == back
  }

  lemma {:induction false} LeadsFurther(w: World, order: seq<BufferId>, a: seq<Step>, mid: World, between: seq<BufferId>,
                                        b: seq<Step>, last: World, back: seq<BufferId>)
    requires Leads(w, order, a, mid, between) && Leads(mid, between, b, last, back)
    ensures Leads(w, order, a + b, last, back)
    decreases |a|
  {
    hide Enabled, Next, OrderAfter;
    if a == [] {
      assert a + b == b;
    } else {
      assert (a + b)[1..] == a[1..] + b && (a + b)[0] == a[0];
      LeadsFurther(Next(w, a[0]), OrderAfter(order, w, a[0]), a[1..], mid, between, b, last, back);
    }
  }

  lemma LeadsByOne(w: World, order: seq<BufferId>, step: Step, n: World, back: seq<BufferId>)
    requires Valid(w.cast) && Enabled(w, step) && Next(w, step) == n && OrderAfter(order, w, step) == back
    ensures Leads(w, order, [step], n, back)
  {
    hide Enabled, Next, OrderAfter;
    assert [step][1..] == [];
    assert Possible(n, []) && After(n, []) == n && OrderOver(back, n, []) == back;
  }

  lemma LeadsByTwo(w: World, order: seq<BufferId>, first: Step, mid: World, second: Step, n: World)
    requires Valid(w.cast) && Enabled(w, first) && Next(w, first) == mid && !first.Cycle? && !first.DropBuffer?
    requires Valid(mid.cast) && Enabled(mid, second) && Next(mid, second) == n && !second.Cycle? && !second.DropBuffer?
    ensures Leads(w, order, [first, second], n, order)
  {
    OrderIsKept(w, first, order);
    OrderIsKept(mid, second, order);
    hide Enabled, Next, OrderAfter, Leads;
    LeadsByOne(w, order, first, mid, order);
    LeadsByOne(mid, order, second, n, order);
    LeadsFurther(w, order, [first], mid, order, [second], n, order);
    assert [first] + [second] == [first, second];
  }

  lemma OrderIsKept(w: World, step: Step, order: seq<BufferId>)
    requires Valid(w.cast) && Enabled(w, step) && !step.Cycle? && !step.DropBuffer?
    ensures OrderAfter(order, w, step) == order
  {
    hide Enabled;
  }

  // ---------- a stream without slots ----------

  function PlainInfo(id: StreamId, height: u32): StreamInfo
  {
    StreamInfo(id, 1, height, Bgra8, None)
  }

  function PlainTransport(id: StreamId, height: u32): TransportState
  {
    TransportState(id, Window(1), Hidden, true, 1, height, Shm(BGRx), None, [], [])
  }

  function PlainFrame(id: StreamId, height: u32): StreamFrame
  {
    StreamFrame(id, 1, height, 4, Bgra8, [], None, Memfd(5))
  }

  const READABLE: Source := Source(Some(8), true)

  /** A cast between two messages. */
  ghost predicate Quiet(w: World, id: StreamId, height: u32)
  {
    && w.cast.transport == PlainTransport(id, height) && w.live == PlainInfo(id, height) && w.owned == {}
    && w.kept == [] && w.wire == [] && w.cast.sent == [] && !w.cast.pending && !w.cast.quit
    && !w.opening && !w.stopped && w.nextId == id + 1
  }

  lemma PlainBegins(id: StreamId)
    ensures Started(PlainInfo(id, 1), Window(1), Hidden, [])
    ensures var w := Begin(PlainInfo(id, 1), Window(1), Hidden, []).value; Quiet(w, id, 1) && w.cast == Initial(PlainTransport(id, 1))
  {
    FrameLenIff(1, 1);
    hide GeometryOk;
    assert FreshBindings(0) == [];
    assert Unused(PlainInfo(id, 1), []) == {};
    forall slot: nat ensures FramesFor([], id, slot) <= 1 {}
  }

  /** The compositor announces another height and the portal restarts. */
  function Resizing(id: StreamId, to: u32): seq<Step>
  {
    [Announce(GeometryChanged(id, 1, to)), Read(Restarts(PlainInfo(id + 1, to)), [])]
  }

  function Resized(w: World, id: StreamId, to: u32): World
  {
    w.(cast := w.cast.(transport := PlainTransport(id + 1, to), latest := None), live := PlainInfo(id + 1, to), nextId := id + 2)
  }

  lemma Resizes(w: World, order: seq<BufferId>, id: StreamId, height: u32, to: u32)
    requires Quiet(w, id, height) && 1 <= height <= 2 && 1 <= to <= 2
    ensures Leads(w, order, Resizing(id, to), Resized(w, id, to), order) && Quiet(Resized(w, id, to), id + 1, to)
  {
    var announce, restart := Announce(GeometryChanged(id, 1, to)), Read(Restarts(PlainInfo(id + 1, to)), []);
    var asked := w.(wire := [Event(GeometryChanged(id, 1, to))]);
    Announces(w, id, height, to);
    Restarting(w, asked, id, height, to);
    hide Enabled, Next, Leads, Quiet;
    LeadsByTwo(w, order, announce, asked, restart, Resized(w, id, to));
  }

  lemma Announces(w: World, id: StreamId, height: u32, to: u32)
    requires Quiet(w, id, height) && 1 <= height <= 2
    ensures Valid(w.cast) && Enabled(w, Announce(GeometryChanged(id, 1, to)))
    ensures Next(w, Announce(GeometryChanged(id, 1, to))) == w.(wire := [Event(GeometryChanged(id, 1, to))])
    ensures Quiet(Resized(w, id, to), id + 1, to)
  {
    FrameLenIff(1, height);
    hide GeometryOk;
  }

  lemma Restarting(w: World, asked: World, id: StreamId, height: u32, to: u32)
    requires Quiet(w, id, height) && 1 <= height <= 2 && 1 <= to <= 2
    requires asked == w.(wire := [Event(GeometryChanged(id, 1, to))])
    ensures var restart := Read(Restarts(PlainInfo(id + 1, to)), []);
            Valid(asked.cast) && Enabled(asked, restart) && Next(asked, restart) == Resized(w, id, to)
  {
    FrameLenIff(1, height);
    FrameLenIff(1, to);
    hide GeometryOk;
    assert FreshBindings(0) == [];
    assert Unused(PlainInfo(id + 1, to), []) == {};
    assert Delivered(asked) == (Event(GeometryChanged(id, 1, to)), w) by { assert asked.wire[1..] == []; }
    NoEvents();
  }

  /** A frame is rendered and read. */
  function Showing(id: StreamId, height: u32): seq<Step>
  {
    [Emit(PlainFrame(id, height)), Read(StopFails, [])]
  }

  function Shown(w: World, id: StreamId): World
  {
    w.(cast := w.cast.(latest := Some(Described(5, 4, [])), pending := true), latestFrom := id)
  }

  lemma Shows(w: World, order: seq<BufferId>, id: StreamId, height: u32)
    requires Quiet(w, id, height) && 1 <= height <= 2
    ensures Leads(w, order, Showing(id, height), Shown(w, id), order)
  {
    var sent := w.(wire := [Event(FrameReady(PlainFrame(id, height)))]);
    FrameEmitted(w, sent, id, height);
    hide Enabled, Next, Leads, Quiet;
    LeadsByTwo(w, order, Emit(PlainFrame(id, height)), sent, Read(StopFails, []), Shown(w, id));
  }

  lemma FrameEmitted(w: World, sent: World, id: StreamId, height: u32)
    requires Quiet(w, id, height) && 1 <= height <= 2 && sent == w.(wire := [Event(FrameReady(PlainFrame(id, height)))])
    ensures Valid(w.cast) && Enabled(w, Emit(PlainFrame(id, height))) && Next(w, Emit(PlainFrame(id, height))) == sent
    ensures Valid(sent.cast) && Enabled(sent, Read(StopFails, [])) && Next(sent, Read(StopFails, [])) == Shown(w, id)
  {
    FrameLenIff(1, height);
    hide GeometryOk;
    assert Delivered(sent) == (Event(FrameReady(PlainFrame(id, height))), w) by { assert sent.wire[1..] == []; }
  }

  function Allocated(w: World, buffer: BufferId, height: u32): World
  {
    w.(cast := w.cast.(memory := w.cast.memory[buffer := 4 * height], returned := w.cast.returned + [buffer]))
  }

  lemma Allocates(w: World, order: seq<BufferId>, id: StreamId, height: u32, buffer: BufferId)
    requires Quiet(w, id, height) && 1 <= height <= 2 && !Known(Now(w), buffer)
    ensures Leads(w, order, [NewBuffer(buffer, true, true)], Allocated(w, buffer, height), order)
    ensures Quiet(Allocated(w, buffer, height), id, height)
  {
    FrameLenIff(1, height);
    hide GeometryOk, Leads;
    LeadsByOne(w, order, NewBuffer(buffer, true, true), Allocated(w, buffer, height), order);
  }

  // ---------- the rotated stash ----------

  ghost predicate TwoBuffers(s: State)
  {
    s.memory == map[0 := 4, 1 := 8] && s.mode == ShmDelivery && s.queued == [] && s.sequence == 0
  }

  /** The cast before the cycle that rotates. */
  ghost predicate AboutToRotate(w: World, id: StreamId)
  {
    && Quiet(w.(cast := w.cast.(pending := false)), id, 2) && w.cast.latest == Some(Described(5, 4, [])) && w.cast.pending
    && TwoBuffers(w.cast) && w.cast.pool == [] && w.cast.returned == [0, 1] && w.consumer == {} && w.held == {}
  }

  function Turned(w: World): World
  {
    w.(cast := w.cast.(pool := [1, 0], returned := [], pending := false, dropped := w.cast.dropped + 1), held := {0, 1})
  }

  lemma RotatingCycle(w: World, id: StreamId)
    requires AboutToRotate(w, id)
    ensures Leads(w, [], [Cycle(READABLE)], Turned(w), [0, 1])
  {
    var s := w.cast;
    Rotated(s, id);
    BothUnbound();
    NothingQueued(s.queued);
    NoBindings(id);
    BothBack();
    hide GeometryOk, Process, Unbound, Except, Valid, PlainTransport, PlainInfo, Elements, Leads;
    assert NewlyQueued(s, Process(s, READABLE)) == {};
    ExceptNone([0, 1], {});
    assert [] + [0, 1] == [0, 1];
    assert {} + {0, 1} - {} == {0, 1};
    LeadsByOne(w, [], Cycle(READABLE), Turned(w), [0, 1]);
  }

  lemma NoBindings(id: StreamId)
    ensures PlainTransport(id, 2).bindings == []
  {
  }

  lemma BothBack()
    ensures Elements([0, 1]) == {0, 1}
  {
  }

  lemma BothUnbound()
    ensures Unbound([], [0, 1]) == [0, 1]
  {
    assert [0, 1][1..] == [1] && [1][1..] == [];
    assert Unbound([], [1]) == [1];
  }

  lemma Rotated(s: State, id: StreamId)
    requires s.transport == PlainTransport(id, 2) && s.latest == Some(Described(5, 4, [])) && s.pending
    requires TwoBuffers(s) && s.pool == [] && s.returned == [0, 1]
    ensures Valid(s) && Process(s, READABLE) == s.(pool := [1, 0], returned := [], pending := false, dropped := s.dropped + 1)
  {
    FrameLenIff(1, 2);
    TakesBoth(s);
    hide GeometryOk, Reclaim;
    assert [0, 1][1..] + [0] == [1, 0];
  }

  lemma TakesBoth(s: State)
    requires s.transport.bindings == [] && s.pool == [] && s.returned == [0, 1]
    ensures Reclaim(s) == s.(pool := [0, 1], returned := [])
  {
    var s1 := s.(pool := [0], returned := [1]);
    var s2 := s.(pool := [0, 1], returned := []);
    assert [0, 1][1..] == [1] && [1][1..] == [];
    assert s1.pool + [1] == [0, 1] && s.pool + [0] == [0];
    assert Reclaim(s2) == s2;
    assert ReclaimOne(s1.(returned := []), 1) == s2;
    assert Reclaim(s1) == s2;
    assert ReclaimOne(s.(returned := [1]), 0) == s1;
  }

  /** The buffer at the head of the stash gets the copy. */
  lemma CopiedToHead(s: State, id: StreamId)
    requires s.transport == PlainTransport(id, 1) && s.latest == Some(Described(5, 4, [])) && s.pending
    requires TwoBuffers(s) && s.pool == [1, 0] && s.returned == []
    ensures Valid(s) && Process(s, READABLE).queued == [Queued(1, 0, [], Copied(5, 4, 1, 1))]
  {
    FrameLenIff(1, 1);
    assert Reclaim(s) == s;
    hide GeometryOk, Reclaim;
    assert s.queued + [Queued(1, 0, [], Copied(5, 4, 1, 1))] == [Queued(1, 0, [], Copied(5, 4, 1, 1))];
  }

  /** The cycle that copies into the other buffer. */
  lemma LateCycle(w: World, id: StreamId)
    requires Quiet(w.(cast := w.cast.(pending := false)), id, 1) && w.cast.latest == Some(Described(5, 4, [])) && w.cast.pending
    requires TwoBuffers(w.cast) && w.cast.pool == [1, 0] && w.cast.returned == []
    ensures Valid(w.cast) && Enabled(w, Cycle(READABLE)) && !CopiesOldest(w, [0, 1], Cycle(READABLE))
    ensures Process(w.cast, READABLE).queued == [Queued(1, 0, [], Copied(5, 4, 1, 1))]
  {
    CopiedToHead(w.cast, id);
    hide GeometryOk, Process, Valid;
    assert Unbound(w.cast.transport.bindings, []) == [] && [0, 1] + [] == [0, 1];
  }

  /** Buffer 0 comes while the stream is small, buffer 1 once it has grown. A
      cycle finds 0 too small and puts it behind 1. */
  function UpToRotation(id: StreamId): seq<Step>
  {
    [NewBuffer(0, true, true)] + Resizing(id, 2) + [NewBuffer(1, true, true)] + Showing(id + 1, 2) + [Cycle(READABLE)]
  }

  /** Then the stream shrinks again. */
  function Turning(id: StreamId): seq<Step>
  {
    UpToRotation(id) + Resizing(id + 1, 1) + Showing(id + 2, 1)
  }

  /** After this run buffers 0 and 1 are back in that order, both can hold the
      frame, and the next cycle copies into 1. */
  lemma LaterBufferIsReusedFirst()
    ensures Started(PlainInfo(7, 1), Window(1), Hidden, [])
    ensures var w := Begin(PlainInfo(7, 1), Window(1), Hidden, []).value;
            && Possible(w, Turning(7)) && OrderOver([], w, Turning(7)) == [0, 1]
            && var n := After(w, Turning(7));
               Valid(n.cast) && Enabled(n, Cycle(READABLE)) && !CopiesOldest(n, [0, 1], Cycle(READABLE))
               && n.cast.memory == map[0 := 4, 1 := 8] && n.cast.transport.height * (n.cast.transport.width * 4) == 4
  {
    PlainBegins(7);
    var w := Begin(PlainInfo(7, 1), Window(1), Hidden, []).value;
    hide Begin, Started, CopiesOldest, Enabled, Leads;
    var mid := TurnsAround(w, 7);
    var n := ShrinksAgain(w, mid, 7);
    hide Possible, After, OrderOver, Turning;
    LeadsMeans(w, Turning(7), n);
  }

  lemma LeadsMeans(w: World, steps: seq<Step>, n: World)
    requires Leads(w, [], steps, n, [0, 1])
    ensures Possible(w, steps) && After(w, steps) == n && OrderOver([], w, steps) == [0, 1]
  {
    hide Possible, After, OrderOver;
  }

  lemma TurnsAround(w: World, id: StreamId) returns (n: World)
    requires Quiet(w, id, 1) && w.cast == Initial(PlainTransport(id, 1)) && w.consumer == {} && w.held == {}
    ensures Leads(w, [], UpToRotation(id), n, [0, 1])
    ensures Quiet(n, id + 1, 2) && TwoBuffers(n.cast) && n.cast.pool == [1, 0] && n.cast.returned == []
  {
    var w1 := Allocated(w, 0, 1);
    var w2 := Resized(w1, id, 2);
    var w3 := Allocated(w2, 1, 2);
    var w4 := Shown(w3, id + 1);
    n := Turned(w4);
    assert [] + [0] == [0] && [0] + [1] == [0, 1];
    assert w3.cast.memory == map[0 := 4, 1 := 8];
    assert AboutToRotate(w4, id + 1) && Quiet(n, id + 1, 2);
    Allocates(w, [], id, 1, 0);
    Resizes(w1, [], id, 1, 2);
    Allocates(w2, [], id + 1, 2, 1);
    Shows(w3, [], id + 1, 2);
    RotatingCycle(w4, id + 1);
    hide *;
    LeadsFurther(w, [], [NewBuffer(0, true, true)], w1, [], Resizing(id, 2), w2, []);
    LeadsFurther(w, [], [NewBuffer(0, true, true)] + Resizing(id, 2), w2, [], [NewBuffer(1, true, true)], w3, []);
    LeadsFurther(w, [], [NewBuffer(0, true, true)] + Resizing(id, 2) + [NewBuffer(1, true, true)], w3, [], Showing(id + 1, 2), w4, []);
    LeadsFurther(w, [], [NewBuffer(0, true, true)] + Resizing(id, 2) + [NewBuffer(1, true, true)] + Showing(id + 1, 2), w4, [],
                 [Cycle(READABLE)], n, [0, 1]);
  }

  lemma ShrinksAgain(w: World, mid: World, id: StreamId) returns (n: World)
    requires Leads(w, [], UpToRotation(id), mid, [0, 1])
    requires Quiet(mid, id + 1, 2) && TwoBuffers(mid.cast) && mid.cast.pool == [1, 0] && mid.cast.returned == []
    ensures Leads(w, [], Turning(id), n, [0, 1])
    ensures Valid(n.cast) && Enabled(n, Cycle(READABLE)) && !CopiesOldest(n, [0, 1], Cycle(READABLE))
    ensures n.cast.memory == map[0 := 4, 1 := 8] && n.cast.transport == PlainTransport(id + 2, 1)
  {
    var resized := Resized(mid, id + 1, 1);
    n := Shown(resized, id + 2);
    Resizes(mid, [0, 1], id + 1, 2, 1);
    Shows(resized, [0, 1], id + 2, 1);
    LateCycle(n, id + 2);
    hide Leads, CopiesOldest, Enabled, Valid, Quiet, Resizing, Showing;
    var first := UpToRotation(id);
    LeadsFurther(w, [], first, mid, [0, 1], Resizing(id + 1, 1), resized, [0, 1]);
    LeadsFurther(w, [], first + Resizing(id + 1, 1), resized, [0, 1], Showing(id + 2, 1), n, [0, 1]);
  }

  // ---------- the lost buffer ----------

  const ONE_SLOT: StreamInfo :=
    StreamInfo(7, 1, 1, DmabufPixels(Fourcc('X', 'R', '2', '4'), 0), Some([SlotFile(3, 4, 4)]))

  function SlotTransport(binding: Binding): TransportState
  {
    TransportState(7, Window(1), Hidden, true, 1, 1, Dmabuf(Fourcc('X', 'R', '2', '4'), 0, BGRx), Some(0), [SlotFile(3, 4, 4)], [binding])
  }

  /** A cast of one slot before its first frame. */
  function Waiting(mode: DeliveryMode, binding: Binding, returned: seq<BufferId>, held: set<BufferId>): World
  {
    World(State(SlotTransport(binding), mode, None, None, false, [], map[], 0, 0, false, returned, [], []),
          ONE_SLOT, {0}, [], [], {}, held, 8, 7, false, false, false)
  }

  /** Delivery of slots is negotiated, a buffer is bound, taken back by a cycle,
      and then the stream grows. */
  function Growing(): seq<Step>
  {
    [Fixate(Some(0), StopFails, [])] + [NewBuffer(0, true, true)] + [Cycle(READABLE)] + Resizing(7, 2)
  }

  lemma SlotBegins()
    ensures Started(ONE_SLOT, Window(1), Hidden, [])
    ensures Begin(ONE_SLOT, Window(1), Hidden, []) == Some(Waiting(ShmDelivery, Binding(None, false), [], {}))
  {
    FrameLenIff(1, 1);
    hide GeometryOk;
    assert FreshBindings(1) == [Binding(None, false)];
    assert IsSlot(0, ONE_SLOT);
    assert Unused(ONE_SLOT, []) == {0};
    forall slot: nat ensures FramesFor([], 7, slot) <= 1 {}
  }

  lemma SlotIsNegotiated()
    ensures Leads(Waiting(ShmDelivery, Binding(None, false), [], {}), [], [Fixate(Some(0), StopFails, [])],
                  Waiting(DmabufDelivery, Binding(None, false), [], {}), [])
  {
    FrameLenIff(1, 1);
    hide GeometryOk, Leads;
    LeadsByOne(Waiting(ShmDelivery, Binding(None, false), [], {}), [], Fixate(Some(0), StopFails, []),
               Waiting(DmabufDelivery, Binding(None, false), [], {}), []);
  }

  lemma SlotIsBound()
    ensures Leads(Waiting(DmabufDelivery, Binding(None, false), [], {}), [], [NewBuffer(0, true, true)],
                  Waiting(DmabufDelivery, Binding(Some(0), false), [0], {}), [])
  {
    FrameLenIff(1, 1);
    hide GeometryOk, Leads;
    assert [] + [0] == [0];
    assert FirstWith([Binding(None, false)], None) == Some(0);
    assert [Binding(None, false)][0 := Binding(Some(0), false)] == [Binding(Some(0), false)];
    LeadsByOne(Waiting(DmabufDelivery, Binding(None, false), [], {}), [], NewBuffer(0, true, true),
               Waiting(DmabufDelivery, Binding(Some(0), false), [0], {}), []);
  }

  lemma BoundIsTakenBack()
    ensures Leads(Waiting(DmabufDelivery, Binding(Some(0), false), [0], {}), [], [Cycle(READABLE)],
                  Waiting(DmabufDelivery, Binding(Some(0), false), [], {0}), [])
  {
    FrameLenIff(1, 1);
    var w, n := Waiting(DmabufDelivery, Binding(Some(0), false), [0], {}), Waiting(DmabufDelivery, Binding(Some(0), false), [], {0});
    assert FirstWith([Binding(Some(0), false)], Some(0)) == Some(0);
    assert [0][1..] == [];
    assert Reclaim(n.cast) == n.cast && Reclaim(w.cast) == n.cast;
    NothingQueued([]);
    hide GeometryOk, Leads, Reclaim;
    assert Process(w.cast, READABLE) == n.cast;
    assert NewlyQueued(w.cast, n.cast) == {};
    assert Elements([0]) == {0};
    assert {} + {0} - {} == {0};
    assert Unbound(w.cast.transport.bindings, [0]) == [] by { assert Unbound(w.cast.transport.bindings, []) == []; }
    LeadsByOne(w, [], Cycle(READABLE), n, []);
  }

  function Lost(): World
  {
    World(State(PlainTransport(8, 2), DmabufDelivery, None, None, false, [], map[], 0, 0, false, [], [], []),
          PlainInfo(8, 2), {}, [], [], {}, {0}, 9, 7, false, false, false)
  }

  lemma BindingIsDropped()
    ensures Leads(Waiting(DmabufDelivery, Binding(Some(0), false), [], {0}), [], Resizing(7, 2), Lost(), [])
  {
    FrameLenIff(1, 1);
    FrameLenIff(1, 2);
    hide GeometryOk, Leads;
    var w := Waiting(DmabufDelivery, Binding(Some(0), false), [], {0});
    var asked := w.(wire := [Event(GeometryChanged(7, 1, 2))]);
    assert FreshBindings(0) == [];
    assert Unused(PlainInfo(8, 2), []) == {};
    assert Delivered(asked) == (Event(GeometryChanged(7, 1, 2)), w) by { assert asked.wire[1..] == []; }
    NoEvents();
    assert Next(asked, Read(Restarts(PlainInfo(8, 2)), [])) == Lost();
    LeadsByTwo(w, [], Announce(GeometryChanged(7, 1, 2)), asked, Read(Restarts(PlainInfo(8, 2)), []), Lost());
  }

  /** At the end of this run the portal has buffer 0, and it is neither stashed
      nor bound. */
  lemma BoundBufferIsLost()
    ensures Started(ONE_SLOT, Window(1), Hidden, [])
    ensures var w := Begin(ONE_SLOT, Window(1), Hidden, []).value;
            Possible(w, Growing()) && After(w, Growing()) == Lost() && 0 in Lost().held && !NoneLost(Lost())
  {
    SlotBegins();
    SlotIsNegotiated();
    SlotIsBound();
    BoundIsTakenBack();
    BindingIsDropped();
    assert !Bound(Lost().cast, 0);
    var w := Waiting(ShmDelivery, Binding(None, false), [], {});
    var w1 := Waiting(DmabufDelivery, Binding(None, false), [], {});
    var w2, w3 := Waiting(DmabufDelivery, Binding(Some(0), false), [0], {}), Waiting(DmabufDelivery, Binding(Some(0), false), [], {0});
    hide Begin, Started, Waiting, Lost, Leads, Resizing, NoneLost;
    var fixate, add := [Fixate(Some(0), StopFails, [])], [NewBuffer(0, true, true)];
    LeadsFurther(w, [], fixate, w1, [], add, w2, []);
    LeadsFurther(w, [], fixate + add, w2, [], [Cycle(READABLE)], w3, []);
    LeadsFurther(w, [], fixate + add + [Cycle(READABLE)], w3, [], Resizing(7, 2), Lost(), []);
    LeadsEnds(w, Growing(), Lost());
  }

  lemma LeadsEnds(w: World, steps: seq<Step>, n: World)
    requires Leads(w, [], steps, n, [])
    ensures Possible(w, steps) && After(w, steps) == n
  {
    hide Possible, After, OrderOver;
  }
}
