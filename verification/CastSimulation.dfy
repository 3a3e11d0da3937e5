/** Whole runs of a cast on the client's connection: what the world says of the
    messages is what the client's calls do, call by call. */
module CastSimulation {
  import opened Wrappers
  import opened Frames
  import opened Cast
  import opened IpcWire
  import opened IpcRuns
  import opened CastOverIpc
  import CO = CastOwnership
  import CW = CastWorld

  // ---------- what the peer writes ----------

  function FrameFiles(frame: StreamFrame): seq<File>
  {
    if frame.slot.None? && !frame.carried.InSlot? then [File(frame.carried.file, true, true, 1)] else []
  }

  /** A packet that arrives as `a`. */
  function PacketOf(a: CW.Arrival): Packet
  {
    match a
    case Event(FrameReady(frame)) => FramePacket(frame, 1, FrameFiles(frame))
    case Event(StreamEnded(id)) => EndedPacket(id)
    case Event(GeometryChanged(id, width, height)) => GeometryPacket(id, width, height)
    case Event(LeaseRenewed) => LeasePacket(Lease(0, 0))
    case Refusal => ErrorPacket
    case _ => OtherPacket
  }

  /** A frame carries what its format calls for. */
  predicate Writable(m: Message)
  {
    m.FrameReady? ==>
      if m.frame.slot.Some? then m.frame.carried.InSlot?
      else !m.frame.carried.InSlot? && (m.frame.format.DmabufPixels? <==> m.frame.carried.DmabufFile?)
  }

  lemma PacketOfArrives(a: CW.Arrival)
    requires !a.Stray? && (a.Event? ==> Writable(a.message))
    ensures Sendable(PacketOf(a)) && ArrivalOf(PacketOf(a)) == a && !PacketOf(a).StartedPacket? && !PacketOf(a).StoppedPacket?
  {
  }

  lemma FrameIsWritable(frame: StreamFrame, info: StreamInfo)
    requires CW.IsFrame(frame, info)
    ensures Writable(FrameReady(frame))
  {
  }

  function EarlyPackets(early: seq<Message>): seq<Packet>
  {
    if early == [] then [] else [PacketOf(CW.Event(early[0]))] + EarlyPackets(early[1..])
  }

  lemma {:induction false} EarlyArrive(early: seq<Message>, info: StreamInfo)
    requires forall m <- early :: CW.FrameOk(m, info)
    ensures AllSendable(EarlyPackets(early)) && NoneSettle(EarlyPackets(early), ForStarted) && Events(EarlyPackets(early)) == early
  {
    if early != [] {
      assert CW.FrameOk(early[0], info);
      if early[0].FrameReady? { FrameIsWritable(early[0].frame, info); }
      PacketOfArrives(CW.Event(early[0]));
      EarlyArrive(early[1..], info);
      assert [early[0]] + early[1..] == early;
    }
  }

  function TableFiles(table: seq<SlotFile>): (files: seq<File>)
    ensures |files| == |table|
    ensures forall i | 0 <= i < |table| :: files[i] == File(table[i].file, true, true, table[i].byteLen)
  {
    if table == [] then [] else [File(table[0].file, true, true, table[0].byteLen)] + TableFiles(table[1..])
  }

  /** A stream as a start reply can announce it: slots only for dmabufs, and all
      of one stride and length. */
  predicate Announceable(info: StreamInfo)
  {
    var table := SlotsOf(info);
    && info.slots != Some([]) && (table != [] ==> info.format.DmabufPixels?) && TableBounded(table)
    && forall i | 0 <= i < |table| :: table[i].stride == table[0].stride && table[i].byteLen == table[0].byteLen
  }

  function StartedOf(info: StreamInfo): Packet
  {
    StartedPacket(info, TableFiles(SlotsOf(info)))
  }

  lemma StartedOfArrives(info: StreamInfo)
    requires Announceable(info)
    ensures Sendable(StartedOf(info)) && Received(info) == info
  {
    var table := SlotsOf(info);
    forall i | 0 <= i < |table| ensures FileFits(TableFiles(table)[i], table[0].byteLen, false) { assert table[i] in table; }
  }

  // ---------- one step on the connection ----------

  function Wrote(c: Connection, a: CW.Arrival): Connection
  {
    c.(wire := c.wire + Encode(PacketOf(a)))
  }

  /** The stop of the live stream and the start of the next, with the peer's
      answers written behind what is on the socket. */
  function Answered(c: Connection, id: StreamId, info: StreamInfo, early: seq<Message>): Connection
  {
    c.(wire := c.wire + Flatten([StoppedPacket(id)] + (EarlyPackets(early) + [StartedOf(info)] + [])))
  }

  ghost function AfterRestart(c: Connection, w: CW.World, n: CW.World, restart: Restart, early: seq<Message>): Connection
  {
    if n.live.streamId != w.live.streamId && restart.Restarts?
    then Reconnect(Answered(c, w.live.streamId, restart.info, early), w.live.streamId).1
    else c
  }

  /** A restart yields the stream the world restarts with. */
  ghost predicate RestartAgrees(c: Connection, w: CW.World, n: CW.World, restart: Restart, early: seq<Message>)
  {
    n.live.streamId != w.live.streamId && restart.Restarts? ==>
      Reconnect(Answered(c, w.live.streamId, restart.info, early), w.live.streamId).0 == restart
  }

  /** What a step of the cast is on its connection. */
  ghost function ClientStep(c: Connection, w: CW.World, step: CW.Step): Connection
    requires Valid(w.cast) && CW.Enabled(w, step)
  {
    match step
    case Emit(frame) => Wrote(c, CW.Event(FrameReady(frame)))
    case Announce(message) => Wrote(c, CW.Event(message))
    case Reply => Wrote(c, CW.Skipped)
    case Refuse => Wrote(c, CW.Refusal)
    case HandleRelease => Wrote(c, CW.Skipped)
    case Lookup => ReadOutputs(c).1
    case Read(restart, early) => AfterRestart(NextStreamMessage(c).1, w, CW.Next(w, step), restart, early)
    case Fixate(_, restart, early) => AfterRestart(c, w, CW.Next(w, step), restart, early)
    case _ => c
  }

  /** The connection is in step with the world, and no stop reply is unread. */
  ghost predicate InStep(c: Connection, unread: seq<Packet>, w: CW.World)
  {
    Refines(c, unread, w) && forall p <- unread :: !p.StoppedPacket?
  }

  /** The lookup leaves a descriptor without its message. */
  predicate Strands(w: CW.World, step: CW.Step)
  {
    step.Lookup? && w.wire != [] && w.wire[0].Event? && w.wire[0].message.FrameReady? && w.wire[0].message.frame.slot.None?
  }

  predicate RestartsAnnounceably(step: CW.Step)
  {
    && (step.Read? && step.restart.Restarts? ==> Announceable(step.restart.info))
    && (step.Fixate? && step.restart.Restarts? ==> Announceable(step.restart.info))
  }

  lemma WroteIsInStep(c: Connection, unread: seq<Packet>, w: CW.World, a: CW.Arrival) returns (left: seq<Packet>)
    requires InStep(c, unread, w) && !a.Stray? && (a.Event? ==> Writable(a.message))
    ensures InStep(Wrote(c, a), left, w.(wire := w.wire + [a]))
  {
    hide Refines, Sendable, Encode, ArrivalOf;
    PacketOfArrives(a);
    WriteRefines(c, unread, w, PacketOf(a));
    left := unread + [PacketOf(a)];
  }

  lemma {:induction false} NothingSettlesStop(unread: seq<Packet>)
    requires forall p <- unread :: !p.StoppedPacket?
    requires CW.Refusal !in Arrivals(unread)
    ensures NoneSettle(unread, ForStopped)
  {
    if unread != [] {
      assert Arrivals(unread)[0] == ArrivalOf(unread[0]);
      assert forall a <- Arrivals(unread[1..]) :: a in Arrivals(unread);
      NothingSettlesStop(unread[1..]);
    }
  }

  /** A restart on a connection in step gives the stream the world restarts
      with, and leaves the connection in step. */
  lemma AnsweredWire(c: Connection, unread: seq<Packet>, id: StreamId, info: StreamInfo, early: seq<Message>)
    requires c.wire == Flatten(unread)
    ensures c.(wire := Flatten(unread + [StoppedPacket(id)] + (EarlyPackets(early) + [StartedOf(info)] + []))) == Answered(c, id, info, early)
  {
    var answers := EarlyPackets(early) + [StartedOf(info)] + [];
    JoinSendable(unread, [StoppedPacket(id)] + answers);
    hide Sendable, Flatten, EarlyPackets;
    assert unread + [StoppedPacket(id)] + answers == unread + ([StoppedPacket(id)] + answers);
  }

  lemma RestartIsInStep(c: Connection, unread: seq<Packet>, w: CW.World, r: State, restart: Restart, early: seq<Message>)
    requires InStep(c, unread, w) && CW.FreshRestart(w, restart, early) && restart.Restarts? && Announceable(restart.info)
    requires r.transport.streamId != w.live.streamId
    ensures var (again, n) := Reconnect(Answered(c, w.live.streamId, restart.info, early), w.live.streamId);
            again == restart && InStep(n, [], CW.Settle(w, r, restart, early))
  {
    var id, packets, started := w.live.streamId, EarlyPackets(early), StartedOf(restart.info);
    EarlyArrive(early, restart.info);
    StartedOfArrives(restart.info);
    NothingSettlesStop(unread);
    NoneSent();
    AnsweredWire(c, unread, id, restart.info, early);
    hide Sendable, Flatten, Events, AllSendable, StartedCount, NoneSettle, Received, Announceable, EarlyPackets,
         Reconnect, Answered, CW.EarlyOk;
    RestartRefines(c, w, r, unread, packets, started, []);
    SettledWire(w, r, restart, early);
  }

  lemma NoneSent()
    ensures AllSendable([]) && StartedCount([]) == 0 && Arrivals([]) == []
  {
  }

  lemma SettledWire(w: CW.World, r: State, restart: Restart, early: seq<Message>)
    requires r.transport.streamId != w.live.streamId && restart.Restarts?
    ensures CW.Settle(w, r, restart, early).(wire := []) == CW.Settle(w, r, restart, early)
  {
  }

  /** A read hands on what the world delivers, and leaves the connection in step. */
  lemma ReadIsInStep(c: Connection, unread: seq<Packet>, w: CW.World) returns (left: seq<Packet>)
    requires InStep(c, unread, w) && CW.Readable(w)
    ensures var (r, n) := NextStreamMessage(c); var (a, after) := CW.Delivered(w);
            (if a.Event? then r == Ok(a.message) else r.Err?) && InStep(n, left, after)
  {
    ReadRefines(c, unread, w);
    left := if c.pending != [] then unread else Remaining(unread, ForEvent);
    hide Refines, NextStreamMessage, CW.Delivered;
    if c.pending == [] && Find(unread, ForEvent).Some? { FoundSplits(unread, ForEvent); }
  }

  /** Only the wire changed, and as the client's did. */
  lemma SameWire(c: Connection, left: seq<Packet>, w: CW.World, step: CW.Step, a: CW.Arrival)
    requires Valid(w.cast) && CW.Enabled(w, step)
    requires match step
             case Emit(frame) => a == CW.Event(FrameReady(frame))
             case Announce(message) => a == CW.Event(message)
             case Reply => a == CW.Skipped
             case HandleRelease => a == CW.Skipped
             case Refuse => a == CW.Refusal
             case _ => false
    requires InStep(Wrote(c, a), left, w.(wire := w.wire + [a]))
    ensures InStep(ClientStep(c, w, step), left, CW.Next(w, step))
  {
    hide Encode, PacketOf, Flatten, Arrivals, AllSendable, StartedCount, Valid;
  }

  lemma LookupIsInStep(c: Connection, unread: seq<Packet>, w: CW.World) returns (left: seq<Packet>)
    requires Valid(w.cast) && CW.Enabled(w, CW.Lookup) && InStep(c, unread, w) && !Strands(w, CW.Lookup)
    ensures InStep(ClientStep(c, w, CW.Lookup), left, CW.Next(w, CW.Lookup))
  {
    left := if unread == [] then [] else unread[1..];
    LookupRefines(c, unread, w);
    NoStrayBehind(unread);
    NotStranded(w);
    hide ReadOutputs, CW.AfterLookup, Flatten, Arrivals, AllSendable, StartedCount, Valid;
  }

  lemma NotStranded(w: CW.World)
    requires CW.Stray !in w.wire && !Strands(w, CW.Lookup)
    ensures CW.AfterLookup(w.wire) != [] ==> !CW.AfterLookup(w.wire)[0].Stray?
  {
  }

  lemma ReadingIsInStep(c: Connection, unread: seq<Packet>, w: CW.World, restart: Restart, early: seq<Message>) returns (left: seq<Packet>)
    requires CW.Inv(w) && Valid(w.cast) && CW.Enabled(w, CW.Read(restart, early)) && InStep(c, unread, w)
    requires restart.Restarts? ==> Announceable(restart.info)
    ensures !CW.Next(w, CW.Read(restart, early)).cast.quit ==>
              InStep(ClientStep(c, w, CW.Read(restart, early)), left, CW.Next(w, CW.Read(restart, early)))
    ensures RestartAgrees(NextStreamMessage(c).1, w, CW.Next(w, CW.Read(restart, early)), restart, early)
    ensures var a := CW.Delivered(w).0;
            if a.Event? then NextStreamMessage(c).0 == Ok(a.message) else NextStreamMessage(c).0.Err?
  {
    left := ReadIsInStep(c, unread, w);
    var n := NextStreamMessage(c).1;
    var (a, rest) := CW.Delivered(w);
    CW.DeliveredFirst(w);
    CW.NextReads(w, restart, early);
    CW.StillFresh(w, restart, early);
    hide InStep, NextStreamMessage, CW.Next, CW.Enabled, CW.Delivered, CW.FreshRestart, CW.Inv, Reconnect, Answered,
         Announceable, CW.Readable, ReadMessage, CW.Stores, Valid;
    if a.Event? {
      var from := rest.(latestFrom := if CW.Stores(w, a.message) then a.message.frame.streamId else w.latestFrom);
      LatestIsNoMatter(n, left, rest, from, restart, early);
      var r := ReadMessage(w.cast, a.message, restart);
      left := SettledIsInStep(n, left, from, r, restart, early);
    }
  }

  lemma LatestIsNoMatter(c: Connection, unread: seq<Packet>, w: CW.World, n: CW.World, restart: Restart, early: seq<Message>)
    requires InStep(c, unread, w) && n == w.(latestFrom := n.latestFrom)
    ensures InStep(c, unread, n)
    ensures CW.FreshRestart(w, restart, early) ==> CW.FreshRestart(n, restart, early)
  {
    hide Flatten, Arrivals, AllSendable, StartedCount;
  }

  lemma SettledIsInStep(c: Connection, unread: seq<Packet>, w: CW.World, r: State, restart: Restart, early: seq<Message>)
    returns (left: seq<Packet>)
    requires InStep(c, unread, w) && CW.FreshRestart(w, restart, early) && (restart.Restarts? ==> Announceable(restart.info))
    requires restart.Restarts? && r.transport.streamId != w.live.streamId ==> restart.info.streamId != w.live.streamId
    ensures var n := CW.Settle(w, r, restart, early);
            InStep(AfterRestart(c, w, n, restart, early), left, n) && RestartAgrees(c, w, n, restart, early)
  {
    left := unread;
    if r.transport.streamId != w.live.streamId && restart.Restarts? {
      left := [];
      hide InStep, Reconnect, Answered, CW.FreshRestart, Announceable;
      RestartIsInStep(c, unread, w, r, restart, early);
    } else {
      hide Flatten, Arrivals, AllSendable, StartedCount, CW.FreshRestart, Reconnect, Announceable;
    }
  }

  lemma FixatingIsInStep(c: Connection, unread: seq<Packet>, w: CW.World, modifier: Option<nat>, restart: Restart,
                         early: seq<Message>) returns (left: seq<Packet>)
    requires CW.Inv(w) && Valid(w.cast) && CW.Enabled(w, CW.Fixate(modifier, restart, early)) && InStep(c, unread, w)
    requires restart.Restarts? ==> Announceable(restart.info)
    ensures InStep(ClientStep(c, w, CW.Fixate(modifier, restart, early)), left, CW.Next(w, CW.Fixate(modifier, restart, early)))
    ensures RestartAgrees(c, w, CW.Next(w, CW.Fixate(modifier, restart, early)), restart, early)
  {
    LiveIsBefore(w);
    hide InStep, CW.Inv, Reconnect, Answered, Announceable, ApplyFixatedFormat, Valid;
    left := SettledIsInStep(c, unread, w, ApplyFixatedFormat(w.cast, modifier, restart), restart, early);
  }

  lemma LiveIsBefore(w: CW.World)
    requires CW.Inv(w)
    ensures w.live.streamId < w.nextId
  {
    hide CW.InboundOk;
  }

  lemma OtherIsInStep(c: Connection, unread: seq<Packet>, w: CW.World, step: CW.Step)
    requires Valid(w.cast) && CW.Enabled(w, step) && InStep(c, unread, w)
    requires !step.Emit? && !step.Announce? && !step.Reply? && !step.Refuse? && !step.HandleRelease? && !step.Lookup?
             && !step.Read? && !step.Fixate?
    ensures InStep(ClientStep(c, w, step), unread, CW.Next(w, step))
  {
    hide Flatten, Arrivals, AllSendable, StartedCount, Valid, Process, AddBuffer, RemoveBuffer;
  }

  /** A read hands on what the world delivers, and a restart what it restarts with. */
  ghost predicate CallsAgree(c: Connection, w: CW.World, step: CW.Step)
    requires Valid(w.cast) && CW.Enabled(w, step)
  {
    match step
    case Read(restart, early) =>
      var (a, (r, n)) := (CW.Delivered(w).0, NextStreamMessage(c));
      (if a.Event? then r == Ok(a.message) else r.Err?) && RestartAgrees(n, w, CW.Next(w, step), restart, early)
    case Fixate(_, restart, early) => RestartAgrees(c, w, CW.Next(w, step), restart, early)
    case _ => true
  }

  /** A step of a cast that goes on: its connection stays in step. A read hands
      on the event the world delivers, and a restart yields its stream. */
  lemma StepIsInStep(c: Connection, unread: seq<Packet>, w: CW.World, step: CW.Step) returns (left: seq<Packet>)
    requires CW.Inv(w) && CW.Enabled(w, step) && InStep(c, unread, w)
    requires !Strands(w, step) && RestartsAnnounceably(step)
    ensures Valid(w.cast)
    ensures !CW.Next(w, step).cast.quit ==> InStep(ClientStep(c, w, step), left, CW.Next(w, step))
    ensures CallsAgree(c, w, step)
  {
    CO.InvIsValid(w);
    hide CW.Inv, InStep, CW.Next, ClientStep, PacketOf, NextStreamMessage, CW.Delivered, Announceable,
         CW.FreshRestart, Valid, RestartAgrees;
    left := unread;
    match step
    case Emit(frame) =>
      FrameIsWritable(frame, w.live);
      left := WroteIsInStep(c, unread, w, CW.Event(FrameReady(frame)));
      SameWire(c, left, w, step, CW.Event(FrameReady(frame)));
    case Announce(message) => left := WroteIsInStep(c, unread, w, CW.Event(message)); SameWire(c, left, w, step, CW.Event(message));
    case Reply => left := WroteIsInStep(c, unread, w, CW.Skipped); SameWire(c, left, w, step, CW.Skipped);
    case Refuse => left := WroteIsInStep(c, unread, w, CW.Refusal); SameWire(c, left, w, step, CW.Refusal);
    case HandleRelease => left := WroteIsInStep(c, unread, w, CW.Skipped); SameWire(c, left, w, step, CW.Skipped);
    case Lookup => left := LookupIsInStep(c, unread, w);
    case Read(restart, early) => left := ReadingIsInStep(c, unread, w, restart, early);
    case Fixate(modifier, restart, early) => left := FixatingIsInStep(c, unread, w, modifier, restart, early);
    case _ => OtherIsInStep(c, unread, w, step);
  }

  // ---------- runs ----------

  ghost function ClientOver(c: Connection, w: CW.World, steps: seq<CW.Step>): Connection
    requires CO.Possible(w, steps)
    decreases |steps|
  {
    if steps == [] then c else ClientOver(ClientStep(c, w, steps[0]), CW.Next(w, steps[0]), steps[1..])
  }

  /** Every call of a run does. */
  ghost predicate AllCallsAgree(c: Connection, w: CW.World, steps: seq<CW.Step>)
    requires CO.Possible(w, steps)
    decreases |steps|
  {
    steps != [] ==>
      && CallsAgree(c, w, steps[0])
      && AllCallsAgree(ClientStep(c, w, steps[0]), CW.Next(w, steps[0]), steps[1..])
  }

  ghost predicate NeverStrands(w: CW.World, steps: seq<CW.Step>)
    requires CO.Possible(w, steps)
    decreases |steps|
  {
    steps == [] || (!Strands(w, steps[0]) && NeverStrands(CW.Next(w, steps[0]), steps[1..]))
  }

  lemma {:induction false} RunIsInStep(c: Connection, unread: seq<Packet>, w: CW.World, steps: seq<CW.Step>) returns (left: seq<Packet>)
    requires CW.Inv(w) && InStep(c, unread, w) && CO.Possible(w, steps) && NeverStrands(w, steps)
    requires forall step <- steps :: RestartsAnnounceably(step)
    ensures AllCallsAgree(c, w, steps)
    ensures !CO.After(w, steps).cast.quit ==> InStep(ClientOver(c, w, steps), left, CO.After(w, steps))
    decreases |steps|
  {
    hide CW.Inv, InStep, CW.Enabled, CW.Next, ClientStep, Strands, RestartsAnnounceably, CallsAgree;
    left := unread;
    if steps != [] {
      CW.StepKeepsInv(w, steps[0]);
      assert RestartsAnnounceably(steps[0]);
      var mid := StepIsInStep(c, unread, w, steps[0]);
      var n := CW.Next(w, steps[0]);
      if n.cast.quit {
        NothingAfterQuit(n, steps[1..]);
      } else {
        left := RunIsInStep(ClientStep(c, w, steps[0]), mid, n, steps[1..]);
      }
    }
  }

  lemma NothingAfterQuit(w: CW.World, steps: seq<CW.Step>)
    requires CO.Possible(w, steps)
    ensures w.cast.quit ==> steps == []
  {
  }

  /** From the start of any cast, with any events read ahead of the start reply:
      as long as no lookup strands a descriptor, every read on the connection
      hands on the event the world delivers, every restart yields the stream the
      world restarts with, and until the cast ends the connection holds what the
      world says is kept and unread. */
  lemma EveryCastIsInStep(info: StreamInfo, target: Target, cursor: CursorMode, early: seq<Message>, steps: seq<CW.Step>)
    requires CO.Started(info, target, cursor, early) && CO.Possible(CW.Begin(info, target, cursor, early).value, steps)
    requires NeverStrands(CW.Begin(info, target, cursor, early).value, steps) && forall step <- steps :: RestartsAnnounceably(step)
    ensures var w, c := CW.Begin(info, target, cursor, early).value, Connection([], early, None);
            && AllCallsAgree(c, w, steps)
            && (!CO.After(w, steps).cast.quit ==> exists left :: InStep(ClientOver(c, w, steps), left, CO.After(w, steps)))
  {
    CW.BeginIsInv(info, target, cursor, early);
    var w, c := CW.Begin(info, target, cursor, early).value, Connection([], early, None);
    NoneSent();
    EmptyFlat();
    assert InStep(c, [], w);
    hide CW.Begin, CO.Started, CW.Inv, CW.Enabled, CW.Next, InStep;
    var left := RunIsInStep(c, [], w, steps);
  }
}
