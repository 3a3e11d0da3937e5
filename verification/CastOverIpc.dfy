/** The client's connection under a running cast: what the cast's world says
    happens to its messages is what the client's read loops do to packets. */
module CastOverIpc {
  import opened Wrappers
  import opened Frames
  import opened Cast
  import opened IpcWire
  import opened IpcRuns
  import CO = CastOwnership
  import CW = CastWorld

  function ArrivalOf(p: Packet): CW.Arrival
  {
    if p.ErrorPacket? then CW.Refusal
    else match EventOf(p) case Some(message) => CW.Event(message) case None => CW.Skipped
  }

  function Arrivals(packets: seq<Packet>): seq<CW.Arrival>
  {
    if packets == [] then [] else [ArrivalOf(packets[0])] + Arrivals(packets[1..])
  }

  /** A connection in step: kept events and unread packets are the messages of
      the cast's world. */
  ghost predicate Refines(c: Connection, unread: seq<Packet>, w: CW.World)
  {
    && c.pending == w.kept && c.wire == Flatten(unread) && Arrivals(unread) == w.wire
    && AllSendable(unread) && StartedCount(unread) == 0
  }

  lemma OneArrival(p: Packet)
    ensures CW.EventIn(ArrivalOf(p)) == EventSeq(p)
  {
  }

  lemma {:induction false} EventsOfArrivals(packets: seq<Packet>)
    ensures CW.EventsOf(Arrivals(packets)) == Events(packets) && |Arrivals(packets)| == |packets|
  {
    hide ArrivalOf, EventSeq, CW.EventIn;
    if packets != [] {
      OneArrival(packets[0]);
      EventsOfArrivals(packets[1..]);
      assert Arrivals(packets)[1..] == Arrivals(packets[1..]);
    }
  }

  lemma {:induction false} ArrivalsAppended(packets: seq<Packet>, p: Packet)
    ensures Arrivals(packets + [p]) == Arrivals(packets) + [ArrivalOf(p)]
  {
    hide ArrivalOf;
    if packets == [] {
      assert packets + [p] == [p] && [p][1..] == [];
    } else {
      assert (packets + [p])[1..] == packets[1..] + [p];
      ArrivalsAppended(packets[1..], p);
    }
  }

  /** What the peer writes arrives. */
  lemma WriteRefines(c: Connection, unread: seq<Packet>, w: CW.World, p: Packet)
    requires Refines(c, unread, w) && Sendable(p) && !p.StartedPacket?
    ensures Refines(c.(wire := c.wire + Encode(p)), unread + [p], w.(wire := w.wire + [ArrivalOf(p)]))
  {
    hide Encode, Sendable, Flatten, Events, StartedCount, AllSendable, Arrivals, ArrivalOf;
    Appended(unread, p);
    ArrivalsAppended(unread, p);
  }

  /** Skipping replies on the socket finds the packet that settles a read. */
  lemma {:induction false} SkippingFinds(packets: seq<Packet>)
    ensures var found := Find(packets, ForEvent);
            CW.AfterSkipped(Arrivals(packets)) ==
            if found.None? then [] else [ArrivalOf(found.value.reply)] + Arrivals(found.value.rest)
    decreases |packets|
  {
    if packets != [] {
      SkippingFinds(packets[1..]);
      assert Arrivals(packets)[1..] == Arrivals(packets[1..]);
    }
  }

  /** The next stream message is what the cast's world delivers, and a read that
      fails there fails here. */
  lemma ReadRefines(c: Connection, unread: seq<Packet>, w: CW.World)
    requires Refines(c, unread, w) && CW.Readable(w)
    ensures var (r, n) := NextStreamMessage(c); var (a, after) := CW.Delivered(w);
            var left := if c.pending != [] then unread else Remaining(unread, ForEvent);
            && (if a.Event? then r == Ok(a.message) else r.Err?)
            && Refines(n, left, after)
  {
    if c.pending != [] {
      hide Flatten, Events, StartedCount, AllSendable, Arrivals, Find;
    } else {
      WireRefines(c, unread, w);
      hide ReadEvent, Flatten, Events, StartedCount, AllSendable, Arrivals, Find, CW.AfterSkipped, Remaining;
    }
  }

  lemma WireRefines(c: Connection, unread: seq<Packet>, w: CW.World)
    requires Refines(c, unread, w) && CW.AfterSkipped(w.wire) != []
    ensures var (r, n) := ReadEvent(c); var a, left := CW.AfterSkipped(w.wire)[0], Remaining(unread, ForEvent);
            && (if a.Event? then r == Ok(a.message) else r.Err?)
            && n == Connection(Flatten(left), c.pending, n.lease) && Arrivals(left) == CW.AfterSkipped(w.wire)[1..]
            && AllSendable(left) && StartedCount(left) == 0
  {
    hide ReadEvent, Flatten, Events, StartedCount, AllSendable, Sendable;
    ReadSplits(c, unread);
    ReadEventIff(c, unread);
    FirstArrival(unread);
    FoundIsFirst(unread);
    var (r, n) := ReadEvent(c);
    assert n.wire == Flatten(Remaining(unread, ForEvent));
    assert if ArrivalOf(Find(unread, ForEvent).value.reply).Event? then r.Ok? else r.Err?;
  }

  lemma FirstArrival(packets: seq<Packet>)
    requires CW.AfterSkipped(Arrivals(packets)) != []
    ensures Find(packets, ForEvent).Some?
    ensures CW.AfterSkipped(Arrivals(packets))[0] == ArrivalOf(Find(packets, ForEvent).value.reply)
    ensures CW.AfterSkipped(Arrivals(packets))[1..] == Arrivals(Find(packets, ForEvent).value.rest)
  {
    hide ArrivalOf, Arrivals, CW.AfterSkipped;
    SkippingFinds(packets);
    var found := Find(packets, ForEvent).value;
    assert ([ArrivalOf(found.reply)] + Arrivals(found.rest))[1..] == Arrivals(found.rest);
  }

  lemma FoundIsFirst(packets: seq<Packet>)
    ensures Find(packets, ForEvent).Some? ==>
              var p := Find(packets, ForEvent).value.reply; p.ErrorPacket? <==> EventOf(p).None?
  {
    if Find(packets, ForEvent).Some? { FoundSplits(packets, ForEvent); }
  }

  /** The output lookup does to the packets what it does to the arrivals; a frame
      with a descriptor puts the connection out of step, and nothing else does. */
  lemma LookupRefines(c: Connection, unread: seq<Packet>, w: CW.World)
    requires Refines(c, unread, w)
    ensures var n, after := ReadOutputs(c).1, w.(wire := CW.AfterLookup(w.wire));
            if after.wire != [] && after.wire[0].Stray? then Derailed(n) && n.pending == after.kept
            else Refines(n, if unread == [] then [] else unread[1..], after)
  {
    LookupStep(c, unread);
    if unread != [] {
      TakeFirst(unread);
      assert Arrivals(unread)[1..] == Arrivals(unread[1..]);
      var p := unread[0];
      assert w.wire[0] == ArrivalOf(p);
      hide Flatten, Events, StartedCount, AllSendable, ReadOutputs, Sendable;
      if w.wire[0].Event? && w.wire[0].message.FrameReady? && w.wire[0].message.frame.slot.None? {
        assert p.FramePacket? && p.frame == w.wire[0].message.frame;
      } else {
        NoStrayBehind(unread[1..]);
      }
    }
  }

  lemma {:induction false} NoStrayBehind(packets: seq<Packet>)
    ensures CW.Stray !in Arrivals(packets)
  {
    if packets != [] { NoStrayBehind(packets[1..]); }
  }

  // ---------- restarts ----------

  /** Stopping the stream and starting it again, on one socket. */
  function Reconnect(c: Connection, id: StreamId): (Restart, Connection)
  {
    var (stopped, mid) := AwaitStopped(c, id);
    if stopped.Err? then (StopFails, mid)
    else
      var (started, last) := AwaitStarted(mid);
      if started.Err? then (StartFails, last) else (Restarts(started.value), last)
  }

  predicate NoneSettle(packets: seq<Packet>, wanted: Wanted)
  {
    packets == [] || (!Settles(packets[0], wanted) && NoneSettle(packets[1..], wanted))
  }

  lemma {:induction false} FindBehind(before: seq<Packet>, reply: Packet, rest: seq<Packet>, wanted: Wanted)
    requires NoneSettle(before, wanted) && Settles(reply, wanted)
    ensures Find(before + [reply] + rest, wanted) == Some(Found(before, reply, rest))
    decreases |before|
  {
    hide Settles;
    var all := before + [reply] + rest;
    if before == [] {
      assert all[0] == reply && all[1..] == rest;
    } else {
      assert all[0] == before[0] && all[1..] == before[1..] + [reply] + rest;
      FindBehind(before[1..], reply, rest, wanted);
      assert [before[0]] + before[1..] == before;
    }
  }

  /** The wait for the stop, then the wait for the start, whatever settles them:
      the stop fails unless the first stop reply comes before any error and names
      the stream; then the start fails unless its reply comes before any error.
      The events in front of what settled a wait are kept in order. */
  lemma ReconnectIff(c: Connection, id: StreamId, unread: seq<Packet>, stop: Packet, early: seq<Packet>, start: Packet, later: seq<Packet>)
    requires AllSendable(unread) && AllSendable(early) && AllSendable(later) && Sendable(start) && Sendable(stop)
    requires NoneSettle(unread, ForStopped) && Settles(stop, ForStopped) && NoneSettle(early, ForStarted) && Settles(start, ForStarted)
    requires StartedCount(unread) == 0
    requires c.wire == Flatten(unread + [stop] + (early + [start] + later))
    ensures var (restart, n) := Reconnect(c, id);
            if stop != StoppedPacket(id)
            then restart == StopFails && n.wire == Flatten(early + [start] + later) && n.pending == c.pending + Events(unread)
            else
              && restart == (if start.StartedPacket? then Restarts(Received(start.info)) else StartFails)
              && n.wire == Flatten(later) && n.pending == c.pending + Events(unread) + Events(early)
  {
    hide Sendable, AwaitStopped, AwaitStarted, Flatten, Events, StartedCount, AllSendable, NoneSettle, Received, Settles;
    var tail := early + [start] + later;
    StopUpTo(c, id, unread, stop, tail);
    if stop == StoppedPacket(id) {
      var mid := AwaitStopped(c, id).1;
      FindBehind(early, start, later, ForStarted);
      SendableTail(early, start, later);
      StartIff(mid, tail);
      assert Remaining(tail, ForStarted) == later && Passed(tail, ForStarted) == early;
      assert AwaitStarted(mid).0.Ok? <==> start.StartedPacket?;
      assert (c.pending + Events(unread)) + Events(early) == c.pending + Events(unread) + Events(early);
    }
  }

  /** On a connection out of step no restart succeeds. */
  lemma DerailedNeverRestarts(c: Connection, id: StreamId)
    requires Derailed(c)
    ensures Reconnect(c, id) == (StopFails, c)
  {
  }

  lemma SendableTail(early: seq<Packet>, started: Packet, later: seq<Packet>)
    requires AllSendable(early) && AllSendable(later) && Sendable(started)
    ensures AllSendable(early + [started] + later)
  {
    hide Sendable;
    JoinSendable(early, [started]);
    JoinSendable(early + [started], later);
    assert [started][1..] == [];
  }

  /** The wait for a stop reply looks at nothing behind what settles it. */
  lemma {:induction false} StopUpTo(c: Connection, id: StreamId, unread: seq<Packet>, stop: Packet, tail: seq<Packet>)
    requires AllSendable(unread) && NoneSettle(unread, ForStopped) && StartedCount(unread) == 0
    requires Sendable(stop) && Settles(stop, ForStopped)
    requires c.wire == Flatten(unread + [stop] + tail)
    ensures AwaitStopped(c, id).0.Ok? <==> stop == StoppedPacket(id)
    ensures AwaitStopped(c, id).1.wire == Flatten(tail) && AwaitStopped(c, id).1.pending == c.pending + Events(unread)
    decreases |unread|
  {
    hide Sendable, AwaitStopped, EventSeq, LeaseAfter, Flatten;
    var all := unread + [stop] + tail;
    if unread == [] {
      assert all[0] == stop && all[1..] == tail;
      StopStep(c, all, id);
    } else {
      var p := unread[0];
      assert all[0] == p && all[1..] == unread[1..] + [stop] + tail;
      StopStep(c, all, id);
      StopUpTo(Past(c, p, Flatten(all[1..])), id, unread[1..], stop, tail);
    }
  }

  /** A restart of the cast's world is the client's stop and start: the same
      stream with a bounded table, the same events kept, in the same order. */
  lemma RestartRefines(c: Connection, w: CW.World, r: State, unread: seq<Packet>, early: seq<Packet>, started: Packet, later: seq<Packet>)
    requires Refines(c, unread, w) && AllSendable(early) && AllSendable(later) && Sendable(started) && started.StartedPacket?
    requires NoneSettle(unread, ForStopped) && NoneSettle(early, ForStarted) && StartedCount(later) == 0
    requires r.transport.streamId != w.live.streamId
    ensures var id := w.live.streamId;
            var (restart, n) := Reconnect(c.(wire := Flatten(unread + [StoppedPacket(id)] + (early + [started] + later))), id);
            && restart == Restarts(Received(started.info)) && TableBounded(SlotsOf(restart.info))
            && Refines(n, later, CW.Settle(w, r, restart, Events(early)).(wire := Arrivals(later)))
  {
    var id := w.live.streamId;
    var full := c.(wire := Flatten(unread + [StoppedPacket(id)] + (early + [started] + later)));
    ReconnectIff(full, id, unread, StoppedPacket(id), early, started, later);
    StartedTableIsBounded(AwaitStopped(full, id).1);
    EventsOfArrivals(unread);
    hide Flatten, Events, AllSendable, StartedCount, AwaitStopped, AwaitStarted, Arrivals, CW.EventsOf, Received, NoneSettle;
  }

  // ---------- a slot stride no one bounds ----------

  /** The announcement of a one-pixel stream whose only slot has the given stride. */
  function OneSlotOf(stride: u32): StreamInfo
  {
    StreamInfo(7, 1, 1, DmabufPixels(Fourcc('X', 'R', '2', '4'), 0), Some([SlotFile(3, stride, 4)]))
  }

  /** A slot stride above the signed range is received with its table, starts a
      cast, and comes out negative in the chunks of the slot's buffer. */
  lemma WideStrideWraps(stride: u32)
    ensures AwaitStarted(Connection(Encode(StartedPacket(OneSlotOf(stride), [File(3, true, true, 4)])), [], None)).0
         == Ok(OneSlotOf(stride))
    ensures CO.Started(OneSlotOf(stride), Window(1), Hidden, [])
    ensures var t := CW.Begin(OneSlotOf(stride), Window(1), Hidden, []).value.cast.transport;
            t.slotFiles == [SlotFile(3, stride, 4)]
            && (SlotChunk(t.slotFiles[0]).stride == stride <==> stride <= I32_MAX)
            && (stride == 0x8000_0000 ==> SlotChunk(t.slotFiles[0]).stride == -0x8000_0000)
  {
    hide Encode, AwaitStarted, GeometryOk, AnnouncedFormat;
    var info, files := OneSlotOf(stride), [File(3, true, true, 4)];
    var c := Connection(Encode(StartedPacket(info, files)), [], None);
    assert Flatten([StartedPacket(info, files)]) == c.wire by {
      assert [StartedPacket(info, files)][1..] == [];
      assert c.wire + [] == c.wire;
    }
    StartStep(c, [StartedPacket(info, files)]);
    FrameLenIff(1, 1);
    LinearIsAnnounced();
    AsI32Iff(stride);
  }

  lemma LinearIsAnnounced()
    ensures AnnouncedFormat(DmabufPixels(Fourcc('X', 'R', '2', '4'), 0)).Some?
  {
  }
}
