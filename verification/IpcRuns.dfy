/** The peer's packets on the socket, and every interleaving of its events and
    replies with the client's calls. */
module IpcRuns {
  import opened Wrappers
  import opened Frames
  import opened Cast
  import opened IpcWire

  // ---------- what the peer writes ----------

  /** One uninterrupted write of the peer: a message with the descriptors that
      belong to it. */
  datatype Packet =
    | FramePacket(frame: StreamFrame, byteLen: nat, files: seq<File>)
    | EndedPacket(streamId: StreamId)
    | GeometryPacket(streamId: StreamId, width: u32, height: u32)
    | LeasePacket(lease: Lease)
    | StartedPacket(info: StreamInfo, files: seq<File>)
    | StoppedPacket(streamId: StreamId)
    | ReleasedPacket(streamId: StreamId, slot: nat)
    | OutputsPacket(outputs: seq<OutputInfo>)
    | ErrorPacket
    | OtherPacket

  function HeaderOf(frame: StreamFrame, byteLen: nat): WireMessage
  {
    StreamFrameHeader(frame.streamId, frame.width, frame.height, frame.stride, frame.format, frame.damage, byteLen, frame.slot)
  }

  /** The slot metadata rides in the reply, taken from the table's first entry;
      an empty table is announced as none. */
  function ReplyOf(info: StreamInfo): WireMessage
  {
    var table := SlotsOf(info);
    if table == [] then StartedReply(info.streamId, info.width, info.height, info.format, None, None, None)
    else StartedReply(info.streamId, info.width, info.height, info.format, Some(|table|), Some(table[0].stride), Some(table[0].byteLen))
  }

  function Attachments(files: seq<File>): (items: seq<Item>)
    ensures |items| == |files|
  {
    if files == [] then [] else [Attached(files[0])] + Attachments(files[1..])
  }

  function Encode(p: Packet): seq<Item>
  {
    match p
    case FramePacket(frame, byteLen, files) => [Text(HeaderOf(frame, byteLen))] + Attachments(files)
    case EndedPacket(id) => [Text(StreamEndedEvent(id))]
    case GeometryPacket(id, width, height) => [Text(StreamGeometryEvent(id, width, height))]
    case LeasePacket(lease) => [Text(LeaseRenewedReply(lease))]
    case StartedPacket(info, files) => [Text(ReplyOf(info))] + Attachments(files)
    case StoppedPacket(id) => [Text(StoppedReply(id))]
    case ReleasedPacket(id, slot) => [Text(ReleasedReply(id, slot))]
    case OutputsPacket(outputs) => [Text(OutputsReply(outputs))]
    case ErrorPacket => [Text(ErrorReply)]
    case OtherPacket => [Text(OtherReply)]
  }

  /** A memory file must be regular, sealed and of the announced length, so that
      it can be mapped; a dmabuf may be longer. */
  predicate FileFits(file: File, expected: nat, memfd: bool)
  {
    && 1 <= expected <= MAX_BLOB_BYTES && file.length >= expected
    && (memfd ==> file.length == expected && file.regular && file.fullySealed)
  }

  predicate TableFits(table: seq<SlotFile>, files: seq<File>)
  {
    |files| == |table| && forall i | 0 <= i < |table| ::
      && files[i].token == table[i].file && table[i].stride == table[0].stride && table[i].byteLen == table[0].byteLen
      && FileFits(files[i], table[0].byteLen, false)
  }

  /** The peer writes frames with the descriptor their format calls for, and
      slot tables only for dmabuf streams. */
  predicate Sendable(p: Packet)
  {
    match p
    case FramePacket(frame, byteLen, files) =>
      if frame.slot.Some? then frame.carried.InSlot? && files == []
      else
        && |files| == 1 && FileFits(files[0], byteLen, !frame.format.DmabufPixels?)
        && frame.carried == if frame.format.DmabufPixels? then DmabufFile(files[0].token) else Memfd(files[0].token)
    case StartedPacket(info, files) =>
      && (SlotsOf(info) != [] ==> info.format.DmabufPixels?)
      && TableFits(SlotsOf(info), files)
    case _ => true
  }

  /** The event a client is to see for a packet, if any. */
  function EventOf(p: Packet): Option<Message>
  {
    match p
    case FramePacket(frame, _, _) => Some(FrameReady(frame))
    case EndedPacket(id) => Some(StreamEnded(id))
    case GeometryPacket(id, width, height) => Some(GeometryChanged(id, width, height))
    case LeasePacket(_) => Some(LeaseRenewed)
    case _ => None
  }

  function EventSeq(p: Packet): seq<Message>
  {
    if EventOf(p).Some? then [EventOf(p).value] else []
  }

  function Events(packets: seq<Packet>): seq<Message>
  {
    if packets == [] then [] else EventSeq(packets[0]) + Events(packets[1..])
  }

  function Flatten(packets: seq<Packet>): seq<Item>
  {
    if packets == [] then [] else Encode(packets[0]) + Flatten(packets[1..])
  }

  function LeaseAfter(lease: Option<Lease>, p: Packet): Option<Lease>
  {
    if p.LeasePacket? then Some(p.lease) else lease
  }

  /** What the start reply stands for: the stream with the files of its table. */
  function Received(info: StreamInfo): StreamInfo
  {
    info.(slots := if SlotsOf(info) == [] then None else info.slots)
  }

  // ---------- reading one packet ----------

  lemma OneAttachment(file: File)
    ensures Attachments([file]) == [Attached(file)]
  {
    assert [file][1..] == [];
  }

  lemma EncodeStarts(p: Packet, rest: seq<Item>)
    ensures Encode(p) + rest != [] && (Encode(p) + rest)[0] == Encode(p)[0] && (Encode(p) + rest)[1..] == Encode(p)[1..] + rest
    ensures Encode(p)[0].Text?
  {
  }

  /** Reading a packet that is no start reply takes the whole of it off the
      socket, its descriptor included, and yields its event. */
  lemma PacketRead(c: Connection, p: Packet, rest: seq<Item>)
    requires Sendable(p) && !p.StartedPacket? && !p.ErrorPacket? && c.wire == Encode(p)[1..] + rest
    ensures StreamMessage(c, Encode(p)[0].message) == (Ok(EventOf(p)), c.(wire := rest, lease := LeaseAfter(c.lease, p)))
  {
    if p.FramePacket? {
      assert Encode(p)[1..] == Attachments(p.files);
      if p.frame.slot.None? {
        assert p.files == [p.files[0]];
        OneAttachment(p.files[0]);
        assert c.wire == [Attached(p.files[0])] + rest;
        assert c.wire[1..] == rest;
      } else {
        assert c.wire == rest;
      }
    } else {
      assert c.wire == rest;
    }
  }

  lemma {:induction false} TableRead(c: Connection, files: seq<File>, stride: u32, bytes: nat, done: seq<SlotFile>,
                                     todo: seq<SlotFile>, rest: seq<Item>)
    requires c.wire == Attachments(files) + rest && |files| == |todo|
    requires forall i | 0 <= i < |files| :: todo[i] == SlotFile(files[i].token, stride, bytes) && FileFits(files[i], bytes, false)
    ensures ReceiveTable(c, |files|, stride, bytes, done) == (Ok(done + todo), c.(wire := rest))
    decreases |files|
  {
    if files == [] {
      assert c.wire == rest && done + todo == done;
    } else {
      assert c.wire == [Attached(files[0])] + (Attachments(files[1..]) + rest);
      var next := c.(wire := c.wire[1..]);
      assert next.wire == Attachments(files[1..]) + rest;
      assert ReceiveFile(c, bytes, false) == (Ok(files[0].token), next);
      TableRead(next, files[1..], stride, bytes, done + [todo[0]], todo[1..], rest);
      assert done + [todo[0]] + todo[1..] == done + todo;
    }
  }

  /** Each descriptor of a slot table ends up in the entry it was sent for. */
  lemma StartedRead(c: Connection, p: Packet, rest: seq<Item>)
    requires Sendable(p) && p.StartedPacket? && c.wire == Encode(p)[1..] + rest
    ensures Encode(p)[0].message.StartedReply?
    ensures FinishStart(c, Encode(p)[0].message) == (Ok(Received(p.info)), c.(wire := rest))
  {
    var table := SlotsOf(p.info);
    assert Encode(p)[1..] == Attachments(p.files);
    if table == [] {
      assert p.files == [] && Attachments(p.files) == [];
      assert c.wire == rest;
    } else {
      TableRead(c, p.files, table[0].stride, table[0].byteLen, [], table, rest);
      assert [] + table == table;
    }
  }

  // ---------- waiting for a reply ----------

  predicate AllSendable(packets: seq<Packet>)
  {
    packets == [] || (Sendable(packets[0]) && AllSendable(packets[1..]))
  }

  function StartedCount(packets: seq<Packet>): nat
  {
    if packets == [] then 0 else (if packets[0].StartedPacket? then 1 else 0) + StartedCount(packets[1..])
  }

  datatype Wanted = ForStarted | ForStopped | ForEvent

  /** What ends a wait: the packet that is wanted, or an error. */
  predicate Settles(p: Packet, wanted: Wanted)
  {
    || p.ErrorPacket?
    || match wanted
       case ForStarted => p.StartedPacket?
       case ForStopped => p.StoppedPacket?
       case ForEvent => EventOf(p).Some?
  }

  datatype Found = Found(before: seq<Packet>, reply: Packet, rest: seq<Packet>)

  /** The first packet that settles a wait. */
  function Find(packets: seq<Packet>, wanted: Wanted): Option<Found>
  {
    if packets == [] then None
    else if Settles(packets[0], wanted) then Some(Found([], packets[0], packets[1..]))
    else
      match Find(packets[1..], wanted)
      case None => None
      case Some(f) => Some(Found([packets[0]] + f.before, f.reply, f.rest))
  }

  /** What is found splits the packets, and is the first of its kind. */
  lemma {:induction false} FoundSplits(packets: seq<Packet>, wanted: Wanted)
    requires Find(packets, wanted).Some?
    ensures var f := Find(packets, wanted).value;
            && packets == f.before + [f.reply] + f.rest && Settles(f.reply, wanted)
            && forall p <- f.before :: !Settles(p, wanted)
    decreases |packets|
  {
    hide Settles;
    if !Settles(packets[0], wanted) {
      FoundSplits(packets[1..], wanted);
      assert packets == [packets[0]] + packets[1..];
    }
  }

  lemma {:induction false} FoundEvents(packets: seq<Packet>, wanted: Wanted)
    requires Find(packets, wanted).Some?
    ensures var f := Find(packets, wanted).value; Events(packets) == Events(f.before) + EventSeq(f.reply) + Events(f.rest)
    decreases |packets|
  {
    hide Settles, EventSeq;
    var p := packets[0];
    if Settles(p, wanted) {
      assert Events([]) == [];
    } else {
      FoundEvents(packets[1..], wanted);
      Prefixed(p, Find(packets[1..], wanted).value.before);
    }
  }

  lemma {:induction false} FoundStarted(packets: seq<Packet>, wanted: Wanted)
    requires Find(packets, wanted).Some?
    ensures var f := Find(packets, wanted).value;
            && StartedCount(packets) == StartedCount(f.before) + StartedCount(f.rest) + (if f.reply.StartedPacket? then 1 else 0)
            && (AllSendable(packets) ==> AllSendable(f.rest))
    decreases |packets|
  {
    hide Settles, Sendable, Events;
    if !Settles(packets[0], wanted) {
      FoundStarted(packets[1..], wanted);
      Prefixed(packets[0], Find(packets[1..], wanted).value.before);
    }
  }

  lemma FoundCounts(packets: seq<Packet>, wanted: Wanted)
    requires Find(packets, wanted).Some?
    ensures var f := Find(packets, wanted).value;
            && Events(packets) == Events(f.before) + EventSeq(f.reply) + Events(f.rest)
            && StartedCount(packets) == StartedCount(f.before) + StartedCount(f.rest) + (if f.reply.StartedPacket? then 1 else 0)
            && (AllSendable(packets) ==> AllSendable(f.rest))
            && |Events(packets)| == |Events(f.before)| + |EventSeq(f.reply)| + |Events(f.rest)|
  {
    FoundEvents(packets, wanted);
    FoundStarted(packets, wanted);
  }

  lemma Prefixed(p: Packet, packets: seq<Packet>)
    ensures Events([p] + packets) == EventSeq(p) + Events(packets)
    ensures StartedCount([p] + packets) == (if p.StartedPacket? then 1 else 0) + StartedCount(packets)
  {
    assert ([p] + packets)[1..] == packets;
  }

  lemma FlattenFirst(packets: seq<Packet>)
    requires packets != []
    ensures Flatten(packets) != [] && Flatten(packets)[0] == Encode(packets[0])[0] && Flatten(packets)[0].Text?
    ensures Flatten(packets)[1..] == Encode(packets[0])[1..] + Flatten(packets[1..])
  {
    EncodeStarts(packets[0], Flatten(packets[1..]));
  }

  /** The connection after a packet that is kept or skipped. */
  function Past(c: Connection, p: Packet, rest: seq<Item>): Connection
  {
    c.(wire := rest, lease := LeaseAfter(c.lease, p), pending := c.pending + EventSeq(p))
  }

  lemma ErrorIsRead(c: Connection, rest: seq<Item>)
    ensures Encode(ErrorPacket)[0].message == ErrorReply && Encode(ErrorPacket)[1..] + rest == rest
    ensures StreamMessage(c, ErrorReply) == (Err(Refused), c)
  {
  }

  lemma NotStarted(p: Packet)
    requires !p.StartedPacket?
    ensures Encode(p)[0].Text? && !Encode(p)[0].message.StartedReply?
    ensures Encode(p)[0].message.StoppedReply? <==> p.StoppedPacket?
    ensures p.StoppedPacket? ==> Encode(p)[0].message.streamId == p.streamId && Encode(p)[1..] == []
  {
  }

  /** One packet of a wait for a start reply. */
  lemma StartStep(c: Connection, packets: seq<Packet>)
    requires packets != [] && Sendable(packets[0]) && c.wire == Flatten(packets)
    ensures var p, rest := packets[0], Flatten(packets[1..]);
            if p.StartedPacket? then AwaitStarted(c) == (Ok(Received(p.info)), c.(wire := rest))
            else if p.ErrorPacket? then AwaitStarted(c) == (Err(Refused), c.(wire := rest))
            else AwaitStarted(c) == AwaitStarted(Past(c, p, rest))
  {
    hide Sendable, Encode, StreamMessage, FinishStart, Flatten;
    var p, rest := packets[0], Flatten(packets[1..]);
    FlattenFirst(packets);
    var after := c.(wire := c.wire[1..]);
    if p.StartedPacket? {
      StartedRead(after, p, rest);
    } else if p.ErrorPacket? {
      ErrorIsRead(after, rest);
    } else {
      NotStarted(p);
      PacketRead(after, p, rest);
      assert EventOf(p).None? ==> Past(c, p, rest).pending == c.pending;
    }
  }

  /** One packet of a wait for a stop reply. */
  lemma StopStep(c: Connection, packets: seq<Packet>, id: StreamId)
    requires packets != [] && Sendable(packets[0]) && !packets[0].StartedPacket? && c.wire == Flatten(packets)
    ensures var p, rest := packets[0], Flatten(packets[1..]);
            if p.StoppedPacket? then AwaitStopped(c, id) == (if p.streamId == id then Ok(()) else Err(WrongReply), c.(wire := rest))
            else if p.ErrorPacket? then AwaitStopped(c, id) == (Err(Refused), c.(wire := rest))
            else AwaitStopped(c, id) == AwaitStopped(Past(c, p, rest), id)
  {
    hide Sendable, Encode, StreamMessage, Flatten;
    var p, rest := packets[0], Flatten(packets[1..]);
    FlattenFirst(packets);
    NotStarted(p);
    var after := c.(wire := c.wire[1..]);
    if p.ErrorPacket? {
      ErrorIsRead(after, rest);
    } else if !p.StoppedPacket? {
      PacketRead(after, p, rest);
      assert EventOf(p).None? ==> Past(c, p, rest).pending == c.pending;
    } else {
      assert after.wire == rest;
    }
  }

  /** One packet of a wait for an event. */
  lemma EventStep(c: Connection, packets: seq<Packet>)
    requires packets != [] && Sendable(packets[0]) && !packets[0].StartedPacket? && c.wire == Flatten(packets)
    ensures var p, rest := packets[0], Flatten(packets[1..]); var next := c.(wire := rest, lease := LeaseAfter(c.lease, p));
            if p.ErrorPacket? then ReadEvent(c) == (Err(Refused), c.(wire := rest))
            else if EventOf(p).Some? then ReadEvent(c) == (Ok(EventOf(p).value), next)
            else ReadEvent(c) == ReadEvent(next)
  {
    hide Sendable, Encode, StreamMessage, Flatten;
    var p, rest := packets[0], Flatten(packets[1..]);
    FlattenFirst(packets);
    var after := c.(wire := c.wire[1..]);
    if p.ErrorPacket? { ErrorIsRead(after, rest); } else { PacketRead(after, p, rest); }
  }

  lemma NothingThere(c: Connection, id: StreamId)
    requires c.wire == []
    ensures AwaitStarted(c) == (Err(TimedOut), c) && AwaitStopped(c, id) == (Err(TimedOut), c) && ReadEvent(c) == (Err(TimedOut), c)
  {
  }

  /** What a wait leaves: everything up to what settles it is read and its events
      kept; with nothing to settle it, everything is. */
  function Remaining(packets: seq<Packet>, wanted: Wanted): seq<Packet>
  {
    match Find(packets, wanted) case None => [] case Some(f) => f.rest
  }

  function Passed(packets: seq<Packet>, wanted: Wanted): seq<Packet>
  {
    match Find(packets, wanted) case None => packets case Some(f) => f.before
  }

  lemma EmptyFlat()
    ensures Flatten([]) == []
  {
  }

  /** A start succeeds if and only if a start reply comes before any error, and
      then returns what that reply announced. However it ends, every event
      before its end is kept in order and the rest of the socket untouched. */
  lemma {:induction false} StartIff(c: Connection, packets: seq<Packet>)
    requires c.wire == Flatten(packets) && AllSendable(packets)
    ensures var found, (r, n) := Find(packets, ForStarted), AwaitStarted(c);
            && (r.Ok? <==> found.Some? && found.value.reply.StartedPacket?)
            && (r.Ok? ==> r.value == Received(found.value.reply.info))
            && n.wire == Flatten(Remaining(packets, ForStarted))
            && n.pending == c.pending + Events(Passed(packets, ForStarted))
    decreases |packets|
  {
    hide Sendable, AwaitStarted, Received, EventSeq, LeaseAfter, Flatten;
    if packets == [] {
      EmptyFlat();
      NothingThere(c, 0);
    } else {
      var p, rest := packets[0], packets[1..];
      StartStep(c, packets);
      if !p.StartedPacket? && !p.ErrorPacket? {
        StartIff(Past(c, p, Flatten(rest)), rest);
        if Find(rest, ForStarted).Some? { Prefixed(p, Find(rest, ForStarted).value.before); }
      }
    }
  }

  /** A stop succeeds if and only if a stop reply comes before any error and names
      the stream; however it ends, events are kept and the rest untouched. */
  lemma {:induction false} StopIff(c: Connection, packets: seq<Packet>, id: StreamId)
    requires c.wire == Flatten(packets) && AllSendable(packets) && StartedCount(packets) == 0
    ensures var found, (r, n) := Find(packets, ForStopped), AwaitStopped(c, id);
            && (r.Ok? <==> found.Some? && found.value.reply == StoppedPacket(id))
            && n.wire == Flatten(Remaining(packets, ForStopped))
            && n.pending == c.pending + Events(Passed(packets, ForStopped))
    decreases |packets|
  {
    hide Sendable, AwaitStopped, EventSeq, LeaseAfter, Flatten;
    if packets == [] {
      EmptyFlat();
      NothingThere(c, id);
    } else {
      var p, rest := packets[0], packets[1..];
      StopStep(c, packets, id);
      if !p.StoppedPacket? && !p.ErrorPacket? {
        StopIff(Past(c, p, Flatten(rest)), rest, id);
        if Find(rest, ForStopped).Some? { Prefixed(p, Find(rest, ForStopped).value.before); }
      }
    }
  }

  /** Reading on returns the first event, with its own descriptor, unless an error
      comes first or nothing does; it passes over no event. */
  lemma {:induction false} ReadEventIff(c: Connection, packets: seq<Packet>)
    requires c.wire == Flatten(packets) && AllSendable(packets) && StartedCount(packets) == 0
    ensures var found, (r, n) := Find(packets, ForEvent), ReadEvent(c);
            && (r.Ok? <==> found.Some? && EventOf(found.value.reply).Some?)
            && (r.Ok? ==> EventOf(found.value.reply) == Some(r.value))
            && Events(Passed(packets, ForEvent)) == []
            && n.wire == Flatten(Remaining(packets, ForEvent)) && n.pending == c.pending
    decreases |packets|
  {
    hide Sendable, ReadEvent, LeaseAfter, Flatten;
    if packets == [] {
      EmptyFlat();
      NothingThere(c, 0);
    } else {
      var p, rest := packets[0], packets[1..];
      EventStep(c, packets);
      if EventOf(p).None? && !p.ErrorPacket? {
        ReadEventIff(c.(wire := Flatten(rest), lease := LeaseAfter(c.lease, p)), rest);
        if Find(rest, ForEvent).Some? { Prefixed(p, Find(rest, ForEvent).value.before); } else { Prefixed(p, rest); assert packets == [p] + rest; }
      }
    }
  }

  // ---------- runs ----------

  datatype Waiting = Idle | Starting(answered: bool) | Stopping(id: StreamId, answered: bool) | LookingUp

  /** The client, the packets it has not read, everything the peer has sent as
      events, and everything handed to the caller; `swallowed` counts the events
      an output lookup took for its reply. */
  datatype World = World(
    client: Connection, unread: seq<Packet>, waiting: Waiting,
    sent: seq<Message>, delivered: seq<Message>, swallowed: nat, failed: bool)

  datatype Step =
    | PeerWrites(packet: Packet)
    | RequestStart
    | RequestStop(id: StreamId)
    | RequestOutputs
    | FinishStarting
    | FinishStopping
    | FinishLookup
    | Next

  const QUIET: World := World(Connection([], [], None), [], Idle, [], [], 0, false)

  predicate Enabled(w: World, step: Step)
  {
    && !w.failed
    && match step
       case PeerWrites(p) =>
         && Sendable(p)
         && (p.StartedPacket? ==> w.waiting == Starting(false))
         && (p.StoppedPacket? ==> w.waiting == Stopping(p.streamId, false))
       case RequestStart => w.waiting == Idle
       case RequestStop(_) => w.waiting == Idle
       case RequestOutputs => w.waiting == Idle
       case FinishStarting => w.waiting.Starting?
       case FinishStopping => w.waiting.Stopping?
       case FinishLookup => w.waiting == LookingUp
       case Next => w.waiting == Idle
  }

  /** A descriptor lies where a message should be. */
  predicate Derailed(c: Connection)
  {
    c.wire != [] && c.wire[0].Attached?
  }

  function Unread(w: World, wanted: Wanted): seq<Packet>
  {
    if Derailed(w.client) then w.unread else Remaining(w.unread, wanted)
  }

  /** A failed start, stop or read ends the connection's use; a failed lookup does
      not, its caller goes on without a position. */
  function Then(w: World, step: Step): World
  {
    match step
    case PeerWrites(p) =>
      w.(client := w.client.(wire := w.client.wire + Encode(p)), unread := w.unread + [p], sent := w.sent + EventSeq(p),
         waiting := if p.StartedPacket? then Starting(true) else if p.StoppedPacket? then Stopping(p.streamId, true) else w.waiting)
    case RequestStart => w.(waiting := Starting(false))
    case RequestStop(id) => w.(waiting := Stopping(id, false))
    case RequestOutputs => w.(waiting := LookingUp)
    case FinishStarting =>
      var (r, c) := AwaitStarted(w.client);
      w.(client := c, unread := Unread(w, ForStarted), waiting := Idle, failed := r.Err?)
    case FinishStopping =>
      var (r, c) := AwaitStopped(w.client, if w.waiting.Stopping? then w.waiting.id else 0);
      w.(client := c, unread := Unread(w, ForStopped), waiting := Idle, failed := r.Err?)
    case FinishLookup =>
      var (r, c) := ReadOutputs(w.client);
      w.(client := c, waiting := Idle,
         unread := if Derailed(w.client) || w.unread == [] then w.unread else w.unread[1..],
         swallowed := w.swallowed + if Swallows(w, step) then 1 else 0)
    case Next =>
      var (r, c) := NextStreamMessage(w.client);
      w.(client := c, unread := if w.client.pending != [] then w.unread else Unread(w, ForEvent),
         delivered := if r.Ok? then w.delivered + [r.value] else w.delivered, failed := r.Err?)
  }

  /** The first unread packet is an event, and an output lookup reads it. */
  predicate Swallows(w: World, step: Step)
  {
    step.FinishLookup? && !Derailed(w.client) && w.unread != [] && EventOf(w.unread[0]).Some?
  }

  /** Nothing is lost, repeated or reordered between the peer and the caller. */
  predicate InOrder(w: World)
  {
    w.delivered + w.client.pending + Events(w.unread) == w.sent
  }

  /** A start reply is on the socket only while it is awaited, and once. */
  predicate RepliesAwaited(w: World)
  {
    w.failed || StartedCount(w.unread) == if w.waiting == Starting(true) then 1 else 0
  }

  predicate Inv(w: World)
  {
    && AllSendable(w.unread) && RepliesAwaited(w)
    && (Derailed(w.client) || w.client.wire == Flatten(w.unread))
    && |w.delivered| + |w.client.pending| + |Events(w.unread)| + w.swallowed == |w.sent|
    && (w.swallowed == 0 ==> InOrder(w) && w.client.wire == Flatten(w.unread))
  }

  lemma {:induction false} JoinCounts(a: seq<Packet>, b: seq<Packet>)
    ensures AllSendable(a + b) <==> AllSendable(a) && AllSendable(b)
    ensures StartedCount(a + b) == StartedCount(a) + StartedCount(b)
  {
    hide Sendable;
    if a == [] {
      assert a + b == b;
    } else {
      assert (a + b)[1..] == a[1..] + b;
      JoinCounts(a[1..], b);
    }
  }

  lemma {:induction false} JoinItems(a: seq<Packet>, b: seq<Packet>)
    ensures Flatten(a + b) == Flatten(a) + Flatten(b)
  {
    hide Encode;
    if a == [] {
      assert a + b == b;
    } else {
      assert (a + b)[1..] == a[1..] + b;
      JoinItems(a[1..], b);
    }
  }

  lemma {:induction false} JoinEvents(a: seq<Packet>, b: seq<Packet>)
    ensures Events(a + b) == Events(a) + Events(b)
  {
    hide EventSeq;
    if a == [] {
      assert a + b == b;
    } else {
      assert (a + b)[1..] == a[1..] + b;
      JoinEvents(a[1..], b);
    }
  }

  lemma JoinSendable(a: seq<Packet>, b: seq<Packet>)
    ensures AllSendable(a + b) <==> AllSendable(a) && AllSendable(b)
    ensures StartedCount(a + b) == StartedCount(a) + StartedCount(b)
    ensures Flatten(a + b) == Flatten(a) + Flatten(b) && Events(a + b) == Events(a) + Events(b)
  {
    JoinCounts(a, b);
    JoinItems(a, b);
    JoinEvents(a, b);
  }

  lemma Appended(packets: seq<Packet>, p: Packet)
    ensures Flatten(packets + [p]) == Flatten(packets) + Encode(p)
    ensures Events(packets + [p]) == Events(packets) + EventSeq(p)
    ensures StartedCount(packets + [p]) == StartedCount(packets) + if p.StartedPacket? then 1 else 0
    ensures AllSendable(packets) && Sendable(p) ==> AllSendable(packets + [p])
  {
    JoinSendable(packets, [p]);
    assert [p][1..] == [];
    assert Encode(p) + [] == Encode(p) && EventSeq(p) + [] == EventSeq(p);
    hide Encode, EventSeq, Sendable;
    assert Flatten([p]) == Encode(p) && Events([p]) == EventSeq(p);
  }

  lemma WritingKeeps(w: World, p: Packet)
    requires Inv(w) && Enabled(w, PeerWrites(p))
    ensures Inv(Then(w, PeerWrites(p)))
  {
    hide Encode, Sendable, EventSeq, Flatten, Events, StartedCount, AllSendable;
    Appended(w.unread, p);
    var n := Then(w, PeerWrites(p));
    assert w.swallowed == 0 ==> InOrder(n);
  }

  /** What a wait passes, what settles it and what remains are all there was. */
  lemma WaitSplits(packets: seq<Packet>, wanted: Wanted)
    requires AllSendable(packets)
    ensures AllSendable(Remaining(packets, wanted)) && StartedCount(Remaining(packets, wanted)) <= StartedCount(packets)
    ensures wanted != ForEvent ==> Events(packets) == Events(Passed(packets, wanted)) + Events(Remaining(packets, wanted))
    ensures wanted == ForStarted && Find(packets, wanted).Some? && Find(packets, wanted).value.reply.StartedPacket? ==>
              StartedCount(Remaining(packets, wanted)) + 1 <= StartedCount(packets)
  {
    hide Sendable, Events, StartedCount, AllSendable, Find;
    if Find(packets, wanted).Some? {
      FoundCounts(packets, wanted);
      FoundSplits(packets, wanted);
      var f := Find(packets, wanted).value;
      if wanted != ForEvent { assert EventSeq(f.reply) == []; }
    } else {
      NoPackets();
    }
  }

  lemma NoPackets()
    ensures AllSendable([]) && StartedCount([]) == 0 && Events([]) == []
  {
  }

  /** A client call accounts for what it took off the socket. */
  lemma TakingKeeps(w: World, n: World, handed: seq<Message>)
    requires Inv(w) && !Derailed(w.client) && RepliesAwaited(n) && AllSendable(n.unread)
    requires n == w.(client := n.client, unread := n.unread, waiting := n.waiting, delivered := w.delivered + handed, failed := n.failed)
    requires n.client.wire == Flatten(n.unread)
    requires handed + n.client.pending + Events(n.unread) == w.client.pending + Events(w.unread)
    ensures Inv(n)
  {
    hide Flatten, Events, StartedCount, AllSendable;
    assert |handed + n.client.pending + Events(n.unread)| == |w.client.pending + Events(w.unread)|;
    assert n.delivered + n.client.pending + Events(n.unread) == w.delivered + (handed + n.client.pending + Events(n.unread));
    assert w.delivered + w.client.pending + Events(w.unread) == w.delivered + (w.client.pending + Events(w.unread));
  }

  lemma StartTakes(c: Connection, packets: seq<Packet>)
    requires c.wire == Flatten(packets) && AllSendable(packets)
    ensures var (r, n), rest := AwaitStarted(c), Remaining(packets, ForStarted);
            && n.wire == Flatten(rest) && n.pending + Events(rest) == c.pending + Events(packets)
            && AllSendable(rest) && StartedCount(rest) + (if r.Ok? then 1 else 0) <= StartedCount(packets)
  {
    hide AwaitStarted, Sendable, Flatten, Events, AllSendable, Passed;
    StartIff(c, packets);
    WaitSplits(packets, ForStarted);
  }

  lemma StopTakes(c: Connection, packets: seq<Packet>, id: StreamId)
    requires c.wire == Flatten(packets) && AllSendable(packets) && StartedCount(packets) == 0
    ensures var (r, n), rest := AwaitStopped(c, id), Remaining(packets, ForStopped);
            && n.wire == Flatten(rest) && n.pending + Events(rest) == c.pending + Events(packets)
            && AllSendable(rest) && StartedCount(rest) == 0
  {
    hide AwaitStopped, Sendable, Flatten, Events, AllSendable, Passed;
    StopIff(c, packets, id);
    WaitSplits(packets, ForStopped);
  }

  lemma DerailedFails(w: World)
    requires Derailed(w.client)
    ensures AwaitStarted(w.client) == (Err(OutOfStep), w.client) && ReadOutputs(w.client) == (Err(OutOfStep), w.client)
    ensures forall id :: AwaitStopped(w.client, id) == (Err(OutOfStep), w.client)
    ensures ReadEvent(w.client) == (Err(OutOfStep), w.client)
  {
  }

  /** A failed call on a derailed connection changes nothing. */
  lemma FailingKeeps(w: World, n: World)
    requires Inv(w) && n == w.(waiting := n.waiting, failed := n.failed) && RepliesAwaited(n)
    ensures Inv(n)
  {
    hide Flatten, Events, StartedCount, AllSendable;
  }

  lemma StartingKeeps(w: World)
    requires Inv(w) && Enabled(w, FinishStarting)
    ensures Inv(Then(w, FinishStarting))
  {
    var n := Then(w, FinishStarting);
    if Derailed(w.client) {
      DerailedFails(w);
      hide AwaitStarted, Remaining, Flatten, Events, StartedCount, AllSendable;
      FailingKeeps(w, n);
    } else {
      StartTakes(w.client, w.unread);
      var r := AwaitStarted(w.client).0;
      assert n.failed == r.Err?;
      assert StartedCount(w.unread) <= 1;
      assert r.Ok? ==> StartedCount(n.unread) + 1 <= StartedCount(w.unread);
      assert RepliesAwaited(n);
      hide AwaitStarted, Remaining, Flatten, Events, StartedCount, AllSendable;
      assert [] + n.client.pending == n.client.pending && w.delivered + [] == w.delivered;
      TakingKeeps(w, n, []);
    }
  }

  lemma StoppingKeeps(w: World)
    requires Inv(w) && Enabled(w, FinishStopping)
    ensures Inv(Then(w, FinishStopping))
  {
    var n := Then(w, FinishStopping);
    if Derailed(w.client) {
      DerailedFails(w);
      hide AwaitStopped, Remaining, Flatten, Events, StartedCount, AllSendable;
      FailingKeeps(w, n);
    } else {
      StopTakes(w.client, w.unread, w.waiting.id);
      hide AwaitStopped, Remaining, Flatten, Events, StartedCount, AllSendable;
      assert [] + n.client.pending == n.client.pending && w.delivered + [] == w.delivered;
      TakingKeeps(w, n, []);
    }
  }

  /** Reading on delivers the first event or, failing, passes over none. */
  lemma ReadSplits(c: Connection, packets: seq<Packet>)
    requires c.wire == Flatten(packets) && AllSendable(packets) && StartedCount(packets) == 0
    ensures var (r, n) := ReadEvent(c); var rest := Remaining(packets, ForEvent);
            && Events(packets) == (if r.Ok? then [r.value] else []) + Events(rest)
            && n.wire == Flatten(rest) && n.pending == c.pending
            && AllSendable(rest) && StartedCount(rest) == 0
  {
    hide ReadEvent, Sendable, Flatten, StartedCount, AllSendable, Events;
    ReadEventIff(c, packets);
    WaitSplits(packets, ForEvent);
    if Find(packets, ForEvent).Some? {
      FoundCounts(packets, ForEvent);
      FoundSplits(packets, ForEvent);
    } else {
      NoPackets();
    }
  }

  lemma NextKeeps(w: World)
    requires Inv(w) && Enabled(w, Next)
    ensures Inv(Then(w, Next))
  {
    var n := Then(w, Next);
    if w.client.pending != [] {
      hide Remaining, Flatten, Events, StartedCount, AllSendable;
      DeliveringKeeps(w, n);
    } else if Derailed(w.client) {
      DerailedFails(w);
      hide ReadEvent, Remaining, Flatten, Events, StartedCount, AllSendable;
      FailingKeeps(w, n);
    } else {
      ReadSplits(w.client, w.unread);
      hide ReadEvent, Remaining, Flatten, Events, StartedCount, AllSendable;
      var r := ReadEvent(w.client).0;
      var handed := if r.Ok? then [r.value] else [];
      assert n.delivered == w.delivered + handed;
      assert n.client.pending == [] && handed + n.client.pending == handed;
      assert w.client.pending + Events(w.unread) == Events(w.unread);
      assert n.unread == Remaining(w.unread, ForEvent);
      TakingKeeps(w, n, handed);
    }
  }

  lemma DeliveringKeeps(w: World, n: World)
    requires Inv(w) && w.client.pending != [] && n == w.(client := w.client.(pending := w.client.pending[1..]), delivered := w.delivered + [w.client.pending[0]])
    ensures Inv(n)
  {
    hide Flatten, Events, StartedCount, AllSendable;
    assert w.client.pending == [w.client.pending[0]] + w.client.pending[1..];
    assert w.swallowed == 0 ==> InOrder(n);
  }

  /** A frame whose pixels come with it. */
  predicate BringsFile(p: Packet)
  {
    p.FramePacket? && p.frame.slot.None?
  }

  /** One packet under the output lookup: it is gone, and exactly when it is a
      frame that brought a descriptor, that descriptor stays behind. */
  lemma LookupStep(c: Connection, packets: seq<Packet>)
    requires c.wire == Flatten(packets) && AllSendable(packets) && StartedCount(packets) == 0
    ensures var (r, n) := ReadOutputs(c);
            && (r.Ok? <==> packets != [] && packets[0].OutputsPacket?)
            && (r.Ok? ==> r.value == packets[0].outputs)
            && n == c.(wire := n.wire)
            && (packets == [] ==> n == c)
            && (packets != [] ==> n.wire == Encode(packets[0])[1..] + Flatten(packets[1..]))
            && (packets != [] ==> (Derailed(n) <==> BringsFile(packets[0])))
            && (packets != [] && !BringsFile(packets[0]) ==> n.wire == Flatten(packets[1..]))
  {
    hide Flatten;
    if packets == [] {
      EmptyFlat();
    } else {
      FlattenFirst(packets);
      AttachmentsFirst(packets[0]);
      assert c.wire[1..] == Encode(packets[0])[1..] + Flatten(packets[1..]);
      assert [] + Flatten(packets[1..]) == Flatten(packets[1..]);
      if packets[1..] == [] { EmptyFlat(); } else { FlattenFirst(packets[1..]); }
    }
  }

  lemma AttachmentsFirst(p: Packet)
    ensures Encode(p)[1..] == [] || Encode(p)[1..][0].Attached?
    ensures Sendable(p) && !p.StartedPacket? ==> (Encode(p)[1..] == [] <==> !BringsFile(p))
  {
    if p.FramePacket? {
      assert Encode(p)[1..] == Attachments(p.files);
    } else if p.StartedPacket? {
      assert Encode(p)[1..] == Attachments(p.files);
    }
  }

  lemma TakeFirst(packets: seq<Packet>)
    requires packets != [] && AllSendable(packets) && StartedCount(packets) == 0
    ensures Events(packets) == EventSeq(packets[0]) + Events(packets[1..])
    ensures AllSendable(packets[1..]) && StartedCount(packets[1..]) == 0
  {
    hide EventSeq;
  }

  lemma LookupKeeps(w: World)
    requires Inv(w) && Enabled(w, FinishLookup)
    ensures Inv(Then(w, FinishLookup))
  {
    var n := Then(w, FinishLookup);
    if Derailed(w.client) {
      DerailedFails(w);
      hide ReadOutputs, Flatten, Events, StartedCount, AllSendable;
      FailingKeeps(w, n);
    } else {
      LookupStep(w.client, w.unread);
      if w.unread != [] { TakeFirst(w.unread); }
      hide ReadOutputs, Flatten, Events, StartedCount, AllSendable, EventOf;
      if w.unread != [] && EventOf(w.unread[0]).None? { assert [] + Events(w.unread[1..]) == Events(w.unread[1..]); }
    }
  }

  /** Every step keeps the account of the events, a failing one included. */
  lemma StepKeepsInv(w: World, step: Step)
    requires Inv(w) && Enabled(w, step)
    ensures Inv(Then(w, step))
    ensures Then(w, step).swallowed == w.swallowed + if Swallows(w, step) then 1 else 0
  {
    match step
    case PeerWrites(p) => WritingKeeps(w, p);
    case RequestStart => hide Flatten, Events, Sendable;
    case RequestStop(_) => hide Flatten, Events, Sendable;
    case RequestOutputs => hide Flatten, Events, Sendable;
    case FinishStarting => StartingKeeps(w);
    case FinishStopping => StoppingKeeps(w);
    case FinishLookup => LookupKeeps(w);
    case Next => NextKeeps(w);
  }

  predicate Possible(w: World, steps: seq<Step>)
    decreases |steps|
  {
    steps == [] || (Enabled(w, steps[0]) && Possible(Then(w, steps[0]), steps[1..]))
  }

  function After(w: World, steps: seq<Step>): World
    decreases |steps|
  {
    if steps == [] then w else After(Then(w, steps[0]), steps[1..])
  }

  predicate NeverSwallows(w: World, steps: seq<Step>)
    decreases |steps|
  {
    steps == [] || (!Swallows(w, steps[0]) && NeverSwallows(Then(w, steps[0]), steps[1..]))
  }

  lemma {:induction false} RunKeepsInv(w: World, steps: seq<Step>)
    requires Inv(w) && Possible(w, steps)
    ensures Inv(After(w, steps)) && After(w, steps).swallowed >= w.swallowed
    ensures After(w, steps).swallowed == w.swallowed <==> NeverSwallows(w, steps)
    decreases |steps|
  {
    hide Inv, Enabled, Then, Swallows;
    if steps != [] {
      StepKeepsInv(w, steps[0]);
      RunKeepsInv(Then(w, steps[0]), steps[1..]);
    }
  }

  /** In every run, its failed calls included, what has been delivered, what is
      kept and what is unread are in order what the peer sent, if and only if
      every output lookup found no event at the head of the socket. */
  lemma DemultiplexesInOrderIff(steps: seq<Step>)
    requires Possible(QUIET, steps)
    ensures var w := After(QUIET, steps);
            && (w.delivered + w.client.pending + Events(w.unread) == w.sent <==> NeverSwallows(QUIET, steps))
            && (NeverSwallows(QUIET, steps) ==> w.client.wire == Flatten(w.unread))
  {
    hide Enabled, Then, Events, Flatten, Swallows;
    NothingYet();
    RunKeepsInv(QUIET, steps);
  }

  lemma NothingYet()
    ensures Inv(QUIET)
  {
  }

  predicate NoErrors(packets: seq<Packet>)
  {
    packets == [] || (!packets[0].ErrorPacket? && NoErrors(packets[1..]))
  }

  lemma {:induction false} NoErrorMeansFound(packets: seq<Packet>)
    requires NoErrors(packets) && StartedCount(packets) > 0
    ensures Find(packets, ForStarted).Some? && Find(packets, ForStarted).value.reply.StartedPacket?
    decreases |packets|
  {
    if !packets[0].StartedPacket? { NoErrorMeansFound(packets[1..]); }
  }

  /** A start the peer has answered, without an error on the socket, succeeds. */
  lemma AnsweredStartSucceeds(w: World)
    requires Inv(w) && Enabled(w, FinishStarting) && w.waiting.answered && NoErrors(w.unread) && !Derailed(w.client)
    ensures !Then(w, FinishStarting).failed
  {
    hide AwaitStarted, Sendable, Flatten, Events, Remaining, Passed;
    NoErrorMeansFound(w.unread);
    StartIff(w.client, w.unread);
  }

  // ---------- what derails a reader ----------

  /** A start reply read outside a start is skipped, and the descriptors of its
      table are then where a message should be. */
  lemma UnawaitedTableDerails(c: Connection, info: StreamInfo, files: seq<File>)
    requires Sendable(StartedPacket(info, files)) && SlotsOf(info) != []
    requires c.pending == [] && c.wire == Flatten([StartedPacket(info, files)])
    ensures NextStreamMessage(c).0 == Err(OutOfStep)
  {
    var p := StartedPacket(info, files);
    assert Flatten([p]) == Encode(p) + Flatten([]) by { assert [p][1..] == []; }
    assert c.wire == [Text(ReplyOf(info))] + Attachments(files);
    var next := c.(wire := c.wire[1..]);
    assert next.wire == Attachments(files) && next.wire[0] == Attached(files[0]);
    assert ReadEvent(next).0 == Err(OutOfStep);
  }

  const DARK: File := File(1, true, true, 4)
  const DARK_FRAME: Packet := FramePacket(StreamFrame(7, 1, 1, 4, Bgra8, [], None, Memfd(1)), 4, [DARK])

  /** A frame that reaches the socket ahead of the lookup's reply: the frame is
      lost, and the next read finds its descriptor instead of a message. */
  lemma LookupLosesAFrame()
    ensures var steps := [PeerWrites(DARK_FRAME), RequestOutputs, PeerWrites(OutputsPacket([])), FinishLookup, Next];
            && Possible(QUIET, steps)
            && After(QUIET, steps).failed && After(QUIET, steps).delivered == [] && |After(QUIET, steps).sent| == 1
  {
    DarkIsSent();
    OutputsAreSent();
    DarkIsLost();
    hide Then, Enabled, Encode;
    var w1, w4 := DarkAt([Text(HeaderOf(DARK_FRAME.frame, 4)), Attached(DARK)], [DARK_FRAME], Idle),
                  DarkAt([Attached(DARK), Text(OutputsReply([]))], [OutputsPacket([])], Idle).(swallowed := 1);
    var w2 := w1.(waiting := LookingUp);
    var w3 := DarkAt([Text(HeaderOf(DARK_FRAME.frame, 4)), Attached(DARK), Text(OutputsReply([]))], [DARK_FRAME, OutputsPacket([])], LookingUp);
    var steps := [PeerWrites(DARK_FRAME), RequestOutputs, PeerWrites(OutputsPacket([])), FinishLookup, Next];
    assert steps[1..] == [RequestOutputs, PeerWrites(OutputsPacket([])), FinishLookup, Next];
    assert steps[1..][1..] == [PeerWrites(OutputsPacket([])), FinishLookup, Next];
    assert steps[1..][1..][1..] == [FinishLookup, Next];
    assert steps[1..][1..][1..][1..] == [Next];
    assert [Next][1..] == [];
    var w5 := w4.(failed := true);
    assert Possible(w5, []) && After(w5, []) == w5;
    assert Possible(w4, [Next]) && After(w4, [Next]) == w5;
    assert Possible(w3, [FinishLookup, Next]) && After(w3, [FinishLookup, Next]) == w5;
    assert Possible(w2, steps[1..][1..]) && After(w2, steps[1..][1..]) == w5;
    assert Possible(w1, steps[1..]) && After(w1, steps[1..]) == w5;
  }

  function DarkAt(wire: seq<Item>, unread: seq<Packet>, waiting: Waiting): World
  {
    World(Connection(wire, [], None), unread, waiting, [FrameReady(DARK_FRAME.frame)], [], 0, false)
  }

  lemma DarkIsSent()
    ensures var w1 := DarkAt([Text(HeaderOf(DARK_FRAME.frame, 4)), Attached(DARK)], [DARK_FRAME], Idle);
            && Enabled(QUIET, PeerWrites(DARK_FRAME)) && Then(QUIET, PeerWrites(DARK_FRAME)) == w1
  {
    OneAttachment(DARK);
    assert Encode(DARK_FRAME) == [Text(HeaderOf(DARK_FRAME.frame, 4)), Attached(DARK)];
  }

  lemma OutputsAreSent()
    ensures var w1 := DarkAt([Text(HeaderOf(DARK_FRAME.frame, 4)), Attached(DARK)], [DARK_FRAME], Idle);
            var w3 := DarkAt([Text(HeaderOf(DARK_FRAME.frame, 4)), Attached(DARK), Text(OutputsReply([]))], [DARK_FRAME, OutputsPacket([])], LookingUp);
            && Enabled(w1, RequestOutputs) && Then(w1, RequestOutputs) == w1.(waiting := LookingUp)
            && Enabled(w1.(waiting := LookingUp), PeerWrites(OutputsPacket([])))
            && Then(w1.(waiting := LookingUp), PeerWrites(OutputsPacket([]))) == w3
  {
  }

  lemma DarkIsLost()
    ensures var w3 := DarkAt([Text(HeaderOf(DARK_FRAME.frame, 4)), Attached(DARK), Text(OutputsReply([]))], [DARK_FRAME, OutputsPacket([])], LookingUp);
            var w4 := DarkAt([Attached(DARK), Text(OutputsReply([]))], [OutputsPacket([])], Idle).(swallowed := 1);
            && Enabled(w3, FinishLookup) && Then(w3, FinishLookup) == w4
            && Enabled(w4, Next) && Then(w4, Next) == w4.(failed := true)
  {
  }
}
