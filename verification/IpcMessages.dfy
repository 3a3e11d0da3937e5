/** What the client takes from the socket without an error: exactly what a peer
    that keeps to the protocol may write. */
module IpcMessages {
  import opened Wrappers
  import opened Frames
  import opened Cast
  import opened IpcWire
  import opened IpcRuns

  /** The message begins this packet, and the descriptors of the packet follow. */
  predicate Begins(p: Packet, m: WireMessage, c: Connection)
  {
    && Sendable(p) && !p.StartedPacket? && !p.ErrorPacket? && Encode(p) != []
    && Encode(p)[0] == Text(m) && Encode(p)[1..] <= c.wire
  }

  /** The packet a message that was read began. */
  lemma PacketOf(c: Connection, m: WireMessage) returns (p: Packet)
    requires !m.StartedReply? && StreamMessage(c, m).0.Ok?
    ensures Begins(p, m, c)
  {
    match m
    case StreamFrameHeader(id, width, height, stride, format, damage, byteLen, slot) =>
      if slot.Some? {
        p := FramePacket(StreamFrame(id, width, height, stride, format, damage, slot, InSlot), byteLen, []);
      } else {
        var file := c.wire[0].file;
        p := FramePacket(StreamFrame(id, width, height, stride, format, damage, None,
                                     if format.DmabufPixels? then DmabufFile(file.token) else Memfd(file.token)), byteLen, [file]);
        OneAttachment(file);
        assert Encode(p)[1..] == Attachments([file]);
        assert c.wire[..1] == [Attached(file)];
      }
    case StreamEndedEvent(id) => p := EndedPacket(id);
    case StreamGeometryEvent(id, width, height) => p := GeometryPacket(id, width, height);
    case LeaseRenewedReply(lease) => p := LeasePacket(lease);
    case StoppedReply(id) => p := StoppedPacket(id);
    case ReleasedReply(id, slot) => p := ReleasedPacket(id, slot);
    case OutputsReply(outputs) => p := OutputsPacket(outputs);
    case OtherReply => p := OtherPacket;
  }

  lemma BegunIsRead(c: Connection, m: WireMessage, p: Packet)
    requires Begins(p, m, c)
    ensures 0 < |Encode(p)| <= |c.wire| + 1
    ensures StreamMessage(c, m) == (Ok(EventOf(p)), c.(wire := c.wire[|Encode(p)| - 1..], lease := LeaseAfter(c.lease, p)))
  {
    hide StreamMessage, Sendable, Encode;
    EncodeStarts(p, []);
    var files := Encode(p)[1..];
    assert c.wire == files + c.wire[|files|..];
    PacketRead(c, p, c.wire[|files|..]);
  }

  /** Reading a message, other than a start reply, succeeds if and only if a packet
      begins with it; it then takes that packet off the socket. An error reply and
      a message without a type take nothing else with them. */
  lemma ReadsOnlyPackets(c: Connection, m: WireMessage)
    requires !m.StartedReply?
    ensures StreamMessage(c, m).0.Ok? <==> exists p :: Begins(p, m, c)
    ensures forall p | Begins(p, m, c) :: 0 < |Encode(p)| <= |c.wire| + 1 &&
              StreamMessage(c, m) == (Ok(EventOf(p)), c.(wire := c.wire[|Encode(p)| - 1..], lease := LeaseAfter(c.lease, p)))
    ensures m.ErrorReply? ==> StreamMessage(c, m) == (Err(Refused), c)
    ensures m.WithoutType? ==> StreamMessage(c, m) == (Err(NoType), c)
  {
    hide StreamMessage, Begins, Encode;
    forall p | Begins(p, m, c)
      ensures 0 < |Encode(p)| <= |c.wire| + 1
      ensures StreamMessage(c, m) == (Ok(EventOf(p)), c.(wire := c.wire[|Encode(p)| - 1..], lease := LeaseAfter(c.lease, p)))
    {
      BegunIsRead(c, m, p);
    }
    if StreamMessage(c, m).0.Ok? { var p := PacketOf(c, m); }
    Refusals(c, m);
  }

  lemma Refusals(c: Connection, m: WireMessage)
    ensures m.ErrorReply? ==> StreamMessage(c, m) == (Err(Refused), c)
    ensures m.WithoutType? ==> StreamMessage(c, m) == (Err(NoType), c)
  {
  }

  // ---------- start replies ----------

  /** The table of these files. */
  predicate TableOf(table: seq<SlotFile>, files: seq<File>, stride: u32, bytes: nat)
  {
    |table| == |files| && forall i | 0 <= i < |files| :: table[i] == SlotFile(files[i].token, stride, bytes)
  }

  /** The next descriptors on the socket, all fit for slots. */
  predicate FilesNext(c: Connection, count: nat, bytes: nat, files: seq<File>)
  {
    |files| == count && Attachments(files) <= c.wire && forall f <- files :: FileFits(f, bytes, false)
  }

  lemma {:induction false} TableHasFiles(c: Connection, count: nat, stride: u32, bytes: nat, done: seq<SlotFile>) returns (files: seq<File>)
    requires ReceiveTable(c, count, stride, bytes, done).0.Ok?
    ensures FilesNext(c, count, bytes, files)
    decreases count
  {
    if count == 0 {
      files := [];
    } else {
      var (file, rest) := ReceiveFile(c, bytes, false);
      var more := TableHasFiles(rest, count - 1, stride, bytes, done + [SlotFile(file.value, stride, bytes)]);
      files := [c.wire[0].file] + more;
      assert files[1..] == more;
      assert Attachments(files) == [c.wire[0]] + Attachments(more);
      assert c.wire == [c.wire[0]] + rest.wire;
    }
  }

  lemma FilesMakeTable(c: Connection, stride: u32, bytes: nat, files: seq<File>)
    requires FilesNext(c, |files|, bytes, files)
    ensures var (r, n) := ReceiveTable(c, |files|, stride, bytes, []);
            r.Ok? && TableOf(r.value, files, stride, bytes) && n == c.(wire := c.wire[|files|..])
  {
    var todo := seq(|files|, i requires 0 <= i < |files| => SlotFile(files[i].token, stride, bytes));
    assert c.wire == Attachments(files) + c.wire[|files|..];
    assert forall i | 0 <= i < |files| :: files[i] in files;
    TableRead(c, files, stride, bytes, [], todo, c.wire[|files|..]);
    assert [] + todo == todo;
  }

  /** A start reply is taken if and only if it announces no table at all, or a
      dmabuf stream with the whole of its slot metadata whose descriptors follow;
      the stream is the announced one, with the files in order. Metadata in part,
      or on a stream of shared memory, is an error that reads nothing. */
  lemma StartReplyIff(c: Connection, m: WireMessage)
    requires m.StartedReply?
    ensures var (r, n) := FinishStart(c, m);
            var bare := m.slots.None? && m.slotStride.None? && m.slotBytes.None?;
            var whole := m.format.DmabufPixels? && m.slots.Some? && m.slotStride.Some? && m.slotBytes.Some?;
            && (bare ==> r == Ok(StreamInfo(m.streamId, m.width, m.height, m.format, None)) && n == c)
            && (!bare && !whole ==> r == Err(PartialSlotTable) && n == c)
            && (whole ==>
                  && (r.Ok? <==> exists files :: FilesNext(c, m.slots.value, m.slotBytes.value, files))
                  && (forall files | FilesNext(c, m.slots.value, m.slotBytes.value, files) && r.Ok? ::
                        && r.value == StreamInfo(m.streamId, m.width, m.height, m.format, r.value.slots) && r.value.slots.Some?
                        && TableOf(r.value.slots.value, files, m.slotStride.value, m.slotBytes.value)
                        && n == c.(wire := c.wire[m.slots.value..])))
  {
    hide ReceiveTable, TableOf, FileFits;
    if m.format.DmabufPixels? && m.slots.Some? && m.slotStride.Some? && m.slotBytes.Some? {
      forall files | FilesNext(c, m.slots.value, m.slotBytes.value, files)
        ensures var (t, n) := ReceiveTable(c, m.slots.value, m.slotStride.value, m.slotBytes.value, []);
                t.Ok? && TableOf(t.value, files, m.slotStride.value, m.slotBytes.value) && n == c.(wire := c.wire[m.slots.value..])
      {
        FilesMakeTable(c, m.slotStride.value, m.slotBytes.value, files);
      }
      if ReceiveTable(c, m.slots.value, m.slotStride.value, m.slotBytes.value, []).0.Ok? {
        var files := TableHasFiles(c, m.slots.value, m.slotStride.value, m.slotBytes.value, []);
      }
    }
  }
}
