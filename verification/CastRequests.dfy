/** What a cast asks of the compositor over its runs, and what ends it. */
module CastRequests {
  import opened Wrappers
  import opened Frames
  import opened Cast
  import opened CastInvariants
  import opened CastBuffers
  import opened CastWorld
  import opened CastOwnership

  function Added(s: State, r: State): seq<Request>
  {
    if |s.sent| <= |r.sent| then r.sent[|s.sent|..] else []
  }

  /** What the callback of a step writes to the compositor. */
  ghost function Written(w: World, step: Step): seq<Request>
    requires Valid(w.cast) && Enabled(w, step)
  {
    match step
    case Read(restart, _) =>
      if Delivered(w).0.Event? then Added(w.cast, ReadMessage(w.cast, Delivered(w).0.message, restart)) else []
    case Fixate(modifier, restart, _) => Added(w.cast, ApplyFixatedFormat(w.cast, modifier, restart))
    case _ => Added(w.cast, Next(w, step).cast)
  }

  /** A step that restarts the stream: the live one cannot serve the fixated
      modifier, or its geometry changed to one to accept. */
  ghost predicate Switches(w: World, step: Step)
    requires Valid(w.cast) && Enabled(w, step)
  {
    match step
    case Fixate(modifier, _, _) => Unservable(w.cast, modifier)
    case Read(_, _) =>
      var a := Delivered(w).0;
      && a.Event? && a.message.GeometryChanged? && a.message.streamId == w.live.streamId
      && GeometryOk(a.message.width, a.message.height)
    case _ => false
  }

  /** The requests of a switch, up to the first one that fails. */
  function Asking(s: State, dmabuf: bool, restart: Restart): seq<Request>
  {
    [OutputStop(s.transport.streamId)]
    + if restart.StopFails? then [] else [OutputStart(s.transport.target, dmabuf, s.transport.cursor)]
  }

  lemma AddedIs(s: State, r: State, more: seq<Request>)
    requires r.sent == s.sent + more
    ensures Added(s, r) == more
  {
  }

  lemma FixateWrites(s: State, modifier: Option<nat>, restart: Restart)
    requires Valid(s) && !s.quit
    ensures var r := ApplyFixatedFormat(s, modifier, restart);
            var taken := modifier.Some? && modifier == s.transport.offeredModifier;
            && Added(s, r) == (if Unservable(s, modifier) then Asking(s, taken, restart) else [])
            && (!r.quit ==> r.transport.dmabuf == if Unservable(s, modifier) then taken else s.transport.dmabuf)
  {
    FixateRestarts(s, modifier, restart);
    var r := ApplyFixatedFormat(s, modifier, restart);
    hide ApplyFixatedFormat, Unservable, SameShape;
    AddedIs(s, r, r.sent[|s.sent|..]);
  }

  lemma GeometryWrites(s: State, width: u32, height: u32, restart: Restart)
    requires Valid(s) && !s.quit
    ensures var (ok, r) := RestartGeometry(s, s.transport.streamId, width, height, restart);
            && Added(s, r) == (if GeometryOk(width, height) then Asking(s, s.transport.dmabuf, restart) else [])
            && (ok ==> r.transport.dmabuf == s.transport.dmabuf)
  {
    GeometryRestarts(s, width, height, restart);
    var r := RestartGeometry(s, s.transport.streamId, width, height, restart).1;
    hide RestartGeometry, GeometryOk;
    AddedIs(s, r, r.sent[|s.sent|..]);
  }

  /** A step that switches writes the stop and the start of its one target, and
      a fixation asks for dmabufs if and only if the modifier on offer was
      fixated, a change of geometry as the last start did. No other step writes
      anything but releases. */
  lemma StepAsks(w: World, step: Step)
    requires Inv(w) && Enabled(w, step)
    ensures Valid(w.cast)
    ensures if Switches(w, step) then Written(w, step) == Asking(w.cast, Asked(w.cast, step), step.restart)
            else forall r <- Written(w, step) :: r.BufferRelease?
    ensures !Next(w, step).cast.quit ==>
              Next(w, step).cast.transport.dmabuf == if Switches(w, step) then Asked(w.cast, step) else w.cast.transport.dmabuf
  {
    NotStopped(w);
    InvIsValid(w);
    match step
    case Fixate(modifier, restart, early) =>
      FixateWrites(w.cast, modifier, restart);
      NextFixates(w, modifier, restart, early);
      hide Inv, Valid, Enabled, Next, ApplyFixatedFormat, FreshRestart, Added, Unservable, Asking;
    case Read(restart, early) => ReadAsks(w, restart, early);
    case _ =>
      StepKeepsInv(w, step);
      SteadyStep(w, step);
      OnlyReleases(w, step);
      hide Inv, Enabled, Next, Valid, Added;
  }

  lemma ReadAsks(w: World, restart: Restart, early: seq<Message>)
    requires Inv(w) && Valid(w.cast) && Enabled(w, Read(restart, early))
    ensures var step := Read(restart, early);
            && (if Switches(w, step) then Written(w, step) == Asking(w.cast, w.cast.transport.dmabuf, restart)
                else forall r <- Written(w, step) :: r.BufferRelease?)
            && (!Next(w, step).cast.quit ==> Next(w, step).cast.transport.dmabuf == w.cast.transport.dmabuf)
  {
    NotStopped(w);
    LiveIsOld(w);
    NextReads(w, restart, early);
    var a := Delivered(w).0;
    if a.Event? { MessageWrites(w, a.message, restart); }
    hide Inv, Valid, Enabled, Next, Delivered, ReadMessage, FreshRestart, Readable, Stores, GeometryOk, Added, Asking;
  }

  lemma MessageWrites(w: World, message: Message, restart: Restart)
    requires Inv(w) && Valid(w.cast) && !w.cast.quit
    ensures var r := ReadMessage(w.cast, message, restart);
            && (if message.GeometryChanged? && message.streamId == w.live.streamId && GeometryOk(message.width, message.height)
                then Added(w.cast, r) == Asking(w.cast, w.cast.transport.dmabuf, restart)
                else forall x <- Added(w.cast, r) :: x.BufferRelease?)
            && (!r.quit ==> r.transport.dmabuf == w.cast.transport.dmabuf)
  {
    LiveIsOld(w);
    match message
    case FrameReady(frame) =>
      FrameIsStoredIff(w, frame, restart);
      var r := ReadMessage(w.cast, message, restart);
      hide Inv, Valid, ReadMessage, ReplaceLatest, Stores, PayloadFits;
      AddedIs(w.cast, r, r.sent[|w.cast.sent|..]);
    case GeometryChanged(streamId, width, height) =>
      GeometryWrites(w.cast, width, height, restart);
      hide Inv, Valid, RestartGeometry, GeometryOk, Asking;
    case _ => hide Inv, Valid, GeometryOk;
  }

  lemma OnlyReleases(w: World, step: Step)
    requires Inv(w) && Enabled(w, step) && Inv(Next(w, step)) && !step.Read? && !step.Fixate?
    ensures forall r <- Added(w.cast, Next(w, step).cast) :: r.BufferRelease?
  {
    NotStopped(w);
    if step.Stop? {
      NextPlain(w, step);
    } else {
      SteadyStep(w, step);
      AllReleases(Next(w, step));
    }
    hide Inv, Enabled, Next, Coherent;
  }

  lemma AllReleases(w: World)
    requires Inv(w) && !w.cast.quit
    ensures forall r <- w.cast.sent :: r.BufferRelease?
  {
    hide Placed, GeometryOk, AnnouncedFormat;
  }

  /** What the last start in a run asked for, given what the one before it did. */
  ghost function LastAsk(asked: bool, w: World, steps: seq<Step>): bool
    requires Possible(w, steps)
    decreases |steps|
  {
    if steps == [] then asked else LastAsk(LastIn(asked, Written(w, steps[0])), Next(w, steps[0]), steps[1..])
  }

  function LastIn(asked: bool, written: seq<Request>): bool
    decreases |written|
  {
    if written == [] then asked
    else LastIn(if written[0].OutputStart? then written[0].dmabuf else asked, written[1..])
  }

  lemma {:induction false} ReleasesAskNothing(asked: bool, written: seq<Request>)
    requires forall r <- written :: r.BufferRelease?
    ensures LastIn(asked, written) == asked
    decreases |written|
  {
    if written != [] {
      assert written[0] in written;
      ReleasesAskNothing(asked, written[1..]);
    }
  }

  lemma AskingAsks(s: State, asked: bool, dmabuf: bool, restart: Restart)
    ensures LastIn(asked, Asking(s, dmabuf, restart)) == if restart.StopFails? then asked else dmabuf
  {
    var rest := if restart.StopFails? then [] else [OutputStart(s.transport.target, dmabuf, s.transport.cursor)];
    assert Asking(s, dmabuf, restart)[1..] == rest;
    assert LastIn(asked, Asking(s, dmabuf, restart)) == LastIn(asked, rest);
    if !restart.StopFails? { assert rest[1..] == [] && LastIn(dmabuf, []) == dmabuf; }
  }

  /** The transport of a cast that goes on has what the last start asked for. */
  lemma StepRecords(w: World, step: Step)
    requires Inv(w) && Enabled(w, step) && !Next(w, step).cast.quit
    ensures Valid(w.cast) && Next(w, step).cast.transport.dmabuf == LastIn(w.cast.transport.dmabuf, Written(w, step))
  {
    StepAsks(w, step);
    if Switches(w, step) {
      SwitchStopped(w, step);
      AskingAsks(w.cast, w.cast.transport.dmabuf, Asked(w.cast, step), step.restart);
    } else {
      ReleasesAskNothing(w.cast.transport.dmabuf, Written(w, step));
    }
    hide Inv, Enabled, Next, Written, LastIn, Switches;
  }

  /** A switch whose stop fails ends the cast. */
  lemma SwitchStopped(w: World, step: Step)
    requires Inv(w) && Valid(w.cast) && Enabled(w, step) && Switches(w, step) && !Next(w, step).cast.quit
    ensures !step.restart.StopFails?
  {
    NotStopped(w);
    LiveIsOld(w);
    match step
    case Fixate(modifier, restart, early) =>
      FixateRestarts(w.cast, modifier, restart);
      NextFixates(w, modifier, restart, early);
      hide Inv, Valid, Enabled, Next, ApplyFixatedFormat, FreshRestart, Unservable, SameShape, Restarted, FailedRestart;
    case Read(restart, early) =>
      NextReads(w, restart, early);
      var m := Delivered(w).0.message;
      GeometryRestarts(w.cast, m.width, m.height, restart);
      hide Inv, Valid, Enabled, Next, Delivered, FreshRestart, Readable, Stores, GeometryOk, RestartGeometry, Restarted, FailedRestart;
    case _ =>
  }

  lemma {:induction false} RunRecords(asked: bool, w: World, steps: seq<Step>)
    requires Inv(w) && Possible(w, steps) && !After(w, steps).cast.quit && w.cast.transport.dmabuf == asked
    ensures After(w, steps).cast.transport.dmabuf == LastAsk(asked, w, steps)
    decreases |steps|
  {
    hide Inv, Enabled, Next, Written, LastIn;
    if steps != [] {
      StepKeepsInv(w, steps[0]);
      StillGoing(Next(w, steps[0]), steps[1..]);
      StepRecords(w, steps[0]);
      RunRecords(LastIn(asked, Written(w, steps[0])), Next(w, steps[0]), steps[1..]);
    }
  }

  /** A cast that has ended takes no further step. */
  lemma StillGoing(w: World, steps: seq<Step>)
    requires Possible(w, steps) && !After(w, steps).cast.quit
    ensures !w.cast.quit
  {
    hide Next;
  }

  /** Over every run of a cast: a switch stops the live stream and starts it
      again with the target and cursor mode the cast began with. A fixation
      switches if and only if the live stream cannot serve what was fixated, and
      asks for dmabufs if and only if that is the modifier on offer; a change of
      geometry asks for what the last start asked for, as the first one did for
      dmabufs. */
  lemma EveryStartAsks(info: StreamInfo, target: Target, cursor: CursorMode, early: seq<Message>, steps: seq<Step>, step: Step)
    requires Started(info, target, cursor, early) && Possible(Begin(info, target, cursor, early).value, steps)
    requires Enabled(After(Begin(info, target, cursor, early).value, steps), step)
    ensures var w := Begin(info, target, cursor, early).value; var n := After(w, steps);
            && Valid(n.cast)
            && var dmabuf := if step.Fixate? then step.modifier.Some? && step.modifier == n.cast.transport.offeredModifier
                             else LastAsk(true, w, steps);
               if Switches(n, step)
               then Written(n, step) == [OutputStop(n.live.streamId)]
                                        + if step.restart.StopFails? then [] else [OutputStart(target, dmabuf, cursor)]
               else forall r <- Written(n, step) :: r.BufferRelease?
  {
    var w := Begin(info, target, cursor, early).value;
    BeginIsInv(info, target, cursor, early);
    assert w.cast.transport.dmabuf && w.cast.transport.target == target && w.cast.transport.cursor == cursor;
    hide Begin, Inv, Enabled, Next, Written, Switches;
    RunKeepsInv(w, steps);
    RunKeepsTarget(w, steps);
    var n := After(w, steps);
    GoesOn(n, step);
    RunRecords(true, w, steps);
    StepAsks(n, step);
    LiveIsOld(n);
  }

  lemma GoesOn(w: World, step: Step)
    requires Enabled(w, step)
    ensures !w.cast.quit
  {
  }

  // ---------- target and cursor mode ----------

  /** What a cast asked the compositor for, restarts included, is one target
      and one cursor mode. */
  lemma StepKeepsTarget(w: World, step: Step)
    requires Inv(w) && Enabled(w, step)
    ensures SameTarget(w.cast, Next(w, step).cast)
  {
    InvIsValid(w);
    match step
    case Read(restart, early) =>
      NextReads(w, restart, early);
      DeliveredFirst(w);
      var a := Delivered(w).0;
      if a.Event? { ReadKeepsTarget(w.cast, a.message, restart); }
      hide Inv, Enabled, Next, Delivered, ReadMessage, Readable, FreshRestart, Stores;
    case Fixate(modifier, restart, early) =>
      NextFixates(w, modifier, restart, early);
      FixateKeepsTarget(w.cast, modifier, restart);
      hide Inv, Enabled, Next, ApplyFixatedFormat, FreshRestart;
    case _ => SteadyStep(w, step); hide Inv, Enabled, Next;
  }

  predicate SameTarget(s: State, r: State)
  {
    r.transport.target == s.transport.target && r.transport.cursor == s.transport.cursor
  }

  lemma FixateKeepsTarget(s: State, modifier: Option<nat>, restart: Restart)
    ensures SameTarget(s, ApplyFixatedFormat(s, modifier, restart))
  {
    hide AnnouncedFormat, CpuMappable;
  }

  lemma ReadKeepsTarget(s: State, message: Message, restart: Restart)
    ensures SameTarget(s, ReadMessage(s, message, restart))
  {
    hide AnnouncedFormat, ValidateFrame, GeometryOk;
  }

  lemma {:induction false} RunKeepsTarget(w: World, steps: seq<Step>)
    requires Inv(w) && Possible(w, steps)
    ensures SameTarget(w.cast, After(w, steps).cast)
    decreases |steps|
  {
    hide Inv, Enabled, Next;
    if steps != [] {
      StepKeepsInv(w, steps[0]);
      StepKeepsTarget(w, steps[0]);
      RunKeepsTarget(Next(w, steps[0]), steps[1..]);
    }
  }

  // ---------- what ends a cast ----------

  /** A step ends the cast if and only if it stops it, or reads an error reply, a
      stray descriptor or the end of a stream, or must restart the stream and
      does not get one: of the same shape when the consumer had fixated it, of
      the announced geometry otherwise; a geometry that is not to be accepted
      gets none. */
  lemma EndsIff(w: World, step: Step)
    requires Inv(w) && Enabled(w, step)
    ensures Next(w, step).cast.quit <==>
            match step
            case Stop => true
            case Fixate(modifier, restart, _) =>
              Unservable(w.cast, modifier) && !(restart.Restarts? && SameShape(w.cast, restart.info))
            case Read(restart, _) =>
              var a := Delivered(w).0;
              || !a.Event? || a.message.StreamEnded?
              || (&& a.message.GeometryChanged? && a.message.streamId == w.live.streamId
                  && !(&& GeometryOk(a.message.width, a.message.height) && restart.Restarts?
                       && restart.info.width == a.message.width && restart.info.height == a.message.height
                       && AnnouncedFormat(restart.info.format).Some?))
            case _ => false
  {
    NotStopped(w);
    InvIsValid(w);
    LiveIsOld(w);
    match step
    case Fixate(modifier, restart, early) =>
      FixateRestarts(w.cast, modifier, restart);
      NextFixates(w, modifier, restart, early);
      hide Inv, Valid, Enabled, Next, ApplyFixatedFormat, FreshRestart, Unservable, SameShape, Restarted, FailedRestart;
    case Read(restart, early) =>
      NextReads(w, restart, early);
      var a := Delivered(w).0;
      if a.Event? { MessageEndsIff(w, a.message, restart); }
      hide Inv, Valid, Enabled, Next, Delivered, FreshRestart, Readable, Stores, GeometryOk, ReadMessage, AnnouncedFormat;
    case _ => SteadyStep(w, step); hide Inv, Valid, Enabled, Next;
  }

  lemma MessageEndsIff(w: World, message: Message, restart: Restart)
    requires Inv(w) && Valid(w.cast) && !w.cast.quit
    ensures ReadMessage(w.cast, message, restart).quit <==>
            || message.StreamEnded?
            || (&& message.GeometryChanged? && message.streamId == w.live.streamId
                && !(&& GeometryOk(message.width, message.height) && restart.Restarts?
                     && restart.info.width == message.width && restart.info.height == message.height
                     && AnnouncedFormat(restart.info.format).Some?))
  {
    LiveIsOld(w);
    if message.FrameReady? {
      FrameIsStoredIff(w, message.frame, restart);
      hide Inv, Valid, ReadMessage, ReplaceLatest, Stores, PayloadFits, GeometryOk;
    } else if message.GeometryChanged? {
      GeometryRestarts(w.cast, message.width, message.height, restart);
      hide Inv, Valid, GeometryOk, AnnouncedFormat, RestartGeometry, Restarted, FailedRestart;
    } else {
      hide Inv, Valid, GeometryOk;
    }
  }
}
