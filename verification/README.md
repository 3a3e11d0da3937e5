# A model of the Atrium desktop portal

The Atrium portal lets sandboxed applications record the screen, open files,
register autostart entries and choose default applications. This project models
the parts of it whose correctness depends on several functions or on a whole
protocol, and proves what those parts promise.

The largest part is a running screen cast. The compositor renders frames into a
fixed set of dmabuf slots and announces them over a socket; the portal keeps the
latest frame, binds slots to PipeWire buffers or copies pixels into a pool of
its own, and hands slots back with releases. Callbacks interleave freely, and
restarts of the compositor's stream replace everything at once. `Cast` says what
each callback does to the cast's state; `CastStream` is the same as classes with
mutable fields, each method proved to do exactly that; `CastInvariants` and
`CastBuffers` say what every callback keeps; `CastWorld` puts the compositor, the
socket, PipeWire and the consumer around it as a step machine that begins with the
reply to the first start, and `CastOwnership` and `CastTheorems` prove what holds
over every run: a slot is leaked in exactly the runs in which the lookup of a named
monitor swallows its frame, and each slot has exactly one holder in exactly the
others in which no Streaming transition marks an already published slot frame
pending again. `CastRequests` says what a cast asks of the compositor over its runs
and what ends it, `CastSlots` that slots are bound as buffers are added and then all go
out in place, and `CastDelivery` what becomes of every frame. `CastPool` follows the
pool's buffers over runs, the order in which they came back and whether the portal can
still find them; `CastPoolRuns` holds the two runs in which it fails.

`IpcWire`, `IpcClient` and `IpcRuns` are the client's side of the socket, on
which replies, events and descriptors arrive in one sequence, and the peer that
writes it; `IpcMessages` shows that the client takes exactly what such a peer writes. `CastOverIpc` puts the two together: what the world of the cast says of
its messages is what the read loops of the client do to packets; `CastSimulation`
carries that over whole runs.

`Sessions` and `SessionRuns` are the screencast sessions with Start, Close and
the cast threads racing each other. `RestoreTokens` and `SourceSelection` are the
tokens that restore a selection, and the selection itself; `SelectionConsent` says what
it comes to in terms of what the user agreed to, and `StartRequests` what the
compositor is asked for then.

The remaining modules stand alone: `Glob` (file-name patterns), `MimeApps`,
`MimeAppsReader`, `MimeAppsRefinement`, `MimeAppsTheorems` and `MimeAppsLines` (the
default-applications file, its reader and its editor), `ExecLine` and `ExecTemplates`
(printing, splitting and expanding command lines), `DesktopEntry` and `DesktopKeys`
(desktop files), `FileUri` and `UriReaders`
(percent-encoding and two decoders), `SaveFiles` (collision-free
names), `NotifyReader` (bounded line reading) and `Frames` (what a frame may carry,
and the arithmetic of its pixels). `Text`, `ByteStrings` and `Wrappers` hold what
they share.

Several promises turned out to hold only under a condition. For each there is the
concrete run or input where it fails, and the exact condition:

- the lookup of a named monitor can swallow a slot frame
  (`CastTheorems.LookupLosesASlot`; exactly then a slot leaks, `CastOwnership.EveryCast`),
  and so the connection is out of order (`IpcRuns.LookupLosesAFrame`,
  `IpcRuns.DemultiplexesInOrderIff`);
- a Streaming transition can release a slot twice
  (`CastTheorems.RepublishedSlotIsReleasedTwice`; `CastOwnership.ExactIff`,
  `CastTheorems.RearmHealsIff`);
- a frame read before the start reply can leave portal and compositor waiting for
  each other (`CastTheorems.EarlyFrameWaitsInCircle`; `CastTheorems.WaitsInCircleIff`);
- a buffer that is too small goes to the back of the stash, and later a buffer is
  reused before one that has been back longer (`CastPoolRuns.LaterBufferIsReusedFirst`;
  `CastPool.EveryCastOrderIff`);
- a restart forgets a buffer bound to a slot that the portal has
  (`CastPoolRuns.BoundBufferIsLost`; `CastPool.EveryCastLosesIff`);
- a slot stride above the signed range comes out negative
  (`CastOverIpc.WideStrideWraps`; `CastTheorems.RunArithmeticFits`);
- a dmabuf restart that answers with another modifier is never repaired
  (`CastTheorems.OtherModifierStaysUnserved`; `CastTheorems.RunKeepsOfferIff`);
- a session created on the path of an unfinished Start can lose a cast, cross two
  applications, get a cast without a selection, and exceed the limit
  (`SessionRuns.ReusedPathLosesACast`, `SessionRuns.UnselectedSessionGetsACast`,
  `SessionRuns.LimitIsExceeded`; `SessionRuns.CastsAreConservedIff`);
- a name with a literal star is misjudged by some pattern (`Glob.MisjudgedPattern`;
  `Glob.DecidesEveryPatternIff`);
- an admitted content type or id can be unreadable as it is recorded, and the new key
  can be glued to an unterminated last line (`MimeAppsTheorems.EqualsSignIsAdmitted`,
  `MimeAppsTheorems.CommentAtEndIsGlued`; `MimeAppsTheorems.EditRefinesUpdate`, `MimeAppsLines.EditIsIdempotent`,
  `MimeAppsLines.UnrelatedLinesSurvive`);
- an admitted autostart argument with a newline is not what the entry starts
  (`DesktopEntry.NewlineIsAdmitted`; `DesktopEntry.AdmittedStartsIff`);
- an empty argument is lost on the way through an Exec line
  (`ExecLine.EmptyArgumentIsLost`; `ExecLine.RoundTripIff`);
- a percent sign before a character of several bytes ends the program
  (`FileUri.SplitEscapePanics`; `FileUri.PanicsIff`);
- a suggested name that ends in a slash is admitted, and its numbered form can lie
  below the chosen folder's entry (`SaveFiles.TrailingSlashLeavesFolder`;
  `SaveFiles.ChosenIsChildIff`);
- an output whose name begins with `output:` is offered as another one
  (`SourceSelection.PrefixedNameIsMistaken`; `SourceSelection.OptionNamesOutputIff`);
- a request that is closed only after the user agreed leaves a token behind although
  nothing is armed (`SelectionConsent.LateCloseLeavesAToken`;
  `SelectionConsent.UnarmedIssuesOnlyIfClosedLast`);
- a tilde is printed without the quotes that the Desktop Entry Specification demands
  for it (`ExecTemplates.DemandsAreMetIff`).

Where the code and its documentation differ the model follows the code:
`docs/reference/cast-frame-path.md` line 31 gives the keepalive as every 16 ms, the
code as 4 ms (`crates/xdg-desktop-portal-atrium/src/cast/mod.rs` line 136); the
model has the keepalive's condition and no time.

`dafny verify dfyconfig.toml` checks the whole project.

## Model

| member | source | states |
|---|---|---|
| `CastStream.Transport.FindBinding` | crates/xdg-desktop-portal-atrium/src/cast/publish.rs:26-30 | finds the first slot bound to a buffer, or the first free slot |
| `CastStream.Transport.SwapRestarted` | crates/xdg-desktop-portal-atrium/src/cast/state.rs:149-170 | a restarted stream replaces id, geometry, format, slot table and bindings together; target, cursor mode and offered modifier stay; an unknown format changes nothing |
| `CastStream.StreamData.ReleaseSlot` | crates/xdg-desktop-portal-atrium/src/cast/state.rs:236-251 | sends one release naming the live stream, and none for a stream without slots |
| `CastStream.StreamData.ReplaceLatest` | crates/xdg-desktop-portal-atrium/src/cast/state.rs:263-277 | stores the frame and marks it pending, releasing the slot of a superseded frame that was still pending |
| `CastStream.StreamData.ReclaimReturnedBuffers` | crates/xdg-desktop-portal-atrium/src/cast/publish.rs:18-51 | drains everything returned: bound buffers in flight release their slot, unbound ones are stashed in order |
| `CastStream.StreamData.CopyIntoPool` | crates/xdg-desktop-portal-atrium/src/cast/copy.rs:73-187 | copies only behind the length, mapping and capacity tests; false exactly when there is no buffer at all |
| `CastStream.StreamData.PublishSlot` | crates/xdg-desktop-portal-atrium/src/cast/publish.rs:102-158 | the whole branching of a slot frame: unknown, still in flight, in place, unmappable, copied |
| `CastStream.StreamData.ProcessFrame` | crates/xdg-desktop-portal-atrium/src/cast/publish.rs:54-94 | one process cycle: reclaim, then publish; a starved described frame stays pending, a slot frame never does |
| `CastStream.StreamData.AddBuffer` | crates/xdg-desktop-portal-atrium/src/cast/mod.rs:494-586 | binds the next free slot when forwarding, even for a buffer without data, and otherwise backs the buffer with memory |
| `CastSlots.AddBufferBinds` | crates/xdg-desktop-portal-atrium/src/cast/mod.rs:494-515 | while slots go out in place a new buffer, with data or without, is bound to the lowest free slot and gets no memory |
| `CastSlots.AddBufferBacks` | crates/xdg-desktop-portal-atrium/src/cast/mod.rs:516-586 | otherwise, or when every slot is bound, it gets the memory of one frame if there is any, and no slot changes |
| `CastSlots.RunBinds` | crates/xdg-desktop-portal-atrium/src/cast/mod.rs:494-616 | over a run that takes no buffer away and keeps stream, format and dmabuf type, each new buffer binds one more slot until all are bound |
| `CastSlots.FixationForwardsIff` | crates/xdg-desktop-portal-atrium/src/cast/state.rs:287-352 | a fixation negotiates delivery in place if and only if the stream that is live then has slots in the fixated modifier |
| `CastSlots.EverySlotGoesOut` | crates/xdg-desktop-portal-atrium/src/cast/mod.rs:480-586 | after a fixation to the modifier of a stream with slots, once as many buffers were added as it has slots, every slot is bound and every pending slot frame goes out in place if and only if its slot is idle or its buffer has come back |
| `CastStream.StreamData.RemoveBuffer` | crates/xdg-desktop-portal-atrium/src/cast/mod.rs:587-616 | forgets the buffer everywhere and releases the slot the consumer abandoned |
| `CastDelivery.RemoveBufferTouches` | crates/xdg-desktop-portal-atrium/src/cast/mod.rs:587-616 | removing a buffer unbinds it, releases its slot if the consumer had it, takes it from stash and memory, and touches nothing of any other buffer |
| `CastTheorems.LastMaskDecides` | crates/xdg-desktop-portal-atrium/src/cast/mod.rs:487-492 | after every run of a cast, the cycle that finds a slot frame pending sends it out in place if and only if dmabufs are negotiated, the mask sent last, if any, has their bit, and the slot is bound to a buffer that is idle or has come back |
| `CastStream.StreamData.SyncTransport` | crates/xdg-desktop-portal-atrium/src/cast/state.rs:364-430 | the stop, start and checks of a transport switch, with every failure leaving the stored state as it was |
| `CastRequests.StepAsks` | crates/xdg-desktop-portal-atrium/src/cast/state.rs:364-503 | a step that switches writes the stop of the live stream and the start of the same target: with dmabufs if and only if the fixated modifier is the one on offer, and as the last start after a change of geometry; any other step writes releases only |
| `CastRequests.EveryStartAsks` | crates/xdg-desktop-portal-atrium/src/cast/state.rs:364-503 | over every run of any cast: every start asks for the target and cursor mode the cast began with, for dmabufs if and only if the modifier on offer was fixated, and after a change of geometry for what the last start in the run asked for, which was dmabufs at first |
| `CastRequests.EndsIff` | crates/xdg-desktop-portal-atrium/src/cast/mod.rs:636-743 | a step ends the cast if and only if it stops it, reads an error, a stray descriptor or the end of a stream, or must restart the stream and gets none of the shape it needs |
| `CastStream.StreamData.ApplyFixatedFormat` | crates/xdg-desktop-portal-atrium/src/cast/state.rs:293-352 | switches the transport, then derives the delivery mode; a failed switch ends the loop |
| `CastStream.StreamData.RestartStreamGeometry` | crates/xdg-desktop-portal-atrium/src/cast/state.rs:443-503 | restarts with the same target, cursor and opt-in, demands the announced geometry, and renews the offered modifier |
| `CastStream.StreamData.OnMessage` | crates/xdg-desktop-portal-atrium/src/cast/mod.rs:636-743 | what each message of the compositor does, superseded streams included |
| `CastStream.StreamData.KeepaliveNeedsCycle` | crates/xdg-desktop-portal-atrium/src/cast/mod.rs:783-795 | true exactly when a frame is pending or a slot is in flight |
| `CastStream.StreamData.TearDown` | crates/xdg-desktop-portal-atrium/src/cast/mod.rs:846-860 | drops the pool memory and sends the release of every slot in flight |
| `CastInvariants.ReplaceShare` | crates/xdg-desktop-portal-atrium/src/cast/state.rs:253-277 | storing a slot frame takes over exactly that slot; the superseded pending one is released, not lost |
| `CastInvariants.ReclaimShare` | crates/xdg-desktop-portal-atrium/src/cast/publish.rs:18-51 | reclaiming turns slots in flight into releases one for one |
| `CastInvariants.ReclaimCoherent` | crates/xdg-desktop-portal-atrium/src/cast/publish.rs:18-51 | reclaiming keeps slot, binding and frame state coherent |
| `CastInvariants.PublishSlotShare` | crates/xdg-desktop-portal-atrium/src/cast/publish.rs:102-158 | publishing moves a slot into flight or releases it once, unless it was in flight already |
| `CastInvariants.ProcessConserves` | crates/xdg-desktop-portal-atrium/src/cast/publish.rs:54-94 | a cycle passes ownership of each slot on, or gives up a surplus claim without losing the slot |
| `CastInvariants.ProcessCoherent` | crates/xdg-desktop-portal-atrium/src/cast/publish.rs:54-94 | after a cycle the stored frame still fits the live stream and every slot in flight is bound |
| `CastInvariants.AddBufferKeeps` | crates/xdg-desktop-portal-atrium/src/cast/mod.rs:494-586 | binding a new buffer changes no ownership |
| `CastInvariants.RemoveBufferShare` | crates/xdg-desktop-portal-atrium/src/cast/mod.rs:587-616 | removing a buffer turns its slot in flight into a release |
| `CastInvariants.FixateRestarts` | crates/xdg-desktop-portal-atrium/src/cast/state.rs:287-430 | a fixation switches the stream if and only if the live one cannot serve it; the switch works out if and only if the answer has the same shape, and then it is a whole fresh stream; it asks for dmabufs if and only if the modifier on offer was fixated |
| `CastInvariants.GeometryRestarts` | crates/xdg-desktop-portal-atrium/src/cast/state.rs:433-503 | a geometry restart works out if and only if the geometry is one to accept and the answer has it in a known format; it asks for what the last start asked for and puts the modifier of the new slots on offer |
| `CastInvariants.TeardownReleasesFlight` | crates/xdg-desktop-portal-atrium/src/cast/mod.rs:846-860 | teardown releases each slot in flight once and nothing else |
| `CastBuffers.ReclaimBuffers` | crates/xdg-desktop-portal-atrium/src/cast/publish.rs:18-51 | reclaiming makes every returned buffer the portal's, and each buffer stays with one owner |
| `CastPool.ReclaimPlaces` | crates/xdg-desktop-portal-atrium/src/cast/publish.rs:18-51 | a buffer that was returned, stashed or bound is stashed or bound afterwards |
| `CastPool.StepLosesIff` | crates/xdg-desktop-portal-atrium/src/cast/state.rs:149-170 | a step leaves every buffer of the portal stashed or bound if and only if it is no restart under a slot bound to a buffer the portal has |
| `CastPool.EveryCastLosesIff` | crates/xdg-desktop-portal-atrium/src/cast/state.rs:149-170 | over every run of any cast: no pool buffer is lost throughout if and only if no restart drops the binding of a buffer the portal has |
| `CastPoolRuns.BoundBufferIsLost` | crates/xdg-desktop-portal-atrium/src/cast/state.rs:149-170 | a run after which the portal has a buffer that is neither stashed nor bound |
| `CastBuffers.ProcessBuffers` | crates/xdg-desktop-portal-atrium/src/cast/publish.rs:18-158 | what a cycle queues was held by the portal after the reclaim and not by the consumer |
| `CastBuffers.OldestIsReusedFirst` | crates/xdg-desktop-portal-atrium/src/cast/copy.rs:127-149 | in one cycle a copy goes into the first buffer of the stash that the reclaim leaves, and the others keep their order |
| `CastPool.StepKeepsOrderIff` | crates/xdg-desktop-portal-atrium/src/cast/copy.rs:127-149 | the stash stays in the order of return over a step if and only if the step is no cycle whose copy meets a first buffer that is unmapped or too small while others are stashed |
| `CastPool.EveryCastOrderIff` | crates/xdg-desktop-portal-atrium/src/cast/copy.rs:127-149 | over every run of any cast: the stash is in the order of return throughout if and only if the run never turns it that way, and then every copy goes into the buffer that has been back longest |
| `CastPoolRuns.LaterBufferIsReusedFirst` | crates/xdg-desktop-portal-atrium/src/cast/copy.rs:146-149 | a run after which both buffers can hold the frame and the next cycle copies into the one that came back later |
| `CastBuffers.ReclaimStashes` | crates/xdg-desktop-portal-atrium/src/cast/publish.rs:44-50 | the stash grows by the unbound returned buffers, in the order they came back |
| `CastBuffers.AddBufferBuffers` | crates/xdg-desktop-portal-atrium/src/cast/mod.rs:494-586 | distinct slots stay bound to distinct buffers, none of them stashed or backed by memory |
| `CastBuffers.RemoveBufferBuffers` | crates/xdg-desktop-portal-atrium/src/cast/mod.rs:587-616 | a removed buffer is in no stash, binding or memory map |
| `CastBuffers.RestartBuffers` | crates/xdg-desktop-portal-atrium/src/cast/state.rs:149-170 | a restart moves no buffer and binds none |
| `CastWorld.BeginIsInv` | crates/xdg-desktop-portal-atrium/src/cast/mod.rs:283-349 | a cast begins in the invariant, with every slot at the compositor |
| `CastWorld.StepKeepsInv` | crates/xdg-desktop-portal-atrium/src/cast/state.rs:62-75 | every step of compositor, socket, PipeWire, consumer and portal keeps the invariant, the step that ends the cast included: the transport is the live stream as a whole, the stored frame is from it, its slot is in the table, bindings and table agree in length, slots in flight are bound, releases name the live stream and a slot of it, buffers have one owner |
| `CastWorld.StepQuits` | crates/xdg-desktop-portal-atrium/src/cast/state.rs:364-430 | what the step that ends a cast leaves: the state as it was, or with the requests of a failed restart, and then only the stream may be gone |
| `CastOwnership.StepHolders` | crates/xdg-desktop-portal-atrium/src/cast/state.rs:253-277 | what each kind of step does to the claims on one slot |
| `CastOwnership.StepKeepsExactIff` | crates/xdg-desktop-portal-atrium/src/cast/mod.rs:424-435 | exact ownership survives a step if and only if the step is neither a Streaming transition that re-arms a published slot frame nor a lookup that swallows one |
| `CastOwnership.StreamingHolders` | crates/xdg-desktop-portal-atrium/src/cast/mod.rs:424-435 | a Streaming transition adds a claim on the slot of a published stored frame and on no other |
| `CastOwnership.StepLeaksIff` | crates/xdg-desktop-portal-atrium/src/cast/mod.rs:286-301 | no step leaks a slot but the output lookup, and that one if and only if it swallows a slot frame |
| `CastOwnership.RunLeaksIff` | crates/xdg-desktop-portal-atrium/src/cast/mod.rs:263-349 | over a whole run, each slot is at the compositor, on the way, pending, in flight or in a release if and only if the lookup swallowed no slot frame |
| `CastOwnership.ExactIff` | crates/xdg-desktop-portal-atrium/src/cast/mod.rs:424-435 | over a whole run, each slot has exactly one holder throughout if and only if the run never re-arms and never swallows a slot frame |
| `CastOwnership.EveryCast` | crates/xdg-desktop-portal-atrium/src/cast/mod.rs:263-349 | both equivalences from the start of any cast; a cast of no named connector swallows nothing |
| `CastTheorems.LookupLosesASlot` | crates/xdg-desktop-portal-atrium/src/cast/mod.rs:286-301 | a run of a named monitor in which the lookup consumes the only slot frame and nobody holds that slot any more |
| `CastTheorems.ReleasesAreSafe` | crates/xdg-desktop-portal-atrium/src/cast/state.rs:57-60 | under exact ownership a release is the only one for its slot, which the compositor does not own and no consumer buffer shows |
| `CastTheorems.IdleHoldsNoSlot` | crates/xdg-desktop-portal-atrium/src/cast/mod.rs:775-803 | when the keepalive skips a cycle a slot is with the compositor, on the socket, in a release, in a frame that was read early and not delivered, or, only while PipeWire does not stream, with the portal or its consumer |
| `CastTheorems.WaitsInCircleIff` | crates/xdg-desktop-portal-atrium/src/cast/mod.rs:775-803 | portal and compositor wait for each other if and only if nothing is under way, the keepalive skips, and every slot is in an undelivered early frame or, while PipeWire does not stream, with the portal |
| `CastTheorems.NoCircleUnlessKept` | crates/xdg-desktop-portal-atrium/src/cast/mod.rs:775-803 | no circular wait while PipeWire streams once early frames are delivered, or while anything is on the socket |
| `CastTheorems.WaitEnds` | crates/xdg-desktop-portal-atrium/src/cast/mod.rs:766-803 | the reply to a lease renewal ends such a wait and delivers what was kept, one event a read; where nothing was kept the keepalive goes on with the next Streaming transition |
| `CastTheorems.EarlyFrameWaitsInCircle` | crates/atrium-portal-ipc/src/client.rs:377-390 | a start whose only slot came in a frame before the reply is such a wait, and still is once PipeWire streams |
| `CastTheorems.OneCycleReleasesAll` | crates/xdg-desktop-portal-atrium/src/cast/mod.rs:125-136 | once the consumer returned everything, one cycle leaves no slot in flight |
| `CastTheorems.CycleShowsLive` | crates/xdg-desktop-portal-atrium/src/cast/publish.rs:54-158 | what a cycle queues shows the live stream's latest frame in the buffer bound to its slot, or a permitted copy; tiled pixels are never copied |
| `CastDelivery.CycleAccounts` | crates/xdg-desktop-portal-atrium/src/cast/publish.rs:54-158 | a cycle that finds a frame waiting queues it or counts it as dropped, once; out of buffers a frame in a file goes on waiting and one in a slot is given up uncounted |
| `CastDelivery.EveryFrameIsAccountedFor` | crates/xdg-desktop-portal-atrium/src/cast/publish.rs:54-158 | over every run of any cast: the frames stored and those shown again are, to the number, those queued, those dropped, those superseded, cleared by a restart or given up, and the one still waiting |
| `CastTheorems.RunNumbers` | crates/xdg-desktop-portal-atrium/src/cast/copy.rs:159-160 | over every run the queued frames are numbered from zero without gaps, across restarts |
| `CastTheorems.RunArithmeticFits` | crates/xdg-desktop-portal-atrium/src/cast/mod.rs:455-470 | in every reachable state the unchecked products fit their types for any stride, copied chunks are exact, and the chunks of the slots are exact if and only if all strides of the table fit a signed field |
| `Cast.OfferExactIff` | crates/xdg-desktop-portal-atrium/src/cast/mod.rs:455-470 | the offered buffer layout is exact if and only if the first slot has a stride that fits a signed field, and always without slots |
| `Cast.SlotChunksExactIff` | crates/xdg-desktop-portal-atrium/src/cast/mod.rs:546-551 | the chunks of a slot table are exact if and only if its strides fit |
| `CastOverIpc.WideStrideWraps` | crates/atrium-portal-ipc/src/client.rs:391-440 | a slot of any stride is received, starts a cast, and has an exact chunk if and only if the stride fits; 2^31 comes out negative |
| `CastRequests.RunKeepsTarget` | crates/xdg-desktop-portal-atrium/src/cast/state.rs:78-81 | over every run restarts ask for the target and cursor mode the cast began with |
| `CastTheorems.StepKeepsOfferIff` | crates/xdg-desktop-portal-atrium/src/cast/state.rs:484-489 | a step keeps the offered modifier true of the stream if and only if it is no switch answered with another one; geometry restarts always keep it |
| `CastTheorems.RunKeepsOfferIff` | crates/xdg-desktop-portal-atrium/src/cast/state.rs:106-109 | the same over every run of any cast |
| `CastTheorems.FixationServesIff` | crates/xdg-desktop-portal-atrium/src/cast/state.rs:354-363 | a fixation leaves the consumer served if and only if no switch was needed or the restarted stream suits it |
| `CastTheorems.OtherModifierStaysUnserved` | crates/xdg-desktop-portal-atrium/src/cast/state.rs:402-409 | a dmabuf restart that answers with another tiled modifier is accepted, later fixations do not repair it, and no slot frame is queued |
| `CastTheorems.EveryTeardown` | crates/xdg-desktop-portal-atrium/src/cast/mod.rs:846-860 | from the start of any cast to any end: teardown accounts for each slot without the consumer, exactly once if the run never re-armed; its releases name the stream, which has been stopped exactly when a restart failed after its stop |
| `CastTheorems.RepublishedSlotIsReleasedTwice` | crates/xdg-desktop-portal-atrium/src/cast/mod.rs:429-434 | a run in which a republished frame releases a slot the compositor already owns |
| `CastTheorems.RearmHealsIff` | crates/xdg-desktop-portal-atrium/src/cast/publish.rs:102-158 | the next cycle makes ownership exact again after a re-arming if and only if the slot is still in flight in a buffer that has not come back; otherwise the slot is claimed twice |
| `Frames.ValidateFrame` | crates/xdg-desktop-portal-atrium/src/cast/frame.rs:29-116 | an accepted frame has the stream's geometry and a bounded stride, carries a slot of the table or a mappable file, never both |
| `Frames.AcceptedIff` | crates/xdg-desktop-portal-atrium/src/cast/frame.rs:29-116 | a frame is accepted if and only if it has the announced geometry, a stride between a row and the signed range, and a slot of the table without a descriptor, a tight memory file on a shared-memory stream, or a linear dmabuf of the announced pair; its payload is that slot or file |
| `CastWorld.FrameIsStoredIff` | crates/xdg-desktop-portal-atrium/src/cast/mod.rs:640-675 | a frame of the live stream becomes the pending latest one with its own payload, releasing the slot of a pending one it supersedes; any other frame changes nothing |
| `Frames.SameMemoryOrder` | crates/xdg-desktop-portal-atrium/src/cast/format.rs:84-105 | a DRM code gets a PipeWire format if and only if it names four channels of eight bits, and then the one with the same bytes in memory |
| `Frames.AnnouncedKeepsOrder` | crates/xdg-desktop-portal-atrium/src/cast/format.rs:58-82 | shared memory is announced in the byte order of its wire name, a dmabuf with its own code and modifier, and an unknown code not at all |
| `Frames.FrameLenIff` | crates/xdg-desktop-portal-atrium/src/cast/frame.rs:118-130 | the checked length accepts exactly the nonempty frames within 256 MiB |
| `Frames.UncheckedProductsFit` | crates/xdg-desktop-portal-atrium/src/cast/mod.rs:464-468 | for accepted geometry the products of its sides fit their u32 and i32 |
| `Frames.NeededFits` | crates/xdg-desktop-portal-atrium/src/cast/copy.rs:82-98 | for accepted geometry and any u32 stride the length a copy tests against fits a usize |
| `Frames.CopyRows` | crates/xdg-desktop-portal-atrium/src/cast/copy.rs:189-208 | every row of a padded or tight source lands in its tight place, and nothing behind the last row is written |
| `Frames.CopiedPixels` | crates/xdg-desktop-portal-atrium/src/cast/copy.rs:189-208 | byte i of row r of the copy is byte i of row r of the source |
| `Frames.OwnPoolBufferIsLargeEnough` | crates/xdg-desktop-portal-atrium/src/cast/copy.rs:82-98 | a pool buffer made for a geometry passes the capacity test for every frame of it |
| `IpcClient.Client.StreamEvent` | crates/atrium-portal-ipc/src/client.rs:498-585 | one message as an event, with the descriptor behind it; skipped and failing messages |
| `IpcClient.Client.StartOutputStream` | crates/atrium-portal-ipc/src/client.rs:353-444 | version gates, then the wait for the reply that keeps events read before it |
| `StartRequests.AsksTheMost` | crates/atrium-portal-ipc/src/client.rs:353-376 | every peer is asked for the most its version understands of what is wanted: dmabufs from version 25, cursor modes and named outputs from 29; and not at all if and only if it understands nothing that shows the same picture |
| `StartRequests.ArmedIsAskedFor` | crates/xdg-desktop-portal-atrium/src/cast/mod.rs:275-285 | whatever SelectSources arms, the compositor it was armed for is asked for that very source; below version 29 that is the whole desktop, without a cursor mode |
| `IpcClient.Client.CompleteStart` | crates/atrium-portal-ipc/src/client.rs:391-440 | the slot table is read with the reply; partial announcements are errors |
| `IpcClient.Client.StopOutputStream` | crates/atrium-portal-ipc/src/client.rs:456-477 | the wait for the stop reply, which must name the stream |
| `IpcClient.Client.NextMessage` | crates/atrium-portal-ipc/src/client.rs:483-493 | kept events first, then the socket |
| `IpcClient.Client.LookUpOutputs` | crates/atrium-portal-ipc/src/client.rs:248-255 | reads exactly one message, whatever it is, and leaves kept events alone |
| `IpcClient.Client.ReceiveDescriptor` | crates/atrium-portal-ipc/src/blob.rs:83-152 | a descriptor is accepted only with a bounded length and the size, kind and seals its use calls for |
| `IpcRuns.PacketRead` | crates/atrium-portal-ipc/src/client.rs:500-539 | reading a frame consumes exactly the descriptor that was sent with it |
| `IpcRuns.TableRead` | crates/atrium-portal-ipc/src/testing.rs:595-602 | each descriptor of a slot table ends up in the entry it was sent for |
| `IpcMessages.ReadsOnlyPackets` | crates/atrium-portal-ipc/src/client.rs:498-585 | a message is read without an error if and only if a packet that keeps to the protocol begins with it, descriptor and seals included, and then exactly that packet is taken |
| `IpcMessages.StartReplyIff` | crates/atrium-portal-ipc/src/client.rs:391-440 | a start reply is taken if and only if it announces no table, or a dmabuf stream with the whole of its metadata whose fitting descriptors follow; the table holds them in order; metadata in part is an error that reads nothing |
| `IpcRuns.FoundSplits` | crates/atrium-portal-ipc/src/client.rs:381-390 | what settles a wait is the first packet of its kind, ahead of any error |
| `IpcRuns.StartIff` | crates/atrium-portal-ipc/src/client.rs:377-390 | a start succeeds if and only if its reply precedes any error; events before the reply are kept in order, the rest stays unread |
| `IpcRuns.StopIff` | crates/atrium-portal-ipc/src/client.rs:456-477 | a stop succeeds if and only if the first stop reply precedes any error and names the stream |
| `IpcRuns.ReadEventIff` | crates/atrium-portal-ipc/src/client.rs:487-492 | reading on returns the first event that is not behind an error |
| `IpcRuns.StepKeepsInv` | crates/atrium-portal-ipc/src/testing.rs:532-603 | every interleaving of peer writes and client calls, failed ones included, keeps the account of events; only a lookup swallows one |
| `IpcRuns.LookupStep` | crates/atrium-portal-ipc/src/client.rs:248-255 | a lookup takes one packet, whatever it is, and succeeds if and only if that is the list of outputs; its descriptor stays behind as the next thing read exactly when it brought one, and otherwise the rest is in step |
| `IpcRuns.DemultiplexesInOrderIff` | crates/atrium-portal-ipc/src/client.rs:248-493 | over every run, failed calls included, delivered, kept and unread events are in order what was sent if and only if no lookup met an event |
| `IpcRuns.LookupLosesAFrame` | crates/atrium-portal-ipc/src/client.rs:248-255 | a run in which the lookup consumes a frame and the next read meets its descriptor |
| `IpcWire.StartedTableIsBounded` | crates/atrium-portal-ipc/src/blob.rs:83-152 | every slot of a received table has a length between one byte and the blob cap |
| `IpcRuns.AnsweredStartSucceeds` | crates/atrium-portal-ipc/src/testing.rs:541-546 | an answered start without an error on the socket succeeds |
| `IpcRuns.UnawaitedTableDerails` | crates/atrium-portal-ipc/src/client.rs:579 | a start reply nobody waits for is skipped and its descriptors put the reader out of step |
| `CastOverIpc.WriteRefines` | crates/atrium-portal-ipc/src/testing.rs:532-603 | what the peer writes is what arrives in the world of the cast |
| `CastOverIpc.ReadRefines` | crates/atrium-portal-ipc/src/client.rs:483-493 | the next message of the connection is the one the world of the cast delivers, and it fails where that fails |
| `CastOverIpc.LookupRefines` | crates/atrium-portal-ipc/src/client.rs:248-255 | the output lookup takes the same arrival from both, and breaks step exactly on a frame with a descriptor |
| `CastOverIpc.RestartRefines` | crates/xdg-desktop-portal-atrium/src/cast/state.rs:364-430 | a restart of the cast's world is the client's stop and start: same stream, same kept events, same unread rest |
| `CastOverIpc.ReconnectIff` | crates/xdg-desktop-portal-atrium/src/cast/state.rs:364-430 | what a stop and a start yield on every socket that answers both waits: no stop on an error or another id, no start on an error, and otherwise the announced stream; events ahead of the replies are kept in order |
| `CastOverIpc.DerailedNeverRestarts` | crates/atrium-portal-ipc/src/client.rs:456-477 | with a descriptor next on the socket no stop is found and nothing is read |
| `CastSimulation.StepIsInStep` | crates/atrium-portal-ipc/src/client.rs:248-493 | whatever step the world of the cast takes, the connection takes the same: each call of the client returns what the world says and leaves the same events kept and unread |
| `CastSimulation.RunIsInStep` | crates/atrium-portal-ipc/src/client.rs:248-493 | the same over whole runs |
| `CastSimulation.EveryCastIsInStep` | crates/atrium-portal-ipc/src/client.rs:248-493 | from the start of any cast, over every run in which the lookup strands no descriptor, all calls of the client agree with the world |
| `Sessions.SessionRegistry.InsertSession` | crates/xdg-desktop-portal-atrium/src/session.rs:71-93 | refuses a known path, then a full registry, and otherwise adds an unarmed session |
| `Sessions.SessionRegistry.SelectSources` | crates/xdg-desktop-portal-atrium/src/session.rs:99-124 | arms a session once, and only for its owner |
| `Sessions.SessionRegistry.CountBusy` | crates/xdg-desktop-portal-atrium/src/session.rs:146-150 | counts the sessions that are starting or live |
| `Sessions.SessionRegistry.Reserve` | crates/xdg-desktop-portal-atrium/src/session.rs:128-165 | reserves a selected idle session of the caller below the limit of 16 |
| `Sessions.SessionRegistry.Install` | crates/xdg-desktop-portal-atrium/src/session.rs:173-190 | installs a cast if the session still exists and otherwise leaves it with the caller |
| `Sessions.RemoveUndoesInsert` | crates/xdg-desktop-portal-atrium/src/session.rs:173-196 | removing a session undoes its creation, and a cast that comes later stays with the caller |
| `SessionRuns.StepHoldsOnceIff` | crates/xdg-desktop-portal-atrium/src/session.rs:182-186 | a step leaves each spawned cast with exactly one holder if and only if it does not install a cast over one a session holds |
| `SessionRuns.OverwrittenIsLost` | crates/xdg-desktop-portal-atrium/src/session.rs:182-186 | a cast installed over is in nobody's hands |
| `SessionRuns.StepMatchesIff` | crates/xdg-desktop-portal-atrium/src/screencast.rs:860-993 | sessions go on streaming what their owners selected, cursor mode included, if and only if the step neither installs a cast of another selection or application nor selects anew under a cast |
| `SessionRuns.StepBusyIff` | crates/xdg-desktop-portal-atrium/src/session.rs:146-158 | a step keeps at most 16 sessions starting or live if and only if it does not install a cast into an idle session while 16 are |
| `SessionRuns.LimitIff` | crates/xdg-desktop-portal-atrium/src/session.rs:146-158 | over every run: the limit holds throughout if and only if no step does so |
| `SessionRuns.LimitIsExceeded` | crates/xdg-desktop-portal-atrium/src/session.rs:182-190 | a run that ends with 17 |
| `SessionRuns.StepStaysWithin` | crates/xdg-desktop-portal-atrium/src/session.rs:71-93 | a session is created, unarmed, if and only if its path is unknown and fewer than 128 exist; no step leads beyond 128 |
| `SessionRuns.SessionsStayWithin` | crates/xdg-desktop-portal-atrium/src/session.rs:71-93 | the same over every run |
| `SessionRuns.StepSelectedIff` | crates/xdg-desktop-portal-atrium/src/session.rs:99-165 | every starting or live session has its owner's selection after a step if and only if the step does not install a cast into a session without one |
| `SessionRuns.SelectedIff` | crates/xdg-desktop-portal-atrium/src/session.rs:99-190 | the same over every run |
| `SessionRuns.UnselectedSessionGetsACast` | crates/xdg-desktop-portal-atrium/src/session.rs:182-190 | a run in which a session without a selection gets the cast of another application |
| `SessionRuns.FailedStartIsUndone` | crates/xdg-desktop-portal-atrium/src/screencast.rs:868-993 | a Start whose cast cannot be spawned leaves no trace, and one whose cast ends before it is live leaves only the joined cast |
| `SessionRuns.HeldOnceIff` | crates/xdg-desktop-portal-atrium/src/screencast.rs:860-993 | over every run: one holder throughout if and only if no cast is ever installed over another |
| `SessionRuns.MatchIff` | crates/xdg-desktop-portal-atrium/src/screencast.rs:860-993 | over every run: sessions stream what was selected, cursor mode included, throughout if and only if no step crosses two selections or applications |
| `SessionRuns.CastsAreConservedIff` | crates/xdg-desktop-portal-atrium/src/session.rs:53-59 | the four equivalences from an empty registry: one holder, the selected stream, the limit, the owner's selection |
| `SessionRuns.CastsAreConserved` | crates/xdg-desktop-portal-atrium/src/session.rs:53-59 | a run that never creates a session on the path of an unfinished Start breaks none of the four; casts conserved, one producer per session, the limit kept, sources selected by the owner, and the cast streams what was selected |
| `SessionRuns.ReusedPathLosesACast` | crates/xdg-desktop-portal-atrium/src/session.rs:182-186 | a run that reuses a path too early leaves one cast in nobody's hands and gives one application a cast of what another selected |
| `RestoreTokens.RestoreStore.IssueToken` | crates/xdg-desktop-portal-atrium/src/persist.rs:102-139 | appends under the caps of 64 and 16, oldest out first; nothing without a data directory, a sender or a known mode |
| `RestoreTokens.RestoreStore.FindEntry` | crates/xdg-desktop-portal-atrium/src/persist.rs:153-163 | finds the entry of a token, in memory before disk |
| `RestoreTokens.RestoreStore.Validate` | crates/xdg-desktop-portal-atrium/src/persist.rs:147-164 | yields only a kept, servable selection of the asking application; with unique tokens, all of them |
| `RestoreTokens.DepartureEndsItsTokens` | crates/xdg-desktop-portal-atrium/src/persist.rs:166-169 | the departure of a bus name ends exactly the restores its own tokens allowed, and touches no other owner and no disk token |
| `RestoreTokens.RestoreStore.PruneUnservable` | crates/xdg-desktop-portal-atrium/src/persist.rs:171-181 | keeps exactly the disk entries that can be served, in order |
| `RestoreTokens.PruneKeepsIff` | crates/xdg-desktop-portal-atrium/src/persist.rs:166-181 | pruning keeps the disk entries whose source can be captured, each as often as it was there and in order, and nothing else of the disk; memory stays |
| `RestoreTokens.TakesTokenIff` | crates/xdg-desktop-portal-atrium/src/persist.rs:102-139 | a token is issued, the drawn one, for disk persistence with a data directory and for memory persistence with a named caller, and otherwise the store stays as it was |
| `RestoreTokens.PushKeepsIff` | crates/xdg-desktop-portal-atrium/src/persist.rs:116-120 | an append evicts an entry if and only if the log is full of newer ones |
| `RestoreTokens.DiskTokenSurvives` | crates/xdg-desktop-portal-atrium/src/persist.rs:32-34 | a disk token outlives everything but 64 newer tokens and a prune that finds its source gone |
| `RestoreTokens.DiskTokenSurvivesIff` | crates/xdg-desktop-portal-atrium/src/persist.rs:32-34 | where nothing is pruned that bound is exact |
| `RestoreTokens.MemoryTokenSurvivesIff` | crates/xdg-desktop-portal-atrium/src/persist.rs:129-134 | a memory token lasts exactly until its owner goes or 16 newer of that owner push it out |
| `RestoreTokens.StepKeepsUnique` | crates/xdg-desktop-portal-atrium/src/persist.rs:102-181 | with fresh draws tokens stay unique |
| `SourceSelection.SelectSources` | crates/xdg-desktop-portal-atrium/src/screencast.rs:526-751 | the whole decision: cancelled, refused, restored without dialogs, or chosen, confirmed and perhaps remembered |
| `SelectionConsent.ArmsOnlyWithConsent` | crates/xdg-desktop-portal-atrium/src/screencast.rs:520-760 | what is armed is what a valid token restores, or the source the user took and confirmed with no close seen, in the cursor mode asked for, with a token exactly if the user ticked and the store takes one |
| `SelectionConsent.UserDecides` | crates/xdg-desktop-portal-atrium/src/screencast.rs:584-706 | a well-formed request whose token restores nothing arms if and only if the user agreed and the request stayed open, is refused if and only if a dialog failed, and is cancelled otherwise |
| `SelectionConsent.TokenDecides` | crates/xdg-desktop-portal-atrium/src/screencast.rs:555-583 | a kept token of the asking application arms its selection without a dialog if its source can be captured, and otherwise the user decides |
| `SelectionConsent.TokensOnlyWithConsent` | crates/xdg-desktop-portal-atrium/src/screencast.rs:682-706 | the store gains no entry but the drawn token for what the user took, confirmed and asked to be remembered |
| `SelectionConsent.UnarmedIssuesOnlyIfClosedLast` | crates/xdg-desktop-portal-atrium/src/screencast.rs:682-731 | a refusal or a cancellation issues no token unless the close was seen only after the user had agreed |
| `SelectionConsent.LateCloseLeavesAToken` | crates/xdg-desktop-portal-atrium/src/screencast.rs:682-731 | a cancelled request that leaves a token |
| `SourceSelection.OptionNamesOutputIff` | crates/xdg-desktop-portal-atrium/src/screencast.rs:647-649 | the option of an output stands for that output if and only if its name does not begin with the prefix |
| `SourceSelection.PrefixedNameIsMistaken` | crates/xdg-desktop-portal-atrium/src/screencast.rs:647-649 | a name whose option stands for another output |
| `SourceSelection.GrantedIsKept` | crates/xdg-desktop-portal-atrium/src/screencast.rs:682-706 | a granted token is stored for exactly the armed selection, and never for a window |
| `SourceSelection.RestoreRoundTrip` | crates/xdg-desktop-portal-atrium/src/screencast.rs:555-583 | presenting the token arms the same source and cursor mode under the same grant |
| `SourceSelection.OthersGainNothing` | crates/xdg-desktop-portal-atrium/src/persist.rs:141-164 | no other application restores anything with it |
| `SourceSelection.GrantedTokenIsRetained` | crates/xdg-desktop-portal-atrium/src/persist.rs:102-139 | from the grant on, how long the token restores |
| `SourceSelection.RememberedSelectionReturns` | crates/xdg-desktop-portal-atrium/src/screencast.rs:555-706 | after any events that spare the token, the store restores the same source and cursor mode for it if and only if the source can be captured, and nothing for any other application |
| `SourceSelection.InteractiveReports` | crates/xdg-desktop-portal-atrium/src/screencast.rs:942-956 | Start reports the drawn token with the requested mode exactly when the user ticked, the source is an output and the store takes tokens of that mode from that caller; a reduced grant is reported as mode 0 |
| `SourceSelection.StartHandsOut` | crates/xdg-desktop-portal-atrium/src/session.rs:99-165 | what Start gets for a session once its sources were chosen: exactly the armed selection below the limit |
| `SourceSelection.ReportedTokenStartsAgain` | crates/xdg-desktop-portal-atrium/src/screencast.rs:526-956 | the whole chain: the token reported by Start, presented after any events that spare it on a fresh session of the same application, makes Start hand out the same source and cursor mode and report the same token if and only if the source can be captured; otherwise the user is asked |
| `Glob.GlobMatches` | crates/xdg-desktop-portal-atrium/src/apps/desktop.rs:132-164 | accepts only names the pattern describes, and all of them when the name holds no literal star |
| `Glob.DecidesEveryPatternIff` | crates/xdg-desktop-portal-atrium/src/apps/desktop.rs:132-164 | the matcher is right for every pattern if and only if the name holds no star |
| `Glob.MisjudgedPattern` | crates/xdg-desktop-portal-atrium/src/apps/desktop.rs:143-161 | for every name with a star, a pattern that describes it and is rejected |
| `Glob.ScanIsCorrect` | crates/xdg-desktop-portal-atrium/src/apps/desktop.rs:143-161 | the backtracking scan decides matching from every state it reaches |
| `MimeApps.ParseGroupedLists` | crates/xdg-desktop-portal-atrium/src/apps/desktop.rs:36-84 | the reader as a fold over the lines |
| `MimeAppsReader.ReportsIff` | crates/xdg-desktop-portal-atrium/src/apps/desktop.rs:36-84 | members are reported for a key of a group if and only if the last line of that group that gives the key members gives these |
| `MimeAppsReader.EntryIff` | crates/xdg-desktop-portal-atrium/src/apps/desktop.rs:63-78 | an entry line is a key, the first equals sign and a list; the key is not empty, holds no bracket and starts no comment |
| `MimeAppsReader.MembersOfPieces` | crates/xdg-desktop-portal-atrium/src/apps/desktop.rs:70-75 | the members of a list are those of its pieces, in order |
| `MimeApps.EditEachLine` | crates/xdg-desktop-portal-atrium/src/apps/mimeapps.rs:19-52 | the line loop with its flags |
| `MimeApps.UpdateDefaultApplications` | crates/xdg-desktop-portal-atrium/src/apps/mimeapps.rs:8-79 | the edited text |
| `MimeAppsTheorems.EditRefinesUpdate` | crates/xdg-desktop-portal-atrium/src/apps/mimeapps.rs:8-79 | for every admitted content type and id: through the reader the edit is the update of one key if and only if the key can be reported, is not read as a comment, is not glued to a line that is not blank, and the id is a clean list member |
| `MimeAppsTheorems.CommentAtEndIsGlued` | crates/xdg-desktop-portal-atrium/src/apps/mimeapps.rs:53-56 | a text on which no request is recorded |
| `MimeAppsTheorems.DefaultApp` | crates/xdg-desktop-portal-atrium/src/apps.rs:289-311 | nothing for an invalid content type, and otherwise the first installed id of the first defaults list that has one |
| `MimeAppsTheorems.RecordedDefaultIsFound` | crates/xdg-desktop-portal-atrium/src/apps.rs:343-375 | for every admitted request: the recorded application is found in the file if and only if it was recorded readably; then it is the default when installed, and other content types open as before |
| `MimeAppsTheorems.EqualsSignIsAdmitted` | crates/xdg-desktop-portal-atrium/src/apps/desktop.rs:19-31 | a content type with an equals sign is admitted, is not recorded, and changes the default of another one |
| `MimeAppsLines.EditIsIdempotent` | crates/xdg-desktop-portal-atrium/src/apps/mimeapps.rs:8-79 | for every admitted request: repeating the edit changes nothing if and only if the key is found again, the id is listed as itself or not at all, and the text does not end open |
| `MimeAppsLines.UnrelatedLinesSurvive` | crates/xdg-desktop-portal-atrium/src/apps/mimeapps.rs:19-78 | for every admitted request and every text: every other line survives byte for byte and in order and at most one group is added if and only if the key is found again and the text does not end open |
| `ExecLine.QuoteExecArg` | crates/xdg-desktop-portal-atrium/src/background.rs:209-232 | the printed form of an argument |
| `ExecTemplates.PrintedInQuotesIff` | crates/xdg-desktop-portal-atrium/src/background.rs:209-232 | an argument is printed in quotes if and only if it is empty or holds a character that is not harmless |
| `ExecTemplates.DemandsAreMetIff` | crates/xdg-desktop-portal-atrium/src/background.rs:209-232 | of the characters for which the specification demands quotes all get them but the tilde |
| `ExecTemplates.ReservedAreEscaped` | crates/xdg-desktop-portal-atrium/src/background.rs:209-232 | no reserved character stands in a printed argument without a backslash before it |
| `ExecLine.SplitExec` | crates/xdg-desktop-portal-atrium/src/apps/exec.rs:42-82 | the splitter as an automaton over the characters |
| `ExecTemplates.SplitsIntoWords` | crates/xdg-desktop-portal-atrium/src/apps/exec.rs:42-82 | any line of words with quotes and escapes, in any white space, is split into exactly these words with quotes and escapes taken away |
| `ExecTemplates.OpenQuoteRunsOn` | crates/xdg-desktop-portal-atrium/src/apps/exec.rs:42-82 | a quote that is not closed runs to the end of the line |
| `ExecLine.ExpandInline` | crates/xdg-desktop-portal-atrium/src/apps/exec.rs:115-151 | field codes inside a token |
| `ExecLine.ExpandExec` | crates/xdg-desktop-portal-atrium/src/apps/exec.rs:89-161 | field codes as tokens, and URIs appended when no code used them |
| `ExecTemplates.ExpandsToMeaning` | crates/xdg-desktop-portal-atrium/src/apps/exec.rs:84-161 | every line of arguments made of text and field codes becomes what they mean, in order; the URIs are appended if and only if no argument names them |
| `ExecTemplates.InlinePieces` | crates/xdg-desktop-portal-atrium/src/apps/exec.rs:115-151 | codes inside an argument are replaced where they stand, and unknown ones and a lone percent sign vanish |
| `ExecTemplates.PathsInOrder` | crates/xdg-desktop-portal-atrium/src/apps/exec.rs:110-113 | the paths are those of the URIs that have one, in order |
| `ExecTemplates.OpensWith` | crates/xdg-desktop-portal-atrium/src/apps/exec.rs:84-161 | a printed command line with %U opens all URIs, with %u the first, with %f the path of the first if it has one, with %F all paths in order; nothing is appended |
| `ExecLine.LexPrinted` | crates/xdg-desktop-portal-atrium/src/background.rs:235-241 | splitting a printed command line gives back its arguments, percent signs doubled |
| `ExecLine.ExpandUndoesPrint` | crates/xdg-desktop-portal-atrium/src/apps/exec.rs:42-161 | reading a printed command line yields its nonempty arguments and the URIs |
| `ExecLine.RoundTripIff` | crates/xdg-desktop-portal-atrium/src/apps/exec.rs:42-161 | the round trip is exact if and only if no argument is empty |
| `ExecLine.EmptyArgumentIsLost` | crates/xdg-desktop-portal-atrium/src/apps/exec.rs:42-82 | a command line that loses an argument |
| `DesktopEntry.ParseDesktopFile` | crates/xdg-desktop-portal-atrium/src/apps/desktop.rs:168-232 | the reader of desktop entries |
| `DesktopKeys.EachKeyReachesItsField` | crates/xdg-desktop-portal-atrium/src/apps/desktop.rs:166-232 | each key of the entry group reaches its own field and no other, the last value that counts wins, Hidden=true or the lack of a name or command line deletes the entry, and other groups say nothing |
| `DesktopEntry.AutostartRoundTripIff` | crates/xdg-desktop-portal-atrium/src/background.rs:235-249 | an autostart entry starts exactly the granted command line if and only if no argument is empty or holds a newline and the line is within 8 KiB |
| `DesktopEntry.AdmittedStartsIff` | crates/xdg-desktop-portal-atrium/src/background.rs:117-157 | of the requests the portal admits, those start what was granted whose arguments hold no newline and print within 8 KiB |
| `DesktopEntry.NewlineIsAdmitted` | crates/xdg-desktop-portal-atrium/src/background.rs:146-152 | an argument with a newline is admitted and not recovered |
| `FileUri.FileUriOf` | crates/xdg-desktop-portal-atrium/src/files.rs:140-155 | the percent-encoded URI of a path |
| `UriReaders.EncodesNormally` | crates/xdg-desktop-portal-atrium/src/files.rs:140-155 | a path is written as its one normal spelling after sections 2.3 and 6.2.2 of RFC 3986: upper-case escapes of exactly the bytes that are not unreserved, slashes kept |
| `FileUri.PathFromFileUri` | crates/xdg-desktop-portal-atrium/src/files.rs:157-190 | the strict decoder, with everything it refuses |
| `UriReaders.StrictIff` | crates/xdg-desktop-portal-atrium/src/files.rs:157-190 | a path is read if and only if the URI is the file scheme, no authority or the local host, and an absolute path in bytes and two-digit escapes of either case, and the path holds no NUL |
| `FileUri.PercentDecode` | crates/xdg-desktop-portal-atrium/src/apps/exec.rs:172-189 | the lenient decoder, with the sign its digits admit and the slices it cannot take |
| `UriReaders.LenientIff` | crates/xdg-desktop-portal-atrium/src/apps/exec.rs:172-189 | on text, escapes of two digits or of a plus sign and one digit are read, every other percent sign stands, and it fails only by ending the program |
| `UriReaders.LenientNames` | crates/xdg-desktop-portal-atrium/src/apps/exec.rs:163-189 | it reads the local part of the same URIs as the strict decoder, where the result is text |
| `UriReaders.Utf8Iff` | crates/xdg-desktop-portal-atrium/src/apps/exec.rs:188 | text is exactly what encodes code points that are no surrogates, each in its shortest form, after section 3 of RFC 3629 |
| `FileUri.PanicsIff` | crates/xdg-desktop-portal-atrium/src/apps/exec.rs:172-189 | it ends the program if and only if the scan reaches a percent sign with a continuation byte three places on |
| `FileUri.SplitEscapePanics` | crates/xdg-desktop-portal-atrium/src/apps/exec.rs:172-189 | one such text |
| `FileUri.PathRoundTripIff` | crates/xdg-desktop-portal-atrium/src/files.rs:140-190 | a path comes back if and only if it is absolute and free of NUL |
| `FileUri.LenientRoundTrip` | crates/xdg-desktop-portal-atrium/src/apps/exec.rs:163-189 | the lenient decoder returns the same path if it is UTF-8 and nothing otherwise |
| `FileUri.UrisAreInjective` | crates/xdg-desktop-portal-atrium/src/files.rs:140-155 | different paths have different URIs |
| `SaveFiles.UniqueChild` | crates/atrium-portal-prompter/src/lib.rs:979-1016 | the original name or the one with the smallest free suffix; failure only when all candidates are taken, never with room left; directly in the folder if and only if the name was free as suggested or its number goes into the first component |
| `SaveFiles.FinishPaths` | crates/atrium-portal-prompter/src/lib.rs:877-893 | one path per suggestion in order, all different as paths and unoccupied, each a child of the folder under the same condition, succeeding whenever occupied and requested names fit the suffixes |
| `SaveFiles.TakenCandidatesCount` | crates/atrium-portal-prompter/src/lib.rs:979-1016 | n candidates that are not free need n different reserved or occupied paths |
| `SaveFiles.CandidatesAreDistinct` | crates/atrium-portal-prompter/src/lib.rs:1000-1012 | different suffixes make different paths, compared by components, slashes and dots in the name included |
| `SaveFiles.SplitAtExtension` | crates/atrium-portal-prompter/src/lib.rs:1018-1026 | the suffix goes before the last dot, unless that dot leads the name |
| `SaveFiles.NumberedSegments` | crates/atrium-portal-prompter/src/lib.rs:1000-1026 | the components of a valid name and of its numbered forms: one, with the number inside it, if and only if the number goes in front of the first slash |
| `SaveFiles.CandidateIsChildIff` | crates/atrium-portal-prompter/src/lib.rs:979-1026 | a candidate lies directly in the folder if and only if it is the suggested name or its number goes into the first component |
| `SaveFiles.ChosenIsChildIff` | crates/atrium-portal-prompter/src/lib.rs:979-1026 | the same for the path that is chosen |
| `SaveFiles.TrailingSlashLeavesFolder` | crates/atrium-portal-prompter/src/lib.rs:979-1026 | the suggestions a and a/ get paths of which the second lies inside the first |
| `SaveFiles.TrailingSlashIsValid` | crates/atrium-portal-prompter/src/lib.rs:959-977 | validation admits a trailing slash |
| `SaveFiles.ValidIff` | crates/atrium-portal-prompter/src/lib.rs:959-977 | a name is accepted if and only if it holds no NUL and, read as a path, is one component below the current directory, neither . nor .. |
| `NotifyReader.Stream.ReadUntilNewline` | crates/atrium-portal-prompter/src/notify.rs:247-250 | reads up to a newline or the limit |
| `NotifyReader.Stream.ReadLineBounded` | crates/atrium-portal-prompter/src/notify.rs:241-264 | one call: a line, an oversized one drained within its bound, or the end |
| `NotifyReader.AnswersPerLine` | crates/atrium-portal-prompter/src/notify.rs:241-264 | one answer per line when all lines fit, more otherwise |
| `NotifyReader.ResynchronisesIff` | crates/atrium-portal-prompter/src/notify.rs:241-264 | repeated calls answer once per line if and only if every line, newline included, has at most 5 caps and one byte |
| `NotifyReader.MemoryIsBounded` | crates/atrium-portal-prompter/src/notify.rs:244-262 | no call takes more than 5 caps and one byte |

## Left out

- Time: keepalive and lease intervals, the start timeout and frame pacing; a cycle may happen at any moment.
- The compositor is assumed to emit only slots it owns, in frames the portal accepts, under stream ids it never reuses; a frame that fails validation is ignored by the code without a release.
- Writes to the compositor are assumed to succeed; the code logs a failed release and goes on.
- Operating-system outcomes (stat, mmap, allocating pool memory, starting threads, dialogs) are inputs of the modelled functions.
- A restart of the compositor's stream is one step: the code blocks in it, and the compositor reads all earlier requests before the stop. A read that would block because only skipped replies are on the socket is a step that is not possible yet.
- Timeouts and a connection that closes: a call fails on an error reply or on a descriptor out of place, and nothing is said about calls made after a failed one.
- Buffers whose memory could not be allocated count as having none; the address PipeWire left in them is not part of this model.
- Frame and drop counters are unbounded; presentation timestamps, damage and header blocks, and the warning that is logged once are left out.
- The stored frame is a field of the stream's object, although the code shares it with the IPC callback through a reference count.
- Messages are values: JSON, the length prefix of a message and the bytes around a descriptor are left out, and a message where a descriptor should be is one kind of error.
- CastSimulation.EveryCastIsInStep: for restarts a start reply can announce, whose table has one stride and one length; what a failed restart leaves on the socket is in CastOverIpc.ReconnectIff, since it ends the cast.
- CastSimulation.StepIsInStep: after a lookup that leaves a descriptor in front nothing is said but that the next call fails, CastOverIpc.DerailedNeverRestarts and IpcRuns.LookupLosesAFrame.
- Frame sequence numbers and drop counts of the compositor are not carried by the modelled frames.
- The requests of the client other than starting and stopping a stream and listing the outputs; the position found in that list is shown and not used, and is left out.
- D-Bus objects, request tracking and logging; whether a request was closed is an input of SelectSources, and the code's duplicate report of an ended session is left out.
- A session's stop end and its thread are one field, since they are set and taken together.
- A thread that ends by itself still counts as held until it is joined.
- RestoreTokens.RestoreStore.Validate: for tokens that name several entries nothing is said about which one is found, because tokens are 128 random bits.
- Writing and reading the token file: the loaded entries are an input, and a failed write changes nothing in memory.
- The limit on chooser options and the text rules of dialogs count as a failed chooser.
- Glob.GlobMatches: takes the pattern and the name after case folding, which needs Unicode tables.
- Glob patterns come from a parsed file with weights; reading and ranking them is left out.
- ExecLine.ExpandExec: the decoder behind `%f` and `%F` is a parameter, so that the results hold for every decoder; FileUri has the one the program uses.
- Text is a sequence of characters: invalid UTF-8 in files and the size caps on them are left out, except the cap on an Exec line.
- SaveFiles.UniqueChild: the set of occupied paths does not change during a request.
- SaveFiles candidates are numbered up to the largest 32-bit value; what happens on disk when a path is used is left out.
- Prompter processes, wallpaper, notifications beyond the line reader, printing, settings and the other small portals.
