/** Create, SelectSources, Start and Close of screencast sessions in every
    interleaving: who holds each spawned cast. */
module SessionRuns {
  import opened Wrappers
  import opened Sessions

  type TaskId = nat

  /** A Start on its way: the session is reserved, the cast is negotiating, or
      the cast has been stopped and the reservation is still to be cleared. */
  datatype Phase = Reserved | Spawned(cast: CastId) | Ending

  datatype Task = Task(path: Path, appId: AppId, selection: Selection, phase: Phase)

  /** What a cast streams, with or without the cursor, and for whom. */
  datatype Origin = Origin(source: CastSource, embedded: bool, appId: AppId)

  function OriginFor(selection: Selection, appId: AppId): Origin
  {
    Origin(selection.source, selection.cursorMode == CURSOR_MODE_EMBEDDED, appId)
  }

  datatype World = World(
    registry: Registry, tasks: map<TaskId, Task>,
    closing: set<CastId>,               // detached with their session, not joined yet
    stopped: set<CastId>,               // stopped and joined
    nextCast: CastId,
    streams: map<CastId, Origin>,       // what each spawned cast streams, and for whom
    chosenBy: map<Path, AppId>)         // who selected the sources of a path last

  datatype Step =
    | Create(path: Path, appId: AppId)
    | Select(path: Path, appId: AppId, selection: Selection)
    | Reserve(task: TaskId, path: Path, appId: AppId)
    | SpawnFails(task: TaskId)
    | Spawn(task: TaskId)
    | Install(task: TaskId)
    | StopOwn(task: TaskId)
    | Clear(task: TaskId)
    | Close(path: Path)
    | Join(cast: CastId)

  const EMPTY: World := World(map[], map[], {}, {}, 0, map[], map[])

  predicate Enabled(w: World, step: Step)
  {
    match step
    case Create(_, _) => true
    case Select(_, _, _) => true
    case Reserve(task, _, _) => task !in w.tasks
    case SpawnFails(task) => task in w.tasks && w.tasks[task].phase.Reserved?
    case Spawn(task) => task in w.tasks && w.tasks[task].phase.Reserved?
    case Install(task) => task in w.tasks && w.tasks[task].phase.Spawned?
    case StopOwn(task) => task in w.tasks && w.tasks[task].phase.Spawned?
    case Clear(task) => task in w.tasks && w.tasks[task].phase.Ending?
    case Close(_) => true
    case Join(cast) => cast in w.closing
  }

  function OriginOf(t: Task): Origin
  {
    OriginFor(t.selection, t.appId)
  }

  function Next(w: World, step: Step): World
    requires Enabled(w, step)
  {
    match step
    case Create(path, appId) => w.(registry := Insert(w.registry, path, appId).1)
    case Select(path, appId, selection) =>
      var (r, registry) := MarkSourcesSelected(w.registry, path, appId, selection);
      w.(registry := registry, chosenBy := if r.Ok? then w.chosenBy[path := appId] else w.chosenBy)
    case Reserve(task, path, appId) =>
      var (r, registry) := ReserveStart(w.registry, path, appId);
      w.(registry := registry, tasks := if r.Ok? then w.tasks[task := Task(path, appId, r.value, Reserved)] else w.tasks)
    case SpawnFails(task) => w.(tasks := w.tasks[task := w.tasks[task].(phase := Ending)])
    case Spawn(task) =>
      w.(tasks := w.tasks[task := w.tasks[task].(phase := Spawned(w.nextCast))],
         streams := w.streams[w.nextCast := OriginOf(w.tasks[task])], nextCast := w.nextCast + 1)
    case Install(task) =>
      var cast := w.tasks[task].phase.cast;
      var (installed, registry) := MarkStarted(w.registry, w.tasks[task].path, cast);
      w.(registry := registry, tasks := w.tasks - {task}, stopped := if installed then w.stopped else w.stopped + {cast})
    case StopOwn(task) =>
      w.(tasks := w.tasks[task := w.tasks[task].(phase := Ending)], stopped := w.stopped + {w.tasks[task].phase.cast})
    case Clear(task) => w.(registry := ClearStart(w.registry, w.tasks[task].path), tasks := w.tasks - {task})
    case Close(path) =>
      var (session, registry) := Remove(w.registry, path);
      w.(registry := registry,
         closing := if session.Some? && session.value.cast.Some? then w.closing + {session.value.cast.value} else w.closing)
    case Join(cast) => w.(closing := w.closing - {cast}, stopped := w.stopped + {cast})
  }

  // ---------- the invariant ----------

  datatype Place = AtTask(task: TaskId) | AtSession(path: Path) | AtCloser | Joined

  function CastAt(r: Registry, path: Path): Option<CastId>
  {
    if path in r then r[path].cast else None
  }

  predicate Holds(w: World, at: Place, cast: CastId)
  {
    match at
    case AtTask(task) => task in w.tasks && w.tasks[task].phase == Spawned(cast)
    case AtSession(path) => CastAt(w.registry, path) == Some(cast)
    case AtCloser => cast in w.closing
    case Joined => cast in w.stopped
  }

  ghost predicate IsHeld(w: World, cast: CastId)
  {
    exists at: Place :: Holds(w, at, cast)
  }

  /** Every spawned cast is in exactly one place. */
  ghost predicate EachHeldOnce(w: World)
  {
    && (forall cast: CastId | cast < w.nextCast :: IsHeld(w, cast))
    && (forall cast: CastId, at: Place | Holds(w, at, cast) :: cast < w.nextCast)
    && (forall cast: CastId, a: Place, b: Place | Holds(w, a, cast) && Holds(w, b, cast) :: a == b)
  }

  ghost predicate Outstanding(w: World, path: Path)
  {
    exists task: TaskId | task in w.tasks :: w.tasks[task].path == path
  }

  /** A session that is starting belongs to its one task, and has no cast yet. */
  ghost predicate TasksMatch(w: World)
  {
    && (forall t: TaskId, u: TaskId | t in w.tasks && u in w.tasks :: w.tasks[t].path == w.tasks[u].path ==> t == u)
    && (forall t: TaskId | t in w.tasks :: TaskMatches(w, w.tasks[t]))
    && (forall path: Path | path in w.registry && w.registry[path].starting :: Outstanding(w, path))
  }

  predicate TaskMatches(w: World, t: Task)
  {
    t.path in w.registry ==>
      var s := w.registry[t.path];
      s.starting && s.cast.None? && s.appId == t.appId && s.selection == t.selection
  }

  /** Sources are selected by the session's owner before anything starts, and a
      session's cast streams what was selected. */
  predicate SessionOk(w: World, path: Path)
    requires path in w.registry
  {
    var s := w.registry[path];
    && (Busy(s) ==> s.selected)
    && (s.selected ==> path in w.chosenBy && w.chosenBy[path] == s.appId)
    && (s.cast.Some? ==> s.cast.value in w.streams && w.streams[s.cast.value] == OriginFor(s.selection, s.appId))
  }

  predicate CastsMatch(w: World)
  {
    forall t: TaskId | t in w.tasks && w.tasks[t].phase.Spawned? ::
      w.tasks[t].phase.cast in w.streams && w.streams[w.tasks[t].phase.cast] == OriginOf(w.tasks[t])
  }

  ghost predicate Inv(w: World)
  {
    && EachHeldOnce(w) && TasksMatch(w) && CastsMatch(w)
    && (forall path: Path | path in w.registry :: SessionOk(w, path))
    && |BusyPaths(w.registry)| <= MAX_LIVE_CASTS
    && (forall cast: CastId | cast in w.streams :: cast < w.nextCast)
  }

  /** A session created on the path of an unfinished Start. */
  ghost predicate Reuses(w: World, step: Step)
  {
    step.Create? && Insert(w.registry, step.path, step.appId).0.Ok? && Outstanding(w, step.path)
  }

  /** A cast is installed over one the session holds already. */
  predicate Overwrites(w: World, step: Step)
    requires Enabled(w, step)
  {
    step.Install? && CastAt(w.registry, w.tasks[step.task].path).Some?
  }

  // ---------- where a step puts a cast ----------

  function Moved(w: World, step: Step, at: Place, cast: CastId): Place
    requires Enabled(w, step)
  {
    match step
    case Install(task) =>
      if at != AtTask(task) then at else if w.tasks[task].path in w.registry then AtSession(w.tasks[task].path) else Joined
    case StopOwn(task) => if at == AtTask(task) then Joined else at
    case Close(path) => if at == AtSession(path) then AtCloser else at
    case Join(joined) => if at == AtCloser && cast == joined then Joined else at
    case _ => at
  }

  lemma HeldIsMoved(w: World, step: Step, at: Place, cast: CastId)
    requires Enabled(w, step) && Holds(w, at, cast) && !Overwrites(w, step)
    ensures Holds(Next(w, step), Moved(w, step, at, cast), cast)
  {
    if Quiet(step) {
      hide Next, Enabled;
      QuietHolds(w, step, at, cast);
    } else {
      LoudIsMoved(w, step, at, cast);
    }
  }

  lemma LoudIsMoved(w: World, step: Step, at: Place, cast: CastId)
    requires Enabled(w, step) && !Quiet(step) && Holds(w, at, cast) && !Overwrites(w, step)
    ensures Holds(Next(w, step), Moved(w, step, at, cast), cast)
  {
    hide MarkStarted, Remove;
    match step
    case Install(task) =>
      var path, own := w.tasks[task].path, w.tasks[task].phase.cast;
      InstallsIff(w.registry, path, own);
      InstallAndCloseCasts(w.registry, path, own, path);
      if at.AtSession? { InstallAndCloseCasts(w.registry, path, own, at.path); }
    case Close(path) =>
      RemoveFinds(w.registry, path);
      if at.AtSession? { InstallAndCloseCasts(w.registry, path, 0, at.path); }
    case _ =>
  }

  /** Creating, selecting, reserving and clearing touch no cast. */
  lemma RegistryKeepsCasts(r: Registry, path: Path, appId: AppId, selection: Selection, p: Path)
    ensures CastAt(Insert(r, path, appId).1, p) == CastAt(r, p)
    ensures CastAt(MarkSourcesSelected(r, path, appId, selection).1, p) == CastAt(r, p)
    ensures CastAt(ReserveStart(r, path, appId).1, p) == CastAt(r, p)
    ensures CastAt(ClearStart(r, path), p) == CastAt(r, p)
  {
    hide BusyPaths;
  }

  lemma InstallAndCloseCasts(r: Registry, path: Path, cast: CastId, p: Path)
    ensures CastAt(MarkStarted(r, path, cast).1, p) == if p == path && path in r then Some(cast) else CastAt(r, p)
    ensures CastAt(Remove(r, path).1, p) == if p == path then None else CastAt(r, p)
  {
  }

  predicate Quiet(step: Step)
  {
    step.Create? || step.Select? || step.Reserve? || step.SpawnFails? || step.Clear?
  }

  lemma QuietHolds(w: World, step: Step, at: Place, cast: CastId)
    requires Enabled(w, step) && Quiet(step)
    ensures Holds(Next(w, step), at, cast) == Holds(w, at, cast)
  {
    hide Insert, MarkSourcesSelected, ReserveStart, ClearStart, CastAt;
    if at.AtSession? {
      var selection := if step.Select? then step.selection else UNARMED;
      match step
      case Create(path, appId) => RegistryKeepsCasts(w.registry, path, appId, selection, at.path);
      case Select(path, appId, _) => RegistryKeepsCasts(w.registry, path, appId, selection, at.path);
      case Reserve(_, path, appId) => RegistryKeepsCasts(w.registry, path, appId, selection, at.path);
      case Clear(task) => RegistryKeepsCasts(w.registry, w.tasks[task].path, "", selection, at.path);
      case SpawnFails(_) =>
    }
  }

  /** Whatever holds a cast after a step holds it because it, or the place it
      came from, held it before; only spawning makes a new cast. */
  lemma HeldWasHeld(w: World, step: Step, at: Place, cast: CastId) returns (from: Place)
    requires Enabled(w, step) && Holds(Next(w, step), at, cast) && !Holds(w, at, w.nextCast)
    ensures if step.Spawn? && cast == w.nextCast then at == AtTask(step.task)
            else Holds(w, from, cast) && Moved(w, step, from, cast) == at
  {
    if Quiet(step) {
      QuietHolds(w, step, at, cast);
      return at;
    }
    from := LoudWasHeld(w, step, at, cast);
  }

  lemma LoudWasHeld(w: World, step: Step, at: Place, cast: CastId) returns (from: Place)
    requires Enabled(w, step) && !Quiet(step) && Holds(Next(w, step), at, cast) && !Holds(w, at, w.nextCast)
    ensures if step.Spawn? && cast == w.nextCast then at == AtTask(step.task)
            else Holds(w, from, cast) && Moved(w, step, from, cast) == at
  {
    hide MarkStarted, Remove;
    from := at;
    match step
    case Install(task) =>
      var path := w.tasks[task].path;
      if at.AtSession? { InstallAndCloseCasts(w.registry, path, w.tasks[task].phase.cast, at.path); }
      InstallsIff(w.registry, path, w.tasks[task].phase.cast);
      if w.tasks[task].phase.cast == cast && at == (if path in w.registry then AtSession(path) else Joined) { from := AtTask(task); }
    case StopOwn(task) => if w.tasks[task].phase.cast == cast && at == Joined { from := AtTask(task); }
    case Close(path) =>
      if at.AtSession? { InstallAndCloseCasts(w.registry, path, 0, at.path); }
      RemoveFinds(w.registry, path);
      if CastAt(w.registry, path) == Some(cast) && at == AtCloser { from := AtSession(path); }
    case Join(joined) => if joined == cast && at == Joined { from := AtCloser; }
    case Spawn(_) =>
  }

  lemma InstallsIff(r: Registry, path: Path, cast: CastId)
    ensures MarkStarted(r, path, cast).0 <==> path in r
  {
  }

  lemma RemoveFinds(r: Registry, path: Path)
    ensures var s := Remove(r, path).0; CastAt(r, path) == if s.Some? then s.value.cast else None
  {
  }

  lemma NextIsUnheld(w: World)
    requires EachHeldOnce(w)
    ensures forall at: Place :: !Holds(w, at, w.nextCast)
  {
    hide Holds;
  }

  lemma NextCastIs(w: World, step: Step)
    requires Enabled(w, step)
    ensures Next(w, step).nextCast == w.nextCast + if step.Spawn? then 1 else 0
  {
  }

  lemma KeepsHolding(w: World, step: Step)
    requires EachHeldOnce(w) && Enabled(w, step) && !Overwrites(w, step)
    ensures EachHeldOnce(Next(w, step))
  {
    var n := Next(w, step);
    NextCastIs(w, step);
    forall cast: CastId | cast < n.nextCast ensures IsHeld(n, cast) {
      if step.Spawn? && cast == w.nextCast {
        assert Holds(n, AtTask(step.task), cast);
      } else {
        assert IsHeld(w, cast);
        var at: Place :| Holds(w, at, cast);
        HeldIsMoved(w, step, at, cast);
      }
    }
    NextIsUnheld(w);
    hide Next, Holds, Moved, Enabled;
    forall cast: CastId, at: Place | Holds(n, at, cast) ensures cast < n.nextCast {
      var from := HeldWasHeld(w, step, at, cast);
    }
    forall cast: CastId, a: Place, b: Place | Holds(n, a, cast) && Holds(n, b, cast) ensures a == b {
      var fromA := HeldWasHeld(w, step, a, cast);
      var fromB := HeldWasHeld(w, step, b, cast);
    }
  }

  /** An installation over a cast leaves that cast in nobody's hands. */
  lemma OverwrittenIsLost(w: World, task: TaskId)
    requires EachHeldOnce(w) && Enabled(w, Install(task)) && Overwrites(w, Install(task))
    ensures var lost := CastAt(w.registry, w.tasks[task].path).value;
            lost < Next(w, Install(task)).nextCast && !IsHeld(Next(w, Install(task)), lost)
  {
    var path, own := w.tasks[task].path, w.tasks[task].phase.cast;
    var lost, n := CastAt(w.registry, path).value, Next(w, Install(task));
    assert Holds(w, AtSession(path), lost) && Holds(w, AtTask(task), own);
    InstallAndCloseCasts(w.registry, path, own, path);
    NextIsUnheld(w);
    hide Enabled, MarkStarted;
    if IsHeld(n, lost) {
      var at: Place :| Holds(n, at, lost);
      var from := HeldWasHeld(w, Install(task), at, lost);
      assert false;
    }
  }

  /** A step leaves each spawned cast with one holder if and only if it does not
      install a cast over one a session holds. */
  lemma StepHoldsOnceIff(w: World, step: Step)
    requires EachHeldOnce(w) && Enabled(w, step)
    ensures EachHeldOnce(Next(w, step)) <==> !Overwrites(w, step)
  {
    if Overwrites(w, step) {
      OverwrittenIsLost(w, step.task);
      hide Next, Holds, Enabled, IsHeld;
    } else {
      hide Next, EachHeldOnce;
      KeepsHolding(w, step);
    }
  }

  // ---------- the rest of the invariant ----------

  lemma SmallerSet(a: set<Path>, b: set<Path>)
    requires a <= b
    ensures |a| <= |b|
  {
    if a != {} {
      var x :| x in a;
      SmallerSet(a - {x}, b - {x});
    }
  }

  /** A session is created if and only if its path is unknown and fewer than 128
      sessions exist, and no step leads beyond that. */
  lemma StepStaysWithin(w: World, step: Step)
    requires Enabled(w, step) && |w.registry| <= 128
    ensures |Next(w, step).registry| <= 128
    ensures step.Create? ==>
              Next(w, step).registry == if step.path in w.registry || |w.registry| == 128 then w.registry
                                        else w.registry[step.path := Session(step.appId, false, UNARMED, false, None)]
  {
    if step.Close? {
      var n := Next(w, step);
      SmallerSet(n.registry.Keys, w.registry.Keys);
      assert |n.registry.Keys| == |n.registry| && |w.registry.Keys| == |w.registry|;
    }
  }

  lemma {:induction false} SessionsStayWithin(w: World, steps: seq<Step>)
    requires Possible(w, steps) && |w.registry| <= 128
    ensures |After(w, steps).registry| <= 128
    decreases |steps|
  {
    hide Enabled, Next;
    if steps != [] {
      StepStaysWithin(w, steps[0]);
      SessionsStayWithin(Next(w, steps[0]), steps[1..]);
    }
  }

  lemma InsertBusy(r: Registry, path: Path, appId: AppId)
    ensures BusyPaths(Insert(r, path, appId).1) == BusyPaths(r)
  {
  }

  lemma SelectBusy(r: Registry, path: Path, appId: AppId, selection: Selection)
    ensures BusyPaths(MarkSourcesSelected(r, path, appId, selection).1) == BusyPaths(r)
  {
    var (ok, after) := MarkSourcesSelected(r, path, appId, selection);
    if ok.Ok? { assert forall p | p in r :: Busy(after[p]) == Busy(r[p]); }
  }

  lemma ReserveBusy(r: Registry, path: Path, appId: AppId)
    ensures var (ok, after) := ReserveStart(r, path, appId);
            if ok.Ok? then |BusyPaths(r)| < MAX_LIVE_CASTS && BusyPaths(after) == BusyPaths(r) + {path} else after == r
  {
  }

  lemma ClearBusy(r: Registry, path: Path)
    ensures BusyPaths(ClearStart(r, path)) <= BusyPaths(r)
  {
  }

  lemma RemoveBusy(r: Registry, path: Path)
    ensures BusyPaths(Remove(r, path).1) <= BusyPaths(r)
  {
  }

  lemma AddOne(a: set<Path>, path: Path)
    ensures |a + {path}| <= |a| + 1
  {
  }

  predicate WithinLimit(w: World)
  {
    |BusyPaths(w.registry)| <= MAX_LIVE_CASTS
  }

  /** A cast is installed into a session that is not busy while the limit is
      reached. */
  predicate Overfills(w: World, step: Step)
    requires Enabled(w, step)
  {
    && step.Install? && w.tasks[step.task].path in w.registry && !Busy(w.registry[w.tasks[step.task].path])
    && |BusyPaths(w.registry)| >= MAX_LIVE_CASTS
  }

  lemma InstallAdds(r: Registry, path: Path, cast: CastId)
    requires path in r
    ensures BusyPaths(MarkStarted(r, path, cast).1) == BusyPaths(r) + {path}
    ensures |BusyPaths(MarkStarted(r, path, cast).1)| == |BusyPaths(r)| + if Busy(r[path]) then 0 else 1
  {
    var after := MarkStarted(r, path, cast).1;
    assert BusyPaths(after) == BusyPaths(r) + {path};
    if Busy(r[path]) { assert BusyPaths(r) + {path} == BusyPaths(r); }
  }

  lemma InstallElsewhere(r: Registry, path: Path, cast: CastId)
    requires path !in r
    ensures MarkStarted(r, path, cast).1 == r
  {
  }

  /** Reservations keep the limit; a step breaks it if and only if it installs a
      cast into an idle session at the limit. */
  lemma StepBusyIff(w: World, step: Step)
    requires WithinLimit(w) && Enabled(w, step)
    ensures WithinLimit(Next(w, step)) <==> !Overfills(w, step)
  {
    var r, after := w.registry, Next(w, step).registry;
    hide BusyPaths, Insert, MarkSourcesSelected, ReserveStart, ClearStart, MarkStarted, Remove, Busy;
    match step
    case Create(path, appId) => InsertBusy(r, path, appId);
    case Select(path, appId, selection) => SelectBusy(r, path, appId, selection);
    case Reserve(_, path, appId) => ReserveBusy(r, path, appId); AddOne(BusyPaths(r), path);
    case Clear(task) => ClearBusy(r, w.tasks[task].path); SmallerSet(BusyPaths(after), BusyPaths(r));
    case Install(task) =>
      var path, cast := w.tasks[task].path, w.tasks[task].phase.cast;
      if path in r { InstallAdds(r, path, cast); } else { InstallElsewhere(r, path, cast); }
    case Close(path) => RemoveBusy(r, path); SmallerSet(BusyPaths(after), BusyPaths(r));
    case _ =>
  }

  /** What was selected was selected by the session's owner. */
  predicate OwnChoices(r: Registry, chosenBy: map<Path, AppId>)
  {
    forall p: Path | p in r :: r[p].selected ==> p in chosenBy && chosenBy[p] == r[p].appId
  }

  predicate AllSelected(r: Registry)
  {
    forall p: Path | p in r :: Busy(r[p]) ==> r[p].selected
  }

  predicate ChosenOk(w: World)
  {
    OwnChoices(w.registry, w.chosenBy)
  }

  predicate BusySelected(w: World)
  {
    AllSelected(w.registry)
  }

  /** A cast is installed into a session without a selection. */
  predicate Unselected(w: World, step: Step)
    requires Enabled(w, step)
  {
    step.Install? && w.tasks[step.task].path in w.registry && !w.registry[w.tasks[step.task].path].selected
  }

  lemma InsertSelected(r: Registry, chosenBy: map<Path, AppId>, path: Path, appId: AppId)
    requires OwnChoices(r, chosenBy) && AllSelected(r)
    ensures OwnChoices(Insert(r, path, appId).1, chosenBy) && AllSelected(Insert(r, path, appId).1)
  {
  }

  lemma SelectSelected(r: Registry, chosenBy: map<Path, AppId>, path: Path, appId: AppId, selection: Selection)
    requires OwnChoices(r, chosenBy) && AllSelected(r)
    ensures var (ok, after) := MarkSourcesSelected(r, path, appId, selection);
            OwnChoices(after, if ok.Ok? then chosenBy[path := appId] else chosenBy) && AllSelected(after)
  {
  }

  lemma ReserveSelected(r: Registry, chosenBy: map<Path, AppId>, path: Path, appId: AppId)
    requires OwnChoices(r, chosenBy) && AllSelected(r)
    ensures OwnChoices(ReserveStart(r, path, appId).1, chosenBy) && AllSelected(ReserveStart(r, path, appId).1)
  {
    hide BusyPaths;
  }

  lemma ClearSelected(r: Registry, chosenBy: map<Path, AppId>, path: Path)
    requires OwnChoices(r, chosenBy) && AllSelected(r)
    ensures OwnChoices(ClearStart(r, path), chosenBy) && AllSelected(ClearStart(r, path))
  {
  }

  lemma InstallSelected(r: Registry, chosenBy: map<Path, AppId>, path: Path, cast: CastId)
    requires OwnChoices(r, chosenBy) && AllSelected(r)
    ensures OwnChoices(MarkStarted(r, path, cast).1, chosenBy)
    ensures AllSelected(MarkStarted(r, path, cast).1) <==> !(path in r && !r[path].selected)
  {
    var after := MarkStarted(r, path, cast).1;
    if path in r && !r[path].selected {
      assert path in after && Busy(after[path]) && !after[path].selected;
    }
  }

  lemma RemoveSelected(r: Registry, chosenBy: map<Path, AppId>, path: Path)
    requires OwnChoices(r, chosenBy) && AllSelected(r)
    ensures OwnChoices(Remove(r, path).1, chosenBy) && AllSelected(Remove(r, path).1)
  {
  }

  /** Every busy session has its owner's selection after a step if and only if
      the step does not install a cast into a session without one. */
  lemma StepSelectedIff(w: World, step: Step)
    requires ChosenOk(w) && BusySelected(w) && Enabled(w, step)
    ensures ChosenOk(Next(w, step))
    ensures BusySelected(Next(w, step)) <==> !Unselected(w, step)
  {
    var r, chosenBy := w.registry, w.chosenBy;
    hide OwnChoices, AllSelected, Insert, MarkSourcesSelected, ReserveStart, ClearStart, MarkStarted, Remove;
    match step
    case Create(path, appId) => InsertSelected(r, chosenBy, path, appId);
    case Select(path, appId, selection) => SelectSelected(r, chosenBy, path, appId, selection);
    case Reserve(_, path, appId) => ReserveSelected(r, chosenBy, path, appId);
    case Clear(task) => ClearSelected(r, chosenBy, w.tasks[task].path);
    case Install(task) => InstallSelected(r, chosenBy, w.tasks[task].path, w.tasks[task].phase.cast);
    case Close(path) => RemoveSelected(r, chosenBy, path);
    case _ =>
  }

  lemma CreateFits(w: World, path: Path, appId: AppId, p: Path)
    requires p in Next(w, Create(path, appId)).registry && (p in w.registry ==> SessionOk(w, p))
    ensures SessionOk(Next(w, Create(path, appId)), p)
  {
  }

  lemma SelectKeys(w: World, path: Path, appId: AppId, selection: Selection, p: Path)
    ensures p in Next(w, Select(path, appId, selection)).registry ==> p in w.registry
  {
  }

  lemma ReserveKeys(w: World, task: TaskId, path: Path, appId: AppId, p: Path)
    requires Enabled(w, Reserve(task, path, appId))
    ensures p in Next(w, Reserve(task, path, appId)).registry ==> p in w.registry
  {
    hide BusyPaths;
  }

  lemma InstallKeys(w: World, task: TaskId, p: Path)
    requires Enabled(w, Install(task))
    ensures p in Next(w, Install(task)).registry ==> p in w.registry
  {
  }

  lemma ClearKeys(w: World, task: TaskId, p: Path)
    requires Enabled(w, Clear(task))
    ensures p in Next(w, Clear(task)).registry ==> p in w.registry
  {
  }

  lemma ClearFits(w: World, task: TaskId, p: Path)
    requires p in w.registry && SessionOk(w, p) && Enabled(w, Clear(task))
    ensures p in Next(w, Clear(task)).registry && SessionOk(Next(w, Clear(task)), p)
  {
  }

  lemma SelectFits(w: World, path: Path, appId: AppId, selection: Selection, p: Path)
    requires p in w.registry && SessionOk(w, p)
    ensures p in Next(w, Select(path, appId, selection)).registry && SessionOk(Next(w, Select(path, appId, selection)), p)
  {
  }

  lemma ReserveFits(w: World, task: TaskId, path: Path, appId: AppId, p: Path)
    requires p in w.registry && SessionOk(w, p) && Enabled(w, Reserve(task, path, appId))
    ensures p in Next(w, Reserve(task, path, appId)).registry && SessionOk(Next(w, Reserve(task, path, appId)), p)
  {
    hide BusyPaths;
  }

  lemma InstallFits(w: World, task: TaskId, p: Path)
    requires p in w.registry && SessionOk(w, p) && Enabled(w, Install(task)) && CastsMatch(w) && TaskMatches(w, w.tasks[task])
    ensures p in Next(w, Install(task)).registry && SessionOk(Next(w, Install(task)), p)
  {
  }

  lemma StepSessionOk(w: World, step: Step, path: Path)
    requires Enabled(w, step) && path in Next(w, step).registry
    requires path in w.registry ==> SessionOk(w, path)
    requires step.Install? ==> TaskMatches(w, w.tasks[step.task])
    requires CastsMatch(w) && w.nextCast !in w.streams
    ensures SessionOk(Next(w, step), path)
  {
    hide *;
    match step
    case Create(p, appId) => CreateFits(w, p, appId, path);
    case Select(p, appId, selection) => SelectKeys(w, p, appId, selection, path); SelectFits(w, p, appId, selection, path);
    case Reserve(task, p, appId) => ReserveKeys(w, task, p, appId, path); ReserveFits(w, task, p, appId, path);
    case Install(task) => InstallKeys(w, task, path); InstallFits(w, task, path);
    case Clear(task) => ClearKeys(w, task, path); ClearFits(w, task, path);
    case _ => OthersFit(w, step, path);
  }

  lemma OthersFit(w: World, step: Step, p: Path)
    requires Enabled(w, step) && (step.SpawnFails? || step.Spawn? || step.StopOwn? || step.Close? || step.Join?)
    requires p in Next(w, step).registry && (p in w.registry ==> SessionOk(w, p)) && w.nextCast !in w.streams
    ensures SessionOk(Next(w, step), p)
  {
    hide Insert, MarkSourcesSelected, ReserveStart, MarkStarted, ClearStart, BusyPaths;
  }

  lemma SessionOkFrom(w: World, step: Step, path: Path)
    requires Inv(w) && Enabled(w, step) && path in Next(w, step).registry
    ensures SessionOk(Next(w, step), path)
  {
    hide EachHeldOnce, SessionOk, TaskMatches, CastsMatch, BusyPaths, Next, Outstanding;
    assert path in w.registry ==> SessionOk(w, path);
    assert step.Install? ==> TaskMatches(w, w.tasks[step.task]);
    StepSessionOk(w, step, path);
  }

  lemma StepCastsMatch(w: World, step: Step)
    requires Inv(w) && Enabled(w, step)
    ensures CastsMatch(Next(w, step))
    ensures forall cast: CastId | cast in Next(w, step).streams :: cast < Next(w, step).nextCast
  {
    hide EachHeldOnce, TasksMatch, SessionOk, Outstanding, BusyPaths;
    assert w.nextCast !in w.streams;
  }

  lemma StepTaskMatches(w: World, step: Step, t: TaskId)
    requires Inv(w) && Enabled(w, step) && !Reuses(w, step) && t in Next(w, step).tasks
    ensures TaskMatches(Next(w, step), Next(w, step).tasks[t])
  {
    hide EachHeldOnce, BusyPaths;
    var n := Next(w, step);
    if t in w.tasks {
      assert TaskMatches(w, w.tasks[t]);
      if step.Install? || step.Clear? {
        assert w.tasks[t].path != w.tasks[step.task].path;
      }
      if step.Create? && step.path == w.tasks[t].path { assert Outstanding(w, step.path); }
      if step.Select? && step.path == w.tasks[t].path && step.path in w.registry { assert SessionOk(w, step.path); }
    }
  }

  lemma StepOnePerPath(w: World, step: Step, t: TaskId, u: TaskId)
    requires Inv(w) && Enabled(w, step) && t in Next(w, step).tasks && u in Next(w, step).tasks && t != u
    ensures Next(w, step).tasks[t].path != Next(w, step).tasks[u].path
  {
    hide EachHeldOnce, SessionOk, BusyPaths, Outstanding;
    if step.Reserve? {
      if t in w.tasks { assert TaskMatches(w, w.tasks[t]); }
      if u in w.tasks { assert TaskMatches(w, w.tasks[u]); }
    }
  }

  predicate StartingAt(r: Registry, path: Path)
  {
    path in r && r[path].starting
  }

  lemma RegistryStarting(r: Registry, path: Path, appId: AppId, selection: Selection, p: Path)
    ensures StartingAt(Insert(r, path, appId).1, p) ==> StartingAt(r, p)
    ensures StartingAt(MarkSourcesSelected(r, path, appId, selection).1, p) ==> StartingAt(r, p)
    ensures StartingAt(ReserveStart(r, path, appId).1, p) ==> StartingAt(r, p) || (p == path && ReserveStart(r, path, appId).0.Ok?)
    ensures StartingAt(ClearStart(r, path), p) ==> StartingAt(r, p) && p != path
    ensures StartingAt(Remove(r, path).1, p) ==> StartingAt(r, p)
  {
    hide BusyPaths;
  }

  lemma InstallStarting(r: Registry, path: Path, cast: CastId, p: Path)
    ensures StartingAt(MarkStarted(r, path, cast).1, p) ==> StartingAt(r, p) && p != path
  {
  }

  /** A step leaves a session starting only if it was and its task goes on, or
      if the step reserved it. */
  lemma StartingWasStarting(w: World, step: Step, path: Path)
    requires Enabled(w, step) && StartingAt(Next(w, step).registry, path)
    ensures || (StartingAt(w.registry, path) && (step.Clear? || step.Install? ==> w.tasks[step.task].path != path))
            || (step.Reserve? && step.path == path && step.task in Next(w, step).tasks && Next(w, step).tasks[step.task].path == path)
  {
    hide Insert, MarkSourcesSelected, ReserveStart, ClearStart, MarkStarted, Remove, StartingAt;
    match step
    case Create(p, appId) => RegistryStarting(w.registry, p, appId, UNARMED, path);
    case Select(p, appId, selection) => RegistryStarting(w.registry, p, appId, selection, path);
    case Reserve(_, p, appId) => RegistryStarting(w.registry, p, appId, UNARMED, path);
    case Clear(task) => RegistryStarting(w.registry, w.tasks[task].path, "", UNARMED, path);
    case Install(task) => InstallStarting(w.registry, w.tasks[task].path, w.tasks[task].phase.cast, path);
    case Close(p) => RegistryStarting(w.registry, p, "", UNARMED, path);
    case _ =>
  }

  /** Tasks go on under the same path until they install or clear. */
  lemma TaskGoesOn(w: World, step: Step, t: TaskId)
    requires Enabled(w, step) && t in w.tasks && (step.Clear? || step.Install? ==> t != step.task)
    ensures t in Next(w, step).tasks && Next(w, step).tasks[t].path == w.tasks[t].path
  {
    hide Insert, MarkSourcesSelected, ReserveStart, ClearStart, MarkStarted, Remove;
  }

  lemma StepStartingHasTask(w: World, step: Step, path: Path)
    requires TasksMatch(w) && Enabled(w, step) && StartingAt(Next(w, step).registry, path)
    ensures Outstanding(Next(w, step), path)
  {
    hide Next;
    StartingWasStarting(w, step, path);
    if StartingAt(w.registry, path) && (step.Clear? || step.Install? ==> w.tasks[step.task].path != path) {
      var t: TaskId :| t in w.tasks && w.tasks[t].path == path;
      TaskGoesOn(w, step, t);
    }
  }

  lemma StepTasksMatch(w: World, step: Step)
    requires Inv(w) && Enabled(w, step) && !Reuses(w, step)
    ensures TasksMatch(Next(w, step))
  {
    assert TasksMatch(w);
    hide Inv, Enabled, Next, Outstanding, TaskMatches, Reuses;
    var n := Next(w, step);
    forall t: TaskId, u: TaskId | t in n.tasks && u in n.tasks ensures n.tasks[t].path == n.tasks[u].path ==> t == u {
      if t != u { StepOnePerPath(w, step, t, u); }
    }
    forall t: TaskId | t in n.tasks ensures TaskMatches(n, n.tasks[t]) { StepTaskMatches(w, step, t); }
    forall path: Path | path in n.registry && n.registry[path].starting ensures Outstanding(n, path) {
      StepStartingHasTask(w, step, path);
    }
  }

  lemma InvNeverOverfills(w: World, step: Step)
    requires Inv(w) && Enabled(w, step)
    ensures !Overfills(w, step) && !Unselected(w, step)
  {
    hide EachHeldOnce, BusyPaths, Outstanding;
    if step.Install? {
      assert TaskMatches(w, w.tasks[step.task]);
      if w.tasks[step.task].path in w.registry { assert SessionOk(w, w.tasks[step.task].path); }
    }
  }

  lemma InvNeverOverwrites(w: World, step: Step)
    requires Inv(w) && Enabled(w, step)
    ensures !Overwrites(w, step)
  {
    if step.Install? { assert TaskMatches(w, w.tasks[step.task]); }
  }

  // ---------- whose selection a session streams ----------

  /** The cast of a session streams what its owner selected for it. */
  predicate StreamsMatch(w: World)
  {
    forall path: Path | path in w.registry && w.registry[path].cast.Some? :: StreamOk(w, w.registry[path])
  }

  predicate StreamOk(w: World, s: Session)
  {
    s.cast.Some? ==> s.cast.value in w.streams && w.streams[s.cast.value] == OriginFor(s.selection, s.appId)
  }

  /** What holds of the casts on their way in every run. */
  predicate OriginsKnown(w: World)
  {
    CastsMatch(w) && forall cast: CastId | cast in w.streams :: cast < w.nextCast
  }

  /** A cast is installed into a session that selected another source or cursor
      mode or belongs to another application, or a session with a cast selects
      another source or cursor mode. */
  predicate Crosses(w: World, step: Step)
    requires Enabled(w, step)
  {
    match step
    case Install(task) =>
      var t := w.tasks[task];
      t.path in w.registry && OriginOf(t) != OriginFor(w.registry[t.path].selection, w.registry[t.path].appId)
    case Select(path, appId, selection) =>
      && MarkSourcesSelected(w.registry, path, appId, selection).0.Ok?
      && w.registry[path].cast.Some? && OriginFor(selection, appId) != OriginFor(w.registry[path].selection, appId)
    case _ => false
  }

  lemma StepOrigins(w: World, step: Step)
    requires OriginsKnown(w) && Enabled(w, step)
    ensures OriginsKnown(Next(w, step))
  {
    hide Insert, MarkSourcesSelected, ReserveStart, ClearStart, MarkStarted, Remove;
    assert w.nextCast !in w.streams;
  }

  /** Where a session with a cast comes from. */
  lemma CreateMatches(w: World, path: Path, appId: AppId, p: Path)
    requires CastAt(Next(w, Create(path, appId)).registry, p).Some?
    ensures p in w.registry && Next(w, Create(path, appId)).registry[p] == w.registry[p]
  {
  }

  lemma SelectMatches(w: World, path: Path, appId: AppId, selection: Selection, p: Path)
    requires CastAt(Next(w, Select(path, appId, selection)).registry, p).Some?
    ensures p in w.registry
    ensures var s, n := w.registry[p], Next(w, Select(path, appId, selection)).registry[p];
            n.cast == s.cast && n.appId == s.appId &&
            n.selection == if p == path && MarkSourcesSelected(w.registry, path, appId, selection).0.Ok? then selection else s.selection
  {
  }

  lemma ReserveMatches(w: World, task: TaskId, path: Path, appId: AppId, p: Path)
    requires Enabled(w, Reserve(task, path, appId)) && CastAt(Next(w, Reserve(task, path, appId)).registry, p).Some?
    ensures p in w.registry
    ensures var s, n := w.registry[p], Next(w, Reserve(task, path, appId)).registry[p]; n == s.(starting := n.starting)
  {
    hide BusyPaths;
  }

  lemma ClearMatches(w: World, task: TaskId, p: Path)
    requires Enabled(w, Clear(task)) && CastAt(Next(w, Clear(task)).registry, p).Some?
    ensures p in w.registry
    ensures var s, n := w.registry[p], Next(w, Clear(task)).registry[p]; n == s.(starting := n.starting)
  {
  }

  lemma InstallMatches(w: World, task: TaskId, p: Path)
    requires Enabled(w, Install(task)) && CastAt(Next(w, Install(task)).registry, p).Some?
    ensures p in w.registry
    ensures var s, n := w.registry[p], Next(w, Install(task)).registry[p];
            n == if p == w.tasks[task].path then s.(starting := false, cast := Some(w.tasks[task].phase.cast)) else s
  {
  }

  lemma OtherMatches(w: World, step: Step, p: Path)
    requires Enabled(w, step) && (step.SpawnFails? || step.Spawn? || step.StopOwn? || step.Close? || step.Join?)
    requires CastAt(Next(w, step).registry, p).Some?
    ensures p in w.registry && Next(w, step).registry[p] == w.registry[p]
    ensures w.nextCast !in w.streams ==> forall c | c in w.streams :: c in Next(w, step).streams && Next(w, step).streams[c] == w.streams[c]
  {
    hide Insert, MarkSourcesSelected, ReserveStart, MarkStarted, ClearStart;
  }

  lemma StreamsOnlyGrow(w: World, step: Step)
    requires Enabled(w, step) && w.nextCast !in w.streams
    ensures forall c | c in w.streams :: c in Next(w, step).streams && Next(w, step).streams[c] == w.streams[c]
  {
    hide Insert, MarkSourcesSelected, ReserveStart, MarkStarted, ClearStart, Remove;
  }

  lemma StepMatchesAt(w: World, step: Step, p: Path)
    requires OriginsKnown(w) && StreamsMatch(w) && Enabled(w, step) && !Crosses(w, step)
    requires CastAt(Next(w, step).registry, p).Some?
    ensures StreamOk(Next(w, step), Next(w, step).registry[p])
  {
    assert w.nextCast !in w.streams;
    StreamsOnlyGrow(w, step);
    assert p in w.registry ==> StreamOk(w, w.registry[p]);
    match step
    case Create(path, appId) => CreateMatches(w, path, appId, p); hide Next, Enabled, StreamsMatch, CastsMatch;
    case Select(path, appId, selection) => SelectMatches(w, path, appId, selection, p); hide Next, Enabled, StreamsMatch, CastsMatch, MarkSourcesSelected;
    case Reserve(task, path, appId) => ReserveMatches(w, task, path, appId, p); hide Next, Enabled, StreamsMatch, CastsMatch;
    case Clear(task) => ClearMatches(w, task, p); hide Next, Enabled, StreamsMatch, CastsMatch;
    case Install(task) => InstallMatches(w, task, p); hide Next, StreamsMatch, MarkStarted;
    case _ => OtherMatches(w, step, p); hide Next, Enabled, StreamsMatch, CastsMatch;
  }

  lemma CrossingBreaks(w: World, step: Step)
    requires OriginsKnown(w) && StreamsMatch(w) && Enabled(w, step) && Crosses(w, step)
    ensures !StreamsMatch(Next(w, step))
  {
    var n := Next(w, step);
    match step
    case Install(task) =>
      var path := w.tasks[task].path;
      assert path in n.registry && n.registry[path] == w.registry[path].(starting := false, cast := Some(w.tasks[task].phase.cast));
      assert n.streams == w.streams;
      assert !StreamOk(n, n.registry[path]);
    case Select(path, appId, selection) =>
      assert StreamOk(w, w.registry[path]);
      assert path in n.registry && n.registry[path] == w.registry[path].(selected := true, selection := selection);
      assert !StreamOk(n, n.registry[path]);
    case _ =>
  }

  /** Sessions go on streaming what their owners selected if and only if the step
      does not cross two selections or two applications. */
  lemma StepMatchesIff(w: World, step: Step)
    requires OriginsKnown(w) && StreamsMatch(w) && Enabled(w, step)
    ensures StreamsMatch(Next(w, step)) <==> !Crosses(w, step)
  {
    if Crosses(w, step) {
      CrossingBreaks(w, step);
    } else {
      var n := Next(w, step);
      hide Next, Crosses, Enabled, StreamOk, OriginsKnown;
      forall path: Path | path in n.registry && n.registry[path].cast.Some? ensures StreamOk(n, n.registry[path]) {
        StepMatchesAt(w, step, path);
      }
    }
  }

  lemma InvNeverCrosses(w: World, step: Step)
    requires Inv(w) && Enabled(w, step)
    ensures !Crosses(w, step)
  {
    hide EachHeldOnce, BusyPaths, Outstanding;
    match step
    case Install(task) => assert TaskMatches(w, w.tasks[task]);
    case Select(path, appId, selection) => if path in w.registry { assert SessionOk(w, path); }
    case _ =>
  }

  /** Every step keeps the invariant, except that creating a session keeps it
      if and only if no earlier Start on its path is outstanding. */
  lemma StepKeepsInvIff(w: World, step: Step)
    requires Inv(w) && Enabled(w, step)
    ensures Inv(Next(w, step)) <==> !Reuses(w, step)
  {
    var n := Next(w, step);
    if Reuses(w, step) {
      var t: TaskId :| t in w.tasks && w.tasks[t].path == step.path;
      assert !TaskMatches(n, n.tasks[t]);
    } else {
      InvNeverOverwrites(w, step);
      KeepsHolding(w, step);
      StepTasksMatch(w, step);
      forall path: Path | path in n.registry ensures SessionOk(n, path) { SessionOkFrom(w, step, path); }
      StepCastsMatch(w, step);
      assert step.Install? ==> TaskMatches(w, w.tasks[step.task]);
      InvNeverOverfills(w, step);
      StepBusyIff(w, step);
    }
  }

  // ---------- runs ----------

  predicate Possible(w: World, steps: seq<Step>)
    decreases |steps|
  {
    steps == [] || (Enabled(w, steps[0]) && Possible(Next(w, steps[0]), steps[1..]))
  }

  function After(w: World, steps: seq<Step>): World
    requires Possible(w, steps)
    decreases |steps|
  {
    if steps == [] then w else After(Next(w, steps[0]), steps[1..])
  }

  ghost predicate NeverReuses(w: World, steps: seq<Step>)
    requires Possible(w, steps)
    decreases |steps|
  {
    steps == [] || (!Reuses(w, steps[0]) && NeverReuses(Next(w, steps[0]), steps[1..]))
  }

  ghost predicate InvThroughout(w: World, steps: seq<Step>)
    requires Possible(w, steps)
    decreases |steps|
  {
    Inv(w) && (steps == [] || InvThroughout(Next(w, steps[0]), steps[1..]))
  }

  lemma {:induction false} RunIff(w: World, steps: seq<Step>)
    requires Inv(w) && Possible(w, steps)
    ensures InvThroughout(w, steps) <==> NeverReuses(w, steps)
    ensures NeverReuses(w, steps) ==> Inv(After(w, steps))
    decreases |steps|
  {
    hide Inv, Enabled, Next, Reuses;
    if steps != [] {
      StepKeepsInvIff(w, steps[0]);
      var n := Next(w, steps[0]);
      if Inv(n) { RunIff(n, steps[1..]); }
    }
  }

  ghost predicate HeldOnceThroughout(w: World, steps: seq<Step>)
    requires Possible(w, steps)
    decreases |steps|
  {
    EachHeldOnce(w) && (steps == [] || HeldOnceThroughout(Next(w, steps[0]), steps[1..]))
  }

  predicate NeverOverwrites(w: World, steps: seq<Step>)
    requires Possible(w, steps)
    decreases |steps|
  {
    steps == [] || (!Overwrites(w, steps[0]) && NeverOverwrites(Next(w, steps[0]), steps[1..]))
  }

  ghost predicate MatchThroughout(w: World, steps: seq<Step>)
    requires Possible(w, steps)
    decreases |steps|
  {
    StreamsMatch(w) && (steps == [] || MatchThroughout(Next(w, steps[0]), steps[1..]))
  }

  predicate NeverCrosses(w: World, steps: seq<Step>)
    requires Possible(w, steps)
    decreases |steps|
  {
    steps == [] || (!Crosses(w, steps[0]) && NeverCrosses(Next(w, steps[0]), steps[1..]))
  }

  lemma {:induction false} HeldOnceIff(w: World, steps: seq<Step>)
    requires EachHeldOnce(w) && Possible(w, steps)
    ensures HeldOnceThroughout(w, steps) <==> NeverOverwrites(w, steps)
    ensures NeverOverwrites(w, steps) ==> EachHeldOnce(After(w, steps))
    decreases |steps|
  {
    hide EachHeldOnce, Enabled, Next, Overwrites;
    if steps != [] {
      StepHoldsOnceIff(w, steps[0]);
      if !Overwrites(w, steps[0]) { HeldOnceIff(Next(w, steps[0]), steps[1..]); }
    }
  }

  lemma {:induction false} MatchIff(w: World, steps: seq<Step>)
    requires OriginsKnown(w) && StreamsMatch(w) && Possible(w, steps)
    ensures MatchThroughout(w, steps) <==> NeverCrosses(w, steps)
    ensures NeverCrosses(w, steps) ==> StreamsMatch(After(w, steps))
    decreases |steps|
  {
    hide OriginsKnown, StreamsMatch, Enabled, Next, Crosses;
    if steps != [] {
      StepMatchesIff(w, steps[0]);
      StepOrigins(w, steps[0]);
      if !Crosses(w, steps[0]) { MatchIff(Next(w, steps[0]), steps[1..]); }
    }
  }

  predicate LimitThroughout(w: World, steps: seq<Step>)
    requires Possible(w, steps)
    decreases |steps|
  {
    WithinLimit(w) && (steps == [] || LimitThroughout(Next(w, steps[0]), steps[1..]))
  }

  predicate NeverOverfills(w: World, steps: seq<Step>)
    requires Possible(w, steps)
    decreases |steps|
  {
    steps == [] || (!Overfills(w, steps[0]) && NeverOverfills(Next(w, steps[0]), steps[1..]))
  }

  lemma {:induction false} LimitIff(w: World, steps: seq<Step>)
    requires WithinLimit(w) && Possible(w, steps)
    ensures LimitThroughout(w, steps) <==> NeverOverfills(w, steps)
    decreases |steps|
  {
    hide WithinLimit, Enabled, Next, Overfills;
    if steps != [] {
      StepBusyIff(w, steps[0]);
      if !Overfills(w, steps[0]) { LimitIff(Next(w, steps[0]), steps[1..]); }
    }
  }

  ghost predicate SelectedThroughout(w: World, steps: seq<Step>)
    requires Possible(w, steps)
    decreases |steps|
  {
    BusySelected(w) && ChosenOk(w) && (steps == [] || SelectedThroughout(Next(w, steps[0]), steps[1..]))
  }

  predicate NeverUnselected(w: World, steps: seq<Step>)
    requires Possible(w, steps)
    decreases |steps|
  {
    steps == [] || (!Unselected(w, steps[0]) && NeverUnselected(Next(w, steps[0]), steps[1..]))
  }

  lemma {:induction false} SelectedIff(w: World, steps: seq<Step>)
    requires BusySelected(w) && ChosenOk(w) && Possible(w, steps)
    ensures SelectedThroughout(w, steps) <==> NeverUnselected(w, steps)
    decreases |steps|
  {
    hide BusySelected, ChosenOk, Enabled, Next, Unselected;
    if steps != [] {
      StepSelectedIff(w, steps[0]);
      if !Unselected(w, steps[0]) { SelectedIff(Next(w, steps[0]), steps[1..]); }
    }
  }

  /** Never using the path of an unfinished Start again is enough for all four. */
  lemma {:induction false} NeverReusingIsSafe(w: World, steps: seq<Step>)
    requires Inv(w) && Possible(w, steps) && NeverReuses(w, steps)
    ensures NeverOverwrites(w, steps) && NeverCrosses(w, steps) && NeverOverfills(w, steps) && NeverUnselected(w, steps)
    decreases |steps|
  {
    hide Inv, Enabled, Next, Reuses, Overwrites, Crosses, Overfills, Unselected;
    if steps != [] {
      StepKeepsInvIff(w, steps[0]);
      InvNeverOverwrites(w, steps[0]);
      InvNeverCrosses(w, steps[0]);
      InvNeverOverfills(w, steps[0]);
      NeverReusingIsSafe(Next(w, steps[0]), steps[1..]);
    }
  }

  lemma EmptyIsInv()
    ensures Inv(EMPTY) && EachHeldOnce(EMPTY) && OriginsKnown(EMPTY) && StreamsMatch(EMPTY)
  {
    assert BusyPaths(EMPTY.registry) == {};
  }

  /** In every run of the sessions each spawned cast is held exactly once
      throughout if and only if no cast is installed over another; every session
      streams what its owner selected, with the cursor as selected, throughout if
      and only if no cast is installed into a session of another selection or
      application and no session with a cast selects anew; the limit is kept
      throughout if and only if no cast is installed into an idle session at the
      limit; and every busy session was selected by its owner throughout if and
      only if no cast is installed into a session without a selection. */
  lemma CastsAreConservedIff(steps: seq<Step>)
    requires Possible(EMPTY, steps)
    ensures HeldOnceThroughout(EMPTY, steps) <==> NeverOverwrites(EMPTY, steps)
    ensures MatchThroughout(EMPTY, steps) <==> NeverCrosses(EMPTY, steps)
    ensures LimitThroughout(EMPTY, steps) <==> NeverOverfills(EMPTY, steps)
    ensures SelectedThroughout(EMPTY, steps) <==> NeverUnselected(EMPTY, steps)
  {
    hide Enabled, Next;
    EmptyIsInv();
    EmptyIsSelected();
    HeldOnceIff(EMPTY, steps);
    MatchIff(EMPTY, steps);
    LimitIff(EMPTY, steps);
    SelectedIff(EMPTY, steps);
  }

  lemma EmptyIsSelected()
    ensures WithinLimit(EMPTY) && ChosenOk(EMPTY) && BusySelected(EMPTY)
  {
    assert BusyPaths(EMPTY.registry) == {};
  }

  /** A run that never creates a session on the path of an unfinished Start does
      none of these; and at its end each spawned cast is held once, no path has two
      producers, at most 16 sessions are busy, and each of those was selected by
      its owner. */
  lemma CastsAreConserved(steps: seq<Step>)
    requires Possible(EMPTY, steps) && NeverReuses(EMPTY, steps)
    ensures NeverOverwrites(EMPTY, steps) && NeverCrosses(EMPTY, steps) && NeverOverfills(EMPTY, steps) && NeverUnselected(EMPTY, steps)
    ensures var w := After(EMPTY, steps);
            && EachHeldOnce(w)
            && (forall t: TaskId, c: CastId | Holds(w, AtTask(t), c) && w.tasks[t].path in w.registry ::
                  w.registry[w.tasks[t].path].cast.None?)
            && |BusyPaths(w.registry)| <= MAX_LIVE_CASTS
            && (forall p: Path | p in w.registry && Busy(w.registry[p]) ::
                  p in w.chosenBy && w.chosenBy[p] == w.registry[p].appId)
            && (forall p: Path, c: CastId | Holds(w, AtSession(p), c) ::
                  c in w.streams && w.streams[c] == OriginFor(w.registry[p].selection, w.registry[p].appId))
  {
    hide Enabled, Next;
    EmptyIsInv();
    RunIff(EMPTY, steps);
    NeverReusingIsSafe(EMPTY, steps);
    InvMeans(After(EMPTY, steps));
  }

  lemma InvMeans(w: World)
    requires Inv(w)
    ensures forall t: TaskId, c: CastId | Holds(w, AtTask(t), c) && w.tasks[t].path in w.registry ::
              w.registry[w.tasks[t].path].cast.None?
    ensures forall p: Path | p in w.registry && Busy(w.registry[p]) :: p in w.chosenBy && w.chosenBy[p] == w.registry[p].appId
    ensures forall p: Path, c: CastId | Holds(w, AtSession(p), c) ::
              c in w.streams && w.streams[c] == OriginFor(w.registry[p].selection, w.registry[p].appId)
  {
    hide EachHeldOnce, Outstanding, BusyPaths;
    forall p: Path | p in w.registry && Busy(w.registry[p]) ensures p in w.chosenBy && w.chosenBy[p] == w.registry[p].appId {
      assert SessionOk(w, p);
    }
    forall p: Path, c: CastId | Holds(w, AtSession(p), c)
      ensures c in w.streams && w.streams[c] == OriginFor(w.registry[p].selection, w.registry[p].appId)
    {
      assert SessionOk(w, p);
    }
  }

  // ---------- a path used again too early ----------

  function Wants(source: CastSource): Selection
  {
    Selection(source, 1, 0, None)
  }

  function Armed(appId: AppId, source: CastSource, starting: bool, cast: Option<CastId>): Session
  {
    Session(appId, true, Wants(source), starting, cast)
  }

  const DESKTOP: CastSource := Monitor(None)
  const WINDOW: CastSource := WindowSource(5)

  /** "b" creates a session where the Start of "a" is still on its way. */
  function ReusedPath(): seq<Step>
  {
    StepsOfA(StepsOfB())
  }

  function StepsOfA(rest: seq<Step>): seq<Step>
  {
    [Create("s", "a")] + ([Select("s", "a", Wants(DESKTOP))] + ([Reserve(0, "s", "a")] + ([Spawn(0)] + ([Close("s")] + rest))))
  }

  function StepsOfB(): seq<Step>
  {
    [Create("s", "b")] + ([Select("s", "b", Wants(WINDOW))] + ([Reserve(1, "s", "b")] + ([Spawn(1)] + ([Install(1)] + ([Install(0)] + [])))))
  }

  const TASK_OF_A: Task := Task("s", "a", Wants(DESKTOP), Spawned(0))

  /** The worlds of the run. */
  function Orphaned(): World
  {
    World(map[], map[0 := TASK_OF_A], {}, {}, 1, map[0 := Origin(DESKTOP, false, "a")], map["s" := "a"])
  }

  function ReservedAgain(): World
  {
    World(map["s" := Armed("b", WINDOW, true, None)], map[0 := TASK_OF_A, 1 := Task("s", "b", Wants(WINDOW), Reserved)], {}, {}, 1,
          map[0 := Origin(DESKTOP, false, "a")], map["s" := "b"])
  }

  function InstalledOnce(): World
  {
    World(map["s" := Armed("b", WINDOW, false, Some(1))], map[0 := TASK_OF_A], {}, {}, 2, map[0 := Origin(DESKTOP, false, "a"), 1 := Origin(WINDOW, false, "b")], map["s" := "b"])
  }

  function Crossed(): World
  {
    World(map["s" := Armed("b", WINDOW, false, Some(0))], map[], {}, {}, 2, map[0 := Origin(DESKTOP, false, "a"), 1 := Origin(WINDOW, false, "b")], map["s" := "b"])
  }

  lemma Onward(w: World, step: Step, n: World, rest: seq<Step>, last: World)
    requires Enabled(w, step) && Next(w, step) == n && Possible(n, rest) && After(n, rest) == last
    ensures Possible(w, [step] + rest) && After(w, [step] + rest) == last
  {
    hide Enabled, Next;
    assert ([step] + rest)[1..] == rest;
  }

  lemma NoneBusy(r: Registry)
    requires forall p | p in r :: !Busy(r[p])
    ensures |BusyPaths(r)| == 0
  {
    assert BusyPaths(r) == {};
  }

  /** The Start of "a", up to where its session is closed under it. */
  lemma StartOfA(rest: seq<Step>, last: World)
    requires Possible(Orphaned(), rest) && After(Orphaned(), rest) == last
    ensures Possible(EMPTY, StepsOfA(rest)) && After(EMPTY, StepsOfA(rest)) == last
  {
    var idle, armed, starting := map["s" := Fresh("a")], map["s" := Armed("a", DESKTOP, false, None)], map["s" := Armed("a", DESKTOP, true, None)];
    var chosen := map["s" := "a"];
    NoneBusy(armed);
    var w1 := EMPTY.(registry := idle);
    var w2 := w1.(registry := armed, chosenBy := chosen);
    var w3 := w2.(registry := starting, tasks := map[0 := Task("s", "a", Wants(DESKTOP), Reserved)]);
    var w4 := w3.(tasks := map[0 := Task("s", "a", Wants(DESKTOP), Spawned(0))], streams := map[0 := Origin(DESKTOP, false, "a")], nextCast := 1);
    var w5 := w4.(registry := map[]);
    hide BusyPaths, Possible, After;
    assert Next(w4, Close("s")) == w5;
    assert Next(w3, Spawn(0)) == w4;
    assert Next(w2, Reserve(0, "s", "a")) == w3;
    assert Next(w1, Select("s", "a", Wants(DESKTOP))) == w2;
    assert Next(EMPTY, Create("s", "a")) == w1;
    Onward(w4, Close("s"), w5, rest, last);
    Onward(w3, Spawn(0), w4, [Close("s")] + rest, last);
    Onward(w2, Reserve(0, "s", "a"), w3, [Spawn(0)] + ([Close("s")] + rest), last);
    Onward(w1, Select("s", "a", Wants(DESKTOP)), w2, [Reserve(0, "s", "a")] + ([Spawn(0)] + ([Close("s")] + rest)), last);
    Onward(EMPTY, Create("s", "a"), w1, [Select("s", "a", Wants(DESKTOP))] + ([Reserve(0, "s", "a")] + ([Spawn(0)] + ([Close("s")] + rest))), last);
  }

  lemma CreatesAgain(rest: seq<Step>, last: World)
    requires Possible(ReservedAgain(), rest) && After(ReservedAgain(), rest) == last
    ensures var steps := [Create("s", "b")] + ([Select("s", "b", Wants(WINDOW))] + ([Reserve(1, "s", "b")] + rest));
            Possible(Orphaned(), steps) && After(Orphaned(), steps) == last
  {
    var armed := map["s" := Armed("b", WINDOW, false, None)];
    NoneBusy(armed);
    var w6 := Orphaned().(registry := map["s" := Fresh("b")]);
    var w7 := w6.(registry := armed, chosenBy := map["s" := "b"]);
    hide BusyPaths, Possible, After;
    assert Next(w7, Reserve(1, "s", "b")) == ReservedAgain();
    assert Next(w6, Select("s", "b", Wants(WINDOW))) == w7;
    assert Next(Orphaned(), Create("s", "b")) == w6;
    Onward(w7, Reserve(1, "s", "b"), ReservedAgain(), rest, last);
    Onward(w6, Select("s", "b", Wants(WINDOW)), w7, [Reserve(1, "s", "b")] + rest, last);
    Onward(Orphaned(), Create("s", "b"), w6, [Select("s", "b", Wants(WINDOW))] + ([Reserve(1, "s", "b")] + rest), last);
  }

  lemma InstallsTwice()
    ensures var steps := [Spawn(1)] + ([Install(1)] + ([Install(0)] + []));
            Possible(ReservedAgain(), steps) && After(ReservedAgain(), steps) == Crossed()
  {
    var w9 := ReservedAgain().(tasks := map[0 := TASK_OF_A, 1 := Task("s", "b", Wants(WINDOW), Spawned(1))],
                           streams := map[0 := Origin(DESKTOP, false, "a"), 1 := Origin(WINDOW, false, "b")], nextCast := 2);
    assert Possible(Crossed(), []) && After(Crossed(), []) == Crossed();
    hide Possible, After;
    assert Next(ReservedAgain(), Spawn(1)) == w9;
    assert Next(w9, Install(1)) == InstalledOnce();
    assert Next(InstalledOnce(), Install(0)) == Crossed();
    Onward(InstalledOnce(), Install(0), Crossed(), [], Crossed());
    Onward(w9, Install(1), InstalledOnce(), [Install(0)] + [], Crossed());
    Onward(ReservedAgain(), Spawn(1), w9, [Install(1)] + ([Install(0)] + []), Crossed());
  }

  lemma TheRun()
    ensures Possible(EMPTY, ReusedPath()) && After(EMPTY, ReusedPath()) == Crossed()
  {
    InstallsTwice();
    hide Next, Enabled, Possible, After, Orphaned, ReservedAgain, Crossed;
    CreatesAgain([Spawn(1)] + ([Install(1)] + ([Install(0)] + [])), Crossed());
    StartOfA(StepsOfB(), Crossed());
  }

  /** The run ends with the cast of "b" in nobody's hands, and with the session
      of "b" holding a cast of what "a" selected. */
  lemma ReusedPathLosesACast()
    ensures Possible(EMPTY, ReusedPath())
    ensures var w := After(EMPTY, ReusedPath());
            && w.nextCast == 2 && !IsHeld(w, 1)
            && "s" in w.registry && w.registry["s"].appId == "b" && w.registry["s"].cast == Some(0)
            && 0 in w.streams && w.streams[0] == Origin(DESKTOP, false, "a") && w.registry["s"].selection.source == WINDOW
  {
    TheRun();
    hide Possible, After, Next, Enabled, ReusedPath;
  }

  // ---------- the other promises the same run breaks ----------

  lemma {:induction false} Further(w: World, a: seq<Step>, mid: World, b: seq<Step>, last: World)
    requires Possible(w, a) && After(w, a) == mid && Possible(mid, b) && After(mid, b) == last
    ensures Possible(w, a + b) && After(w, a + b) == last
    decreases |a|
  {
    hide Enabled, Next;
    if a == [] {
      assert a + b == b;
    } else {
      assert (a + b)[0] == a[0] && (a + b)[1..] == a[1..] + b;
      Further(Next(w, a[0]), a[1..], mid, b, last);
    }
  }

  lemma Arrived(w: World)
    ensures Possible(w, []) && After(w, []) == w
  {
  }

  /** A session of "b" gets the cast of "a" before "b" has selected anything. */
  lemma UnselectedSessionGetsACast()
    ensures var steps := StepsOfA([Create("s", "b")] + ([Install(0)] + []));
            && Possible(EMPTY, steps)
            && var w := After(EMPTY, steps);
               "s" in w.registry && w.registry["s"].cast == Some(0) && !w.registry["s"].selected && w.registry["s"].appId == "b"
  {
    var created := Orphaned().(registry := map["s" := Fresh("b")]);
    var last := created.(registry := map["s" := Fresh("b").(cast := Some(0))], tasks := map[]);
    assert Next(Orphaned(), Create("s", "b")) == created;
    assert Next(created, Install(0)) == last;
    Arrived(last);
    hide Possible, After;
    Onward(created, Install(0), last, [], last);
    Onward(Orphaned(), Create("s", "b"), created, [Install(0)] + [], last);
    StartOfA([Create("s", "b")] + ([Install(0)] + []), last);
  }

  function Filled(w: World, p: Path, t: TaskId): World
  {
    w.(registry := w.registry[p := Armed("c", DESKTOP, true, None)], tasks := w.tasks[t := Task(p, "c", Wants(DESKTOP), Reserved)],
       chosenBy := w.chosenBy[p := "c"])
  }

  /** One more session starts. */
  lemma FillOne(w: World, p: Path, t: TaskId) returns (steps: seq<Step>)
    requires p !in w.registry && t !in w.tasks && |BusyPaths(w.registry)| < MAX_LIVE_CASTS && |w.registry| < MAX_SESSIONS
    ensures Possible(w, steps) && After(w, steps) == Filled(w, p, t)
    ensures |BusyPaths(Filled(w, p, t).registry)| == |BusyPaths(w.registry)| + 1 && |Filled(w, p, t).registry| == |w.registry| + 1
  {
    var idle := w.(registry := w.registry[p := Fresh("c")]);
    var armed := idle.(registry := w.registry[p := Armed("c", DESKTOP, false, None)], chosenBy := w.chosenBy[p := "c"]);
    var n := Filled(w, p, t);
    FillCounts(w.registry, p);
    FillArms(w, p, idle, armed);
    FillReserves(w, p, t, armed);
    hide BusyPaths, Possible, After, Next, Enabled, Filled;
    Arrived(n);
    Onward(armed, Reserve(t, p, "c"), n, [], n);
    Onward(idle, Select(p, "c", Wants(DESKTOP)), armed, [Reserve(t, p, "c")] + [], n);
    steps := [Create(p, "c")] + ([Select(p, "c", Wants(DESKTOP))] + ([Reserve(t, p, "c")] + []));
    Onward(w, Create(p, "c"), idle, [Select(p, "c", Wants(DESKTOP))] + ([Reserve(t, p, "c")] + []), n);
  }

  lemma FillCounts(r: Registry, p: Path)
    requires p !in r
    ensures BusyPaths(r[p := Armed("c", DESKTOP, false, None)]) == BusyPaths(r)
    ensures |BusyPaths(r[p := Armed("c", DESKTOP, true, None)])| == |BusyPaths(r)| + 1
    ensures |r[p := Armed("c", DESKTOP, true, None)]| == |r| + 1
  {
    var after := r[p := Armed("c", DESKTOP, true, None)];
    assert BusyPaths(after) == BusyPaths(r) + {p} && p !in BusyPaths(r);
    assert after.Keys == r.Keys + {p};
    assert |after| == |after.Keys| && |r| == |r.Keys|;
  }

  lemma FillArms(w: World, p: Path, idle: World, armed: World)
    requires p !in w.registry && |w.registry| < MAX_SESSIONS
    requires idle == w.(registry := w.registry[p := Fresh("c")])
    requires armed == idle.(registry := w.registry[p := Armed("c", DESKTOP, false, None)], chosenBy := w.chosenBy[p := "c"])
    ensures Next(w, Create(p, "c")) == idle && Next(idle, Select(p, "c", Wants(DESKTOP))) == armed
  {
    assert idle.registry[p := armed.registry[p]] == armed.registry;
  }

  lemma FillReserves(w: World, p: Path, t: TaskId, armed: World)
    requires t !in w.tasks && |BusyPaths(armed.registry)| < MAX_LIVE_CASTS
    requires armed == w.(registry := w.registry[p := Armed("c", DESKTOP, false, None)], chosenBy := w.chosenBy[p := "c"])
    ensures Enabled(armed, Reserve(t, p, "c")) && Next(armed, Reserve(t, p, "c")) == Filled(w, p, t)
  {
    hide BusyPaths;
    assert armed.registry[p := Armed("c", DESKTOP, true, None)] == w.registry[p := Armed("c", DESKTOP, true, None)];
  }

  /** Names and tasks from `m` on are new. */
  ghost predicate NewFrom(w: World, m: nat)
  {
    && (forall p: Path | p in w.registry :: 2 <= |p| < m)
    && (forall t: TaskId | t in w.tasks :: t < m)
  }

  lemma {:induction false} FillUp(w: World, m: nat, k: nat) returns (steps: seq<Step>, n: World)
    requires m >= 2 && NewFrom(w, m) && |BusyPaths(w.registry)| + k <= MAX_LIVE_CASTS && |w.registry| + k <= MAX_SESSIONS
    requires 0 in w.tasks
    ensures Possible(w, steps) && After(w, steps) == n
    ensures |BusyPaths(n.registry)| == |BusyPaths(w.registry)| + k && |n.registry| == |w.registry| + k
    ensures "s" !in n.registry && 0 in n.tasks && n.tasks[0] == w.tasks[0]
    decreases k
  {
    hide BusyPaths, Possible, After;
    Arrived(w);
    steps, n := [], w;
    if k > 0 {
      var p: Path := seq(m, _ => 't');
      var first := FillOne(w, p, m);
      var mid := Filled(w, p, m);
      assert NewFrom(mid, m + 1);
      var rest, last := FillUp(mid, m + 1, k - 1);
      Further(w, first, mid, rest, last);
      steps, n := first + rest, last;
    }
  }

  /** A run that ends with one cast more than the limit. */
  lemma LimitIsExceeded() returns (steps: seq<Step>)
    ensures Possible(EMPTY, steps) && |BusyPaths(After(EMPTY, steps).registry)| == MAX_LIVE_CASTS + 1
  {
    var w := Orphaned();
    assert BusyPaths(w.registry) == {};
    var fill, full := FillUp(w, 2, MAX_LIVE_CASTS);
    var last := OverfilledBy(full);
    var ending := [Create("s", "b")] + ([Install(0)] + []);
    hide Possible, After, BusyPaths, Next, Enabled, Orphaned;
    Further(w, fill, full, ending, last);
    StartOfA(fill + ending, last);
    steps := StepsOfA(fill + ending);
  }

  /** The cast of "a" goes into a new session of "b". */
  lemma OverfilledBy(full: World) returns (last: World)
    requires "s" !in full.registry && |full.registry| < MAX_SESSIONS && 0 in full.tasks && full.tasks[0] == Orphaned().tasks[0]
    ensures var ending := [Create("s", "b")] + ([Install(0)] + []);
            Possible(full, ending) && After(full, ending) == last && |BusyPaths(last.registry)| == |BusyPaths(full.registry)| + 1
  {
    var created := full.(registry := full.registry["s" := Fresh("b")]);
    last := created.(registry := full.registry["s" := Fresh("b").(cast := Some(0))], tasks := full.tasks - {0});
    assert created.registry["s" := last.registry["s"]] == last.registry;
    assert BusyPaths(last.registry) == BusyPaths(full.registry) + {"s"} && "s" !in BusyPaths(full.registry);
    assert Next(full, Create("s", "b")) == created;
    assert Next(created, Install(0)) == last;
    Arrived(last);
    hide Possible, After, BusyPaths, Next, Enabled;
    Onward(created, Install(0), last, [], last);
    Onward(full, Create("s", "b"), created, [Install(0)] + [], last);
  }

  // ---------- a Start that fails ----------

  /** The world with a Start of `path` on its way. */
  function OnItsWay(w: World, task: TaskId, path: Path, appId: AppId, phase: Phase): World
    requires ReserveStart(w.registry, path, appId).0.Ok?
  {
    var (r, registry) := ReserveStart(w.registry, path, appId);
    w.(registry := registry, tasks := w.tasks[task := Task(path, appId, r.value, phase)])
  }

  lemma Reserving(w: World, task: TaskId, path: Path, appId: AppId)
    requires task !in w.tasks && ReserveStart(w.registry, path, appId).0.Ok?
    ensures Next(w, Reserve(task, path, appId)) == OnItsWay(w, task, path, appId, Reserved)
  {
    hide ReserveStart;
  }

  lemma Ended(w: World, task: TaskId, path: Path, appId: AppId)
    requires task !in w.tasks && ReserveStart(w.registry, path, appId).0.Ok?
    ensures var n := OnItsWay(w, task, path, appId, Ending); Enabled(n, Clear(task)) && Next(n, Clear(task)) == w
  {
    ClearUndoesReserve(w.registry, path, appId);
    hide ReserveStart, ClearStart;
    assert OnItsWay(w, task, path, appId, Ending).tasks - {task} == w.tasks;
  }

  lemma Failing(w: World, task: TaskId, path: Path, appId: AppId)
    requires ReserveStart(w.registry, path, appId).0.Ok?
    ensures var n := OnItsWay(w, task, path, appId, Reserved);
            Enabled(n, SpawnFails(task)) && Next(n, SpawnFails(task)) == OnItsWay(w, task, path, appId, Ending)
  {
    hide ReserveStart;
    var n := OnItsWay(w, task, path, appId, Reserved);
    assert n.tasks[task := n.tasks[task].(phase := Ending)] == OnItsWay(w, task, path, appId, Ending).tasks;
  }

  /** The world in which a cast was spawned and has been stopped again. */
  function Spent(w: World, origin: Origin): World
  {
    w.(nextCast := w.nextCast + 1, stopped := w.stopped + {w.nextCast}, streams := w.streams[w.nextCast := origin])
  }

  lemma Stopping(w: World, task: TaskId, path: Path, appId: AppId) returns (spawned: World)
    requires ReserveStart(w.registry, path, appId).0.Ok?
    ensures var n, origin := OnItsWay(w, task, path, appId, Reserved), OriginFor(w.registry[path].selection, appId);
            && path in w.registry
            && Enabled(n, Spawn(task)) && Next(n, Spawn(task)) == spawned
            && Enabled(spawned, StopOwn(task)) && Next(spawned, StopOwn(task)) == OnItsWay(Spent(w, origin), task, path, appId, Ending)
  {
    ReservedSelection(w.registry, path, appId);
    hide ReserveStart;
    var n, ended := OnItsWay(w, task, path, appId, Reserved), OnItsWay(w, task, path, appId, Ending);
    spawned := Next(n, Spawn(task));
    assert spawned.tasks[task := spawned.tasks[task].(phase := Ending)] == ended.tasks;
  }

  /** A Start whose cast cannot be spawned leaves no trace; one whose cast ends
      before it is live leaves only the joined cast. */
  lemma FailedStartIsUndone(w: World, task: TaskId, path: Path, appId: AppId)
    requires task !in w.tasks && ReserveStart(w.registry, path, appId).0.Ok?
    ensures var unspawned := [Reserve(task, path, appId)] + ([SpawnFails(task)] + ([Clear(task)] + []));
            Possible(w, unspawned) && After(w, unspawned) == w
    ensures var ended := [Reserve(task, path, appId)] + ([Spawn(task)] + ([StopOwn(task)] + ([Clear(task)] + [])));
            && path in w.registry && Possible(w, ended)
            && After(w, ended) == Spent(w, OriginFor(w.registry[path].selection, appId))
  {
    ReservedSelection(w.registry, path, appId);
    Reserving(w, task, path, appId);
    Failing(w, task, path, appId);
    Ended(w, task, path, appId);
    var spawned := Stopping(w, task, path, appId);
    var reserved, failed := OnItsWay(w, task, path, appId, Reserved), OnItsWay(w, task, path, appId, Ending);
    var last := Spent(w, OriginFor(w.registry[path].selection, appId));
    Ended(last, task, path, appId);
    var ended := OnItsWay(last, task, path, appId, Ending);
    assert Enabled(w, Reserve(task, path, appId));
    hide ReserveStart, Possible, After, Next, Enabled, OnItsWay, Spent;
    Arrived(w);
    Onward(failed, Clear(task), w, [], w);
    Onward(reserved, SpawnFails(task), failed, [Clear(task)] + [], w);
    Onward(w, Reserve(task, path, appId), reserved, [SpawnFails(task)] + ([Clear(task)] + []), w);
    Arrived(last);
    Onward(ended, Clear(task), last, [], last);
    Onward(spawned, StopOwn(task), ended, [Clear(task)] + [], last);
    Onward(reserved, Spawn(task), spawned, [StopOwn(task)] + ([Clear(task)] + []), last);
    Onward(w, Reserve(task, path, appId), reserved, [Spawn(task)] + ([StopOwn(task)] + ([Clear(task)] + [])), last);
  }

  lemma ReservedSelection(r: Registry, path: Path, appId: AppId)
    requires ReserveStart(r, path, appId).0.Ok?
    ensures path in r && ReserveStart(r, path, appId).0.value == r[path].selection
  {
    hide BusyPaths;
  }
}
