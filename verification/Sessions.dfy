/** The screencast session registry: what each of its methods does to the map of
    sessions. */
module Sessions {
  import opened Wrappers

  const MAX_SESSIONS: nat := 128
  const MAX_LIVE_CASTS: nat := 16

  const CURSOR_MODE_HIDDEN: nat := 1
  const CURSOR_MODE_EMBEDDED: nat := 2

  type Path = string
  type AppId = string
  type CastId = nat

  datatype CastSource = Monitor(output: Option<string>) | WindowSource(window: nat)

  /** A restore token: random, opaque, and only ever compared. */
  type Token = nat

  datatype Grant = Grant(mode: nat, token: Token)

  datatype Selection = Selection(source: CastSource, cursorMode: nat, requestedPersistMode: nat, grant: Option<Grant>)

  /** A session; `cast` stands for the stop end and the thread of its producer,
      which are set together. */
  datatype Session = Session(appId: AppId, selected: bool, selection: Selection, starting: bool, cast: Option<CastId>)

  datatype SessionError = AlreadyExists | TooManySessions | UnknownSession | AlreadySelected | OtherApplication | NotSelected | AlreadyStarted | TooManyCasts

  type Registry = map<Path, Session>

  const UNARMED: Selection := Selection(Monitor(None), 1, 0, None)

  function Fresh(appId: AppId): Session
  {
    Session(appId, false, UNARMED, false, None)
  }

  /** Counts against the limit of live casts. */
  predicate Busy(s: Session)
  {
    s.starting || s.cast.Some?
  }

  function BusyPaths(r: Registry): set<Path>
  {
    set p | p in r && Busy(r[p])
  }

  function Insert(r: Registry, path: Path, appId: AppId): (Result<(), SessionError>, Registry)
  {
    if path in r then (Err(AlreadyExists), r)
    else if |r| >= MAX_SESSIONS then (Err(TooManySessions), r)
    else (Ok(()), r[path := Fresh(appId)])
  }

  function MarkSourcesSelected(r: Registry, path: Path, appId: AppId, selection: Selection): (Result<(), SessionError>, Registry)
  {
    if path !in r then (Err(UnknownSession), r)
    else if r[path].selected then (Err(AlreadySelected), r)
    else if r[path].appId != appId then (Err(OtherApplication), r)
    else (Ok(()), r[path := r[path].(selected := true, selection := selection)])
  }

  function ReserveStart(r: Registry, path: Path, appId: AppId): (Result<Selection, SessionError>, Registry)
  {
    if path !in r then (Err(UnknownSession), r)
    else if r[path].appId != appId then (Err(OtherApplication), r)
    else if !r[path].selected then (Err(NotSelected), r)
    else if Busy(r[path]) then (Err(AlreadyStarted), r)
    else if |BusyPaths(r)| >= MAX_LIVE_CASTS then (Err(TooManyCasts), r)
    else (Ok(r[path].selection), r[path := r[path].(starting := true)])
  }

  function ClearStart(r: Registry, path: Path): Registry
  {
    if path in r then r[path := r[path].(starting := false)] else r
  }

  /** False when the session is gone and the caller keeps the cast. */
  function MarkStarted(r: Registry, path: Path, cast: CastId): (bool, Registry)
  {
    if path in r then (true, r[path := r[path].(starting := false, cast := Some(cast))]) else (false, r)
  }

  function Remove(r: Registry, path: Path): (Option<Session>, Registry)
  {
    if path in r then (Some(r[path]), r - {path}) else (None, r)
  }

  /** Taking a reservation back leaves the registry as it was before it. */
  lemma ClearUndoesReserve(r: Registry, path: Path, appId: AppId)
    requires ReserveStart(r, path, appId).0.Ok?
    ensures ClearStart(ReserveStart(r, path, appId).1, path) == r
  {
    hide BusyPaths;
    assert r[path].(starting := true).(starting := false) == r[path];
    assert r[path := r[path].(starting := true)][path := r[path]] == r;
  }

  /** Removing a session undoes its creation, and a cast that arrives after it
      stays with the caller. */
  lemma RemoveUndoesInsert(r: Registry, path: Path, appId: AppId, cast: CastId)
    requires Insert(r, path, appId).0.Ok?
    ensures Remove(Insert(r, path, appId).1, path) == (Some(Fresh(appId)), r)
    ensures MarkStarted(Remove(Insert(r, path, appId).1, path).1, path, cast) == (false, r)
  {
    assert r[path := Fresh(appId)] - {path} == r;
  }

  class SessionRegistry {
    var sessions: map<Path, Session>

    constructor ()
      ensures sessions == map[]
    {
      sessions := map[];
    }

    method InsertSession(path: Path, appId: AppId) returns (r: Result<(), SessionError>)
      modifies this
      ensures (r, sessions) == Insert(old(sessions), path, appId)
    {
      if path in sessions { return Err(AlreadyExists); }
      if |sessions| >= MAX_SESSIONS { return Err(TooManySessions); }
      sessions := sessions[path := Session(appId, false, UNARMED, false, None)];
      r := Ok(());
    }

    method SelectSources(path: Path, appId: AppId, selection: Selection) returns (r: Result<(), SessionError>)
      modifies this
      ensures (r, sessions) == MarkSourcesSelected(old(sessions), path, appId, selection)
    {
      if path !in sessions { return Err(UnknownSession); }
      var session := sessions[path];
      if session.selected { return Err(AlreadySelected); }
      if session.appId != appId { return Err(OtherApplication); }
      sessions := sessions[path := session.(selected := true, selection := selection)];
      r := Ok(());
    }

    method CountBusy() returns (n: nat)
      ensures n == |BusyPaths(sessions)|
    {
      n := 0;
      var todo := sessions.Keys;
      ghost var counted: set<Path> := {};
      while todo != {}
        invariant todo <= sessions.Keys
        invariant counted == BusyPaths(sessions) - todo && n == |counted|
        decreases todo
      {
        var path :| path in todo;
        todo := todo - {path};
        if Busy(sessions[path]) {
          n := n + 1;
          counted := counted + {path};
        }
      }
      assert counted == BusyPaths(sessions);
    }

    method Reserve(path: Path, appId: AppId) returns (r: Result<Selection, SessionError>)
      modifies this
      ensures (r, sessions) == ReserveStart(old(sessions), path, appId)
    {
      if path !in sessions { return Err(UnknownSession); }
      var session := sessions[path];
      if session.appId != appId { return Err(OtherApplication); }
      if !session.selected { return Err(NotSelected); }
      if session.starting || session.cast.Some? { return Err(AlreadyStarted); }
      var live := CountBusy();
      if live >= MAX_LIVE_CASTS { return Err(TooManyCasts); }
      sessions := sessions[path := session.(starting := true)];
      r := Ok(session.selection);
    }

    method ClearReservation(path: Path)
      modifies this
      ensures sessions == ClearStart(old(sessions), path)
    {
      if path in sessions { sessions := sessions[path := sessions[path].(starting := false)]; }
    }

    method Install(path: Path, cast: CastId) returns (installed: bool)
      modifies this
      ensures (installed, sessions) == MarkStarted(old(sessions), path, cast)
    {
      if path !in sessions { return false; }
      sessions := sessions[path := sessions[path].(starting := false, cast := Some(cast))];
      installed := true;
    }

    method Detach(path: Path) returns (session: Option<Session>)
      modifies this
      ensures (session, sessions) == Remove(old(sessions), path)
    {
      if path !in sessions { return None; }
      session := Some(sessions[path]);
      sessions := sessions - {path};
    }
  }
}
