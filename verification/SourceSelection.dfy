/** SelectSources: restoring a persisted selection, or choosing, confirming and
    possibly remembering a new one. */
module SourceSelection {
  import opened Wrappers
  import opened Sessions
  import opened RestoreTokens

  /** The client's options; the two source types are the two defined bits. */
  datatype Options = Options(monitors: bool, windows: bool, undefinedTypes: bool, cursorMode: nat, persistMode: nat, token: Option<Token>)

  datatype Chooser = Chosen(id: string, remember: bool) | ChooserCancelled | ChooserFailed
  datatype Pick = Picked(window: nat) | PickCancelled | PickFailed
  datatype Confirmation = Confirmed | NotConfirmed | ConfirmFailed

  /** What the user and the frontend did meanwhile, and the token drawn. */
  datatype Answers = Answers(
    closedFirst: bool, chooser: Chooser, closedAfterChoice: bool, pick: Pick,
    confirmation: Confirmation, closedAfterConsent: bool, closedLast: bool, drawn: Token)

  /** Refused and cancelled carry the portal's response codes. */
  datatype Outcome = Arms(selection: Selection) | Cancelled | RefusedSelection

  predicate Selectable(options: Options, screen: Screen)
  {
    && !options.undefinedTypes && options.persistMode <= 2
    && (options.monitors || (screen.protocol >= PER_SOURCE_PROTOCOL && options.windows))
    && (options.cursorMode == CURSOR_MODE_HIDDEN || (options.cursorMode == CURSOR_MODE_EMBEDDED && screen.protocol >= PER_SOURCE_PROTOCOL))
  }

  function OutputIds(outputs: seq<string>): seq<string>
  {
    if outputs == [] then [] else ["output:" + outputs[0]] + OutputIds(outputs[1..])
  }

  predicate WindowOffered(options: Options, screen: Screen)
  {
    screen.protocol >= PER_SOURCE_PROTOCOL && options.windows
  }

  function Offered(options: Options, screen: Screen): seq<string>
  {
    ["desktop"]
    + (if screen.protocol >= PER_SOURCE_PROTOCOL && |screen.outputs| > 1 then OutputIds(screen.outputs) else [])
    + (if WindowOffered(options, screen) then ["window"] else [])
  }

  /** Every leading "output:" is trimmed, not only the first. */
  function TrimOutput(id: string): string
    decreases |id|
  {
    if "output:" <= id then TrimOutput(id[|"output:"|..]) else id
  }

  function SourceOf(stored: StoredSource): CastSource
  {
    match stored case Desktop => Monitor(None) case Connector(name) => Monitor(Some(name))
  }

  function StoredOf(output: Option<string>): StoredSource
  {
    match output case None => Desktop case Some(name) => Connector(name)
  }

  function Arm(selection: Selection, answers: Answers): Outcome
  {
    if answers.closedLast then Cancelled else Arms(selection)
  }

  /** The dialogs' choice of a source. */
  function Choose(options: Options, screen: Screen, answers: Answers): Result<(CastSource, bool), Outcome>
  {
    var alone := |Offered(options, screen)| == 1;
    if !alone && answers.chooser.ChooserCancelled? then Err(Cancelled)
    else if !alone && answers.chooser.ChooserFailed? then Err(RefusedSelection)
    else if !alone && (answers.chooser.id !in Offered(options, screen) || (answers.chooser.remember && options.persistMode == 0)) then Err(RefusedSelection)
    else
      var id, remember := if alone then "desktop" else answers.chooser.id, if alone then false else answers.chooser.remember;
      if answers.closedAfterChoice then Err(Cancelled)
      else if id == "desktop" then Ok((Monitor(None), remember))
      else if id == "window" && WindowOffered(options, screen) then
        match answers.pick
        case Picked(window) => Ok((WindowSource(window), remember))
        case PickCancelled => Err(Cancelled)
        case PickFailed => Err(RefusedSelection)
      else if "output:" <= id && screen.protocol >= PER_SOURCE_PROTOCOL then Ok((Monitor(Some(TrimOutput(id))), remember))
      else Err(RefusedSelection)
  }

  /** Consent to the choice, then the token for it. */
  function Consent(s: Store, source: CastSource, remember: bool, appId: AppId, sender: Owner, options: Options,
                   answers: Answers): (Outcome, Store)
  {
    if answers.confirmation.NotConfirmed? then (Cancelled, s)
    else if answers.confirmation.ConfirmFailed? then (RefusedSelection, s)
    else if answers.closedAfterConsent then (Cancelled, s)
    else if remember && options.persistMode > 0 && source.Monitor? then
      var stored := StoredSelection(appId, StoredOf(source.output), options.cursorMode);
      var (token, r) := Issue(s, answers.drawn, options.persistMode, sender, stored);
      var grant := if token.Some? then Some(Grant(options.persistMode, token.value)) else None;
      (Arm(Selection(source, options.cursorMode, options.persistMode, grant), answers), r)
    else (Arm(Selection(source, options.cursorMode, options.persistMode, None), answers), s)
  }

  function Interactive(s: Store, appId: AppId, sender: Owner, options: Options, screen: Screen, answers: Answers): (Outcome, Store)
  {
    var choice := Choose(options, screen, answers);
    if choice.Err? then (choice.error, s)
    else Consent(s, choice.value.0, choice.value.1, appId, sender, options, answers)
  }

  /** The selection a restored token arms. */
  function RestoredSelection(mode: nat, stored: StoredSelection, token: Token): Selection
  {
    Selection(SourceOf(stored.source), stored.cursorMode, mode, Some(Grant(mode, token)))
  }

  /** The token a Start reports: the granted mode with its token, or the
      reduction to no persistence. */
  function StartReports(selection: Selection): (Option<nat>, Option<Token>)
  {
    match selection.grant
    case Some(Grant(mode, token)) => (Some(mode), Some(token))
    case None => if selection.requestedPersistMode != 0 then (Some(0), None) else (None, None)
  }

  /** What SelectSources may come to: a token that restores something arms that
      without a dialog, and otherwise the user is asked. */
  ghost predicate Selects(s: Store, appId: AppId, sender: Owner, options: Options, screen: Screen, answers: Answers,
                          r: Outcome, after: Store)
  {
    if answers.closedFirst then r == Cancelled && after == s
    else if !Selectable(options, screen) then r == RefusedSelection && after == s
    else if options.persistMode == 0 || options.token.None? then (r, after) == Interactive(s, appId, sender, options, screen, answers)
    else
      && (|| ((r, after) == Interactive(Prune(s, screen), appId, sender, options, screen, answers)
              && (Unique(s) ==> forall mode, stored :: !Restores(s, options.token.value, appId, screen, mode, stored)))
          || (exists mode, stored :: Restores(s, options.token.value, appId, screen, mode, stored)
                && after == Prune(s, screen) && r == Arm(RestoredSelection(mode, stored, options.token.value), answers)))
      && (Unique(s) ==> forall mode, stored :: Restores(s, options.token.value, appId, screen, mode, stored) ==>
            after == Prune(s, screen) && r == Arm(RestoredSelection(mode, stored, options.token.value), answers))
  }

  /** SelectSources up to arming the session. */
  method SelectSources(store: RestoreStore, appId: AppId, sender: Owner, options: Options, screen: Screen, answers: Answers)
    returns (r: Outcome)
    modifies store
    ensures Selects(old(store.View()), appId, sender, options, screen, answers, r, store.View())
  {
    hide Keeps, Restores, Prune, Retained, Issue, Choose, Selectable, Unique;
    if answers.closedFirst { return Cancelled; }
    if !Selectable(options, screen) { return RefusedSelection; }
    if options.persistMode > 0 && options.token.Some? {
      var restored := store.Validate(options.token.value, appId, screen);
      store.PruneUnservable(screen);
      if restored.Some? {
        return Arm(RestoredSelection(restored.value.0, restored.value.1, options.token.value), answers);
      }
    }
    var choice := Choose(options, screen, answers);
    if choice.Err? { return choice.error; }
    var (source, remember) := choice.value;
    if answers.confirmation.NotConfirmed? { return Cancelled; }
    if answers.confirmation.ConfirmFailed? { return RefusedSelection; }
    if answers.closedAfterConsent { return Cancelled; }
    var grant: Option<Grant> := None;
    if remember && options.persistMode > 0 && source.Monitor? {
      var stored := StoredSelection(appId, StoredOf(source.output), options.cursorMode);
      var token := store.IssueToken(answers.drawn, options.persistMode, sender, stored);
      if token.Some? { grant := Some(Grant(options.persistMode, token.value)); }
    }
    return Arm(Selection(source, options.cursorMode, options.persistMode, grant), answers);
  }

  // ---------- what a token means ----------

  lemma {:induction false} TrimOnlyPrefix(name: string)
    ensures TrimOutput("output:" + name) == TrimOutput(name)
  {
    assert ("output:" + name)[|"output:"|..] == name;
  }

  lemma {:induction false} TrimShortens(id: string)
    ensures |TrimOutput(id)| <= |id|
    ensures TrimOutput(id) == id <==> !("output:" <= id)
    decreases |id|
  {
    if "output:" <= id { TrimShortens(id[|"output:"|..]); }
  }

  /** The option of an output stands for that output if and only if its name
      does not itself begin with the prefix. */
  lemma OptionNamesOutputIff(name: string)
    ensures TrimOutput("output:" + name) == name <==> !("output:" <= name)
  {
    TrimOnlyPrefix(name);
    TrimShortens(name);
  }

  /** The option of such an output stands for another one. */
  lemma PrefixedNameIsMistaken()
    ensures TrimOutput("output:" + "output:A") == "A"
  {
    var p := "output:";
    assert (p + "A")[|p|..] == "A" && (p + (p + "A"))[|p|..] == p + "A";
    assert "output:" + "output:A" == p + (p + "A");
    assert TrimOutput("A") == "A";
    assert TrimOutput(p + "A") == "A";
  }

  lemma NoChoiceArmsNothing(options: Options, screen: Screen, answers: Answers)
    ensures Choose(options, screen, answers).Err? ==> !Choose(options, screen, answers).error.Arms?
  {
    hide Offered, TrimOutput;
  }

  /** A newly granted token is kept, for the very selection that is armed, and
      is never one for a window. */
  lemma GrantedIsKept(s: Store, appId: AppId, sender: Owner, options: Options, screen: Screen, answers: Answers)
    requires forall m: nat, e: Entry | Keeps(s, m, e) :: e.token != answers.drawn
    ensures var (r, after) := Interactive(s, appId, sender, options, screen, answers);
            r.Arms? && r.selection.grant.Some? ==>
              && r.selection.source.Monitor?
              && Keeps(after, r.selection.grant.value.mode,
                       Entry(r.selection.grant.value.token, StoredSelection(appId, StoredOf(r.selection.source.output), r.selection.cursorMode)))
  {
    hide Keeps, Choose, Issue;
    NoChoiceArmsNothing(options, screen, answers);
    var choice := Choose(options, screen, answers);
    if choice.Ok? && choice.value.0.Monitor? && options.persistMode > 0 {
      var stored := StoredSelection(appId, StoredOf(choice.value.0.output), options.cursorMode);
      IssuedTokenIsDrawn(s, answers.drawn, options.persistMode, sender, stored);
      if Issue(s, answers.drawn, options.persistMode, sender, stored).0.Some? {
        IssuedIsNewest(s, answers.drawn, options.persistMode, sender, stored);
      }
    }
  }

  lemma IssuedTokenIsDrawn(s: Store, drawn: Token, mode: nat, owner: Owner, selection: StoredSelection)
    ensures Issue(s, drawn, mode, owner, selection).0 == None || Issue(s, drawn, mode, owner, selection).0 == Some(drawn)
  {
  }

  /** A kept token restores what was armed when it was granted: the same source
      and cursor mode, under the same mode and token, and no dialog matters. */
  lemma RestoreRoundTrip(s: Store, appId: AppId, first: Selection, screen: Screen, mode: nat, stored: StoredSelection)
    requires Unique(s) && first.source.Monitor? && first.grant.Some?
    requires Keeps(s, first.grant.value.mode, Entry(first.grant.value.token, StoredSelection(appId, StoredOf(first.source.output), first.cursorMode)))
    requires Restores(s, first.grant.value.token, appId, screen, mode, stored)
    ensures var again := RestoredSelection(mode, stored, first.grant.value.token);
            again.source == first.source && again.cursorMode == first.cursorMode && again.grant == first.grant
  {
    hide Keeps, Servable;
    var kept := Entry(first.grant.value.token, StoredSelection(appId, StoredOf(first.source.output), first.cursorMode));
    assert Keeps(s, mode, Entry(first.grant.value.token, stored));
  }

  /** It does restore while its source can be captured ... */
  lemma KeptRestores(s: Store, appId: AppId, first: Selection, screen: Screen)
    requires first.source.Monitor? && first.grant.Some?
    requires Keeps(s, first.grant.value.mode, Entry(first.grant.value.token, StoredSelection(appId, StoredOf(first.source.output), first.cursorMode)))
    ensures Restores(s, first.grant.value.token, appId, screen, first.grant.value.mode, StoredSelection(appId, StoredOf(first.source.output), first.cursorMode))
       <==> Servable(StoredOf(first.source.output), screen)
  {
    hide Keeps, Servable;
  }

  /** ... and never for another application. */
  lemma OthersGainNothing(s: Store, token: Token, mode: nat, kept: StoredSelection, other: AppId, screen: Screen,
                          m: nat, stored: StoredSelection)
    requires Unique(s) && Keeps(s, mode, Entry(token, kept)) && other != kept.appId
    ensures !Restores(s, token, other, screen, m, stored)
  {
    hide Keeps, Servable;
    assert Entry(token, kept).token == Entry(token, stored).token;
  }

  /** A Start reports a persistence other than none exactly with a token. */
  lemma ReportedModeHasToken(selection: Selection)
    requires selection.grant.Some? ==> selection.grant.value.mode > 0
    ensures StartReports(selection).1.Some? <==> StartReports(selection).0.Some? && StartReports(selection).0.value != 0
    ensures selection.requestedPersistMode != 0 ==> StartReports(selection).0.Some?
  {
  }

  /** From grant to restore: a token granted on disk restores its selection
      after any events with fewer newer tokens than there is room for, and one
      granted in memory until its owner goes or 16 newer ones push it out. */
  lemma GrantedTokenIsRetained(s: Store, drawn: Token, mode: nat, owner: Owner, selection: StoredSelection, events: seq<Event>)
    requires forall m: nat, e: Entry | Keeps(s, m, e) :: e.token != drawn
    requires Issue(s, drawn, mode, owner, selection).0.Some?
    requires mode == 1 ==> SparesDisk(events, Entry(drawn, selection)) && DiskIssues(events) < MAX_DISK_TOKENS
    requires mode == 2 ==> SparesOwner(events, Entry(drawn, selection), owner) && OwnerIssues(events, owner) < MAX_MEMORY_TOKENS_PER_OWNER
    ensures Keeps(After(Issue(s, drawn, mode, owner, selection).1, events), mode, Entry(drawn, selection))
  {
    hide After, Once, Newer, Servable, SparesDisk, SparesOwner;
    var e, r := Entry(drawn, selection), Issue(s, drawn, mode, owner, selection).1;
    IssuedIsNewest(s, drawn, mode, owner, selection);
    if mode == 1 {
      DiskTokenSurvives(r, e, events);
    } else {
      MemoryTokenSurvivesIff(r, e, owner, events);
      var last := After(r, events);
      assert owner in last.memory && e in last.memory[owner];
    }
  }

  /** What a grant is kept as. */
  function KeptFor(appId: AppId, selection: Selection): StoredSelection
    requires selection.source.Monitor?
  {
    StoredSelection(appId, StoredOf(selection.source.output), selection.cursorMode)
  }

  /** Nothing in the run ends the grant of a token. */
  predicate Spares(events: seq<Event>, mode: nat, owner: Owner, e: Entry)
  {
    if mode == 1 then SparesDisk(events, e) && DiskIssues(events) < MAX_DISK_TOKENS
    else SparesOwner(events, e, owner) && OwnerIssues(events, owner) < MAX_MEMORY_TOKENS_PER_OWNER
  }

  /** A remembered selection comes back: after any events that spare its token,
      presenting the token restores something if and only if the source can
      still be captured; what it restores is the same source and cursor mode
      under the same grant; and no other application restores anything. */
  lemma RememberedSelectionReturns(s: Store, appId: AppId, sender: Owner, options: Options, screen: Screen, answers: Answers,
                                   events: seq<Event>, later: Screen)
    requires Unique(s) && forall m: nat, e: Entry | Keeps(s, m, e) :: e.token != answers.drawn
    requires var (r, after) := Interactive(s, appId, sender, options, screen, answers);
             && r.Arms? && r.selection.grant.Some? && FreshDraws(after, events)
             && (r.selection.source.Monitor? ==>
                   Spares(events, r.selection.grant.value.mode, sender, Entry(r.selection.grant.value.token, KeptFor(appId, r.selection))))
    ensures var (r, after) := Interactive(s, appId, sender, options, screen, answers);
            var first, token, store := r.selection, r.selection.grant.value.token, After(after, events);
            && first.source.Monitor?
            && ((exists mode: nat, stored :: Restores(store, token, appId, later, mode, stored)) <==> Servable(StoredOf(first.source.output), later))
            && (forall mode: nat, stored | Restores(store, token, appId, later, mode, stored) ::
                  var again := RestoredSelection(mode, stored, token);
                  again.source == first.source && again.cursorMode == first.cursorMode && again.grant == first.grant)
            && (forall other: AppId, mode: nat, stored | other != appId :: !Restores(store, token, other, later, mode, stored))
  {
    GrantWasIssued(s, appId, sender, options, screen, answers);
    var (r, after) := Interactive(s, appId, sender, options, screen, answers);
    var first := r.selection;
    var mode, token, kept := first.grant.value.mode, first.grant.value.token, KeptFor(appId, first);
    var event := Issued(answers.drawn, mode, sender, kept);
    assert after == Step(s, event);
    StepKeepsUnique(s, event);
    RunKeepsUnique(after, events);
    GrantedTokenIsRetained(s, answers.drawn, mode, sender, kept, events);
    var store := After(after, events);
    hide Interactive, After, Keeps, Servable, FreshDraws, Spares, Step, Issue;
    KeptRestores(store, appId, first, later);
    forall m: nat, stored, other: AppId | Restores(store, token, other, later, m, stored)
      ensures m == mode && stored == kept && other == appId
    {
      assert Entry(token, stored).token == Entry(token, kept).token;
    }
  }

  lemma GrantWasIssued(s: Store, appId: AppId, sender: Owner, options: Options, screen: Screen, answers: Answers)
    ensures var (r, after) := Interactive(s, appId, sender, options, screen, answers);
            r.Arms? && r.selection.grant.Some? ==>
              && r.selection.source.Monitor?
              && r.selection.grant.value.token == answers.drawn
              && var issued := Issue(s, answers.drawn, r.selection.grant.value.mode, sender, KeptFor(appId, r.selection));
                 issued.0 == Some(answers.drawn) && issued.1 == after
  {
    hide Keeps, Choose, Push, OwnedBy;
    NoChoiceArmsNothing(options, screen, answers);
  }

  // ---------- from one Start to the next ----------

  /** A session that has no sources yet. */
  predicate Unarmed(r: Registry, path: Path, appId: AppId)
  {
    path in r && r[path].appId == appId && !r[path].selected && !Busy(r[path])
  }

  /** What a Start hands to the cast after the session took the outcome. */
  function StartOf(r: Registry, path: Path, appId: AppId, outcome: Outcome): Result<Selection, SessionError>
  {
    ReserveStart(if outcome.Arms? then MarkSourcesSelected(r, path, appId, outcome.selection).1 else r, path, appId).0
  }

  /** A Start hands out exactly what was armed, below the limit of casts. */
  lemma StartHandsOut(r: Registry, path: Path, appId: AppId, outcome: Outcome)
    requires Unarmed(r, path, appId)
    ensures StartOf(r, path, appId, outcome) ==
            if !outcome.Arms? then Err(NotSelected)
            else if |BusyPaths(r)| >= MAX_LIVE_CASTS then Err(TooManyCasts)
            else Ok(outcome.selection)
  {
    if outcome.Arms? {
      var marked := r[path := r[path].(selected := true, selection := outcome.selection)];
      assert forall p | p in r :: Busy(marked[p]) == Busy(r[p]);
      assert BusyPaths(marked) == BusyPaths(r);
    }
  }

  /** Start reports a token exactly when one was granted, and with its mode;
      a wish for persistence that was not granted is reported as none. */
  lemma InteractiveReports(s: Store, appId: AppId, sender: Owner, options: Options, screen: Screen, answers: Answers)
    requires Interactive(s, appId, sender, options, screen, answers).0.Arms?
    ensures var (r, after) := Interactive(s, appId, sender, options, screen, answers);
            var choice := Choose(options, screen, answers); var (mode, token) := StartReports(r.selection);
            && choice.Ok?
            && (token.Some? <==>
                  choice.value.1 && choice.value.0.Monitor? && TakesToken(s, options.persistMode, sender))
            && (token.Some? ==> mode == Some(options.persistMode) && token == Some(answers.drawn))
            && (token.Some? <==> mode.Some? && mode.value != 0)
            && (mode.Some? <==> options.persistMode != 0)
  {
    hide Choose;
    NoChoiceArmsNothing(options, screen, answers);
    var choice := Choose(options, screen, answers);
    if choice.Ok? && choice.value.0.Monitor? {
      TakesTokenIff(s, answers.drawn, options.persistMode, sender, StoredSelection(appId, StoredOf(choice.value.0.output), options.cursorMode));
    }
    hide Issue;
    ReportedModeHasToken(Interactive(s, appId, sender, options, screen, answers).0.selection);
  }

  /** The token a Start reports, presented for a fresh session of the same
      application after any events that spare it, arms that session without a
      dialog if and only if its source can be captured; and the next Start hands
      out the same source and cursor mode and reports the same token. */
  lemma ReportedTokenStartsAgain(s: Store, appId: AppId, sender: Owner, options: Options, screen: Screen, answers: Answers,
                                 first: Registry, path: Path, events: seq<Event>, again: Options, later: Screen, sender2: Owner,
                                 answers2: Answers, outcome: Outcome, after: Store, second: Registry, path2: Path)
    requires Unique(s) && forall m: nat, e: Entry | Keeps(s, m, e) :: e.token != answers.drawn
    requires Unarmed(first, path, appId) && |BusyPaths(first)| < MAX_LIVE_CASTS
    requires Unarmed(second, path2, appId) && |BusyPaths(second)| < MAX_LIVE_CASTS
    requires var (r, store) := Interactive(s, appId, sender, options, screen, answers);
             && r.Arms? && StartReports(r.selection).1.Some? && FreshDraws(store, events)
             && (r.selection.source.Monitor? ==>
                   Spares(events, r.selection.grant.value.mode, sender, Entry(r.selection.grant.value.token, KeptFor(appId, r.selection))))
             && Selectable(again, later) && again.persistMode > 0 && again.token == StartReports(r.selection).1
             && Selects(After(store, events), appId, sender2, again, later, answers2, outcome, after)
    requires !answers2.closedFirst
    ensures var (r, store) := Interactive(s, appId, sender, options, screen, answers);
            && StartOf(first, path, appId, r) == Ok(r.selection) && r.selection.source.Monitor?
            && (if Servable(StoredOf(r.selection.source.output), later)
                then
                  && after == Prune(After(store, events), later)
                  && (answers2.closedLast <==> !outcome.Arms?)
                  && (outcome.Arms? ==>
                        && StartOf(second, path2, appId, outcome) == Ok(outcome.selection)
                        && outcome.selection.source == r.selection.source && outcome.selection.cursorMode == r.selection.cursorMode
                        && StartReports(outcome.selection) == StartReports(r.selection))
                else (outcome, after) == Interactive(Prune(After(store, events), later), appId, sender2, again, later, answers2))
  {
    hide Choose, Consent, Keeps, Servable, FreshDraws, Spares, Issue, After, Selectable, Prune, BusyPaths,
         MarkSourcesSelected, ReserveStart, Unarmed;
    var (r, store) := Interactive(s, appId, sender, options, screen, answers);
    StartHandsOut(first, path, appId, r);
    StartHandsOut(second, path2, appId, outcome);
    hide StartOf, Interactive;
    RememberedSelectionReturns(s, appId, sender, options, screen, answers, events, later);
    RememberedStoreIsUnique(s, appId, sender, options, screen, answers, events);
    RestoresOrAsks(After(store, events), appId, sender2, again, later, answers2, outcome, after, r.selection);
  }

  lemma RememberedStoreIsUnique(s: Store, appId: AppId, sender: Owner, options: Options, screen: Screen,
                                answers: Answers, events: seq<Event>)
    requires Unique(s) && forall m: nat, e: Entry | Keeps(s, m, e) :: e.token != answers.drawn
    requires var (r, after) := Interactive(s, appId, sender, options, screen, answers);
             r.Arms? && r.selection.grant.Some? && FreshDraws(after, events)
    ensures Unique(After(Interactive(s, appId, sender, options, screen, answers).1, events))
  {
    GrantWasIssued(s, appId, sender, options, screen, answers);
    var (r, after) := Interactive(s, appId, sender, options, screen, answers);
    var event := Issued(answers.drawn, r.selection.grant.value.mode, sender, KeptFor(appId, r.selection));
    hide Interactive, After, Keeps, FreshDraws, Issue;
    assert after == Step(s, event);
    hide Step;
    StepKeepsUnique(s, event);
    RunKeepsUnique(after, events);
  }

  lemma RestoresOrAsks(store: Store, appId: AppId, sender: Owner, options: Options, later: Screen, answers: Answers,
                       outcome: Outcome, after: Store, first: Selection)
    requires Unique(store) && first.grant.Some? && first.source.Monitor?
    requires Selectable(options, later) && options.persistMode > 0 && options.token == Some(first.grant.value.token) && !answers.closedFirst
    requires Selects(store, appId, sender, options, later, answers, outcome, after)
    requires (exists mode: nat, stored :: Restores(store, options.token.value, appId, later, mode, stored)) <==> Servable(StoredOf(first.source.output), later)
    requires forall mode: nat, stored | Restores(store, options.token.value, appId, later, mode, stored) ::
               var again := RestoredSelection(mode, stored, options.token.value);
               again.source == first.source && again.cursorMode == first.cursorMode && again.grant == first.grant
    ensures if Servable(StoredOf(first.source.output), later)
            then after == Prune(store, later) && (answers.closedLast <==> !outcome.Arms?)
                 && (outcome.Arms? ==> outcome.selection.source == first.source && outcome.selection.cursorMode == first.cursorMode
                                       && outcome.selection.grant == first.grant)
            else (outcome, after) == Interactive(Prune(store, later), appId, sender, options, later, answers)
  {
    hide Interactive, Prune, Restores, Selectable, Servable, Unique;
  }
}
