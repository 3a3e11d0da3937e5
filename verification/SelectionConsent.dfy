/** What the user agreed to and what a session is armed with: the decisions of
    SelectSources in terms of the dialogs' answers. */
module SelectionConsent {
  import opened Wrappers
  import opened Sessions
  import opened RestoreTokens
  import opened SourceSelection

  /** The user had a choice: without one the whole desktop is taken unasked. */
  predicate HadChoice(options: Options, screen: Screen)
  {
    screen.protocol >= 29 && (|screen.outputs| > 1 || options.windows)
  }

  /** An option the user may take: the desktop, the window pick, or an output. */
  predicate Takeable(options: Options, screen: Screen, id: string)
  {
    || id == "desktop" || (id == "window" && options.windows)
    || (|screen.outputs| > 1 && exists name <- screen.outputs :: id == "output:" + name)
  }

  /** The chooser came back with something to go on with. */
  predicate ChoseWell(options: Options, screen: Screen, answers: Answers)
  {
    HadChoice(options, screen) ==>
      && answers.chooser.Chosen? && Takeable(options, screen, answers.chooser.id)
      && (answers.chooser.remember ==> options.persistMode > 0)
  }

  predicate WantsWindow(options: Options, screen: Screen, answers: Answers)
  {
    HadChoice(options, screen) && answers.chooser.Chosen? && answers.chooser.id == "window"
  }

  /** The source the user took. The prefix of an output's option is cut off, every
      time it occurs. */
  predicate Took(options: Options, screen: Screen, answers: Answers, source: CastSource)
  {
    && ChoseWell(options, screen, answers)
    && (if !HadChoice(options, screen) || answers.chooser.id == "desktop" then source == Monitor(None)
        else if answers.chooser.id == "window" then answers.pick.Picked? && source == WindowSource(answers.pick.window)
        else source == Monitor(Some(TrimOutput(answers.chooser.id))))
  }

  predicate Remembered(options: Options, screen: Screen, answers: Answers)
  {
    HadChoice(options, screen) && answers.chooser.Chosen? && answers.chooser.remember
  }

  /** The user took `source` and confirmed it, and the request was not closed
      before that. */
  predicate Agreed(options: Options, screen: Screen, answers: Answers, source: CastSource)
  {
    && Took(options, screen, answers, source)
    && answers.confirmation.Confirmed? && !answers.closedAfterChoice && !answers.closedAfterConsent
  }

  /** A dialog failed, or answered what was not offered, before the user or the
      client called it off. */
  predicate Fails(options: Options, screen: Screen, answers: Answers)
  {
    || (HadChoice(options, screen) && !answers.chooser.ChooserCancelled? && !ChoseWell(options, screen, answers))
    || (&& ChoseWell(options, screen, answers) && !answers.closedAfterChoice
        && (if WantsWindow(options, screen, answers) && !answers.pick.Picked? then answers.pick.PickFailed?
            else answers.confirmation.ConfirmFailed?))
  }

  lemma {:induction false} OutputOptions(outputs: seq<string>)
    ensures |OutputIds(outputs)| == |outputs|
    ensures forall id :: id in OutputIds(outputs) <==> exists name <- outputs :: id == "output:" + name
  {
    if outputs != [] {
      OutputOptions(outputs[1..]);
      assert outputs == [outputs[0]] + outputs[1..];
    }
  }

  /** What the chooser offers. */
  lemma OfferedIff(options: Options, screen: Screen, id: string)
    ensures |Offered(options, screen)| > 1 <==> HadChoice(options, screen)
    ensures HadChoice(options, screen) ==> (id in Offered(options, screen) <==> Takeable(options, screen, id))
  {
    OutputOptions(screen.outputs);
    hide OutputIds;
  }

  lemma OptionsDiffer(name: string)
    ensures "output:" <= "output:" + name && "output:" + name != "desktop" && "output:" + name != "window"
    ensures !("output:" <= "desktop") && !("output:" <= "window")
  {
    assert ("output:" + name)[0] == 'o' && "desktop"[0] == 'd' && "window"[0] == 'w' && "output:"[0] == 'o';
  }

  /** The dialogs come to exactly one source, to a failure or to nothing. */
  lemma ChoiceIs(options: Options, screen: Screen, answers: Answers)
    ensures var c := Choose(options, screen, answers);
            && (c.Ok? <==> !answers.closedAfterChoice && ChoseWell(options, screen, answers)
                           && (WantsWindow(options, screen, answers) ==> answers.pick.Picked?))
            && (c.Ok? ==> Took(options, screen, answers, c.value.0) && (c.value.1 <==> Remembered(options, screen, answers)))
            && (c.Err? ==> c.error == if Fails(options, screen, answers) then RefusedSelection else Cancelled)
  {
    var had := HadChoice(options, screen);
    if had && answers.chooser.Chosen? {
      var id := answers.chooser.id;
      OfferedIff(options, screen, id);
      if Takeable(options, screen, id) && id != "desktop" && id != "window" {
        var name :| name in screen.outputs && id == "output:" + name;
        OptionsDiffer(name);
      }
      OptionsDiffer("");
    } else {
      OfferedIff(options, screen, "");
    }
    hide Offered, TrimOutput, Takeable;
  }

  /** The interactive part: it arms if and only if the user agreed to a source and
      the request was not closed until the end, and then it arms that source with
      the cursor mode and persistence asked for. Whatever the outcome, a token is
      drawn if and only if the user agreed, ticked, and took an output, and the
      store has room for one: a close seen last leaves it behind. */
  lemma InteractiveIs(s: Store, appId: AppId, sender: Owner, options: Options, screen: Screen, answers: Answers)
    ensures var (r, after) := Interactive(s, appId, sender, options, screen, answers);
            && (r.Arms? <==> !answers.closedLast && exists source :: Agreed(options, screen, answers, source))
            && (r.Arms? ==>
                  && Agreed(options, screen, answers, r.selection.source)
                  && r.selection.cursorMode == options.cursorMode && r.selection.requestedPersistMode == options.persistMode
                  && r.selection.grant == (if Remembered(options, screen, answers) && r.selection.source.Monitor?
                                              && TakesToken(s, options.persistMode, sender)
                                           then Some(Grant(options.persistMode, answers.drawn)) else None))
            && (r.RefusedSelection? <==> Fails(options, screen, answers))
            && (forall source | Agreed(options, screen, answers, source) ::
                  if Remembered(options, screen, answers) && options.persistMode > 0 && source.Monitor?
                  then after == Issue(s, answers.drawn, options.persistMode, sender, StoredSelection(appId, StoredOf(source.output), options.cursorMode)).1
                  else after == s)
            && ((forall source :: !Agreed(options, screen, answers, source)) ==> after == s)
  {
    ChoiceIs(options, screen, answers);
    var c := Choose(options, screen, answers);
    if c.Ok? {
      assert forall source :: Took(options, screen, answers, source) <==> source == c.value.0;
      if c.value.0.Monitor? {
        TakesTokenIff(s, answers.drawn, options.persistMode, sender, StoredSelection(appId, StoredOf(c.value.0.output), options.cursorMode));
      }
      hide Choose, Took, ChoseWell, HadChoice, Takeable, Issue, TrimOutput;
      assert answers.confirmation.Confirmed? && !answers.closedAfterConsent ==> Agreed(options, screen, answers, c.value.0);
    } else {
      hide Choose, ChoseWell, HadChoice, Takeable, Issue, TrimOutput;
      NothingTaken(options, screen, answers);
    }
  }

  lemma NothingTaken(options: Options, screen: Screen, answers: Answers)
    requires answers.closedAfterChoice || !ChoseWell(options, screen, answers)
             || (WantsWindow(options, screen, answers) && !answers.pick.Picked?)
    ensures forall source :: !Agreed(options, screen, answers, source)
    ensures !Fails(options, screen, answers) ||
            (HadChoice(options, screen) && !ChoseWell(options, screen, answers)) || !answers.closedAfterChoice
  {
    hide Takeable, TrimOutput;
  }

  /** What a token presented by the client restores. */
  predicate RestoredBy(s: Store, appId: AppId, options: Options, screen: Screen, selection: Selection)
  {
    && options.persistMode > 0 && options.token.Some?
    && selection.grant.Some? && selection.grant.value.token == options.token.value
    && selection.requestedPersistMode == selection.grant.value.mode
    && exists source <- [Desktop] + Connectors(screen.outputs) ::
         && Restores(s, options.token.value, appId, screen, selection.grant.value.mode, StoredSelection(appId, source, selection.cursorMode))
         && selection.source == (match source case Desktop => Monitor(None) case Connector(name) => Monitor(Some(name)))
  }

  function Connectors(outputs: seq<string>): seq<StoredSource>
  {
    if outputs == [] then [] else [Connector(outputs[0])] + Connectors(outputs[1..])
  }

  lemma {:induction false} ConnectorsAre(outputs: seq<string>, name: string)
    ensures Connector(name) in Connectors(outputs) <==> name in outputs
  {
    if outputs != [] {
      ConnectorsAre(outputs[1..], name);
      assert outputs == [outputs[0]] + outputs[1..];
    }
  }

  lemma RestoredIsBy(s: Store, appId: AppId, options: Options, screen: Screen, mode: nat, stored: StoredSelection)
    requires options.persistMode > 0 && options.token.Some? && Restores(s, options.token.value, appId, screen, mode, stored)
    ensures RestoredBy(s, appId, options, screen, RestoredSelection(mode, stored, options.token.value))
  {
    hide Keeps;
    if stored.source.Connector? { ConnectorsAre(screen.outputs, stored.source.name); }
    assert stored == StoredSelection(appId, stored.source, stored.cursorMode);
    assert stored.source in [Desktop] + Connectors(screen.outputs);
  }

  /** The requests that are refused without a dialog: undefined source types, an
      undefined persistence, nothing the compositor can serve among the types, or
      a cursor mode it cannot serve. */
  predicate Malformed(options: Options, screen: Screen)
  {
    || options.undefinedTypes || options.persistMode > 2
    || (!options.monitors && !(options.windows && screen.protocol >= 29))
    || !(options.cursorMode == 1 || (options.cursorMode == 2 && screen.protocol >= 29))
  }

  /** Nothing is armed but what a valid token restores or what the user took and
      confirmed; and nothing at all once the request is closed. */
  lemma ArmsOnlyWithConsent(s: Store, appId: AppId, sender: Owner, options: Options, screen: Screen, answers: Answers,
                            r: Outcome, after: Store)
    requires Selects(s, appId, sender, options, screen, answers, r, after) && r.Arms?
    ensures !answers.closedFirst && !answers.closedLast && !Malformed(options, screen)
    ensures || RestoredBy(s, appId, options, screen, r.selection)
            || (&& Agreed(options, screen, answers, r.selection.source)
                && r.selection.cursorMode == options.cursorMode && r.selection.requestedPersistMode == options.persistMode
                && r.selection.grant == (if Remembered(options, screen, answers) && r.selection.source.Monitor?
                                            && TakesToken(s, options.persistMode, sender)
                                         then Some(Grant(options.persistMode, answers.drawn)) else None))
  {
    InteractiveIs(s, appId, sender, options, screen, answers);
    InteractiveIs(Prune(s, screen), appId, sender, options, screen, answers);
    assert Prune(s, screen).hasDataDir == s.hasDataDir;
    hide Interactive, Agreed, Prune, Unique, Fails, Remembered;
    if options.persistMode > 0 && options.token.Some? {
      forall mode: nat, stored | Restores(s, options.token.value, appId, screen, mode, stored)
        ensures RestoredBy(s, appId, options, screen, RestoredSelection(mode, stored, options.token.value))
      {
        RestoredIsBy(s, appId, options, screen, mode, stored);
      }
    }
    hide Restores, RestoredBy;
  }

  /** A token the store keeps for the asking application decides: the selection it
      was granted for is armed without a dialog if its source can be captured, and
      otherwise the user decides as if there were none. */
  lemma TokenDecides(s: Store, appId: AppId, sender: Owner, options: Options, screen: Screen, answers: Answers, r: Outcome, after: Store,
                     mode: nat, stored: StoredSelection)
    requires Selects(s, appId, sender, options, screen, answers, r, after)
    requires !answers.closedFirst && !Malformed(options, screen) && options.persistMode > 0 && options.token.Some?
    requires Unique(s) && Keeps(s, mode, Entry(options.token.value, stored)) && stored.appId == appId
    ensures if Capturable(stored.source, screen.protocol, screen.outputs) then
              && after == Prune(s, screen)
              && r == (if answers.closedLast then Cancelled
                       else Arms(Selection(Monitor(if stored.source.Connector? then Some(stored.source.name) else None),
                                           stored.cursorMode, mode, Some(Grant(mode, options.token.value)))))
            else
              && (r.Arms? <==> !answers.closedLast && exists source :: Agreed(options, screen, answers, source))
              && (r.RefusedSelection? <==> Fails(options, screen, answers))
  {
    var token := options.token.value;
    if Capturable(stored.source, screen.protocol, screen.outputs) {
      assert Restores(s, token, appId, screen, mode, stored) by { hide Keeps; }
      hide Restores, Unique, Interactive, Prune;
    } else {
      forall m: nat, other ensures Restores(s, token, appId, screen, m, other) ==> other == stored {
        hide Keeps;
        if Restores(s, token, appId, screen, m, other) { assert Entry(token, other) == Entry(token, stored); }
      }
      assert forall m: nat, other :: !Restores(s, token, appId, screen, m, other) by {
        hide Keeps, Unique, Selects;
        assert !Servable(stored.source, screen);
      }
      hide Restores, Unique, Keeps, Selects;
      UserDecides(s, appId, sender, options, screen, answers, r, after);
    }
  }

  /** A well-formed request that presents no token that restores anything comes to
      what the user decides: it arms if and only if the user agreed and the
      request stayed open, is refused if and only if a dialog failed, and is
      cancelled otherwise. */
  lemma UserDecides(s: Store, appId: AppId, sender: Owner, options: Options, screen: Screen, answers: Answers, r: Outcome, after: Store)
    requires Selects(s, appId, sender, options, screen, answers, r, after)
    requires !answers.closedFirst && !Malformed(options, screen)
    requires options.token.Some? ==>
               forall mode: nat, stored :: !Restores(s, options.token.value, appId, screen, mode, stored)
    ensures r.Arms? <==> !answers.closedLast && exists source :: Agreed(options, screen, answers, source)
    ensures r.RefusedSelection? <==> Fails(options, screen, answers)
  {
    InteractiveIs(s, appId, sender, options, screen, answers);
    InteractiveIs(Prune(s, screen), appId, sender, options, screen, answers);
    hide Interactive, Agreed, Prune, Unique, Fails, Restores;
  }

  /** The store gets a new entry only by consent: for the drawn token, the asking
      application and what the user took, in the persistence asked for. */
  lemma TokensOnlyWithConsent(s: Store, appId: AppId, sender: Owner, options: Options, screen: Screen, answers: Answers,
                              r: Outcome, after: Store, mode: nat, e: Entry)
    requires Selects(s, appId, sender, options, screen, answers, r, after)
    requires Keeps(after, mode, e) && !Keeps(s, mode, e)
    ensures exists source: CastSource ::
              && Agreed(options, screen, answers, source) && Remembered(options, screen, answers) && source.Monitor?
              && !answers.closedFirst && mode == options.persistMode > 0
              && e == Entry(answers.drawn, StoredSelection(appId, StoredOf(source.output), options.cursorMode))
  {
    PruneKeepsLess(s, screen, mode, e);
    var asked := if options.persistMode == 0 || options.token.None? then s else Prune(s, screen);
    InteractiveIs(s, appId, sender, options, screen, answers);
    InteractiveIs(Prune(s, screen), appId, sender, options, screen, answers);
    hide Interactive, Agreed, Prune, Unique, Fails, Restores, Keeps, Remembered, Selectable;
    assert after != s && after != Prune(s, screen);
    assert !Keeps(asked, mode, e);
    var source :| Agreed(options, screen, answers, source);
    var stored := StoredSelection(appId, StoredOf(source.output), options.cursorMode);
    assert after == Issue(asked, answers.drawn, options.persistMode, sender, stored).1;
    IssueAdds(asked, answers.drawn, options.persistMode, sender, stored, mode, e);
  }

  lemma {:induction false} RetainedIsPart(entries: seq<Entry>, screen: Screen, e: Entry)
    ensures e in Retained(entries, screen) ==> e in entries
  {
    if entries != [] { RetainedIsPart(entries[1..], screen, e); }
  }

  lemma PruneKeepsLess(s: Store, screen: Screen, mode: nat, e: Entry)
    ensures Keeps(Prune(s, screen), mode, e) ==> Keeps(s, mode, e)
  {
    RetainedIsPart(s.disk, screen, e);
  }

  /** Issuing adds one entry and no other. */
  lemma IssueAdds(s: Store, drawn: Token, mode: nat, owner: Owner, selection: StoredSelection, m: nat, e: Entry)
    requires Keeps(Issue(s, drawn, mode, owner, selection).1, m, e) && !Keeps(s, m, e)
    ensures m == mode && e == Entry(drawn, selection)
  {
    PushAdds(s.disk, Entry(drawn, selection), MAX_DISK_TOKENS, e);
    PushAdds(OwnedBy(s, owner), Entry(drawn, selection), MAX_MEMORY_TOKENS_PER_OWNER, e);
    hide Push;
  }

  lemma PushAdds(entries: seq<Entry>, entry: Entry, cap: nat, e: Entry)
    ensures e in Push(entries, entry, cap) ==> e in entries || e == entry
  {
    assert forall x <- entries + [entry] :: x in entries || x == entry;
  }

  /** So a refusal or a cancellation issues no token, unless the request was closed
      only after the user had agreed. */
  lemma UnarmedIssuesOnlyIfClosedLast(s: Store, appId: AppId, sender: Owner, options: Options, screen: Screen, answers: Answers,
                                      r: Outcome, after: Store, mode: nat, e: Entry)
    requires Selects(s, appId, sender, options, screen, answers, r, after) && !r.Arms?
    requires Keeps(after, mode, e) && !Keeps(s, mode, e)
    ensures answers.closedLast && r.Cancelled?
  {
    TokensOnlyWithConsent(s, appId, sender, options, screen, answers, r, after, mode, e);
    PruneKeepsLess(s, screen, mode, e);
    InteractiveIs(s, appId, sender, options, screen, answers);
    InteractiveIs(Prune(s, screen), appId, sender, options, screen, answers);
    AgreedDoesNotFail(options, screen, answers);
    hide Interactive, Agreed, Prune, Unique, Fails, Restores, Keeps, Remembered;
  }

  lemma AgreedDoesNotFail(options: Options, screen: Screen, answers: Answers)
    requires exists source :: Agreed(options, screen, answers, source)
    ensures !Fails(options, screen, answers)
  {
    hide Takeable, TrimOutput;
  }

  /** A close that is seen last leaves a token behind for a session that was not
      armed. */
  lemma LateCloseLeavesAToken()
    ensures var s, screen := Store(true, [], map[]), Screen(29, ["A", "B"]);
            var options := Options(true, false, false, 1, 1, None);
            var answers := Answers(false, Chosen("desktop", true), false, PickFailed, Confirmed, false, true, 7);
            forall r, after | Selects(s, "app", ":1", options, screen, answers, r, after) ::
              r.Cancelled? && after.disk == [Entry(7, StoredSelection("app", Desktop, 1))]
  {
    var s, screen := Store(true, [], map[]), Screen(29, ["A", "B"]);
    var options := Options(true, false, false, 1, 1, None);
    var answers := Answers(false, Chosen("desktop", true), false, PickFailed, Confirmed, false, true, 7);
    InteractiveIs(s, "app", ":1", options, screen, answers);
    assert Agreed(options, screen, answers, Monitor(None));
    AgreedDoesNotFail(options, screen, answers);
    hide Interactive, Agreed, Fails;
  }
}
