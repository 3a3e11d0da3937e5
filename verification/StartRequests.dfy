/** What a compositor of a given protocol version is asked for when a stream
    starts, and what an armed selection comes to there. */
module StartRequests {
  import opened Wrappers
  import opened Frames
  import opened Cast
  import opened Sessions
  import opened RestoreTokens
  import opened SourceSelection
  import opened SelectionConsent
  import opened IpcWire

  predicate NamesConnector(target: Target)
  {
    target.Output? && target.connector.Some?
  }

  /** A peer of this version understands the request: dmabufs came with version
      25, named outputs and cursor modes with version 29. */
  predicate Understands(version: nat, request: StartRequest)
  {
    && (request.dmabuf ==> version >= 25)
    && (request.cursor.Some? ==> version >= 29)
    && (NamesConnector(request.target) ==> version >= 29)
  }

  /** The request asks for the same picture, and for no more of the rest. */
  predicate AsksNoMore(request: StartRequest, wanted: StartRequest)
  {
    && request.target == wanted.target
    && (request.dmabuf ==> wanted.dmabuf)
    && (request.cursor.Some? ==> request.cursor == wanted.cursor)
  }

  /** Every peer is asked for the most it understands of what is wanted, and not
      at all if and only if it understands nothing that shows the same picture. */
  lemma AsksTheMost(version: nat, wanted: StartRequest)
    ensures var r := StartRequestFor(version, wanted.target, wanted.dmabuf, wanted.cursor);
            && (r.Ok? <==> exists q :: Understands(version, q) && AsksNoMore(q, wanted))
            && (r.Ok? ==> Understands(version, r.value) && AsksNoMore(r.value, wanted)
                          && forall q | Understands(version, q) && AsksNoMore(q, wanted) :: AsksNoMore(q, r.value))
            && (r.Err? ==> r.error == Unsupported)
  {
    var least := StartRequest(wanted.target, false, None);
    assert AsksNoMore(least, wanted);
    assert !NamesConnector(wanted.target) || version >= 29 ==> Understands(version, least);
  }

  /** A peer of version 29 or later is asked for exactly what is wanted. */
  lemma AsksAllIff(version: nat, wanted: StartRequest)
    ensures StartRequestFor(version, wanted.target, wanted.dmabuf, wanted.cursor) == Ok(wanted) <==> Understands(version, wanted)
  {
    AsksTheMost(version, wanted);
    if Understands(version, wanted) { assert AsksNoMore(wanted, wanted); }
  }

  /** The stream a cast starts for its selection. */
  function Wanted(selection: Selection): (r: StartRequest)
  {
    StartRequest(match selection.source case Monitor(output) => Output(output) case WindowSource(window) => Window(window),
                 true, Some(if selection.cursorMode == CURSOR_MODE_EMBEDDED then Embedded else Hidden))
  }

  /** The user's choice is never widened: whatever SelectSources arms, the
      compositor it was armed for is asked for that very source. Below version 29
      this is the whole desktop, and no cursor mode goes along; only a restored
      selection can have wanted the cursor there. */
  lemma ArmedIsAskedFor(s: Store, appId: AppId, sender: Owner, options: Options, screen: Screen, answers: Answers,
                        r: Outcome, after: Store)
    requires Selects(s, appId, sender, options, screen, answers, r, after) && r.Arms?
    ensures var wanted := Wanted(r.selection);
            var asked := StartRequestFor(screen.protocol, wanted.target, wanted.dmabuf, wanted.cursor);
            && asked.Ok? && asked.value.target == wanted.target
            && asked.value.dmabuf == (screen.protocol >= 25)
            && asked.value.cursor == (if screen.protocol >= 29 then wanted.cursor else None)
            && (screen.protocol < 29 && !RestoredBy(s, appId, options, screen, r.selection) ==> wanted.cursor == Some(Hidden))
            && (screen.protocol < 29 ==> r.selection.source == Monitor(None))
  {
    ArmsOnlyWithConsent(s, appId, sender, options, screen, answers, r, after);
    AsksTheMost(screen.protocol, Wanted(r.selection));
    hide Selects, Keeps, Unique, TrimOutput, Takeable;
  }
}
