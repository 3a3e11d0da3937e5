/** The restore-token store: bounded logs of what tokens restore, on disk for
    good and in memory per bus name. */
module RestoreTokens {
  import opened Wrappers
  import opened Sessions

  const MAX_DISK_TOKENS: nat := 64
  const MAX_MEMORY_TOKENS_PER_OWNER: nat := 16
  const PER_SOURCE_PROTOCOL: nat := 29

  type Owner = string

  datatype StoredSource = Desktop | Connector(name: string)
  datatype StoredSelection = StoredSelection(appId: AppId, source: StoredSource, cursorMode: nat)
  datatype Entry = Entry(token: Token, selection: StoredSelection)

  datatype Store = Store(hasDataDir: bool, disk: seq<Entry>, memory: map<Owner, seq<Entry>>)

  /** What the compositor can capture now. */
  datatype Screen = Screen(protocol: nat, outputs: seq<string>)

  predicate Servable(source: StoredSource, screen: Screen)
  {
    source.Desktop? || (screen.protocol >= PER_SOURCE_PROTOCOL && source.name in screen.outputs)
  }

  // ---------- the operations ----------

  function LastOf(entries: seq<Entry>, cap: nat): seq<Entry>
  {
    if |entries| > cap then entries[|entries| - cap..] else entries
  }

  function Push(entries: seq<Entry>, entry: Entry, cap: nat): seq<Entry>
  {
    LastOf(entries + [entry], cap)
  }

  function OwnedBy(s: Store, owner: Owner): seq<Entry>
  {
    if owner in s.memory then s.memory[owner] else []
  }

  /** Issue the drawn token, if the mode and the caller allow one. */
  function Issue(s: Store, drawn: Token, mode: nat, owner: Owner, selection: StoredSelection): (Option<Token>, Store)
  {
    if mode == 1 && s.hasDataDir then
      (Some(drawn), s.(disk := Push(s.disk, Entry(drawn, selection), MAX_DISK_TOKENS)))
    else if mode == 2 && owner != "" then
      (Some(drawn), s.(memory := s.memory[owner := Push(OwnedBy(s, owner), Entry(drawn, selection), MAX_MEMORY_TOKENS_PER_OWNER)]))
    else (None, s)
  }

  function DropOwner(s: Store, owner: Owner): Store
  {
    s.(memory := s.memory - {owner})
  }

  function Retained(entries: seq<Entry>, screen: Screen): seq<Entry>
  {
    if entries == [] then []
    else (if Servable(entries[0].selection.source, screen) then [entries[0]] else []) + Retained(entries[1..], screen)
  }

  function Prune(s: Store, screen: Screen): Store
  {
    s.(disk := Retained(s.disk, screen))
  }

  /** The store keeps `entry` under `mode`. */
  predicate Keeps(s: Store, mode: nat, entry: Entry)
  {
    (mode == 1 && entry in s.disk) || (mode == 2 && exists owner | owner in s.memory :: entry in s.memory[owner])
  }

  /** Tokens are random: no token names two entries. */
  ghost predicate Unique(s: Store)
  {
    forall a: Entry, b: Entry, m: nat, n: nat | Keeps(s, m, a) && Keeps(s, n, b) && a.token == b.token :: a == b && m == n
  }

  /** What presenting a token may restore. */
  predicate Restores(s: Store, token: Token, appId: AppId, screen: Screen, mode: nat, selection: StoredSelection)
  {
    Keeps(s, mode, Entry(token, selection)) && selection.appId == appId && Servable(selection.source, screen)
  }

  class RestoreStore {
    const hasDataDir: bool
    var disk: seq<Entry>
    var memory: map<Owner, seq<Entry>>

    function View(): Store
      reads this
    {
      Store(hasDataDir, disk, memory)
    }

    constructor (hasDataDir: bool, loaded: seq<Entry>)
      ensures View() == Store(hasDataDir, loaded, map[])
    {
      this.hasDataDir, disk, memory := hasDataDir, loaded, map[];
    }

    method IssueToken(drawn: Token, mode: nat, owner: Owner, selection: StoredSelection) returns (token: Option<Token>)
      modifies this
      ensures (token, View()) == Issue(old(View()), drawn, mode, owner, selection)
    {
      var entry := Entry(drawn, selection);
      if mode == 1 {
        if !hasDataDir { return None; }
        disk := disk + [entry];
        if |disk| > MAX_DISK_TOKENS {
          var overflow := |disk| - MAX_DISK_TOKENS;
          disk := disk[overflow..];
        }
      } else if mode == 2 {
        if owner == "" { return None; }
        var entries := (if owner in memory then memory[owner] else []) + [entry];
        if |entries| > MAX_MEMORY_TOKENS_PER_OWNER {
          var overflow := |entries| - MAX_MEMORY_TOKENS_PER_OWNER;
          entries := entries[overflow..];
        }
        memory := memory[owner := entries];
      } else {
        return None;
      }
      token := Some(drawn);
    }

    /** Find the entry of a token: in memory first, in no particular order of
        owners, then on disk. */
    method FindEntry(token: Token) returns (mode: nat, found: Option<Entry>)
      ensures found.Some? ==> found.value.token == token && Keeps(View(), mode, found.value)
      ensures found.None? ==> forall m: nat, e: Entry | Keeps(View(), m, e) :: e.token != token
    {
      var todo := memory.Keys;
      while todo != {}
        invariant todo <= memory.Keys
        invariant forall owner: Owner, e: Entry | owner in memory && owner !in todo && e in memory[owner] :: e.token != token
        decreases todo
      {
        var owner :| owner in todo;
        todo := todo - {owner};
        var at := IndexOf(memory[owner], token);
        if at.Some? {
          assert Keeps(View(), 2, memory[owner][at.value]);
          return 2, Some(memory[owner][at.value]);
        }
      }
      var at := IndexOf(disk, token);
      if at.Some? { return 1, Some(disk[at.value]); }
      return 0, None;
    }

    method Validate(token: Token, appId: AppId, screen: Screen) returns (r: Option<(nat, StoredSelection)>)
      ensures r.Some? ==> Restores(View(), token, appId, screen, r.value.0, r.value.1)
      ensures Unique(View()) ==> forall mode: nat, selection: StoredSelection ::
                Restores(View(), token, appId, screen, mode, selection) ==> r == Some((mode, selection))
    {
      var mode, found := FindEntry(token);
      if found.None? { return None; }
      var selection := found.value.selection;
      assert found.value == Entry(token, selection);
      if selection.appId != appId || !Servable(selection.source, screen) { return None; }
      r := Some((mode, selection));
    }

    method DropTokensOf(owner: Owner)
      modifies this
      ensures View() == DropOwner(old(View()), owner)
    {
      memory := memory - {owner};
    }

    method PruneUnservable(screen: Screen)
      modifies this
      ensures View() == Prune(old(View()), screen)
    {
      var kept: seq<Entry> := [];
      var i := 0;
      while i < |disk|
        invariant i <= |disk| && disk == old(disk) && memory == old(memory)
        invariant Retained(disk, screen) == kept + Retained(disk[i..], screen)
      {
        assert disk[i..][1..] == disk[i + 1..];
        if Servable(disk[i].selection.source, screen) { kept := kept + [disk[i]]; }
        i := i + 1;
      }
      disk := kept;
    }
  }

  method IndexOf(entries: seq<Entry>, token: Token) returns (at: Option<nat>)
    ensures at.Some? ==> at.value < |entries| && entries[at.value].token == token
    ensures at.None? ==> forall e <- entries :: e.token != token
  {
    for i := 0 to |entries|
      invariant forall k | 0 <= k < i :: entries[k].token != token
    {
      if entries[i].token == token { return Some(i); }
    }
    at := None;
  }

  // ---------- how long an entry is kept ----------

  /** The number of entries newer than `e`. */
  function Newer(entries: seq<Entry>, e: Entry): nat
    requires e in entries
  {
    if entries[0] == e then |entries| - 1 else Newer(entries[1..], e)
  }

  ghost predicate Once(entries: seq<Entry>, e: Entry)
  {
    multiset(entries)[e] == 1
  }

  lemma {:induction false} NewerIndex(entries: seq<Entry>, e: Entry)
    requires e in entries
    ensures Newer(entries, e) < |entries| && entries[|entries| - 1 - Newer(entries, e)] == e
    ensures Once(entries, e) ==> forall k | 0 <= k < |entries| && entries[k] == e :: k == |entries| - 1 - Newer(entries, e)
  {
    assert entries == [entries[0]] + entries[1..];
    if entries[0] == e {
      if Once(entries, e) {
        assert multiset(entries) == multiset{e} + multiset(entries[1..]);
        assert e !in entries[1..];
      }
    } else {
      assert multiset(entries)[e] == multiset(entries[1..])[e];
      NewerIndex(entries[1..], e);
      assert forall k | 1 <= k < |entries| :: entries[k] == entries[1..][k - 1];
    }
  }

  lemma OnceInPart(entries: seq<Entry>, e: Entry, from: nat)
    requires Once(entries, e) && from <= |entries| && e in entries[from..]
    ensures Once(entries[from..], e)
  {
    assert entries == entries[..from] + entries[from..];
    assert multiset(entries) == multiset(entries[..from]) + multiset(entries[from..]);
  }

  lemma {:induction false} NewerAfterAppend(entries: seq<Entry>, e: Entry, x: Entry)
    requires e in entries
    ensures e in entries + [x] && Newer(entries + [x], e) == Newer(entries, e) + 1
  {
    if entries[0] != e {
      assert (entries + [x])[1..] == entries[1..] + [x];
      NewerAfterAppend(entries[1..], e, x);
    }
  }

  lemma {:induction false} NewerInPart(entries: seq<Entry>, e: Entry, from: nat)
    requires from <= |entries| && e in entries && e in entries[from..]
    ensures Newer(entries[from..], e) <= Newer(entries, e)
    ensures Once(entries, e) ==> Newer(entries[from..], e) == Newer(entries, e)
    decreases |entries|
  {
    NewerIndex(entries, e);
    NewerIndex(entries[from..], e);
    var k := |entries| - 1 - Newer(entries[from..], e);
    assert entries[k] == entries[from..][k - from] == e;
    FirstIsNewest(entries, e, k);
  }

  /** `Newer` counts from the first occurrence. */
  lemma {:induction false} FirstIsNewest(entries: seq<Entry>, e: Entry, k: nat)
    requires k < |entries| && entries[k] == e
    ensures Newer(entries, e) >= |entries| - 1 - k
  {
    if entries[0] != e { FirstIsNewest(entries[1..], e, k - 1); }
  }

  /** A push keeps an entry if and only if fewer than `cap` entries, the pushed
      one included, are newer; it makes every entry it keeps one older. */
  lemma PushKeepsIff(entries: seq<Entry>, e: Entry, x: Entry, cap: nat)
    requires e in entries && x != e && Once(entries, e) && cap > 0
    ensures e in Push(entries, x, cap) <==> Newer(entries, e) + 1 < cap
    ensures Newer(entries, e) + 1 < cap ==> Once(Push(entries, x, cap), e) && Newer(Push(entries, x, cap), e) == Newer(entries, e) + 1
  {
    var all := entries + [x];
    NewerAfterAppend(entries, e, x);
    assert multiset(all)[e] == multiset(entries)[e];
    NewerIndex(all, e);
    var from := if |all| > cap then |all| - cap else 0;
    assert all[from..] == Push(entries, x, cap);
    var k := |all| - 1 - Newer(all, e);
    if from <= k {
      assert all[from..][k - from] == e;
      OnceInPart(all, e, from);
      NewerInPart(all, e, from);
    } else {
      assert forall i | from <= i < |all| :: all[i] != e;
    }
  }

  lemma {:induction false} RetainedKeeps(entries: seq<Entry>, e: Entry, screen: Screen)
    requires e in entries && Servable(e.selection.source, screen)
    ensures e in Retained(entries, screen) && Newer(Retained(entries, screen), e) <= Newer(entries, e)
    ensures Once(entries, e) ==> Once(Retained(entries, screen), e)
  {
    hide Servable;
    RetainedCounts(entries, e, screen);
    RetainedNewer(entries, e, screen);
  }

  lemma {:induction false} RetainedCounts(entries: seq<Entry>, e: Entry, screen: Screen)
    ensures multiset(Retained(entries, screen))[e] == if Servable(e.selection.source, screen) then multiset(entries)[e] else 0
    ensures |Retained(entries, screen)| <= |entries|
  {
    hide Servable;
    if entries != [] {
      RetainedCounts(entries[1..], e, screen);
      assert entries == [entries[0]] + entries[1..];
    }
  }

  lemma {:induction false} RetainedInOrder(first: seq<Entry>, rest: seq<Entry>, screen: Screen)
    ensures Retained(first + rest, screen) == Retained(first, screen) + Retained(rest, screen)
  {
    hide Servable;
    if first == [] {
      assert first + rest == rest;
    } else {
      assert (first + rest)[1..] == first[1..] + rest;
      RetainedInOrder(first[1..], rest, screen);
    }
  }

  /** The compositor can capture the source again: the desktop always, an output
      while it is connected to a compositor that knows named outputs. */
  predicate Capturable(source: StoredSource, protocol: nat, outputs: seq<string>)
  {
    source == Desktop || (protocol >= 29 && exists name <- outputs :: source == Connector(name))
  }

  /** Pruning keeps the disk entries of sources that can be captured, each as often
      as it was there and in the same order, and touches no entry in memory. */
  lemma PruneKeepsIff(s: Store, screen: Screen, first: seq<Entry>, rest: seq<Entry>, e: Entry)
    requires s.disk == first + rest
    ensures var r := Prune(s, screen);
            && r.hasDataDir == s.hasDataDir && r.memory == s.memory
            && r.disk == Prune(s.(disk := first), screen).disk + Prune(s.(disk := rest), screen).disk
            && multiset(r.disk)[e] == if Capturable(e.selection.source, screen.protocol, screen.outputs) then multiset(s.disk)[e] else 0
  {
    RetainedInOrder(first, rest, screen);
    RetainedCounts(s.disk, e, screen);
    hide Retained;
  }

  /** The store takes a token for an installation with a place to keep it, or for a
      caller that has a name, and for nothing else. */
  lemma TakesTokenIff(s: Store, drawn: Token, mode: nat, owner: Owner, selection: StoredSelection)
    ensures Issue(s, drawn, mode, owner, selection).0 == if TakesToken(s, mode, owner) then Some(drawn) else None
    ensures !TakesToken(s, mode, owner) ==> Issue(s, drawn, mode, owner, selection).1 == s
  {
  }

  predicate TakesToken(s: Store, mode: nat, owner: Owner)
  {
    match mode case 1 => s.hasDataDir case 2 => owner != "" case _ => false
  }

  lemma {:induction false} RetainedNewer(entries: seq<Entry>, e: Entry, screen: Screen)
    requires e in entries && Servable(e.selection.source, screen)
    ensures e in Retained(entries, screen) && Newer(Retained(entries, screen), e) <= Newer(entries, e)
  {
    hide Servable;
    RetainedCounts(entries[1..], e, screen);
    var rest := Retained(entries[1..], screen);
    if entries[0] == e {
      assert Retained(entries, screen) == [e] + rest;
    } else {
      RetainedNewer(entries[1..], e, screen);
      var r := Retained(entries, screen);
      assert r == rest || (r == [entries[0]] + rest && r[1..] == rest && r[0] != e);
    }
  }

  // ---------- runs of the store ----------

  datatype Event =
    | Issued(drawn: Token, mode: nat, owner: Owner, selection: StoredSelection)
    | OwnerGone(owner: Owner)
    | Pruned(screen: Screen)

  function Step(s: Store, event: Event): Store
  {
    match event
    case Issued(drawn, mode, owner, selection) => Issue(s, drawn, mode, owner, selection).1
    case OwnerGone(owner) => DropOwner(s, owner)
    case Pruned(screen) => Prune(s, screen)
  }

  function After(s: Store, events: seq<Event>): Store
    decreases |events|
  {
    if events == [] then s else After(Step(s, events[0]), events[1..])
  }

  predicate IssuesToDisk(event: Event)
  {
    event.Issued? && event.mode == 1
  }

  predicate IssuesTo(event: Event, owner: Owner)
  {
    event.Issued? && event.mode == 2 && event.owner == owner && owner != ""
  }

  function DiskIssues(events: seq<Event>): nat
  {
    if events == [] then 0 else (if IssuesToDisk(events[0]) then 1 else 0) + DiskIssues(events[1..])
  }

  function OwnerIssues(events: seq<Event>, owner: Owner): nat
  {
    if events == [] then 0 else (if IssuesTo(events[0], owner) then 1 else 0) + OwnerIssues(events[1..], owner)
  }

  /** No later draw repeats the token, and no pruning finds its source gone. */
  predicate SparesDisk(events: seq<Event>, e: Entry)
  {
    events == [] ||
    (&& (events[0].Issued? ==> events[0].drawn != e.token)
     && (events[0].Pruned? ==> Servable(e.selection.source, events[0].screen))
     && SparesDisk(events[1..], e))
  }

  predicate SparesOwner(events: seq<Event>, e: Entry, owner: Owner)
  {
    events == [] ||
    (&& (events[0].Issued? ==> events[0].drawn != e.token)
     && events[0] != OwnerGone(owner)
     && SparesOwner(events[1..], e, owner))
  }

  predicate NeverPrunes(events: seq<Event>)
  {
    events == [] || (!events[0].Pruned? && NeverPrunes(events[1..]))
  }

  lemma DiskStep(s: Store, e: Entry, event: Event)
    requires e in s.disk && Once(s.disk, e)
    requires event.Issued? ==> event.drawn != e.token
    requires event.Pruned? ==> Servable(e.selection.source, event.screen)
    requires IssuesToDisk(event) ==> s.hasDataDir
    ensures var r := Step(s, event).disk; var added := if IssuesToDisk(event) then 1 else 0;
            && Step(s, event).hasDataDir == s.hasDataDir
            && (added == 0 || Newer(s.disk, e) + 1 < MAX_DISK_TOKENS ==> e in r && Once(r, e) && Newer(r, e) <= Newer(s.disk, e) + added)
            && (!event.Pruned? && (added == 0 || Newer(s.disk, e) + 1 < MAX_DISK_TOKENS) ==> Newer(r, e) == Newer(s.disk, e) + added)
            && (added == 1 && Newer(s.disk, e) + 1 >= MAX_DISK_TOKENS ==> e !in r)
  {
    hide Once, Newer, Push, Servable, Retained;
    match event
    case Issued(drawn, mode, owner, selection) =>
      if mode == 1 { PushKeepsIff(s.disk, e, Entry(drawn, selection), MAX_DISK_TOKENS); }
    case Pruned(screen) => RetainedKeeps(s.disk, e, screen);
    case OwnerGone(_) =>
  }

  lemma {:induction false} GoneStaysGone(s: Store, e: Entry, events: seq<Event>)
    requires e !in s.disk && SparesDisk(events, e)
    ensures e !in After(s, events).disk
    decreases |events|
  {
    hide Servable;
    if events != [] {
      if events[0].Pruned? {
        RetainedCounts(s.disk, e, events[0].screen);
        assert e !in Step(s, events[0]).disk;
      }
      GoneStaysGone(Step(s, events[0]), e, events[1..]);
    }
  }

  /** A token on disk outlives every run with fewer newer ones than the cap
      leaves room for, whatever else is pruned or dropped meanwhile. */
  lemma {:induction false} DiskTokenSurvives(s: Store, e: Entry, events: seq<Event>)
    requires s.hasDataDir && e in s.disk && Once(s.disk, e) && SparesDisk(events, e)
    requires Newer(s.disk, e) + DiskIssues(events) < MAX_DISK_TOKENS
    ensures e in After(s, events).disk
    decreases |events|
  {
    hide Once, Newer, Step, Servable;
    if events != [] {
      DiskStep(s, e, events[0]);
      DiskTokenSurvives(Step(s, events[0]), e, events[1..]);
    }
  }

  /** Where nothing is pruned that bound is exact. */
  lemma {:induction false} DiskTokenSurvivesIff(s: Store, e: Entry, events: seq<Event>)
    requires s.hasDataDir && e in s.disk && Once(s.disk, e) && SparesDisk(events, e) && NeverPrunes(events)
    ensures e in After(s, events).disk <==> DiskIssues(events) == 0 || Newer(s.disk, e) + DiskIssues(events) < MAX_DISK_TOKENS
    decreases |events|
  {
    hide Once, Newer, Step, Servable;
    if events != [] {
      DiskStep(s, e, events[0]);
      var next := Step(s, events[0]);
      if e in next.disk { DiskTokenSurvivesIff(next, e, events[1..]); } else { GoneStaysGone(next, e, events[1..]); }
    }
  }

  lemma OwnerStep(s: Store, e: Entry, owner: Owner, event: Event)
    requires e in OwnedBy(s, owner) && Once(OwnedBy(s, owner), e)
    requires event.Issued? ==> event.drawn != e.token
    requires event != OwnerGone(owner)
    ensures var was, r := OwnedBy(s, owner), OwnedBy(Step(s, event), owner);
            if IssuesTo(event, owner) then
              if Newer(was, e) + 1 < MAX_MEMORY_TOKENS_PER_OWNER then e in r && Once(r, e) && Newer(r, e) == Newer(was, e) + 1
              else e !in r
            else r == was
  {
    hide Once, Newer, Push, Retained;
    if event.Issued? && event.mode == 2 && event.owner == owner {
      PushKeepsIff(OwnedBy(s, owner), e, Entry(event.drawn, event.selection), MAX_MEMORY_TOKENS_PER_OWNER);
    }
  }

  lemma {:induction false} GoneFromOwner(s: Store, e: Entry, owner: Owner, events: seq<Event>)
    requires e !in OwnedBy(s, owner) && SparesOwner(events, e, owner)
    ensures e !in OwnedBy(After(s, events), owner)
    decreases |events|
  {
    if events != [] {
      GoneFromOwner(Step(s, events[0]), e, owner, events[1..]);
    }
  }

  /** A token in memory lasts until its owner is gone or enough newer tokens of
      that owner push it out. */
  lemma {:induction false} MemoryTokenSurvivesIff(s: Store, e: Entry, owner: Owner, events: seq<Event>)
    requires e in OwnedBy(s, owner) && Once(OwnedBy(s, owner), e) && SparesOwner(events, e, owner)
    ensures e in OwnedBy(After(s, events), owner)
       <==> OwnerIssues(events, owner) == 0 || Newer(OwnedBy(s, owner), e) + OwnerIssues(events, owner) < MAX_MEMORY_TOKENS_PER_OWNER
    decreases |events|
  {
    hide Once, Newer, Step, OwnedBy, IssuesTo;
    if events != [] {
      OwnerStep(s, e, owner, events[0]);
      var next := Step(s, events[0]);
      if e in OwnedBy(next, owner) {
        MemoryTokenSurvivesIff(next, e, owner, events[1..]);
      } else {
        GoneFromOwner(next, e, owner, events[1..]);
      }
    }
  }

  /** The departure of a bus name ends exactly the restores its tokens allowed:
      whatever else a token restored it still restores, and what is kept for
      others stays as it is. */
  lemma DepartureEndsItsTokens(s: Store, gone: Owner, token: Token, appId: AppId, screen: Screen, mode: nat, selection: StoredSelection)
    ensures Restores(DropOwner(s, gone), token, appId, screen, mode, selection) <==>
            && Restores(s, token, appId, screen, mode, selection)
            && (mode == 2 ==> exists owner | owner in s.memory :: owner != gone && Entry(token, selection) in s.memory[owner])
    ensures DropOwner(s, gone).disk == s.disk
    ensures forall owner :: OwnedBy(DropOwner(s, gone), owner) == if owner == gone then [] else OwnedBy(s, owner)
  {
    hide Servable;
    var r, e := DropOwner(s, gone), Entry(token, selection);
    if mode == 2 && exists owner | owner in s.memory :: owner != gone && e in s.memory[owner] {
      var owner :| owner in s.memory && owner != gone && e in s.memory[owner];
      assert owner in r.memory && e in r.memory[owner];
    }
  }

  /** A freshly issued token starts as the newest, kept once. */
  lemma IssuedIsNewest(s: Store, drawn: Token, mode: nat, owner: Owner, selection: StoredSelection)
    requires forall m: nat, e: Entry | Keeps(s, m, e) :: e.token != drawn
    requires Issue(s, drawn, mode, owner, selection).0.Some?
    ensures var e, r := Entry(drawn, selection), Issue(s, drawn, mode, owner, selection).1;
            && Keeps(r, mode, e)
            && (mode == 1 ==> s.hasDataDir && e in r.disk && Once(r.disk, e) && Newer(r.disk, e) == 0)
            && (mode == 2 ==> e in OwnedBy(r, owner) && Once(OwnedBy(r, owner), e) && Newer(OwnedBy(r, owner), e) == 0)
  {
    var e := Entry(drawn, selection);
    if mode == 1 {
      assert e in s.disk ==> Keeps(s, 1, e);
      PushIsNewest(s.disk, e, MAX_DISK_TOKENS);
    } else {
      assert owner in s.memory && e in s.memory[owner] ==> Keeps(s, 2, e);
      PushIsNewest(OwnedBy(s, owner), e, MAX_MEMORY_TOKENS_PER_OWNER);
      var r := Issue(s, drawn, mode, owner, selection).1;
      assert owner in r.memory && e in r.memory[owner];
    }
  }

  lemma PushIsNewest(entries: seq<Entry>, e: Entry, cap: nat)
    requires e !in entries && cap > 0
    ensures e in Push(entries, e, cap) && Once(Push(entries, e, cap), e) && Newer(Push(entries, e, cap), e) == 0
  {
    var all := entries + [e];
    var from := if |all| > cap then |all| - cap else 0;
    var r := Push(entries, e, cap);
    assert r == all[from..];
    assert r == entries[from..] + [e] && e !in entries[from..];
    NewestLast(entries[from..], e);
  }

  lemma {:induction false} NewestLast(entries: seq<Entry>, e: Entry)
    requires e !in entries
    ensures multiset(entries + [e])[e] == 1 && Newer(entries + [e], e) == 0
  {
    if entries == [] {
      assert entries + [e] == [e];
    } else {
      assert (entries + [e])[1..] == entries[1..] + [e];
      NewestLast(entries[1..], e);
    }
  }

  lemma PushedWasThere(entries: seq<Entry>, x: Entry, cap: nat, e: Entry)
    requires e in Push(entries, x, cap)
    ensures e in entries || e == x
  {
  }

  /** A step keeps no entry it did not find or issue. */
  lemma KeptWasKept(s: Store, event: Event, mode: nat, e: Entry)
    requires Keeps(Step(s, event), mode, e)
    ensures Keeps(s, mode, e) || (event.Issued? && mode == event.mode && e == Entry(event.drawn, event.selection))
  {
    hide Push, Servable;
    match event
    case Issued(drawn, m, owner, selection) =>
      var x := Entry(drawn, selection);
      if mode == 1 && e in Push(s.disk, x, MAX_DISK_TOKENS) { PushedWasThere(s.disk, x, MAX_DISK_TOKENS, e); }
      if mode == 2 {
        var r := Step(s, event);
        var o :| o in r.memory && e in r.memory[o];
        if m == 2 && o == owner && owner != "" {
          PushedWasThere(OwnedBy(s, owner), x, MAX_MEMORY_TOKENS_PER_OWNER, e);
        }
      }
    case Pruned(screen) => RetainedCounts(s.disk, e, screen);
    case OwnerGone(owner) =>
  }

  lemma StepKeepsUnique(s: Store, event: Event)
    requires Unique(s)
    requires event.Issued? ==> forall m: nat, e: Entry | Keeps(s, m, e) :: e.token != event.drawn
    ensures Unique(Step(s, event))
  {
    hide Keeps, Step;
    var r := Step(s, event);
    forall a: Entry, b: Entry, m: nat, n: nat | Keeps(r, m, a) && Keeps(r, n, b) && a.token == b.token ensures a == b && m == n {
      KeptWasKept(s, event, m, a);
      KeptWasKept(s, event, n, b);
    }
  }

  /** No draw of a run repeats a token kept at the time. */
  ghost predicate FreshDraws(s: Store, events: seq<Event>)
    decreases |events|
  {
    events == [] ||
    (&& (events[0].Issued? ==> forall m: nat, e: Entry | Keeps(s, m, e) :: e.token != events[0].drawn)
     && FreshDraws(Step(s, events[0]), events[1..]))
  }

  lemma {:induction false} RunKeepsUnique(s: Store, events: seq<Event>)
    requires Unique(s) && FreshDraws(s, events)
    ensures Unique(After(s, events))
    decreases |events|
  {
    hide Unique, Step, Keeps;
    if events != [] {
      StepKeepsUnique(s, events[0]);
      RunKeepsUnique(Step(s, events[0]), events[1..]);
    }
  }
}
