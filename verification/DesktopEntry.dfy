/** Desktop files: the reader, the autostart entry the background portal
    writes, and exactly when the one gives back what went into the other. */
module DesktopEntry {
  import opened Wrappers
  import opened Text
  import opened ExecLine
  import MimeApps
  import MimeAppsRefinement

  const MAX_EXEC_BYTES := 8 * 1024
  const MAX_NAME_CHARS := 256

  datatype AppInfo = AppInfo(
    id: string, name: string, exec: string, icon: Option<string>,
    terminal: bool, noDisplay: bool, mimeTypes: seq<string>)

  /** The keys read so far. */
  datatype Keys = Keys(
    name: Option<string>, exec: Option<string>, icon: Option<string>,
    noDisplay: bool, terminal: bool, mimeTypes: seq<string>)

  const NO_KEYS := Keys(None, None, None, false, false, [])

  /** One `key=value` line of the entry group; `None` deletes the entry from view. */
  function SetKey(keys: Keys, key: string, value: string): Option<Keys>
  {
    if key == "Name" then Some(keys.(name := Some(value)))
    else if key == "Exec" && Utf8Len(value) <= MAX_EXEC_BYTES then Some(keys.(exec := Some(value)))
    else if key == "Icon" && value != "" then Some(keys.(icon := Some(value)))
    else if key == "NoDisplay" then Some(keys.(noDisplay := value == "true"))
    else if key == "Hidden" && value == "true" then None
    else if key == "Terminal" then Some(keys.(terminal := value == "true"))
    else if key == "MimeType" then Some(keys.(mimeTypes := MimeApps.IdList(value)))
    else Some(keys)
  }

  function SetFrom(keys: Keys, line: string): Option<Keys>
  {
    var t := TrimEnd(line);
    if t != "" && t[0] == '#' then Some(keys)
    else match SplitOnce(t, '=')
      case None => Some(keys)
      case Some((key, value)) => SetKey(keys, Trim(key), Trim(value))
  }

  function ReadKeys(lines: seq<string>, inEntry: bool, keys: Keys): Option<Keys>
    decreases |lines|
  {
    if lines == [] then Some(keys)
    else
      var header := MimeApps.HeaderOf(lines[0]);
      if header.Some? then ReadKeys(lines[1..], header.value == "Desktop Entry", keys)
      else if !inEntry then ReadKeys(lines[1..], inEntry, keys)
      else match SetFrom(keys, lines[0])
        case None => None
        case Some(next) => ReadKeys(lines[1..], inEntry, next)
  }

  function ParseDesktop(text: string, id: string): Option<AppInfo>
  {
    match ReadKeys(SplitLines(text), false, NO_KEYS)
    case None => None
    case Some(keys) =>
      if keys.name.None? || keys.exec.None? then None
      else
        var name := keys.name.value;
        Some(AppInfo(id, if |name| <= MAX_NAME_CHARS then name else name[..MAX_NAME_CHARS],
                     keys.exec.value, keys.icon, keys.terminal, keys.noDisplay, keys.mimeTypes))
  }

  lemma ReadOnlySeesTrimmed(a: string, b: string, keys: Keys)
    requires TrimEnd(a) == TrimEnd(b)
    ensures MimeApps.HeaderOf(a) == MimeApps.HeaderOf(b) && SetFrom(keys, a) == SetFrom(keys, b)
  {
    hide SetKey, TrimEnd, Trim;
  }

  method ParseDesktopFile(text: string, id: string) returns (app: Option<AppInfo>)
    ensures app == ParseDesktop(text, id)
  {
    hide SetFrom, LineContent, TrimEnd, SplitLines;
    var inEntry, keys := false, NO_KEYS;
    var lines := Lines(text);
    ghost var pieces := SplitLines(text);
    assert pieces[0..] == pieces;
    for i := 0 to |lines|
      invariant ReadKeys(pieces, false, NO_KEYS) == ReadKeys(pieces[i..], inEntry, keys)
    {
      assert pieces[i..][0] == pieces[i] && pieces[i..][1..] == pieces[i + 1..];
      var line := TrimEnd(lines[i]);
      LineContentTrimsAlike(pieces[i]);
      MimeApps.TrimEndTwice(lines[i]);
      ReadOnlySeesTrimmed(line, pieces[i], keys);
      var group := MimeApps.HeaderOf(line);
      if group.Some? {
        inEntry := group.value == "Desktop Entry";
        continue;
      }
      if !inEntry {
        continue;
      }
      var next := SetFrom(keys, line);
      if next.None? {
        return None;
      }
      keys := next.value;
    }
    assert pieces[|lines|..] == [];
    if keys.name.None? || keys.exec.None? {
      return None;
    }
    var name := keys.name.value;
    return Some(AppInfo(id, if |name| <= MAX_NAME_CHARS then name else name[..MAX_NAME_CHARS],
                        keys.exec.value, keys.icon, keys.terminal, keys.noDisplay, keys.mimeTypes));
  }

  // ---------- the autostart entry ----------

  function EntryLines(appId: string, args: seq<string>, dbusActivatable: bool): seq<string>
  {
    ["[Desktop Entry]\n", "Type=Application\n", "Name=" + appId + "\n", "Exec=" + Printed(args) + "\n"]
    + (if dbusActivatable then ["DBusActivatable=true\n"] else [])
    + ["X-Tessera-Portal=background\n"]
  }

  function RenderDesktopEntry(appId: string, args: seq<string>, dbusActivatable: bool): string
  {
    Flatten(EntryLines(appId, args, dbusActivatable))
  }

  /** Reading the written entry back gives the granted command line. */
  ghost predicate Recovers(appId: string, args: seq<string>, dbusActivatable: bool, toPath: string -> Option<string>)
  {
    var app := ParseDesktop(RenderDesktopEntry(appId, args, dbusActivatable), appId);
    app.Some? && Expanded(app.value.exec, [], toPath) == args
  }

  predicate HasNewline(args: seq<string>)
  {
    exists i | 0 <= i < |args| :: '\n' in args[i]
  }

  // ---------- reading the written lines ----------

  lemma EntryLineReads(key: string, value: string)
    requires key != "" && Trimmed(key) && '=' !in key && key[0] != '#' && key[0] != '[' && Trimmed(value)
    ensures var line := key + "=" + value + "\n";
            MimeApps.HeaderOf(line).None? && forall keys :: SetFrom(keys, line) == SetKey(keys, key, value)
  {
    hide SetKey, Trim, TrimStart;
    var body := key + "=" + value;
    var line := body + "\n";
    assert TrimEnd(line) == TrimEnd(body) by { TrimEndBlank(body, "\n"); }
    assert body[|body| - 1] == if value == "" then '=' else value[|value| - 1];
    assert TrimEnd(body) == body && body[0] == key[0];
    SplitOnceAt(key, '=', value);
    TrimmedIsFixed(key);
    TrimmedIsFixed(value);
  }

  /** How the reader takes a line whose end is trimmed already. */
  lemma SplitLineReads(line: string, t: string, key: string, value: string)
    requires TrimEnd(line) == t && t != "" && t[0] != '#' && t[0] != '[' && SplitOnce(t, '=') == Some((key, value))
    ensures MimeApps.HeaderOf(line).None? && forall keys :: SetFrom(keys, line) == SetKey(keys, Trim(key), Trim(value))
  {
    hide SetKey, Trim, TrimStart, TrimEnd, SplitOnce;
  }

  /** A line whose value may be padded: the reader trims it. */
  lemma NameLineReads(appId: string)
    ensures var line := "Name=" + appId + "\n";
            MimeApps.HeaderOf(line).None? && forall keys :: SetFrom(keys, line) == SetKey(keys, "Name", Trim(appId))
  {
    hide SetKey, Trim, TrimStart, TrimEnd, SplitOnce, SetFrom, MimeApps.HeaderOf, MimeApps.IdList, Utf8Len;
    NameLineTrimmed(appId);
    var t := TrimEnd(appId);
    assert "Name" + "=" + t == "Name=" + t;
    SplitOnceAt("Name", '=', t);
    TrimmedIsFixed("Name");
    TrimIgnoresTrailing(appId);
    SplitLineReads("Name=" + appId + "\n", "Name=" + t, "Name", t);
  }

  lemma NameLineTrimmed(appId: string)
    ensures TrimEnd("Name=" + appId + "\n") == "Name=" + TrimEnd(appId)
  {
    hide TrimEnd;
    TrimEndBlank("Name=" + appId, "\n");
    TrimEndAfter("Name=", appId);
  }

  lemma KeysAfter(keys: Keys, value: string)
    ensures SetKey(keys, "Name", value) == Some(keys.(name := Some(value)))
    ensures Utf8Len(value) <= MAX_EXEC_BYTES ==> SetKey(keys, "Exec", value) == Some(keys.(exec := Some(value)))
    ensures Utf8Len(value) > MAX_EXEC_BYTES ==> SetKey(keys, "Exec", value) == Some(keys)
    ensures SetKey(keys, "Type", value) == Some(keys)
    ensures SetKey(keys, "DBusActivatable", value) == Some(keys)
    ensures SetKey(keys, "X-Tessera-Portal", value) == Some(keys)
  {
    hide Utf8Len;
    assert "Name"[0] == 'N' && "Type"[0] == 'T' && "DBusActivatable"[0] == 'D' && "X-Tessera-Portal"[0] == 'X';
    assert "Exec"[0] == 'E' && "Icon"[0] == 'I' && "Hidden"[0] == 'H' && "MimeType"[0] == 'M';
    assert |"Terminal"| == 8 && |"Type"| == 4;
  }

  lemma GroupLineReads()
    ensures MimeApps.HeaderOf("[Desktop Entry]\n") == Some("Desktop Entry")
  {
    var name := "Desktop Entry";
    assert Trimmed(name) by { assert name[0] == 'D' && name[|name| - 1] == 'y'; }
    MimeAppsRefinement.HeaderLine(name);
    assert "[" + name + "]\n" == "[Desktop Entry]\n";
  }

  lemma {:induction false} PrintedIsTrimmed(args: seq<string>)
    ensures Trimmed(Printed(args))
    ensures args != [] ==> Printed(args) != ""
  {
    hide Quoted;
    if args == [] {
      assert Printed(args) == "";
    } else {
      PrintedStep(args);
      QuotedEnds(args[0]);
      if |args| > 1 { PrintedIsTrimmed(args[1..]); }
    }
  }

  lemma QuotedEnds(arg: string)
    ensures var q := Quoted(arg); q != "" && !IsWhite(q[0]) && !IsWhite(q[|q| - 1])
  {
    hide IsWhite, IsSafe;
    if Plain(arg) {
      SafeIsOrdinary(arg[0]);
      SafeIsOrdinary(arg[|arg| - 1]);
      assert arg == arg[..|arg| - 1] + [arg[|arg| - 1]];
      DoubledConcat(arg[..|arg| - 1], [arg[|arg| - 1]]);
      DoubledOne(arg[|arg| - 1]);
      PercentIsNotWhite();
    } else {
      QuotedShape(arg);
      PercentIsNotWhite();
    }
  }

  lemma PercentIsNotWhite()
    ensures !IsWhite('%') && !IsWhite('"')
  {
  }

  // ---------- newlines stay where they are ----------

  lemma {:induction false} DoubledKeeps(s: string, c: char)
    ensures c in Doubled(s) <==> c in s
    ensures c in Escaped(s) <==> c in s || (c == '\\' && c in Escaped(s))
  {
    if s != "" {
      DoubledKeeps(s[1..], c);
      assert s == [s[0]] + s[1..];
    }
  }

  lemma QuotedKeepsNewline(arg: string)
    ensures '\n' in Quoted(arg) <==> '\n' in arg
  {
    hide IsSafe;
    if Plain(arg) {
      DoubledKeeps(arg, '\n');
    } else {
      QuotedShape(arg);
      DoubledKeeps(Escaped(arg), '\n');
      DoubledKeeps(arg, '\n');
    }
  }

  lemma {:induction false} PrintedKeepsNewline(args: seq<string>)
    ensures '\n' in Printed(args) <==> HasNewline(args)
  {
    hide Quoted;
    if args == [] {
      assert Printed(args) == "";
    } else {
      PrintedStep(args);
      QuotedKeepsNewline(args[0]);
      if |args| > 1 {
        PrintedKeepsNewline(args[1..]);
        assert HasNewline(args[1..]) <==> exists i | 1 <= i < |args| :: '\n' in args[i] by {
          if exists i | 1 <= i < |args| :: '\n' in args[i] {
            var i :| 1 <= i < |args| && '\n' in args[i];
            assert args[1..][i - 1] == args[i];
          }
        }
      }
    }
  }

  /** Whatever a desktop file says, the Exec value read from it holds no newline. */
  lemma {:induction false} KeysHoldNoNewline(lines: seq<string>, inEntry: bool, keys: Keys)
    requires forall i | 0 <= i < |lines| :: OneLine(lines[i])
    requires keys.exec.Some? ==> '\n' !in keys.exec.value
    ensures var read := ReadKeys(lines, inEntry, keys); read.Some? && read.value.exec.Some? ==> '\n' !in read.value.exec.value
    decreases |lines|
  {
    hide MimeApps.HeaderOf, OneLine;
    if lines != [] {
      var header := MimeApps.HeaderOf(lines[0]);
      var next := if header.Some? then header.value == "Desktop Entry" else inEntry;
      LineHoldsNoNewline(keys, lines[0]);
      var updated := if header.None? && inEntry then SetFrom(keys, lines[0]) else Some(keys);
      if updated.Some? { KeysHoldNoNewline(lines[1..], next, updated.value); }
    }
  }

  lemma LineHoldsNoNewline(keys: Keys, line: string)
    requires OneLine(line) && (keys.exec.Some? ==> '\n' !in keys.exec.value)
    ensures var next := SetFrom(keys, line); next.Some? && next.value.exec.Some? ==> '\n' !in next.value.exec.value
  {
    hide Trim, TrimEnd;
    var t := TrimEnd(line);
    assert '\n' !in t by {
      BodyTrimsAlike(line);
      assert '\n' !in Body(line);
    }
    if SplitOnce(t, '=').Some? {
      var (key, value) := SplitOnce(t, '=').value;
      MimeApps.TrimKeepsOut(value, '\n');
    }
  }

  lemma {:induction false} TokensHoldOnlyExec(s: string, state: Lexer, c: char)
    requires c !in s && c !in state.token && c != '\\'
    requires forall t | t in state.tokens :: c !in t
    ensures forall t | t in Lex(s, state) :: c !in t
    decreases |s|
  {
    hide IsWhite, IsReserved;
    if s == "" {
    } else if s[0] == '"' {
      TokensHoldOnlyExec(s[1..], state.(quoted := !state.quoted, hasToken := true), c);
    } else if s[0] == '\\' {
      if |s| > 1 {
        if !state.quoted || IsReserved(s[1]) {
          TokensHoldOnlyExec(s[2..], state.Push(s[1]), c);
        } else {
          TokensHoldOnlyExec(s[1..], state.Push('\\'), c);
        }
      }
    } else if IsWhite(s[0]) && !state.quoted {
      TokensHoldOnlyExec(s[1..], state.Flush(), c);
    } else {
      TokensHoldOnlyExec(s[1..], state.Push(s[0]), c);
    }
  }

  lemma {:induction false} InlineHoldsOnlyToken(token: string, toPath: string -> Option<string>, c: char)
    requires c !in token && c != '%'
    ensures c !in Inline(token, [], toPath).0
  {
    if token == "" {
    } else if token[0] != '%' {
      InlineHoldsOnlyToken(token[1..], toPath, c);
    } else if |token| > 1 {
      InlineHoldsOnlyToken(token[2..], toPath, c);
      CodeWithoutUris(token[1], toPath);
    }
  }

  lemma CodeWithoutUris(code: char, toPath: string -> Option<string>)
    ensures Code(code, [], toPath) == "" || Code(code, [], toPath) == "%"
  {
  }

  lemma {:induction false} ArgsHoldOnlyTokens(tokens: seq<string>, toPath: string -> Option<string>, c: char)
    requires c != '%' && forall t | t in tokens :: c !in t
    ensures forall arg | arg in ExpandTokens(tokens, [], toPath).0 :: c !in arg
  {
    hide Inline, Code;
    if tokens != [] {
      InlineHoldsOnlyToken(tokens[0], toPath, c);
      assert Paths([], toPath) == [];
      ArgsHoldOnlyTokens(tokens[1..], toPath, c);
    }
  }

  lemma ExpandedHoldsNoNewline(exec: string, toPath: string -> Option<string>)
    requires '\n' !in exec
    ensures !HasNewline(Expanded(exec, [], toPath))
  {
    hide Lex, ExpandTokens;
    TokensHoldOnlyExec(exec, FRESH, '\n');
    ArgsHoldOnlyTokens(Lex(exec, FRESH), toPath, '\n');
    var argv := ExpandTokens(Lex(exec, FRESH), [], toPath).0;
    assert argv + [] == argv;
  }

  // ---------- the round trip ----------

  lemma EntryLinesAreLines(appId: string, args: seq<string>, dbusActivatable: bool)
    requires '\n' !in appId && !HasNewline(args)
    ensures SplitLines(RenderDesktopEntry(appId, args, dbusActivatable)) == EntryLines(appId, args, dbusActivatable)
  {
    hide Printed, HasNewline;
    PrintedKeepsNewline(args);
    LineOf("[Desktop Entry]");
    LineOf("Type=Application");
    LineOf("Name=" + appId);
    LineOf("Exec=" + Printed(args));
    LineOf("DBusActivatable=true");
    LineOf("X-Tessera-Portal=background");
    LiteralLines();
    SplitUndoesFlatten(EntryLines(appId, args, dbusActivatable));
  }

  lemma LineOf(body: string)
    ensures '\n' !in body ==> OneLine(body + "\n") && Terminated(body + "\n")
  {
    assert (body + "\n")[..|body|] == body;
  }

  lemma LiteralLines()
    ensures "[Desktop Entry]" + "\n" == "[Desktop Entry]\n"
    ensures "Type=Application" + "\n" == "Type" + "=" + "Application" + "\n" == "Type=Application\n"
    ensures "DBusActivatable=true" + "\n" == "DBusActivatable" + "=" + "true" + "\n" == "DBusActivatable=true\n"
    ensures "X-Tessera-Portal=background" + "\n" == "X-Tessera-Portal" + "=" + "background" + "\n" == "X-Tessera-Portal=background\n"
  {
  }

  lemma ReadKeysStep(lines: seq<string>, keys: Keys, next: Keys)
    requires lines != [] && MimeApps.HeaderOf(lines[0]).None? && SetFrom(keys, lines[0]) == Some(next)
    ensures ReadKeys(lines, true, keys) == ReadKeys(lines[1..], true, next)
  {
    hide MimeApps.HeaderOf, SetFrom;
  }

  lemma TypeLineReads(keys: Keys)
    ensures MimeApps.HeaderOf("Type=Application\n").None? && SetFrom(keys, "Type=Application\n") == Some(keys)
  {
    hide SetFrom, SetKey, MimeApps.HeaderOf;
    assert "Type"[0] == 'T' && "Type"[3] == 'e' && "Application"[0] == 'A' && "Application"[10] == 'n';
    LiteralLines();
    EntryLineReads("Type", "Application");
    KeysAfter(keys, "Application");
  }

  lemma ActivatableLineReads(keys: Keys)
    ensures MimeApps.HeaderOf("DBusActivatable=true\n").None? && SetFrom(keys, "DBusActivatable=true\n") == Some(keys)
  {
    hide SetFrom, SetKey, MimeApps.HeaderOf;
    assert "DBusActivatable"[0] == 'D' && "DBusActivatable"[14] == 'e' && "true"[0] == 't' && "true"[3] == 'e';
    LiteralLines();
    EntryLineReads("DBusActivatable", "true");
    KeysAfter(keys, "true");
  }

  lemma MarkerLineReads(keys: Keys)
    ensures MimeApps.HeaderOf("X-Tessera-Portal=background\n").None?
    ensures SetFrom(keys, "X-Tessera-Portal=background\n") == Some(keys)
  {
    hide SetFrom, SetKey, MimeApps.HeaderOf;
    assert "X-Tessera-Portal"[0] == 'X' && "X-Tessera-Portal"[15] == 'l';
    assert "background"[0] == 'b' && "background"[9] == 'd';
    LiteralLines();
    EntryLineReads("X-Tessera-Portal", "background");
    KeysAfter(keys, "background");
  }

  /** The reader on the written lines: everything is skipped but Name and Exec. */
  lemma EntryReads(appId: string, args: seq<string>, dbusActivatable: bool)
    requires '\n' !in appId && !HasNewline(args)
    ensures var exec := Printed(args);
            var app := ParseDesktop(RenderDesktopEntry(appId, args, dbusActivatable), appId);
            app.Some? == (Utf8Len(exec) <= MAX_EXEC_BYTES) && (app.Some? ==> app.value.exec == exec)
  {
    hide Printed, HasNewline, SetFrom, SetKey, MimeApps.HeaderOf, Utf8Len, RenderDesktopEntry, SplitLines;
    var exec := Printed(args);
    var lines := EntryLines(appId, args, dbusActivatable);
    EntryLinesAreLines(appId, args, dbusActivatable);
    LiteralLines();
    GroupLineReads();
    var afterName := NO_KEYS.(name := Some(Trim(appId)));
    var afterExec := if Utf8Len(exec) <= MAX_EXEC_BYTES then afterName.(exec := Some(exec)) else afterName;
    TypeLineReads(NO_KEYS);
    ReadKeysStep(lines[1..], NO_KEYS, NO_KEYS);
    NameLineReads(appId);
    KeysAfter(NO_KEYS, Trim(appId));
    assert lines[1..][1..] == lines[2..];
    ReadKeysStep(lines[2..], NO_KEYS, afterName);
    ExecLineReads(args, afterName);
    assert lines[2..][1..] == lines[3..];
    ReadKeysStep(lines[3..], afterName, afterExec);
    assert lines[3..][1..] == lines[4..];
    TailReads(lines[4..], dbusActivatable, afterExec);
  }

  lemma ExecLineReads(args: seq<string>, keys: Keys)
    ensures var line := "Exec=" + Printed(args) + "\n";
            MimeApps.HeaderOf(line).None?
            && SetFrom(keys, line)
            == Some(if Utf8Len(Printed(args)) <= MAX_EXEC_BYTES then keys.(exec := Some(Printed(args))) else keys)
  {
    hide Printed, Utf8Len, SetFrom, SetKey, MimeApps.HeaderOf;
    var exec := Printed(args);
    PrintedIsTrimmed(args);
    EntryLineReads("Exec", exec);
    assert "Exec" + "=" + exec + "\n" == "Exec=" + exec + "\n";
    KeysAfter(keys, exec);
  }

  lemma TailReads(lines: seq<string>, dbusActivatable: bool, keys: Keys)
    requires lines == (if dbusActivatable then ["DBusActivatable=true\n"] else []) + ["X-Tessera-Portal=background\n"]
    ensures ReadKeys(lines, true, keys) == Some(keys)
  {
    hide SetFrom, MimeApps.HeaderOf;
    LiteralLines();
    if dbusActivatable {
      ActivatableLineReads(keys);
      ReadKeysStep(lines, keys, keys);
    }
    var last := lines[|lines| - 1..];
    MarkerLineReads(keys);
    ReadKeysStep(last, keys, keys);
    assert last[1..] == [];
  }

  /** An autostart entry starts exactly the granted command line when, and only
      when, no argument is empty or holds a newline and the rendered line is
      within the reader's cap. */
  lemma AutostartRoundTripIff(appId: string, args: seq<string>, dbusActivatable: bool, toPath: string -> Option<string>)
    requires '\n' !in appId
    ensures Recovers(appId, args, dbusActivatable, toPath) <==>
            "" !in args && !HasNewline(args) && Utf8Len(Printed(args)) <= MAX_EXEC_BYTES
  {
    hide Printed, Expanded, Utf8Len, RenderDesktopEntry, ReadKeys, SplitLines, HasNewline;
    var text := RenderDesktopEntry(appId, args, dbusActivatable);
    if HasNewline(args) {
      ExecReadHoldsNoNewline(text, appId);
      var app := ParseDesktop(text, appId);
      if app.Some? { ExpandedHoldsNoNewline(app.value.exec, toPath); }
    } else {
      EntryReads(appId, args, dbusActivatable);
      RoundTripIff(args, [], toPath);
      assert args + [] == args;
    }
  }

  lemma ExecReadHoldsNoNewline(text: string, id: string)
    ensures var app := ParseDesktop(text, id); app.Some? ==> '\n' !in app.value.exec
  {
    hide ReadKeys;
    KeysHoldNoNewline(SplitLines(text), false, NO_KEYS);
  }

  // ---------- what a request admits ----------

  const MAX_APP_ID_BYTES: nat := 255
  const MAX_COMMANDLINE_ARGS: nat := 64
  const MAX_ARG_BYTES: nat := 4 * 1024

  predicate IsControl(c: char)
  {
    c < ' ' || '\U{7F}' <= c <= '\U{9F}'
  }

  predicate AdmitsAppId(appId: string)
  {
    && appId != "" && Utf8Len(appId) <= MAX_APP_ID_BYTES
    && forall i | 0 <= i < |appId| :: appId[i] != '/' && appId[i] != '\\' && !IsControl(appId[i])
  }

  /** The checks a request passes before the user is asked. */
  predicate Admits(appId: string, args: seq<string>)
  {
    && AdmitsAppId(appId) && |args| <= MAX_COMMANDLINE_ARGS
    && forall i | 0 <= i < |args| :: args[i] != "" && Utf8Len(args[i]) <= MAX_ARG_BYTES && '\0' !in args[i]
  }

  /** Of the admitted requests, exactly those start what was granted whose
      arguments hold no newline and print within the reader's cap: the checks
      rule out the other ways to lose an argument, and only those. */
  lemma AdmittedStartsIff(appId: string, args: seq<string>, dbusActivatable: bool, toPath: string -> Option<string>)
    requires Admits(appId, args)
    ensures Recovers(appId, args, dbusActivatable, toPath) <==> !HasNewline(args) && Utf8Len(Printed(args)) <= MAX_EXEC_BYTES
  {
    hide Recovers, Printed, Utf8Len, HasNewline;
    assert '\n' !in appId by { assert IsControl('\n'); }
    assert "" !in args;
    AutostartRoundTripIff(appId, args, dbusActivatable, toPath);
  }

  lemma NewlineIsAdmitted(dbusActivatable: bool, toPath: string -> Option<string>)
    ensures Admits("a", ["\n"]) && !Recovers("a", ["\n"], dbusActivatable, toPath)
  {
    assert Utf8Len("a") == 1 && Utf8Len("\n") == 1 by { assert "a"[1..] == "" && "\n"[1..] == ""; }
    assert ["\n"][0] == "\n";
    assert Admits("a", ["\n"]);
    hide Recovers, Printed, Utf8Len;
    AdmittedStartsIff("a", ["\n"], dbusActivatable, toPath);
  }
}
