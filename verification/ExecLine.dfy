/** Desktop Entry `Exec` lines: the printer that quotes one argument, and the
    reader that splits a line into tokens and expands field codes. */
module ExecLine {
  import opened Wrappers
  import opened Text

  // ---------- the printer ----------

  predicate IsAlphanumeric(c: char)
  {
    '0' <= c <= '9' || 'A' <= c <= 'Z' || 'a' <= c <= 'z'
  }

  /** The characters an argument may hold without being quoted. */
  predicate IsSafe(c: char)
  {
    IsAlphanumeric(c) || c in "-_./:@%=,~+"
  }

  /** The characters that stay special inside double quotes. */
  predicate IsReserved(c: char)
  {
    c == '"' || c == '`' || c == '$' || c == '\\'
  }

  function Escaped(arg: string): string
  {
    if arg == "" then ""
    else (if IsReserved(arg[0]) then ['\\', arg[0]] else [arg[0]]) + Escaped(arg[1..])
  }

  function Doubled(s: string): string
  {
    if s == "" then "" else (if s[0] == '%' then "%%" else [s[0]]) + Doubled(s[1..])
  }

  predicate Plain(arg: string)
  {
    arg != "" && forall i | 0 <= i < |arg| :: IsSafe(arg[i])
  }

  function Quoted(arg: string): string
  {
    Doubled(if Plain(arg) then arg else ['"'] + Escaped(arg) + ['"'])
  }

  lemma {:induction false} EscapedConcat(a: string, b: string)
    ensures Escaped(a + b) == Escaped(a) + Escaped(b)
  {
    if a == "" {
      assert a + b == b;
    } else {
      assert (a + b)[1..] == a[1..] + b;
      EscapedConcat(a[1..], b);
    }
  }

  lemma {:induction false} DoubledConcat(a: string, b: string)
    ensures Doubled(a + b) == Doubled(a) + Doubled(b)
  {
    if a == "" {
      assert a + b == b;
    } else {
      assert (a + b)[1..] == a[1..] + b;
      DoubledConcat(a[1..], b);
    }
  }

  lemma DoubledStep(arg: string)
    ensures arg == "" ==> Doubled(arg) == ""
    ensures arg != "" ==> Doubled(arg) == (if arg[0] == '%' then "%%" else [arg[0]]) + Doubled(arg[1..])
  {
  }

  lemma NothingEscaped()
    ensures Escaped("") == ""
  {
  }

  lemma DoubledOne(c: char)
    ensures Doubled([c]) == if c == '%' then "%%" else [c]
    ensures Escaped([c]) == if IsReserved(c) then ['\\', c] else [c]
  {
    assert [c][1..] == "";
  }

  method QuoteExecArg(arg: string) returns (rendered: string)
    ensures rendered == Quoted(arg)
  {
    hide IsSafe, IsReserved, Escaped, Doubled;
    NothingEscaped();
    if arg != "" && forall i | 0 <= i < |arg| :: IsSafe(arg[i]) {
      rendered := arg;
    } else {
      rendered := ['"'];
      for i := 0 to |arg|
        invariant rendered == ['"'] + Escaped(arg[..i])
      {
        assert arg[..i + 1] == arg[..i] + [arg[i]];
        EscapedConcat(arg[..i], [arg[i]]);
        DoubledOne(arg[i]);
        if IsReserved(arg[i]) {
          rendered := rendered + ['\\'];
        }
        rendered := rendered + [arg[i]];
      }
      assert arg[..|arg|] == arg;
      rendered := rendered + ['"'];
    }
    rendered := Doubled(rendered);
  }

  // ---------- the splitter ----------

  datatype Lexer = Lexer(tokens: seq<string>, token: string, quoted: bool, hasToken: bool)
  {
    function Push(c: char): Lexer
    {
      this.(token := token + [c], hasToken := true)
    }

    function Flush(): Lexer
    {
      if hasToken then Lexer(tokens + [token], "", quoted, false) else this
    }
  }

  const FRESH := Lexer([], "", false, false)

  function Lex(s: string, state: Lexer): (tokens: seq<string>)
    decreases |s|
  {
    if s == "" then state.Flush().tokens
    else if s[0] == '"' then Lex(s[1..], state.(quoted := !state.quoted, hasToken := true))
    else if s[0] == '\\' then
      if |s| == 1 then state.Flush().tokens
      else if !state.quoted || IsReserved(s[1]) then Lex(s[2..], state.Push(s[1]))
      else Lex(s[1..], state.Push('\\'))
    else if IsWhite(s[0]) && !state.quoted then Lex(s[1..], state.Flush())
    else Lex(s[1..], state.Push(s[0]))
  }

  method SplitExec(exec: string) returns (tokens: seq<string>)
    ensures tokens == Lex(exec, FRESH)
  {
    hide IsWhite, IsReserved;
    tokens := [];
    var token, quoted, hasToken := "", false, false;
    var i := 0;
    while i < |exec|
      invariant i <= |exec|
      invariant Lex(exec[i..], Lexer(tokens, token, quoted, hasToken)) == Lex(exec, FRESH)
      invariant !hasToken ==> token == ""
    {
      var c := exec[i];
      assert exec[i..][0] == c && exec[i..][1..] == exec[i + 1..];
      if c == '"' {
        quoted := !quoted;
        hasToken := true;
      } else if c == '\\' {
        if i + 1 == |exec| {
          break;
        }
        var next := exec[i + 1];
        assert exec[i..][1] == next && exec[i..][2..] == exec[i + 2..];
        if !quoted || IsReserved(next) {
          token := token + [next];
          i := i + 1;
        } else {
          token := token + ['\\'];
        }
        hasToken := true;
      } else if IsWhite(c) && !quoted {
        if hasToken {
          tokens := tokens + [token];
          token, hasToken := "", false;
        }
      } else {
        token := token + [c];
        hasToken := true;
      }
      i := i + 1;
    }
    if hasToken {
      tokens := tokens + [token];
    }
  }

  // ---------- field-code expansion ----------

  /** The paths of the URIs that `toPath` resolves. */
  function Paths(uris: seq<string>, toPath: string -> Option<string>): seq<string>
  {
    if uris == [] then []
    else (match toPath(uris[0]) case Some(path) => [path] case None => []) + Paths(uris[1..], toPath)
  }

  function FirstUri(uris: seq<string>): string
  {
    if uris == [] then "" else uris[0]
  }

  function FirstPath(uris: seq<string>, toPath: string -> Option<string>): Option<string>
  {
    if uris == [] then None else toPath(uris[0])
  }

  predicate IsUriCode(code: char)
  {
    code == 'u' || code == 'U' || code == 'f' || code == 'F'
  }

  /** What an embedded field code stands for. */
  function Code(code: char, uris: seq<string>, toPath: string -> Option<string>): string
  {
    match code
    case '%' => "%"
    case 'u' => FirstUri(uris)
    case 'U' => Join(uris, " ")
    case 'f' => (match FirstPath(uris, toPath) case Some(path) => path case None => "")
    case 'F' => Join(Paths(uris, toPath), " ")
    case _ => ""
  }

  /** A token with its embedded codes expanded, and whether one named a URI. */
  function Inline(token: string, uris: seq<string>, toPath: string -> Option<string>): (string, bool)
  {
    if token == "" then ("", false)
    else if token[0] != '%' then
      var (rest, used) := Inline(token[1..], uris, toPath);
      ([token[0]] + rest, used)
    else if |token| == 1 then ("", false)
    else
      var (rest, used) := Inline(token[2..], uris, toPath);
      (Code(token[1], uris, toPath) + rest, used || IsUriCode(token[1]))
  }

  /** The arguments one token becomes, and whether it used the URIs. */
  function ExpandToken(token: string, uris: seq<string>, toPath: string -> Option<string>): (seq<string>, bool)
  {
    if token == "%u" then (if uris == [] then [] else [uris[0]], true)
    else if token == "%U" then (uris, true)
    else if token == "%f" then
      ((match FirstPath(uris, toPath) case Some(path) => [path] case None => []), true)
    else if token == "%F" then (Paths(uris, toPath), true)
    else
      var (expanded, used) := Inline(token, uris, toPath);
      (if expanded == "" then [] else [expanded], used)
  }

  function ExpandTokens(tokens: seq<string>, uris: seq<string>, toPath: string -> Option<string>): (seq<string>, bool)
  {
    if tokens == [] then ([], false)
    else
      var (args, used) := ExpandToken(tokens[0], uris, toPath);
      var (rest, later) := ExpandTokens(tokens[1..], uris, toPath);
      (args + rest, used || later)
  }

  function Expanded(exec: string, uris: seq<string>, toPath: string -> Option<string>): seq<string>
  {
    var (argv, used) := ExpandTokens(Lex(exec, FRESH), uris, toPath);
    if used then argv else argv + uris
  }

  method ExpandInline(token: string, uris: seq<string>, toPath: string -> Option<string>)
    returns (expanded: string, used: bool)
    ensures (expanded, used) == Inline(token, uris, toPath)
  {
    hide Code, IsUriCode, Inline;
    expanded, used := "", false;
    var i := 0;
    assert token[0..] == token;
    while i < |token|
      invariant i <= |token|
      invariant Inline(token, uris, toPath).0 == expanded + Inline(token[i..], uris, toPath).0
      invariant Inline(token, uris, toPath).1 == (used || Inline(token[i..], uris, toPath).1)
    {
      InlineStep(token, i, uris, toPath);
      if token[i] != '%' {
        expanded := expanded + [token[i]];
        i := i + 1;
        continue;
      }
      if i + 1 == |token| {
        i := i + 1;
        break;
      }
      used := used || IsUriCode(token[i + 1]);
      expanded := expanded + Code(token[i + 1], uris, toPath);
      i := i + 2;
    }
    InlineEnd(uris, toPath);
    assert token[i..] == "" && expanded + "" == expanded;
  }

  lemma InlineEnd(uris: seq<string>, toPath: string -> Option<string>)
    ensures Inline("", uris, toPath) == ("", false)
  {
  }

  /** One round of the expansion of a token. */
  lemma InlineStep(token: string, i: nat, uris: seq<string>, toPath: string -> Option<string>)
    requires i < |token|
    ensures token[i] != '%' ==> Inline(token[i..], uris, toPath).0 == [token[i]] + Inline(token[i + 1..], uris, toPath).0
    ensures token[i] != '%' ==> Inline(token[i..], uris, toPath).1 == Inline(token[i + 1..], uris, toPath).1
    ensures token[i] == '%' && i + 1 == |token| ==>
              Inline(token[i..], uris, toPath) == Inline(token[i + 1..], uris, toPath) == ("", false)
    ensures token[i] == '%' && i + 1 < |token| ==>
              Inline(token[i..], uris, toPath).0 == Code(token[i + 1], uris, toPath) + Inline(token[i + 2..], uris, toPath).0
    ensures token[i] == '%' && i + 1 < |token| ==>
              Inline(token[i..], uris, toPath).1 == (IsUriCode(token[i + 1]) || Inline(token[i + 2..], uris, toPath).1)
  {
    hide Code, IsUriCode;
    var rest := token[i..];
    assert rest[0] == token[i] && rest[1..] == token[i + 1..];
    if i + 1 < |token| { assert rest[1] == token[i + 1] && rest[2..] == token[i + 2..]; }
  }

  lemma ExpandStep(tokens: seq<string>, uris: seq<string>, toPath: string -> Option<string>, args: seq<string>, used: bool)
    requires tokens != [] && ExpandToken(tokens[0], uris, toPath) == (args, used)
    ensures ExpandTokens(tokens, uris, toPath).0 == args + ExpandTokens(tokens[1..], uris, toPath).0
    ensures ExpandTokens(tokens, uris, toPath).1 == (used || ExpandTokens(tokens[1..], uris, toPath).1)
  {
    hide ExpandToken;
  }

  method ExpandExec(exec: string, uris: seq<string>, toPath: string -> Option<string>) returns (argv: seq<string>)
    ensures argv == Expanded(exec, uris, toPath)
  {
    hide Inline, Paths, FirstPath, Lex, ExpandTokens;
    argv := [];
    var usedUris := false;
    var tokens := SplitExec(exec);
    assert tokens[0..] == tokens;
    for i := 0 to |tokens|
      invariant ExpandTokens(tokens, uris, toPath).0 == argv + ExpandTokens(tokens[i..], uris, toPath).0
      invariant ExpandTokens(tokens, uris, toPath).1 == (usedUris || ExpandTokens(tokens[i..], uris, toPath).1)
    {
      var token := tokens[i];
      assert tokens[i..][0] == token && tokens[i..][1..] == tokens[i + 1..];
      var args: seq<string>, used := [], true;
      if token == "%u" {
        if uris != [] {
          args := [uris[0]];
        }
      } else if token == "%U" {
        args := uris;
      } else if token == "%f" {
        var path := FirstPath(uris, toPath);
        if path.Some? {
          args := [path.value];
        }
      } else if token == "%F" {
        args := Paths(uris, toPath);
      } else {
        var expanded;
        expanded, used := ExpandInline(token, uris, toPath);
        if expanded != "" {
          args := [expanded];
        }
      }
      ExpandStep(tokens[i..], uris, toPath, args, used);
      argv := argv + args;
      usedUris := usedUris || used;
    }
    NoTokens(uris, toPath);
    assert tokens[|tokens|..] == [] && argv + [] == argv;
    if !usedUris {
      argv := argv + uris;
    }
  }

  lemma NoTokens(uris: seq<string>, toPath: string -> Option<string>)
    ensures ExpandTokens([], uris, toPath) == ([], false)
  {
  }

  // ---------- the reader undoes the printer ----------

  function Printed(args: seq<string>): string
  {
    Join(seq(|args|, i requires 0 <= i < |args| => Quoted(args[i])), " ")
  }

  function NonEmpty(args: seq<string>): seq<string>
  {
    if args == [] then [] else (if args[0] == "" then [] else [args[0]]) + NonEmpty(args[1..])
  }

  lemma LexOrdinary(c: char, rest: string, state: Lexer)
    requires c != '"' && c != '\\' && (state.quoted || !IsWhite(c))
    ensures Lex([c] + rest, state) == Lex(rest, state.Push(c))
  {
    hide IsWhite;
    assert ([c] + rest)[1..] == rest;
  }

  lemma LexReserved(c: char, rest: string, state: Lexer)
    requires state.quoted && IsReserved(c)
    ensures Lex(['\\', c] + rest, state) == Lex(rest, state.Push(c))
  {
    hide IsWhite;
    assert (['\\', c] + rest)[2..] == rest;
  }

  lemma LexPercent(rest: string, state: Lexer)
    ensures Lex("%%" + rest, state) == Lex(rest, state.Push('%').Push('%'))
  {
    hide Lex;
    assert "%%" + rest == ['%'] + (['%'] + rest);
    LexOrdinary('%', ['%'] + rest, state);
    LexOrdinary('%', rest, state.Push('%'));
  }

  lemma {:induction false} LexPlain(arg: string, rest: string, state: Lexer)
    requires forall i | 0 <= i < |arg| :: IsSafe(arg[i])
    requires !state.quoted
    ensures Lex(Doubled(arg) + rest, state)
         == Lex(rest, state.(token := state.token + Doubled(arg), hasToken := state.hasToken || arg != ""))
  {
    hide Lex, IsSafe, IsWhite, Doubled;
    DoubledStep(arg);
    if arg == "" {
      assert Doubled(arg) + rest == rest && state.token + "" == state.token;
    } else {
      var c := arg[0];
      SafeIsOrdinary(c);
      var tail := Doubled(arg[1..]) + rest;
      if c == '%' {
        assert Doubled(arg) + rest == "%%" + tail;
        LexPercent(tail, state);
        LexPlain(arg[1..], rest, state.Push('%').Push('%'));
        assert state.token + ['%'] + ['%'] + Doubled(arg[1..]) == state.token + Doubled(arg);
      } else {
        assert Doubled(arg) + rest == [c] + tail;
        LexOrdinary(c, tail, state);
        LexPlain(arg[1..], rest, state.Push(c));
        assert state.token + [c] + Doubled(arg[1..]) == state.token + Doubled(arg);
      }
    }
  }

  lemma SafeIsOrdinary(c: char)
    requires IsSafe(c)
    ensures c != '"' && c != '\\' && !IsWhite(c)
  {
  }

  lemma {:induction false} LexEscaped(arg: string, rest: string, state: Lexer)
    requires state.quoted && state.hasToken
    ensures Lex(Doubled(Escaped(arg)) + rest, state) == Lex(rest, state.(token := state.token + Doubled(arg)))
  {
    hide IsWhite, Lex, IsReserved, Doubled, Escaped;
    DoubledStep(arg);
    if arg == "" {
      DoubledStep(Escaped(""));
      NothingEscaped();
      assert Doubled(Escaped(arg)) + rest == rest && state.token + "" == state.token;
    } else {
      var c := arg[0];
      EscapedStep(arg);
      var tail := Doubled(Escaped(arg[1..])) + rest;
      NotReserved(c);
      if IsReserved(c) {
        assert Doubled(Escaped(arg)) + rest == ['\\', c] + tail;
        LexReserved(c, tail, state);
        LexEscaped(arg[1..], rest, state.Push(c));
        assert state.token + [c] + Doubled(arg[1..]) == state.token + Doubled(arg);
      } else if c == '%' {
        assert Doubled(Escaped(arg)) + rest == "%%" + tail;
        LexPercent(tail, state);
        LexEscaped(arg[1..], rest, state.Push('%').Push('%'));
        assert state.token + ['%'] + ['%'] + Doubled(arg[1..]) == state.token + Doubled(arg);
      } else {
        assert Doubled(Escaped(arg)) + rest == [c] + tail;
        LexOrdinary(c, tail, state);
        LexEscaped(arg[1..], rest, state.Push(c));
        assert state.token + [c] + Doubled(arg[1..]) == state.token + Doubled(arg);
      }
    }
  }

  lemma NotReserved(c: char)
    ensures !IsReserved(c) ==> c != '"' && c != '\\'
    ensures IsReserved(c) ==> c != '%'
  {
  }

  lemma EscapedStep(arg: string)
    requires arg != ""
    ensures Doubled(Escaped(arg))
         == (if IsReserved(arg[0]) then ['\\', arg[0]] else if arg[0] == '%' then "%%" else [arg[0]]) + Doubled(Escaped(arg[1..]))
  {
    var c := arg[0];
    if IsReserved(c) {
      assert ['\\', c] == ['\\'] + [c];
      DoubledConcat(['\\'], [c]);
      DoubledOne('\\');
      DoubledOne(c);
      DoubledConcat(['\\', c], Escaped(arg[1..]));
    } else {
      DoubledOne(c);
      DoubledConcat([c], Escaped(arg[1..]));
    }
  }

  /** One printed argument is read as one token. */
  lemma LexQuoted(arg: string, rest: string, tokens: seq<string>)
    ensures Lex(Quoted(arg) + rest, Lexer(tokens, "", false, false)) == Lex(rest, Lexer(tokens, Doubled(arg), false, true))
  {
    hide IsSafe, IsWhite;
    var start := Lexer(tokens, "", false, false);
    if Plain(arg) {
      LexPlain(arg, rest, start);
      assert "" + Doubled(arg) == Doubled(arg);
    } else {
      QuotedShape(arg);
      var line := Quoted(arg) + rest;
      var inner := Doubled(Escaped(arg)) + (['"'] + rest);
      assert line == ['"'] + inner && line[1..] == inner;
      var inQuotes := Lexer(tokens, "", true, true);
      LexEscaped(arg, ['"'] + rest, inQuotes);
      assert "" + Doubled(arg) == Doubled(arg);
      assert (['"'] + rest)[1..] == rest;
    }
  }

  lemma QuotedShape(arg: string)
    requires !Plain(arg)
    ensures Quoted(arg) == ['"'] + Doubled(Escaped(arg)) + ['"']
  {
    DoubledOne('"');
    DoubledConcat(['"'] + Escaped(arg), ['"']);
    DoubledConcat(['"'], Escaped(arg));
  }

  function DoubledAll(args: seq<string>): seq<string>
  {
    if args == [] then [] else [Doubled(args[0])] + DoubledAll(args[1..])
  }

  lemma PrintedStep(args: seq<string>)
    requires args != []
    ensures Printed(args) == Quoted(args[0]) + if |args| == 1 then "" else " " + Printed(args[1..])
  {
    hide Quoted;
    var all := seq(|args|, i requires 0 <= i < |args| => Quoted(args[i]));
    var rest := args[1..];
    assert all[1..] == seq(|rest|, i requires 0 <= i < |rest| => Quoted(rest[i]));
  }

  /** Splitting never merges, splits or drops a printed argument. */
  lemma {:induction false} LexPrinted(args: seq<string>, tokens: seq<string>)
    ensures Lex(Printed(args), Lexer(tokens, "", false, false)) == tokens + DoubledAll(args)
  {
    hide Quoted, Doubled, IsReserved;
    if args == [] {
      assert Printed(args) == "";
    } else {
      PrintedStep(args);
      var first := Doubled(args[0]);
      var rest := if |args| == 1 then "" else " " + Printed(args[1..]);
      LexQuoted(args[0], rest, tokens);
      if |args| > 1 {
        assert rest[0] == ' ' && rest[1..] == Printed(args[1..]);
        LexPrinted(args[1..], tokens + [first]);
      }
      assert tokens + [first] + DoubledAll(args[1..]) == tokens + DoubledAll(args);
    }
  }

  /** A doubled percent sign is never read as a field code. */
  lemma {:induction false} InlineDoubled(arg: string, uris: seq<string>, toPath: string -> Option<string>)
    ensures Inline(Doubled(arg), uris, toPath) == (arg, false)
  {
    if arg != "" {
      var line := Doubled(arg);
      InlineDoubled(arg[1..], uris, toPath);
      if arg[0] == '%' {
        assert line[2..] == Doubled(arg[1..]) && line[1] == '%';
        assert Code('%', uris, toPath) == "%";
      } else {
        assert line[1..] == Doubled(arg[1..]);
      }
      assert arg == [arg[0]] + arg[1..];
    }
  }

  lemma {:induction false} ExpandDoubled(args: seq<string>, uris: seq<string>, toPath: string -> Option<string>)
    ensures ExpandTokens(DoubledAll(args), uris, toPath) == (NonEmpty(args), false)
  {
    hide Inline;
    if args != [] {
      var token := Doubled(args[0]);
      InlineDoubled(args[0], uris, toPath);
      DoubledIsNoCode(args[0]);
      assert DoubledAll(args)[1..] == DoubledAll(args[1..]);
      ExpandDoubled(args[1..], uris, toPath);
    }
  }

  lemma DoubledIsNoCode(arg: string)
    ensures Doubled(arg) != "%u" && Doubled(arg) != "%U" && Doubled(arg) != "%f" && Doubled(arg) != "%F"
  {
    if arg != "" && arg[0] == '%' {
      assert Doubled(arg)[1] == '%';
      assert "%u"[1] == 'u' && "%U"[1] == 'U' && "%f"[1] == 'f' && "%F"[1] == 'F';
    } else {
      assert arg != "" ==> Doubled(arg)[0] == arg[0];
      assert "%u"[0] == "%U"[0] == "%f"[0] == "%F"[0] == '%';
    }
  }

  /** Reading back a printed command line gives its arguments, the empty ones
      left out, followed by the URIs: no argument is ever read as a field code. */
  lemma ExpandUndoesPrint(args: seq<string>, uris: seq<string>, toPath: string -> Option<string>)
    ensures Expanded(Printed(args), uris, toPath) == NonEmpty(args) + uris
  {
    hide Printed, Lex, ExpandTokens, NonEmpty;
    LexPrinted(args, []);
    assert [] + DoubledAll(args) == DoubledAll(args);
    ExpandDoubled(args, uris, toPath);
  }

  lemma {:induction false} NonEmptyIsAll(args: seq<string>)
    ensures |NonEmpty(args)| <= |args|
    ensures NonEmpty(args) == args <==> "" !in args
  {
    if args != [] {
      NonEmptyIsAll(args[1..]);
      assert args == [args[0]] + args[1..];
    }
  }

  /** The round trip is exact for exactly the command lines without an empty argument. */
  lemma RoundTripIff(args: seq<string>, uris: seq<string>, toPath: string -> Option<string>)
    ensures Expanded(Printed(args), uris, toPath) == args + uris <==> "" !in args
  {
    hide Printed, Expanded, NonEmpty;
    ExpandUndoesPrint(args, uris, toPath);
    NonEmptyIsAll(args);
    if NonEmpty(args) + uris == args + uris {
      assert |NonEmpty(args)| == |args|;
      assert NonEmpty(args) == (NonEmpty(args) + uris)[..|args|] == args;
    }
  }

  /** An argument that is lost. */
  lemma EmptyArgumentIsLost(toPath: string -> Option<string>)
    ensures Expanded(Printed(["run", "", "x"]), [], toPath) == ["run", "x"]
  {
    hide Printed, Expanded;
    ExpandUndoesPrint(["run", "", "x"], [], toPath);
    assert ["run", "", "x"][1..] == ["", "x"] && ["", "x"][1..] == ["x"] && ["x"][1..] == [];
    assert NonEmpty(["x"]) == ["x"] && NonEmpty(["", "x"]) == ["x"];
  }
}
