/** What a reader of Exec lines makes of any line: how it is split, and what
    each field code stands for. */
module ExecTemplates {
  import opened Wrappers
  import opened Text
  import opened ExecLine

  // ---------- splitting ----------

  /** A character inside double quotes: as it is, escaped by a backslash, or
      behind a backslash that escapes nothing and stays. */
  datatype Inner = Same(c: char) | Escape(c: char) | Behind(c: char)

  /** A stretch of a word: a character, one escaped by a backslash, or a quoted
      string. */
  datatype Stretch = Bare(c: char) | Slashed(c: char) | InQuotes(inner: seq<Inner>)

  predicate InnerOk(q: Inner)
  {
    match q
    case Same(c) => c != '"' && c != '\\'
    case Escape(c) => c == '"' || c == '`' || c == '$' || c == '\\'
    case Behind(c) => !(c == '"' || c == '`' || c == '$' || c == '\\')
  }

  predicate StretchOk(b: Stretch)
  {
    match b
    case Bare(c) => c != '"' && c != '\\' && !IsWhite(c)
    case Slashed(_) => true
    case InQuotes(inner) => forall q <- inner :: InnerOk(q)
  }

  function InnerWritten(inner: seq<Inner>): string
  {
    if inner == [] then "" else (if inner[0].Same? then [inner[0].c] else ['\\', inner[0].c]) + InnerWritten(inner[1..])
  }

  function InnerMeant(inner: seq<Inner>): string
  {
    if inner == [] then "" else (if inner[0].Behind? then ['\\', inner[0].c] else [inner[0].c]) + InnerMeant(inner[1..])
  }

  function StretchWritten(b: Stretch): string
  {
    match b
    case Bare(c) => [c]
    case Slashed(c) => ['\\', c]
    case InQuotes(inner) => ['"'] + InnerWritten(inner) + ['"']
  }

  function StretchMeant(b: Stretch): string
  {
    match b
    case Bare(c) => [c]
    case Slashed(c) => [c]
    case InQuotes(inner) => InnerMeant(inner)
  }

  function WordWritten(word: seq<Stretch>): string
  {
    if word == [] then "" else StretchWritten(word[0]) + WordWritten(word[1..])
  }

  function WordMeant(word: seq<Stretch>): string
  {
    if word == [] then "" else StretchMeant(word[0]) + WordMeant(word[1..])
  }

  /** A word and the white space before it. */
  datatype Spaced = Spaced(gap: string, word: seq<Stretch>)

  predicate SpacedOk(s: Spaced)
  {
    s.word != [] && (forall b <- s.word :: StretchOk(b)) && Blank(s.gap)
  }

  /** A line of words, all but the first one behind some white space. */
  predicate LineOk(line: seq<Spaced>)
  {
    && (forall s <- line :: SpacedOk(s))
    && (forall i | 1 <= i < |line| :: line[i].gap != "")
  }

  function LineWritten(line: seq<Spaced>): string
  {
    if line == [] then "" else line[0].gap + WordWritten(line[0].word) + LineWritten(line[1..])
  }

  function WordsMeant(line: seq<Spaced>): seq<string>
  {
    if line == [] then [] else [WordMeant(line[0].word)] + WordsMeant(line[1..])
  }

  lemma InnerStep(inner: seq<Inner>)
    requires inner != []
    ensures InnerWritten(inner) == (if inner[0].Same? then [inner[0].c] else ['\\', inner[0].c]) + InnerWritten(inner[1..])
    ensures InnerMeant(inner) == (if inner[0].Behind? then ['\\', inner[0].c] else [inner[0].c]) + InnerMeant(inner[1..])
  {
  }

  lemma Regroup(a: string, b: string, c: string)
    ensures a + b + c == a + (b + c)
  {
  }

  lemma {:induction false} LexInner(inner: seq<Inner>, rest: string, state: Lexer)
    requires state.quoted && state.hasToken && forall q <- inner :: InnerOk(q)
    ensures Lex(InnerWritten(inner) + rest, state) == Lex(rest, state.(token := state.token + InnerMeant(inner)))
  {
    if inner == [] {
      assert InnerWritten(inner) + rest == rest && state.token + InnerMeant(inner) == state.token;
    } else {
      assert InnerOk(inner[0]);
      InnerStep(inner);
      hide Lex, IsWhite, InnerWritten, InnerMeant, InnerOk;
      var tail, read := InnerWritten(inner[1..]) + rest, if inner[0].Behind? then ['\\', inner[0].c] else [inner[0].c];
      Regroup(if inner[0].Same? then [inner[0].c] else ['\\', inner[0].c], InnerWritten(inner[1..]), rest);
      Regroup(state.token, read, InnerMeant(inner[1..]));
      LexOneInner(inner[0], tail, state);
      LexInner(inner[1..], rest, state.(token := state.token + read));
    }
  }

  lemma LexOneInner(q: Inner, tail: string, state: Lexer)
    requires state.quoted && state.hasToken && InnerOk(q)
    ensures Lex((if q.Same? then [q.c] else ['\\', q.c]) + tail, state)
         == Lex(tail, state.(token := state.token + if q.Behind? then ['\\', q.c] else [q.c]))
  {
    hide Lex, IsWhite;
    if q.Same? {
      LexOrdinary(q.c, tail, state);
    } else {
      LexSlash(q.c, tail, state);
      Regroup(state.token, ['\\'], [q.c]);
      assert ['\\'] + [q.c] == ['\\', q.c];
    }
  }

  /** A backslash outside quotes, or before a reserved character, escapes; any
      other one inside quotes stays. */
  lemma LexSlash(c: char, rest: string, state: Lexer)
    ensures Lex(['\\', c] + rest, state)
         == if !state.quoted || IsReserved(c) then Lex(rest, state.Push(c)) else Lex(rest, state.Push('\\').Push(c))
  {
    hide IsWhite;
    assert (['\\', c] + rest)[1..] == [c] + rest && (['\\', c] + rest)[2..] == rest;
    if state.quoted && !IsReserved(c) { LexOrdinary(c, rest, state.Push('\\')); }
  }

  lemma LexQuote(rest: string, state: Lexer)
    ensures Lex(['"'] + rest, state) == Lex(rest, state.(quoted := !state.quoted, hasToken := true))
  {
    assert (['"'] + rest)[1..] == rest;
  }

  lemma LexStretch(b: Stretch, rest: string, state: Lexer)
    requires !state.quoted && StretchOk(b)
    ensures Lex(StretchWritten(b) + rest, state)
         == Lex(rest, state.(token := state.token + StretchMeant(b), hasToken := true))
  {
    hide Lex, IsReserved, InnerWritten, InnerMeant;
    match b {
      case Bare(c) => LexOrdinary(c, rest, state);
      case Slashed(c) => LexSlash(c, rest, state);
      case InQuotes(inner) =>
        assert StretchWritten(b) + rest == ['"'] + (InnerWritten(inner) + (['"'] + rest));
        LexQuote(InnerWritten(inner) + (['"'] + rest), state);
        var open := state.(quoted := true, hasToken := true);
        LexInner(inner, ['"'] + rest, open);
        LexQuote(rest, open.(token := state.token + InnerMeant(inner)));
    }
  }

  lemma {:induction false} LexWord(word: seq<Stretch>, rest: string, state: Lexer)
    requires !state.quoted && forall b <- word :: StretchOk(b)
    ensures Lex(WordWritten(word) + rest, state)
         == Lex(rest, state.(token := state.token + WordMeant(word), hasToken := state.hasToken || word != []))
  {
    hide Lex, StretchWritten, StretchMeant, StretchOk;
    if word == [] {
      assert WordWritten(word) + rest == rest && state.token + "" == state.token;
    } else {
      var tail := WordWritten(word[1..]) + rest;
      assert WordWritten(word) + rest == StretchWritten(word[0]) + tail;
      LexStretch(word[0], tail, state);
      LexWord(word[1..], rest, state.(token := state.token + StretchMeant(word[0]), hasToken := true));
      assert state.token + StretchMeant(word[0]) + WordMeant(word[1..]) == state.token + WordMeant(word);
    }
  }

  /** White space ends a word once, however much of it there is. */
  lemma {:induction false} LexGap(gap: string, rest: string, state: Lexer)
    requires !state.quoted && Blank(gap) && (!state.hasToken ==> state.token == "")
    ensures Lex(gap + rest, state) == Lex(rest, if gap == "" then state else state.Flush())
  {
    if gap == "" {
      assert gap + rest == rest;
    } else {
      assert IsWhite(gap[0]) && gap[0] != '"' && gap[0] != '\\';
      assert (gap + rest)[1..] == gap[1..] + rest;
      LexGap(gap[1..], rest, state.Flush());
      assert state.Flush().Flush() == state.Flush();
      hide Lex, IsWhite;
    }
  }

  /** The splitter behind a line of words that follow a word. */
  function ReadOn(line: seq<Spaced>, read: Lexer): Lexer
    decreases |line|
  {
    if line == [] then read
    else ReadOn(line[1..], Lexer(read.tokens + [read.token], WordMeant(line[0].word), false, true))
  }

  function ReadUp(line: seq<Spaced>): Lexer
    requires line != []
  {
    ReadOn(line[1..], Lexer([], WordMeant(line[0].word), false, true))
  }

  lemma {:induction false} ReadOnIs(line: seq<Spaced>, read: Lexer)
    requires !read.quoted && read.hasToken
    ensures var r := ReadOn(line, read);
            !r.quoted && r.hasToken && r.tokens + [r.token] == read.tokens + [read.token] + WordsMeant(line)
    decreases |line|
  {
    hide WordMeant;
    var words := read.tokens + [read.token];
    if line == [] {
      assert words + WordsMeant(line) == words;
    } else {
      var first := WordMeant(line[0].word);
      ReadOnIs(line[1..], Lexer(words, first, false, true));
      assert words + [first] + WordsMeant(line[1..]) == words + ([first] + WordsMeant(line[1..]));
    }
  }

  lemma ReadUpIs(line: seq<Spaced>)
    requires line != []
    ensures var r := ReadUp(line); !r.quoted && r.hasToken && r.tokens + [r.token] == WordsMeant(line)
  {
    hide WordMeant, ReadOn;
    var first := WordMeant(line[0].word);
    ReadOnIs(line[1..], Lexer([], first, false, true));
    assert [] + [first] + WordsMeant(line[1..]) == [first] + WordsMeant(line[1..]);
  }

  lemma LexLine(line: seq<Spaced>, rest: string)
    requires LineOk(line) && line != []
    ensures Lex(LineWritten(line) + rest, FRESH) == Lex(rest, ReadUp(line))
  {
    var s, tail := line[0], LineWritten(line[1..]) + rest;
    assert SpacedOk(s);
    LineStep(line, rest);
    assert forall t <- line[1..] :: SpacedOk(t) && t.gap != "" by { hide SpacedOk; }
    hide Lex, IsWhite, WordWritten, WordMeant, LineWritten, WordsMeant, ReadOn;
    LexGap(s.gap, WordWritten(s.word) + tail, FRESH);
    LexWord(s.word, tail, FRESH);
    assert "" + WordMeant(s.word) == WordMeant(s.word);
    LexLaterLine(line[1..], rest, Lexer([], WordMeant(s.word), false, true));
  }

  lemma LineStep(line: seq<Spaced>, rest: string)
    requires line != []
    ensures LineWritten(line) + rest == line[0].gap + (WordWritten(line[0].word) + (LineWritten(line[1..]) + rest))
  {
    hide WordWritten;
    Regroup(line[0].gap + WordWritten(line[0].word), LineWritten(line[1..]), rest);
    Regroup(line[0].gap, WordWritten(line[0].word), LineWritten(line[1..]) + rest);
  }

  /** Behind white space the word read so far is complete. */
  lemma {:induction false} LexLaterLine(line: seq<Spaced>, rest: string, read: Lexer)
    requires (forall s <- line :: SpacedOk(s) && s.gap != "") && !read.quoted && read.hasToken
    ensures Lex(LineWritten(line) + rest, read) == Lex(rest, ReadOn(line, read))
    decreases |line|
  {
    if line == [] {
      assert LineWritten(line) + rest == rest;
    } else {
      LexLaterWord(line, rest, read);
      hide Lex, WordMeant, SpacedOk, LineWritten;
      LexLaterLine(line[1..], rest, Lexer(read.tokens + [read.token], WordMeant(line[0].word), false, true));
    }
  }

  lemma LexLaterWord(line: seq<Spaced>, rest: string, read: Lexer)
    requires line != [] && SpacedOk(line[0]) && line[0].gap != "" && !read.quoted && read.hasToken
    ensures Lex(LineWritten(line) + rest, read)
         == Lex(LineWritten(line[1..]) + rest, Lexer(read.tokens + [read.token], WordMeant(line[0].word), false, true))
  {
    hide Lex, IsWhite, WordWritten, WordMeant, LineWritten;
    var s, tail := line[0], LineWritten(line[1..]) + rest;
    LineStep(line, rest);
    LexGap(s.gap, WordWritten(s.word) + tail, read);
    LexWord(s.word, tail, Lexer(read.tokens + [read.token], "", false, false));
    assert "" + WordMeant(s.word) == WordMeant(s.word);
  }

  /** A line of words is split into exactly those words, whatever white space is
      between and behind them, with quotes and escapes taken away; a backslash at
      its very end is nothing. */
  lemma SplitsIntoWords(line: seq<Spaced>, end: string)
    requires LineOk(line) && Blank(end)
    ensures Lex(LineWritten(line) + end, FRESH) == WordsMeant(line)
    ensures Lex(LineWritten(line) + ['\\'], FRESH) == WordsMeant(line)
  {
    if line == [] {
      assert LineWritten(line) + end == end + "" && LineWritten(line) + ['\\'] == ['\\'];
      LexGap(end, "", FRESH);
    } else {
      hide LineWritten, WordsMeant, ReadUp, LineOk;
      LexLine(line, end);
      LexLine(line, ['\\']);
      ReadUpIs(line);
      LexGap(end, "", ReadUp(line));
      assert end + "" == end;
    }
  }

  /** A quote that is not closed runs to the end of the line, and a backslash
      there is nothing. */
  lemma OpenQuoteRunsOn(line: seq<Spaced>, gap: string, inner: seq<Inner>, cut: bool)
    requires LineOk(line) && Blank(gap) && (line != [] ==> gap != "") && forall q <- inner :: InnerOk(q)
    ensures Lex(LineWritten(line) + (gap + (['"'] + (InnerWritten(inner) + if cut then ['\\'] else ""))), FRESH)
         == WordsMeant(line) + [InnerMeant(inner)]
  {
    hide InnerWritten, InnerMeant, InnerOk;
    var end := if cut then ['\\'] else "";
    var before := Lexer(WordsMeant(line), "", false, false);
    LexUpToQuote(line, gap, ['"'] + (InnerWritten(inner) + end));
    hide LineWritten, WordsMeant, LineOk, Blank;
    LexQuote(InnerWritten(inner) + end, before);
    LexInner(inner, end, before.(quoted := true, hasToken := true));
    assert "" + InnerMeant(inner) == InnerMeant(inner);
  }

  lemma LexUpToQuote(line: seq<Spaced>, gap: string, quote: string)
    requires LineOk(line) && Blank(gap) && (line != [] ==> gap != "")
    ensures Lex(LineWritten(line) + (gap + quote), FRESH) == Lex(quote, Lexer(WordsMeant(line), "", false, false))
  {
    hide Lex;
    if line == [] {
      assert LineWritten(line) + (gap + quote) == gap + quote;
      LexGap(gap, quote, FRESH);
    } else {
      hide LineWritten, WordsMeant, ReadUp, LineOk;
      LexLine(line, gap + quote);
      ReadUpIs(line);
      LexGap(gap, quote, ReadUp(line));
    }
  }

  // ---------- quoting ----------

  /** The characters for which the Desktop Entry Specification, section "The Exec
      key", demands quotes. */
  predicate DemandsQuotes(c: char)
  {
    c in " \t\n\"'\\><~|&;$*?#()`"
  }

  predicate IsQuoted(rendered: string)
  {
    |rendered| >= 2 && rendered[0] == '"' && rendered[|rendered| - 1] == '"'
  }

  /** Letters and digits of ASCII, and a few others. */
  predicate Harmless(c: char)
  {
    'a' <= c <= 'z' || 'A' <= c <= 'Z' || '0' <= c <= '9' || c in "-_./:@%=,~+"
  }

  /** An argument is printed in quotes if and only if it is empty or holds a
      character that is not harmless; otherwise only its percent signs change. */
  lemma PrintedInQuotesIff(arg: string)
    ensures IsQuoted(Quoted(arg)) <==> arg == "" || exists c <- arg :: !Harmless(c)
    ensures !IsQuoted(Quoted(arg)) ==> Quoted(arg) == Doubled(arg)
  {
    assert forall c :: Harmless(c) <==> IsSafe(c);
    assert !Harmless('"');
    hide Harmless, IsSafe;
    if Plain(arg) {
      DoubledHas(arg);
      assert Doubled(arg)[0] in Doubled(arg);
    } else {
      QuotedShape(arg);
    }
  }

  lemma {:induction false} DoubledHas(arg: string)
    ensures forall c <- Doubled(arg) :: c in arg
    ensures arg != "" ==> Doubled(arg) != ""
  {
    if arg != "" { DoubledHas(arg[1..]); }
  }

  /** So every character that demands quotes gets them, unless it is a tilde
      among harmless ones. */
  lemma DemandsAreMetIff(c: char)
    requires DemandsQuotes(c)
    ensures IsQuoted(Quoted([c])) <==> c != '~'
  {
    PrintedInQuotesIff([c]);
    hide Quoted, IsQuoted;
    if c == '~' {
      assert forall d <- [c] :: d == c;
    } else {
      assert c in [c] && !Harmless(c);
    }
  }

  /** Inside the quotes of a printed argument no reserved character stands
      without a backslash before it. */
  lemma {:induction false} ReservedAreEscaped(arg: string, i: nat)
    requires i < |Escaped(arg)| && Escaped(arg)[i] in "\"`$"
    ensures i > 0 && Escaped(arg)[i - 1] == '\\'
  {
    var width := if IsReserved(arg[0]) then 2 else 1;
    if i >= width { ReservedAreEscaped(arg[1..], i - width); }
  }

  // ---------- field codes ----------

  /** A piece of an argument: text, or a field code. */
  datatype Piece = Literal(text: string) | FieldCode(code: char)

  predicate PieceOk(p: Piece)
  {
    p.FieldCode? ==> IsAlphanumeric(p.code)
  }

  /** An argument to be expanded; one of several pieces has no empty ones. */
  predicate TemplateOk(t: seq<Piece>)
  {
    && t != [] && (forall p <- t :: PieceOk(p))
    && (|t| > 1 ==> forall p <- t :: p.Literal? ==> p.text != "")
  }

  /** How it is written: text as the printer does it, codes bare. */
  function PiecesWritten(t: seq<Piece>): string
  {
    if t == [] then "" else (if t[0].Literal? then Quoted(t[0].text) else ['%', t[0].code]) + PiecesWritten(t[1..])
  }

  function PieceToken(p: Piece): string
  {
    if p.Literal? then Doubled(p.text) else ['%', p.code]
  }

  function PiecesToken(t: seq<Piece>): string
  {
    if t == [] then "" else PieceToken(t[0]) + PiecesToken(t[1..])
  }

  /** The text a piece stands for inside an argument. */
  function PieceMeans(p: Piece, uris: seq<string>, toPath: string -> Option<string>): string
  {
    if p.Literal? then p.text
    else if p.code == 'u' then (if uris == [] then "" else uris[0])
    else if p.code == 'U' then Join(uris, " ")
    else if p.code == 'f' then (if uris != [] && toPath(uris[0]).Some? then toPath(uris[0]).value else "")
    else if p.code == 'F' then Join(Paths(uris, toPath), " ")
    else ""
  }

  function PiecesMean(t: seq<Piece>, uris: seq<string>, toPath: string -> Option<string>): string
  {
    if t == [] then "" else PieceMeans(t[0], uris, toPath) + PiecesMean(t[1..], uris, toPath)
  }

  /** The arguments a template becomes: a code that stands alone can become none
      or many, and one that is left with nothing becomes none. */
  function TemplateMeans(t: seq<Piece>, uris: seq<string>, toPath: string -> Option<string>): seq<string>
  {
    if t == [FieldCode('u')] then (if uris == [] then [] else [uris[0]])
    else if t == [FieldCode('U')] then uris
    else if t == [FieldCode('f')] then (if uris != [] && toPath(uris[0]).Some? then [toPath(uris[0]).value] else [])
    else if t == [FieldCode('F')] then Paths(uris, toPath)
    else if PiecesMean(t, uris, toPath) == "" then []
    else [PiecesMean(t, uris, toPath)]
  }

  predicate NamesUri(p: Piece)
  {
    p.FieldCode? && p.code in "uUfF"
  }

  predicate NamesUris(t: seq<Piece>)
  {
    exists p <- t :: NamesUri(p)
  }

  function TemplatesWritten(ts: seq<seq<Piece>>): string
  {
    if ts == [] then "" else PiecesWritten(ts[0]) + (if |ts| == 1 then "" else " " + TemplatesWritten(ts[1..]))
  }

  function TemplatesTokens(ts: seq<seq<Piece>>): seq<string>
  {
    if ts == [] then [] else [PiecesToken(ts[0])] + TemplatesTokens(ts[1..])
  }

  function TemplatesMean(ts: seq<seq<Piece>>, uris: seq<string>, toPath: string -> Option<string>): seq<string>
  {
    if ts == [] then [] else TemplateMeans(ts[0], uris, toPath) + TemplatesMean(ts[1..], uris, toPath)
  }

  function PathOf(uri: string, toPath: string -> Option<string>): seq<string>
  {
    if toPath(uri).Some? then [toPath(uri).value] else []
  }

  lemma PathsStep(uris: seq<string>, toPath: string -> Option<string>)
    ensures Paths(uris, toPath) == if uris == [] then [] else PathOf(uris[0], toPath) + Paths(uris[1..], toPath)
  {
  }

  /** The resolving paths of the URIs, in order: those of the first URIs, then
      those of the others; one URI has one path or none. */
  lemma {:induction false} PathsInOrder(a: seq<string>, b: seq<string>, toPath: string -> Option<string>)
    ensures Paths(a + b, toPath) == Paths(a, toPath) + Paths(b, toPath)
    ensures |a| == 1 ==> Paths(a, toPath) == PathOf(a[0], toPath)
  {
    PathsStep(a, toPath);
    PathsStep(a + b, toPath);
    PathsStep([], toPath);
    hide Paths, PathOf;
    if a == [] {
      assert a + b == b;
    } else {
      assert (a + b)[1..] == a[1..] + b;
      assert |a| == 1 ==> a[1..] == [];
      PathsInOrder(a[1..], b, toPath);
      assert PathOf(a[0], toPath) + (Paths(a[1..], toPath) + Paths(b, toPath)) == PathOf(a[0], toPath) + Paths(a[1..], toPath) + Paths(b, toPath);
    }
  }

  lemma PiecesStep(t: seq<Piece>)
    requires t != []
    ensures PiecesWritten(t) == (if t[0].Literal? then Quoted(t[0].text) else ['%', t[0].code]) + PiecesWritten(t[1..])
    ensures PiecesToken(t) == PieceToken(t[0]) + PiecesToken(t[1..])
  {
  }

  lemma LexPiece(p: Piece, tail: string, state: Lexer)
    requires !state.quoted && PieceOk(p)
    ensures Lex((if p.Literal? then Quoted(p.text) else ['%', p.code]) + tail, state)
         == Lex(tail, state.(token := state.token + PieceToken(p), hasToken := true))
  {
    hide Lex, IsWhite, Quoted, Doubled, IsAlphanumeric;
    if p.Literal? {
      LexQuotedAt(p.text, tail, state);
    } else {
      CodeIsOrdinary(p.code);
      assert ['%', p.code] + tail == ['%'] + ([p.code] + tail);
      LexOrdinary('%', [p.code] + tail, state);
      LexOrdinary(p.code, tail, state.Push('%'));
      Regroup(state.token, ['%'], [p.code]);
      assert ['%'] + [p.code] == ['%', p.code];
    }
  }

  lemma {:induction false} LexPieces(t: seq<Piece>, rest: string, state: Lexer)
    requires !state.quoted && forall p <- t :: PieceOk(p)
    ensures Lex(PiecesWritten(t) + rest, state)
         == Lex(rest, state.(token := state.token + PiecesToken(t), hasToken := state.hasToken || t != []))
  {
    if t == [] {
      assert PiecesWritten(t) + rest == rest && state.token + PiecesToken(t) == state.token;
    } else {
      PiecesStep(t);
      hide Lex, PiecesWritten, PiecesToken, PieceToken, PieceOk, Quoted;
      Regroup(if t[0].Literal? then Quoted(t[0].text) else ['%', t[0].code], PiecesWritten(t[1..]), rest);
      Regroup(state.token, PieceToken(t[0]), PiecesToken(t[1..]));
      LexPiece(t[0], PiecesWritten(t[1..]) + rest, state);
      LexPieces(t[1..], rest, state.(token := state.token + PieceToken(t[0]), hasToken := true));
    }
  }

  lemma CodeIsOrdinary(code: char)
    requires IsAlphanumeric(code)
    ensures code != '"' && code != '\\' && code != '%' && !IsWhite(code) && !IsWhite('%')
  {
  }

  /** Printed text is read into the word it stands in. */
  lemma LexQuotedAt(arg: string, rest: string, state: Lexer)
    requires !state.quoted
    ensures Lex(Quoted(arg) + rest, state) == Lex(rest, state.(token := state.token + Doubled(arg), hasToken := true))
  {
    hide IsSafe, IsWhite, Lex;
    if Plain(arg) {
      LexPlain(arg, rest, state);
    } else {
      QuotedShape(arg);
      var inner := Doubled(Escaped(arg)) + (['"'] + rest);
      assert Quoted(arg) + rest == ['"'] + inner;
      LexQuote(inner, state);
      var open := state.(quoted := true, hasToken := true);
      LexEscaped(arg, ['"'] + rest, open);
      LexQuote(rest, open.(token := state.token + Doubled(arg)));
    }
  }

  lemma {:induction false} LexTemplates(ts: seq<seq<Piece>>, tokens: seq<string>)
    requires forall t <- ts :: TemplateOk(t)
    ensures Lex(TemplatesWritten(ts), Lexer(tokens, "", false, false)) == tokens + TemplatesTokens(ts)
  {
    if ts == [] {
      assert tokens + TemplatesTokens(ts) == tokens;
    } else {
      assert TemplateOk(ts[0]);
      var first := PiecesToken(ts[0]);
      LexTemplate(ts[0], if |ts| == 1 then "" else " " + TemplatesWritten(ts[1..]), tokens);
      hide TemplateOk, PiecesToken, PiecesWritten, Lex;
      assert tokens + TemplatesTokens(ts) == tokens + [first] + TemplatesTokens(ts[1..]);
      if |ts| > 1 {
        assert (" " + TemplatesWritten(ts[1..]))[1..] == TemplatesWritten(ts[1..]);
        LexTemplates(ts[1..], tokens + [first]);
      } else {
        assert ts[1..] == [] && tokens + [first] + [] == tokens + [first];
      }
    }
  }

  /** A template is complete at the end of the line or before a space. */
  lemma LexTemplate(t: seq<Piece>, rest: string, tokens: seq<string>)
    requires TemplateOk(t) && (rest != "" ==> rest[0] == ' ')
    ensures Lex(PiecesWritten(t) + rest, Lexer(tokens, "", false, false))
         == if rest == "" then tokens + [PiecesToken(t)] else Lex(rest[1..], Lexer(tokens + [PiecesToken(t)], "", false, false))
  {
    hide PiecesWritten, PiecesToken, IsReserved;
    LexPieces(t, rest, Lexer(tokens, "", false, false));
    assert "" + PiecesToken(t) == PiecesToken(t);
    assert IsWhite(' ');
  }

  // ---------- expanding ----------

  lemma InlineCharacter(c: char, rest: string, uris: seq<string>, toPath: string -> Option<string>)
    ensures Inline((if c == '%' then "%%" else [c]) + rest, uris, toPath) == ([c] + Inline(rest, uris, toPath).0, Inline(rest, uris, toPath).1)
  {
    hide IsUriCode;
    if c == '%' {
      assert ("%%" + rest)[2..] == rest && Code('%', uris, toPath) == "%" && !IsUriCode('%') by { PercentIsNoUri(); }
    } else {
      assert ([c] + rest)[1..] == rest;
    }
  }

  lemma PercentIsNoUri()
    ensures !IsUriCode('%')
  {
  }

  lemma {:induction false} InlineText(text: string, rest: string, uris: seq<string>, toPath: string -> Option<string>)
    ensures Inline(Doubled(text) + rest, uris, toPath) == (text + Inline(rest, uris, toPath).0, Inline(rest, uris, toPath).1)
  {
    hide Inline;
    if text == "" {
      assert Doubled(text) + rest == rest && text + Inline(rest, uris, toPath).0 == Inline(rest, uris, toPath).0;
    } else {
      var tail := Doubled(text[1..]) + rest;
      assert Doubled(text) + rest == (if text[0] == '%' then "%%" else [text[0]]) + tail;
      hide Doubled;
      InlineCharacter(text[0], tail, uris, toPath);
      InlineText(text[1..], rest, uris, toPath);
      assert text + Inline(rest, uris, toPath).0 == [text[0]] + (text[1..] + Inline(rest, uris, toPath).0);
    }
  }

  /** Codes are replaced where they stand, and unknown ones vanish; so does a
      percent sign at the end of an argument. */
  lemma {:induction false} InlinePieces(t: seq<Piece>, uris: seq<string>, toPath: string -> Option<string>, lone: bool)
    requires forall p <- t :: PieceOk(p)
    ensures var token := PiecesToken(t) + if lone then "%" else "";
            && Inline(token, uris, toPath).0 == PiecesMean(t, uris, toPath)
            && (Inline(token, uris, toPath).1 <==> NamesUris(t))
  {
    var end := if lone then "%" else "";
    if t == [] {
      assert PiecesToken(t) + end == end;
    } else {
      var rest := PiecesToken(t[1..]) + end;
      assert PieceOk(t[0]);
      InlinePieces(t[1..], uris, toPath, lone);
      InlinePiece(t[0], rest, uris, toPath);
      assert PiecesToken(t) + end == PieceToken(t[0]) + rest;
      hide Inline, PieceMeans, NamesUri, PieceToken;
      assert t == [t[0]] + t[1..];
    }
  }

  lemma InlinePiece(p: Piece, rest: string, uris: seq<string>, toPath: string -> Option<string>)
    requires PieceOk(p)
    ensures Inline(PieceToken(p) + rest, uris, toPath).0 == PieceMeans(p, uris, toPath) + Inline(rest, uris, toPath).0
    ensures Inline(PieceToken(p) + rest, uris, toPath).1 <==> NamesUri(p) || Inline(rest, uris, toPath).1
  {
    hide Inline;
    if p.Literal? { InlineText(p.text, rest, uris, toPath); } else { InlineCode(p, rest, uris, toPath); }
  }

  lemma InlineCode(p: Piece, rest: string, uris: seq<string>, toPath: string -> Option<string>)
    requires p.FieldCode? && PieceOk(p)
    ensures Inline(['%', p.code] + rest, uris, toPath).0 == PieceMeans(p, uris, toPath) + Inline(rest, uris, toPath).0
    ensures Inline(['%', p.code] + rest, uris, toPath).1 <==> NamesUri(p) || Inline(rest, uris, toPath).1
  {
    CodeIsOrdinary(p.code);
    hide IsAlphanumeric, IsWhite;
    assert (['%', p.code] + rest)[2..] == rest;
  }

  /** The token of a template is a bare code only if the template is. */
  lemma TokenIsCode(t: seq<Piece>, code: char)
    requires TemplateOk(t) && IsAlphanumeric(code)
    ensures PiecesToken(t) == ['%', code] <==> t == [FieldCode(code)]
  {
    var p, rest := t[0], PiecesToken(t[1..]);
    assert PieceOk(p) && t == [p] + t[1..];
    CodeIsOrdinary(code);
    hide IsAlphanumeric, IsWhite;
    if p.Literal? {
      assert PiecesToken(t) == Doubled(p.text) + rest;
      if p.text != "" && p.text[0] == '%' {
        assert PiecesToken(t)[1] == '%';
      } else if p.text == "" {
        assert |t| == 1 && t[1..] == [] && PiecesToken(t) == "";
      } else {
        assert PiecesToken(t)[0] == p.text[0];
      }
    } else {
      assert PiecesToken(t) == ['%', p.code] + rest;
      if t[1..] != [] {
        assert t[1] in t;
        TokenIsNotEmpty(t[1..]);
        assert |PiecesToken(t)| > 2;
      } else {
        assert PiecesToken(t)[1] == p.code && t == [p];
      }
    }
  }

  lemma TokenIsNotEmpty(t: seq<Piece>)
    requires t != [] && (t[0].Literal? ==> t[0].text != "")
    ensures PiecesToken(t) != ""
  {
  }

  lemma ExpandTemplate(t: seq<Piece>, uris: seq<string>, toPath: string -> Option<string>)
    requires TemplateOk(t)
    ensures ExpandToken(PiecesToken(t), uris, toPath) == (TemplateMeans(t, uris, toPath), NamesUris(t))
  {
    TokenIsCode(t, 'u');
    TokenIsCode(t, 'U');
    TokenIsCode(t, 'f');
    TokenIsCode(t, 'F');
    InlinePieces(t, uris, toPath, false);
    assert PiecesToken(t) + "" == PiecesToken(t);
    hide PiecesToken, PiecesMean, Inline, TemplateOk;
    assert "%u" == ['%', 'u'] && "%U" == ['%', 'U'] && "%f" == ['%', 'f'] && "%F" == ['%', 'F'];
    if |t| == 1 { assert t == [t[0]]; }
  }

  lemma {:induction false} ExpandTemplates(ts: seq<seq<Piece>>, uris: seq<string>, toPath: string -> Option<string>)
    requires forall t <- ts :: TemplateOk(t)
    ensures ExpandTokens(TemplatesTokens(ts), uris, toPath).0 == TemplatesMean(ts, uris, toPath)
    ensures ExpandTokens(TemplatesTokens(ts), uris, toPath).1 <==> exists t <- ts :: NamesUris(t)
  {
    hide NamesUris, TemplateMeans, ExpandToken, TemplateOk, PiecesToken;
    if ts != [] {
      ExpandTemplate(ts[0], uris, toPath);
      ExpandTemplates(ts[1..], uris, toPath);
      assert TemplatesTokens(ts)[0] == PiecesToken(ts[0]) && TemplatesTokens(ts)[1..] == TemplatesTokens(ts[1..]);
      assert ts == [ts[0]] + ts[1..];
      assert (exists t <- ts :: NamesUris(t)) <==> NamesUris(ts[0]) || exists t <- ts[1..] :: NamesUris(t);
    }
  }

  /** A line of templates becomes what they mean, in order, and the URIs are
      appended if and only if no template names them. */
  lemma ExpandsToMeaning(ts: seq<seq<Piece>>, uris: seq<string>, toPath: string -> Option<string>)
    requires forall t <- ts :: TemplateOk(t)
    ensures Expanded(TemplatesWritten(ts), uris, toPath) ==
            TemplatesMean(ts, uris, toPath) + if exists t <- ts :: NamesUris(t) then [] else uris
  {
    hide Lex, ExpandTokens, TemplateOk, NamesUris, TemplatesMean;
    LexTemplates(ts, []);
    assert [] + TemplatesTokens(ts) == TemplatesTokens(ts);
    ExpandTemplates(ts, uris, toPath);
  }

  // ---------- a command line with one code at its end ----------

  function Literals(args: seq<string>): seq<seq<Piece>>
  {
    if args == [] then [] else [[Literal(args[0])]] + Literals(args[1..])
  }

  lemma {:induction false} LiteralsMean(args: seq<string>, last: seq<seq<Piece>>, uris: seq<string>, toPath: string -> Option<string>)
    requires |last| == 1
    ensures TemplatesMean(Literals(args) + last, uris, toPath) == NonEmpty(args) + TemplateMeans(last[0], uris, toPath)
  {
    hide TemplateMeans;
    var all := Literals(args) + last;
    if args == [] {
      assert all == last && last[1..] == [];
    } else {
      var rest := Literals(args[1..]) + last;
      LiteralsMean(args[1..], last, uris, toPath);
      assert all[0] == [Literal(args[0])] && all[1..] == rest;
      LiteralMeans(args[0], uris, toPath);
      assert TemplatesMean(all, uris, toPath) == TemplateMeans(all[0], uris, toPath) + TemplatesMean(rest, uris, toPath);
      assert NonEmpty(args) == (if args[0] == "" then [] else [args[0]]) + NonEmpty(args[1..]);
      hide TemplatesMean, NonEmpty, Literals;
    }
  }

  lemma {:induction false} LiteralsWritten(args: seq<string>, last: seq<seq<Piece>>)
    requires |last| == 1
    ensures TemplatesWritten(Literals(args) + last) == Printed(args) + (if args == [] then "" else " ") + PiecesWritten(last[0])
  {
    hide Quoted, PiecesWritten, Printed;
    NothingPrinted();
    var all := Literals(args) + last;
    if args == [] {
      assert all == last && last[1..] == [];
    } else {
      var rest := Literals(args[1..]) + last;
      LiteralsWritten(args[1..], last);
      assert all[0] == [Literal(args[0])] && all[1..] == rest;
      OnePieceWritten(args[0]);
      PrintedStep(args);
      if |args| == 1 { assert args[1..] == []; }
    }
  }

  lemma {:induction false} LiteralsAreOk(args: seq<string>)
    ensures forall t <- Literals(args) :: TemplateOk(t)
  {
    if args != [] { LiteralsAreOk(args[1..]); }
  }

  lemma OnePieceWritten(arg: string)
    ensures PiecesWritten([Literal(arg)]) == Quoted(arg)
  {
    hide Quoted;
    assert [Literal(arg)][1..] == [];
  }

  lemma NothingPrinted()
    ensures Printed([]) == ""
  {
  }

  lemma LiteralMeans(arg: string, uris: seq<string>, toPath: string -> Option<string>)
    ensures TemplateMeans([Literal(arg)], uris, toPath) == if arg == "" then [] else [arg]
  {
    var t := [Literal(arg)];
    assert t[1..] == [] && t[0] == Literal(arg);
    assert PiecesMean(t, uris, toPath) == arg + "" == arg;
  }

  /** A printed command line with a field code behind it: `%U` opens all URIs,
      `%u` the first one at most, `%f` the path of the first one if it has one,
      `%F` the paths of all that have one. Nothing else is appended. */
  lemma OpensWith(args: seq<string>, code: char, uris: seq<string>, toPath: string -> Option<string>)
    requires code in "uUfF"
    ensures Expanded(Printed(args) + " " + ['%', code], uris, toPath) == NonEmpty(args) +
            if code == 'U' then uris
            else if code == 'u' then (if uris == [] then [] else [uris[0]])
            else if code == 'f' then (if uris != [] && toPath(uris[0]).Some? then [toPath(uris[0]).value] else [])
            else Paths(uris, toPath)
  {
    hide Printed, Expanded, NonEmpty;
    var t := [FieldCode(code)];
    assert t[1..] == [] && t[0] == FieldCode(code) && IsAlphanumeric(code);
    assert PiecesWritten(t) == ['%', code] + "" == ['%', code];
    LiteralsMean(args, [t], uris, toPath);
    LiteralsWritten(args, [t]);
    LiteralsAreOk(args);
    var ts := Literals(args) + [t];
    assert t in ts && NamesUri(t[0]) && NamesUris(t) && TemplateOk(t);
    ExpandsToMeaning(ts, uris, toPath);
    if args == [] { SpaceBefore(['%', code], uris, toPath); }
    hide PiecesWritten, TemplatesWritten, TemplatesMean;
  }

  /** Nothing is printed for no arguments, and a space before a line is nothing. */
  lemma SpaceBefore(line: string, uris: seq<string>, toPath: string -> Option<string>)
    ensures Expanded(Printed([]) + " " + line, uris, toPath) == Expanded(Printed([]) + "" + line, uris, toPath)
  {
    NothingPrinted();
    assert Printed([]) + " " + line == " " + line && Printed([]) + "" + line == line;
    assert Blank(" ");
    LexGap(" ", line, FRESH);
    hide Lex, ExpandTokens;
  }
}
