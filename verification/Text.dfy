/** The string operations the text engines are written with: Unicode white
    space, trimming, and splitting at a character or into lines. */
module Text {
  import opened Wrappers

  /** The Unicode White_Space property. */
  predicate IsWhite(c: char)
  {
    || '\U{0009}' <= c <= '\U{000D}'
    || c == ' '
    || c == '\U{0085}'
    || c == '\U{00A0}'
    || c == '\U{1680}'
    || '\U{2000}' <= c <= '\U{200A}'
    || c == '\U{2028}' || c == '\U{2029}' || c == '\U{202F}' || c == '\U{205F}' || c == '\U{3000}'
  }

  predicate Blank(s: string)
  {
    forall i | 0 <= i < |s| :: IsWhite(s[i])
  }

  function TrimStart(s: string): (r: string)
    ensures r != [] ==> !IsWhite(r[0])
  {
    if s != [] && IsWhite(s[0]) then TrimStart(s[1..]) else s
  }

  function TrimEnd(s: string): (r: string)
    ensures r <= s
    ensures r != [] ==> !IsWhite(r[|r| - 1])
    ensures Blank(s[|r|..])
  {
    if s != [] && IsWhite(s[|s| - 1]) then TrimEnd(s[..|s| - 1]) else s
  }

  function Trim(s: string): string
  {
    TrimStart(TrimEnd(s))
  }

  /** A string that trimming leaves alone. */
  predicate Trimmed(s: string)
  {
    s != [] ==> !IsWhite(s[0]) && !IsWhite(s[|s| - 1])
  }

  lemma TrimmedIsFixed(s: string)
    requires Trimmed(s)
    ensures Trim(s) == s && TrimStart(s) == s && TrimEnd(s) == s
  {
  }

  lemma {:induction false} TrimStartBlank(s: string, t: string)
    requires Blank(s)
    ensures TrimStart(s + t) == TrimStart(t)
  {
    if s == [] {
      assert s + t == t;
    } else {
      assert (s + t)[1..] == s[1..] + t;
      TrimStartBlank(s[1..], t);
    }
  }

  lemma {:induction false} TrimEndBlank(s: string, t: string)
    requires Blank(t)
    ensures TrimEnd(s + t) == TrimEnd(s)
  {
    if t == [] {
      assert s + t == s;
    } else {
      var front := t[..|t| - 1];
      assert (s + t)[..|s + t| - 1] == s + front;
      assert (s + t)[|s + t| - 1] == t[|t| - 1];
      TrimEndBlank(s, front);
    }
  }

  lemma {:induction false} TrimStartIsSuffix(s: string)
    ensures |TrimStart(s)| <= |s|
    ensures TrimStart(s) == s[|s| - |TrimStart(s)|..]
    ensures Blank(s[..|s| - |TrimStart(s)|])
  {
    if s != [] && IsWhite(s[0]) {
      TrimStartIsSuffix(s[1..]);
      assert s[..|s| - |TrimStart(s)|] == [s[0]] + s[1..][..|s[1..]| - |TrimStart(s[1..])|];
    }
  }

  lemma TrimIsTrimmed(s: string)
    ensures Trimmed(Trim(s))
  {
    TrimStartIsSuffix(TrimEnd(s));
  }

  lemma TrimIgnoresTrailing(s: string)
    ensures Trim(TrimEnd(s)) == Trim(s)
  {
    var e := TrimEnd(s);
    TrimEndBlank(e, []);
    assert e + [] == e;
    assert e != [] ==> !IsWhite(e[|e| - 1]);
  }

  /** Trimming stops at the last character that is not white. */
  lemma {:induction false} TrimEndAfter(head: string, rest: string)
    requires head != "" && !IsWhite(head[|head| - 1])
    ensures TrimEnd(head + rest) == head + TrimEnd(rest)
    decreases |rest|
  {
    hide IsWhite, Blank;
    if rest == "" {
      assert head + rest == head;
    } else if IsWhite(rest[|rest| - 1]) {
      assert (head + rest)[..|head + rest| - 1] == head + rest[..|rest| - 1];
      TrimEndAfter(head, rest[..|rest| - 1]);
    }
  }

  /** Trimming `x + core` gives `core` back only when `x` was blank. */
  lemma TrimGivesCoreOnlyAfterBlank(x: string, core: string)
    requires Trimmed(core) && core != []
    ensures Trim(x + core) == core <==> Blank(x)
  {
    var s := x + core;
    assert s[|s| - 1] == core[|core| - 1];
    assert TrimEnd(s) == s;
    TrimStartIsSuffix(s);
    if Blank(x) {
      TrimStartBlank(x, core);
    }
    assert s[..|x|] == x;
  }

  function Utf8Width(c: char): nat
  {
    if c <= '\U{7F}' then 1 else if c <= '\U{7FF}' then 2 else if c <= '\U{FFFF}' then 3 else 4
  }

  function Utf8Len(s: string): nat
  {
    if s == "" then 0 else Utf8Width(s[0]) + Utf8Len(s[1..])
  }

  /** The first place `c` stands in `s`, or `|s|`. */
  function IndexOf(s: string, c: char): (i: nat)
    ensures i <= |s|
    ensures c !in s[..i]
    ensures i < |s| ==> s[i] == c
    ensures i == |s| <==> c !in s
  {
    if s == [] || s[0] == c then 0
    else
      var i := 1 + IndexOf(s[1..], c);
      assert s[..i] == [s[0]] + s[1..][..i - 1];
      i
  }

  lemma {:induction false} IndexOfUnique(s: string, c: char, i: nat)
    requires i < |s| && s[i] == c && c !in s[..i]
    ensures IndexOf(s, c) == i
  {
    var j := IndexOf(s, c);
    assert forall k | 0 <= k < i :: s[k] == s[..i][k];
    assert forall k | 0 <= k < j :: s[k] == s[..j][k];
  }

  /** `split_once`: the parts around the first `c`. */
  function SplitOnce(s: string, c: char): (r: Option<(string, string)>)
    ensures r.Some? <==> c in s
    ensures r.Some? ==> s == r.value.0 + [c] + r.value.1 && c !in r.value.0
  {
    var i := IndexOf(s, c);
    if i < |s| then Some((s[..i], s[i + 1..])) else None
  }

  lemma SplitOnceAt(key: string, c: char, value: string)
    requires c !in key
    ensures SplitOnce(key + [c] + value, c) == Some((key, value))
  {
    var s := key + [c] + value;
    assert s[..|key|] == key;
    IndexOfUnique(s, c, |key|);
  }

  /** Split at every `c`; always at least one part. */
  function Split(s: string, c: char): (parts: seq<string>)
    ensures parts != []
    ensures forall part | part in parts :: c !in part
    decreases |s|
  {
    var i := IndexOf(s, c);
    if i == |s| then [s] else [s[..i]] + Split(s[i + 1..], c)
  }

  function Join(parts: seq<string>, separator: string): string
  {
    if parts == [] then ""
    else if |parts| == 1 then parts[0]
    else parts[0] + separator + Join(parts[1..], separator)
  }

  /** `split_inclusive('\n')`: the lines, each with its newline. */
  function SplitLines(text: string): (lines: seq<string>)
    ensures Flatten(lines) == text
    ensures forall i | 0 <= i < |lines| :: OneLine(lines[i])
    ensures forall i | 0 <= i < |lines| - 1 :: Terminated(lines[i])
    decreases |text|
  {
    if text == [] then []
    else
      var i := IndexOf(text, '\n');
      if i == |text| then
        assert Flatten([]) == [] && [text][1..] == [];
        [text]
      else
        var rest := SplitLines(text[i + 1..]);
        var lines := [text[..i + 1]] + rest;
        assert lines[1..] == rest;
        lines
  }

  /** Nonempty, with a newline at most at the end. */
  predicate OneLine(line: string)
  {
    line != [] && '\n' !in line[..|line| - 1]
  }

  predicate Terminated(line: string)
  {
    line != [] && line[|line| - 1] == '\n'
  }

  function Flatten(lines: seq<string>): string
  {
    if lines == [] then "" else lines[0] + Flatten(lines[1..])
  }

  lemma {:induction false} FlattenConcat(a: seq<string>, b: seq<string>)
    ensures Flatten(a + b) == Flatten(a) + Flatten(b)
  {
    if a == [] {
      assert a + b == b;
    } else {
      assert (a + b)[1..] == a[1..] + b;
      FlattenConcat(a[1..], b);
    }
  }

  /** Lines survive being written out and split again. */
  lemma {:induction false} SplitUndoesFlatten(lines: seq<string>)
    requires forall i | 0 <= i < |lines| :: OneLine(lines[i])
    requires forall i | 0 <= i < |lines| - 1 :: Terminated(lines[i])
    ensures SplitLines(Flatten(lines)) == lines
  {
    if lines != [] {
      var line, rest := lines[0], lines[1..];
      var text := Flatten(lines);
      SplitUndoesFlatten(rest);
      if Terminated(line) {
        assert text[..|line| - 1] == line[..|line| - 1];
        IndexOfUnique(text, '\n', |line| - 1);
        assert text[..|line|] == line && text[|line|..] == Flatten(rest);
      } else {
        assert |lines| == 1 && Flatten(rest) == "" && text == line;
        assert line == line[..|line| - 1] + [line[|line| - 1]];
      }
    }
  }

  lemma {:induction false} FlattenTerminated(lines: seq<string>)
    requires lines != [] && forall i | 0 <= i < |lines| :: lines[i] != []
    ensures Flatten(lines) != [] && (Terminated(Flatten(lines)) <==> Terminated(lines[|lines| - 1]))
  {
    if |lines| > 1 {
      FlattenTerminated(lines[1..]);
    } else {
      assert Flatten(lines[1..]) == "";
    }
  }

  /** A line without its newline. */
  function Body(line: string): (body: string)
    ensures Terminated(line) ==> line == body + "\n"
    ensures !Terminated(line) ==> body == line
    ensures OneLine(line) ==> '\n' !in body
  {
    if Terminated(line) then line[..|line| - 1]
    else
      assert line != [] ==> line == line[..|line| - 1] + [line[|line| - 1]];
      line
  }

  /** `lines()`: the lines without their newline, or carriage return and newline. */
  function Lines(text: string): (lines: seq<string>)
    ensures |lines| == |SplitLines(text)|
  {
    var pieces := SplitLines(text);
    seq(|pieces|, i requires 0 <= i < |pieces| => LineContent(pieces[i]))
  }

  function LineContent(line: string): string
  {
    var body := Body(line);
    if Terminated(line) && body != [] && body[|body| - 1] == '\r' then body[..|body| - 1] else body
  }

  lemma BodyTrimsAlike(line: string)
    ensures TrimEnd(Body(line)) == TrimEnd(line)
  {
    if Terminated(line) { TrimEndBlank(Body(line), "\n"); }
  }

  lemma LineContentTrimsAlike(line: string)
    ensures TrimEnd(LineContent(line)) == TrimEnd(line)
  {
    BodyTrimsAlike(line);
    var body, content := Body(line), LineContent(line);
    if content != body {
      assert Blank("\r");
      hide TrimEnd, Blank;
      TrimEndBlank(content, "\r");
      assert body == content + "\r";
    }
  }
}
