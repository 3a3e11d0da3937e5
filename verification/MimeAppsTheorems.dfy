/** Recording a default application, seen through the reader: when the edit is
    the update of one key, and what a later lookup finds. */
module MimeAppsTheorems {
  import opened Wrappers
  import opened Text
  import opened MimeApps
  import opened MimeAppsRefinement

  /** What the new key is written behind: nothing, except in a text that ends,
      without a newline, inside a defaults group that never set the key. */
  function GluedTo(text: string, key: string, id: string): string
  {
    if EndsOpen(text, key, id) then LastLine(text) else ""
  }

  /** The key line of the edited text is an entry for the key, with the id as
      it was given. */
  predicate Records(text: string, key: string, id: string)
  {
    ReadableAfter(GluedTo(text, key, id), key) && CleanId(id)
  }

  /** Seen through the reader, the edit changes exactly the one key, with
      repeated groups and keys included, and it does so exactly when its key
      line is readable. */
  lemma EditRefinesUpdate(text: string, key: string, id: string)
    requires Admitted(key, id)
    ensures Parse(Updated(text, key, id)) == WithDefault(Parse(text), key, id) <==> Records(text, key, id)
    ensures !Records(text, key, id) ==> id !in Lookup(Parse(Updated(text, key, id)), DEFAULTS, key)
  {
    hide Updated, Edit, Parse, WithDefault, ValidContentType, ValidDesktopId, CleanId, ListedKey, EndsOpen, Blank, LastLine;
    AdmittedIsSingleLine(key, id);
    var updated := Updated(text, key, id);
    if !ListedKey(key) || !CleanId(id) {
      OnlyReported(updated, Parse(text), key, id);
    } else {
      WithDefaultHasKey(Parse(text), key, id);
      ListedIsNotEmpty(key);
      if EndsOpen(text, key, id) {
        OpenEdit(text, key, id);
      } else if key[0] == '#' {
        CommentedEdit(text, key, id);
      } else {
        ClosedEdit(text, key, id);
      }
    }
  }

  lemma AdmittedIsSingleLine(key: string, id: string)
    requires Admitted(key, id)
    ensures SingleLine(key, id) && key != "" && id != ""
  {
    hide Trim, Utf8Len;
    assert Split("", '/') == [""];
  }

  lemma ListedIsNotEmpty(key: string)
    requires ListedKey(key)
    ensures key != "" && Blank("")
  {
  }

  lemma CommentedEdit(text: string, key: string, id: string)
    requires SingleLine(key, id) && key != "" && key[0] == '#' && !EndsOpen(text, key, id)
    ensures !HasKey(Parse(Updated(text, key, id)), DEFAULTS, key)
  {
    hide Updated, Edit, Closing, Patched;
    UpdatedLines(text, key, id);
    PatchedReadsAlike(START, Closing(Edit(text, key, id), KeyLine(key, id)));
    CommentedClosing(text, key, id);
  }

  lemma ClosedEdit(text: string, key: string, id: string)
    requires CleanKey(key) && CleanDefault(id) && !EndsOpen(text, key, id)
    ensures Parse(Updated(text, key, id)) == WithDefault(Parse(text), key, id)
  {
    hide Updated, Edit, WithDefault, Closing, Patched;
    UpdatedLines(text, key, id);
    PatchedReadsAlike(START, Closing(Edit(text, key, id), KeyLine(key, id)));
    ReadClosing(text, key, id);
  }

  // ---------- a text that ends open ----------

  /** The editor's state before the last line, which it then copied as it is. */
  lemma OpenLastLine(text: string, key: string, id: string) returns (before: EditState)
    requires SingleLine(key, id) && EndsOpen(text, key, id)
    ensures var lines := SplitLines(text);
            before == EditLines(BEGIN, lines[..|lines| - 1], key, id) && !before.wroteKey
    ensures Edit(text, key, id).out == before.out + [LastLine(text)]
    ensures Body(LastLine(text)) == LastLine(text) && OneLine(LastLine(text)) && AllTerminated(before.out)
    ensures HeaderOf(LastLine(text)).Some? ==> !before.inDefaults
    ensures HeaderOf(LastLine(text)).None? ==> before.inDefaults && !IsTarget(LastLine(text), key)
  {
    hide EditLine, OneLine, Terminated, Body, HeaderOf, IsTarget, Flatten;
    var lines := SplitLines(text);
    TerminatedTextLines(text);
    var front, last := lines[..|lines| - 1], LastLine(text);
    assert lines == front + [last];
    before := EditLines(BEGIN, front, key, id);
    EditSnoc(BEGIN, front, last, key, id);
    FrontIsEnded(lines, front);
    EditLinesLined(BEGIN, front, key, id);
    LeftOpen(before, last, key, id);
  }

  lemma FrontIsEnded(lines: seq<string>, front: seq<string>)
    requires Lined(lines) && lines != [] && front == lines[..|lines| - 1]
    ensures Lined(front) && AllTerminated(front)
  {
    hide OneLine, Terminated;
    forall i | 0 <= i < |front| ensures OneLine(front[i]) && Terminated(front[i]) {
      assert front[i] == lines[i];
    }
  }

  /** A line that leaves the group open was copied as it is. */
  lemma LeftOpen(before: EditState, line: string, key: string, id: string)
    requires !Terminated(line)
    requires var next := EditLine(before, line, key, id); next.inDefaults && !next.wroteKey
    ensures Body(line) == line && !before.wroteKey
    ensures EditLine(before, line, key, id).out == before.out + [line]
    ensures HeaderOf(line).Some? ==> !before.inDefaults
    ensures HeaderOf(line).None? ==> before.inDefaults && !IsTarget(line, key)
  {
    hide HeaderOf, IsTarget, Retargeted;
  }

  lemma GluedText(text: string, key: string, id: string, before: EditState)
    requires SingleLine(key, id) && EndsOpen(text, key, id)
    requires Edit(text, key, id).out == before.out + [LastLine(text)]
    requires AllTerminated(before.out) && OneLine(LastLine(text)) && !Terminated(LastLine(text))
    ensures SplitLines(Updated(text, key, id)) == before.out + [LastLine(text) + KeyLine(key, id)]
    ensures AllTerminated(before.out + [LastLine(text) + KeyLine(key, id)])
    ensures Updated(text, key, id) != "" && Terminated(Updated(text, key, id))
  {
    var keyLine, last := KeyLine(key, id), LastLine(text);
    hide *;
    KeyLineOfOne(key, id);
    ClosingOfOpen(text, key, id, keyLine);
    GluedLines(before.out, last, keyLine);
    UpdatedUnfolds(text, key, id);
  }

  lemma ClosingOfOpen(text: string, key: string, id: string, keyLine: string)
    requires EndsOpen(text, key, id)
    ensures Closing(Edit(text, key, id), keyLine) == Edit(text, key, id).out + [keyLine]
  {
    hide EditLines;
    FlagsFrom(BEGIN, SplitLines(text), key, id);
  }

  lemma UpdatedUnfolds(text: string, key: string, id: string)
    ensures Updated(text, key, id) == WithNewline(Flatten(Closing(Edit(text, key, id), KeyLine(key, id))))
  {
  }

  /** A line written behind an unterminated one becomes part of it. */
  lemma GluedLines(out: seq<string>, last: string, line: string)
    requires AllTerminated(out) && OneLine(last) && !Terminated(last) && OneLine(line) && Terminated(line)
    ensures var text := WithNewline(Flatten(out + [last] + [line]));
            SplitLines(text) == out + [last + line] && text != "" && Terminated(text)
    ensures AllTerminated(out + [last + line])
  {
    hide OneLine, Terminated, Flatten, SplitLines;
    var lines := out + [last + line];
    FlattenConcat(out, [last] + [line]);
    FlattenConcat(out, [last + line]);
    FlattenTwo(last, line);
    assert out + [last] + [line] == out + ([last] + [line]);
    GluedIsLine(last, line);
    NotEmptyLines(lines);
    FlattenTerminated(lines);
    SplitUndoesFlatten(lines);
  }

  lemma NotEmptyLines(lines: seq<string>)
    requires AllTerminated(lines)
    ensures forall i | 0 <= i < |lines| :: lines[i] != []
  {
  }

  lemma EditUnfolds(text: string, key: string, id: string)
    ensures Edit(text, key, id) == EditLines(BEGIN, SplitLines(text), key, id)
  {
  }

  lemma FlattenTwo(a: string, b: string)
    ensures Flatten([a] + [b]) == a + b && Flatten([a + b]) == a + b
  {
    assert ([a] + [b])[1..] == [b] && [b][1..] == [] && [a + b][1..] == [];
    assert Flatten([b]) == b + Flatten([]) == b && Flatten([a + b]) == a + b + Flatten([]);
  }

  lemma GluedIsLine(last: string, line: string)
    requires OneLine(last) && !Terminated(last) && OneLine(line) && Terminated(line)
    ensures OneLine(last + line) && Terminated(last + line)
  {
    assert last == last[..|last| - 1] + [last[|last| - 1]];
    assert (last + line)[..|last + line| - 1] == last + line[..|line| - 1];
  }

  lemma BlankLineIsSkipped(line: string)
    requires Blank(line)
    ensures HeaderOf(line).None? && EntryOf(line).None?
  {
    TrimEndBlank("", line);
    assert "" + line == line;
  }

  /** A target is told by the first `=`, so what is glued behind it is not seen. */
  lemma GluedIsNoTarget(last: string, key: string, rest: string)
    requires TargetKey(key) && !Blank(last) && !IsTarget(last, key)
    ensures !IsTarget(last + (key + "=" + rest), key)
  {
    if '=' in last {
      var (k, v) := SplitOnce(last, '=').value;
      assert last + (key + "=" + rest) == k + "=" + (v + (key + "=" + rest));
      SplitOnceAt(k, '=', v + (key + "=" + rest));
    } else {
      assert last + (key + "=" + rest) == (last + key) + "=" + rest;
      SplitOnceAt(last + key, '=', rest);
      TrimGivesCoreOnlyAfterBlank(last, key);
    }
  }

  lemma OpenEdit(text: string, key: string, id: string)
    requires SingleLine(key, id) && ListedKey(key) && CleanId(id) && EndsOpen(text, key, id)
    ensures Blank(LastLine(text)) ==> Parse(Updated(text, key, id)) == WithDefault(Parse(text), key, id)
    ensures !Blank(LastLine(text)) ==> !HasKey(Parse(Updated(text, key, id)), DEFAULTS, key)
    ensures LastLine(text) != ""
  {
    var last := LastLine(text);
    hide *;
    var src := ReadUntilGlued(text, key, id);
    if Blank(last) {
      NotEmptyIsReadable(last, key);
      GluedToBlank(src, last, key, id);
    } else {
      ListedIsTarget(key);
      GluedToOther(src, last, key, id);
    }
  }

  lemma ListedIsTarget(key: string)
    requires ListedKey(key)
    ensures TargetKey(key)
  {
  }

  lemma NotEmptyIsReadable(last: string, key: string)
    requires last != "" && Blank(last) && ListedKey(key)
    ensures ReadableAfter(last, key)
  {
  }

  /** Where the reader stands before the last line, and what it makes of that
      line as it was and with the key glued to it. */
  lemma ReadUntilGlued(text: string, key: string, id: string) returns (src: ReadState)
    requires SingleLine(key, id) && EndsOpen(text, key, id)
    ensures var last := LastLine(text);
            && last != ""
            && Parse(text) == ReadLine(src, last).groups
            && Parse(Updated(text, key, id)) == ReadLine(src, last + KeyLine(key, id)).groups
            && !HasKey(src.groups, DEFAULTS, key)
            && (src.group == DEFAULTS ==> !IsTarget(last, key))
            && (Blank(last) ==> src.group == DEFAULTS)
  {
    hide HeaderOf, EntryOf, IsTarget, Updated, Edit, EditLines, Blank, KeyLine, HasKey, ReadLine, ReadLines, SingleLine;
    var before := OpenLastLine(text, key, id);
    var lines, last := SplitLines(text), LastLine(text);
    TerminatedTextLines(text);
    GluedText(text, key, id, before);
    var front := lines[..|lines| - 1];
    LastOf(text);
    Unwritten(front, key, id);
    src := ReadLines(START, front);
    ReadSnoc(START, front, last);
    ReadSnoc(START, front, last + KeyLine(key, id));
    OpenGroup(src, last);
    if HeaderOf(last).Some? { assert src.group != DEFAULTS; }
  }

  /** Before a last line that is blank, the reader is already inside the group. */
  lemma OpenGroup(src: ReadState, last: string)
    requires HeaderOf(last).None? ==> src.group == DEFAULTS
    ensures Blank(last) ==> src.group == DEFAULTS
  {
    hide HeaderOf, Blank;
    if Blank(last) { BlankLineIsSkipped(last); }
  }

  lemma LastOf(text: string)
    requires text != "" && SplitLines(text) != []
    ensures var lines := SplitLines(text); lines == lines[..|lines| - 1] + [LastLine(text)]
  {
  }

  lemma WithDefaultHasKey(groups: Groups, key: string, id: string)
    ensures HasKey(WithDefault(groups, key, id), DEFAULTS, key)
  {
  }

  lemma GluedToBlank(src: ReadState, last: string, key: string, id: string)
    requires ReadableAfter(last, key) && CleanId(id)
    requires !HasKey(src.groups, DEFAULTS, key)
    requires src.group == DEFAULTS
    ensures ReadLine(src, last + KeyLine(key, id)).groups == WithDefault(ReadLine(src, last).groups, key, id)
  {
    hide HeaderOf, EntryOf;
    BlankLineIsSkipped(last);
    ReadKeyLine(src, last, key, [id]);
    JoinOne(id);
    assert [id] + Without([], id) == [id];
  }

  lemma GluedToOther(src: ReadState, last: string, key: string, id: string)
    requires TargetKey(key) && !Blank(last)
    requires !HasKey(src.groups, DEFAULTS, key)
    requires src.group == DEFAULTS ==> !IsTarget(last, key)
    ensures !HasKey(ReadLine(src, last + KeyLine(key, id)).groups, DEFAULTS, key)
  {
    assert KeyLine(key, id) == key + "=" + (id + ";\n");
    if src.group == DEFAULTS { GluedIsNoTarget(last, key, id + ";\n"); }
    GluedKeyIsLost(src, last + KeyLine(key, id), key);
  }

  lemma GluedKeyIsLost(src: ReadState, line: string, key: string)
    requires !HasKey(src.groups, DEFAULTS, key)
    requires src.group == DEFAULTS ==> !IsTarget(line, key)
    ensures !HasKey(ReadLine(src, line).groups, DEFAULTS, key)
  {
    hide IsTarget, HeaderOf, EntryOf;
    if EntryOf(line).Some? && src.group == DEFAULTS { OtherEntry(line, key); }
  }

  // ---------- lookup after recording ----------

  /** The installed application a content type opens with: the first resolvable
      id of the first defaults list that has one, files in precedence order. */
  function DefaultOf(files: seq<Groups>, key: string, installed: set<string>): Option<string>
  {
    if files == [] then None
    else
      var found := FirstInstalled(Lookup(files[0], DEFAULTS, key), installed);
      if found.Some? then found else DefaultOf(files[1..], key, installed)
  }

  function FirstInstalled(ids: seq<string>, installed: set<string>): Option<string>
  {
    if ids == [] then None
    else if ids[0] in installed then Some(ids[0])
    else FirstInstalled(ids[1..], installed)
  }

  method DefaultApp(files: seq<Groups>, key: string, installed: set<string>) returns (app: Option<string>)
    ensures app == if ValidContentType(key) then DefaultOf(files, key, installed) else None
  {
    hide ValidContentType;
    if !ValidContentType(key) {
      return None;
    }
    for i := 0 to |files|
      invariant DefaultOf(files, key, installed) == DefaultOf(files[i..], key, installed)
    {
      assert files[i..][1..] == files[i + 1..];
      if DEFAULTS !in files[i] || key !in files[i][DEFAULTS] {
        continue;
      }
      var ids := files[i][DEFAULTS][key];
      for j := 0 to |ids|
        invariant FirstInstalled(ids, installed) == FirstInstalled(ids[j..], installed)
      {
        assert ids[j..][1..] == ids[j + 1..];
        if ids[j] in installed {
          return Some(ids[j]);
        }
      }
    }
    return None;
  }

  /** Whatever the user's file held, an application recorded readably is the
      one found when it is installed, and every other content type opens as
      before. One that is not is never found in the user's file. */
  lemma RecordedDefaultIsFound(text: string, others: seq<Groups>, key: string, id: string, installed: set<string>)
    requires Admitted(key, id)
    ensures DefaultOf([Parse(Updated(text, key, id))], key, {id}) == Some(id) <==> Records(text, key, id)
    ensures Records(text, key, id) && id in installed ==>
              DefaultOf([Parse(Updated(text, key, id))] + others, key, installed) == Some(id)
    ensures Records(text, key, id) ==> forall other | other != key ::
              DefaultOf([Parse(Updated(text, key, id))] + others, other, installed) == DefaultOf([Parse(text)] + others, other, installed)
  {
    hide Updated, Parse, Records, Admitted;
    EditRefinesUpdate(text, key, id);
    var groups, after := Parse(text), Parse(Updated(text, key, id));
    assert ([after] + others)[1..] == ([groups] + others)[1..];
    assert [after][1..] == [];
    if Records(text, key, id) {
      var ids := [id] + Without(Lookup(groups, DEFAULTS, key), id);
      assert Lookup(after, DEFAULTS, key) == ids && ids[0] == id;
      assert forall other | other != key :: Lookup(after, DEFAULTS, other) == Lookup(groups, DEFAULTS, other);
    } else {
      FirstInstalledIsListed(Lookup(after, DEFAULTS, key), {id});
    }
  }

  lemma {:induction false} FirstInstalledIsListed(ids: seq<string>, installed: set<string>)
    ensures FirstInstalled(ids, installed).Some? ==> FirstInstalled(ids, installed).value in ids
  {
    if ids != [] { FirstInstalledIsListed(ids[1..], installed); }
  }

  // ---------- a text that is not edited well ----------

  lemma HeaderIsCopied(state: EditState, key: string, id: string)
    requires !state.inDefaults && !state.wroteKey
    ensures EditLine(state, HEADER_LINE, key, id) == EditState(true, true, false, state.out + [HEADER_LINE])
  {
    hide HeaderOf, IsTarget, Body, KeyLine;
    assert Trimmed(DEFAULTS) by { assert DEFAULTS[0] == 'D' && DEFAULTS[|DEFAULTS| - 1] == 's'; }
    HeaderLine(DEFAULTS);
    TrimmedHeader(HEADER_LINE);
  }

  /** Behind a comment without a newline at the end of the group, no request
      is recorded. */
  lemma CommentAtEndIsGlued(key: string, id: string)
    requires Admitted(key, id)
    ensures !Records(HEADER_LINE + "#", key, id)
  {
    hide Admitted, EditLine, EditLines, HeaderOf, IsTarget, ListedKey, CleanId, SplitLines, Flatten;
    var text, lines := HEADER_LINE + "#", [HEADER_LINE] + ["#"];
    CommentedLines();
    EditSnoc(BEGIN, [HEADER_LINE], "#", key, id);
    EditSnoc(BEGIN, [], HEADER_LINE, key, id);
    assert [] + [HEADER_LINE] == [HEADER_LINE];
    HeaderIsCopied(BEGIN, key, id);
    CommentIsCopied(EditState(true, true, false, [HEADER_LINE]), key, id);
    assert !Blank("#") by { assert !IsWhite("#"[0]); }
    assert LastLine(text) == "#" && text[|text| - 1] == '#';
    NothingEdits(key, id);
  }

  lemma NothingEdits(key: string, id: string)
    ensures EditLines(BEGIN, [], key, id) == BEGIN
  {
  }

  lemma CommentedLines()
    ensures SplitLines(HEADER_LINE + "#") == [HEADER_LINE] + ["#"]
  {
    hide SplitLines, Flatten;
    FlattenTwo(HEADER_LINE, "#");
    SplitUndoesFlatten([HEADER_LINE] + ["#"]);
  }

  lemma CommentIsCopied(state: EditState, key: string, id: string)
    ensures EditLine(state, "#", key, id) == state.(out := state.out + ["#"])
  {
    assert Body("#") == "#" && '=' !in "#";
    TrimmedIsFixed("#");
  }

  // ---------- an admitted request that is not recorded ----------

  /** What the reader makes of a key that holds an `=`, recorded in an empty file:
      the default of what stands before the `=`. */
  lemma SplitKeyIsTaken(k: string, rest: string, id: string)
    requires SingleLine(k + "=" + rest, id) && CleanKey(k)
    ensures Lookup(Parse(Updated("", k + "=" + rest, id)), DEFAULTS, k) == IdList(rest + "=" + id + ";")
  {
    var value := rest + "=" + id + ";";
    EmptyFileUpdated(k + "=" + rest, id);
    SplitKeyLine(k, rest, id);
    assert value[|value| - 1] == ';';
    hide *;
    SplitLineIsEntry(k, value, k + "=" + value);
    EntryIsRead(k + "=" + value + "\n", k, IdList(value));
    ParseMeans(Updated("", k + "=" + rest, id));
  }

  lemma ParseMeans(text: string)
    ensures Parse(text) == ReadLines(START, SplitLines(text)).groups
  {
  }

  lemma SplitKeyLine(k: string, rest: string, id: string)
    ensures KeyLine(k + "=" + rest, id) == k + "=" + (rest + "=" + id + ";") + "\n"
  {
    assert k + "=" + rest + "=" + id + ";\n" == k + "=" + (rest + "=" + id + ";") + "\n";
  }

  /** The only entry of the group is what a lookup finds. */
  lemma EntryIsRead(line: string, k: string, ids: seq<string>)
    requires HeaderOf(line).None? && EntryOf(line) == Some((k, ids))
    ensures Lookup(ReadLines(START, [HEADER_LINE] + [line]).groups, DEFAULTS, k) == ids
  {
    HeaderLineReads(START);
    hide HeaderOf, EntryOf, ReadLines;
    ReadsTwo(START, HEADER_LINE, line);
  }

  /** An empty file gets the group and the line. */
  lemma EmptyFileUpdated(key: string, id: string)
    requires SingleLine(key, id)
    ensures SplitLines(Updated("", key, id)) == [HEADER_LINE] + [KeyLine(key, id)]
  {
    NothingEdited(key, id);
    UpdatedLines("", key, id);
    KeyLineOfOne(key, id);
    hide Edit, Updated, KeyLine, OneLine, SplitLines;
    assert WithBlankAfter([]) + [HEADER_LINE] + [KeyLine(key, id)] == [HEADER_LINE] + [KeyLine(key, id)];
    assert Patched([HEADER_LINE] + [KeyLine(key, id)]) == [HEADER_LINE] + [KeyLine(key, id)];
  }

  lemma NothingEdited(key: string, id: string)
    ensures Edit("", key, id) == BEGIN && !EndsOpen("", key, id)
  {
  }

  lemma SplitLineIsEntry(k: string, value: string, line: string)
    requires CleanKey(k) && value != "" && value[|value| - 1] == ';' && line == k + "=" + value
    ensures HeaderOf(line + "\n").None? && EntryOf(line + "\n") == Some((k, IdList(value)))
  {
    hide IdList;
    assert line[|line| - 1] == ';' && line[0] == k[0];
    TrimEndBlank(line, "\n");
    SplitOnceAt(k, '=', value);
    TrimmedIsFixed(k);
    assert TrimEnd(line) == line;
    PlainEntry(line + "\n", line, k, value);
  }

  /** A content type with an `=` is admitted, and it is not recorded: its line
      changes the default of another content type. */
  lemma EqualsSignIsAdmitted()
    ensures Admitted("a/b=c", "x") && !Records("", "a/b=c", "x")
    ensures Lookup(Parse(Updated("", "a/b=c", "x")), DEFAULTS, "a/b") == ["c=x"]
  {
    hide Parse, Updated, IdList, Admitted, Trim, IsWhite, EndsOpen, LastLine;
    ExampleIsAdmitted();
    assert "a/b=c"[3] == '=';
    assert !ListedKey("a/b=c");
    assert "a/b" + "=" + "c" == "a/b=c" && "c" + "=" + "x" + ";" == "c=x" + ";" + "";
    ExampleKeyIsClean();
    SplitKeyIsTaken("a/b", "c", "x");
    IdListStep("c=x", "");
    EmptyIdList();
    TrimmedIsFixed("c=x");
    IdOfTrimmed("c=x");
  }

  lemma ExampleKeyIsClean()
    ensures CleanKey("a/b") && Trimmed("c=x")
  {
    assert "a/b"[0] == 'a' && "a/b"[2] == 'b' && "c=x"[0] == 'c' && "c=x"[2] == 'x';
  }

  lemma IdOfTrimmed(id: string)
    requires Trim(id) == id && id != ""
    ensures IdOf(id) == [id]
  {
  }

  lemma ExampleIsAdmitted()
    ensures Admitted("a/b=c", "x")
  {
    hide Utf8Len, Split, Trim;
    ExampleParts();
    ExampleLengths();
    TrimmedIsFixed("a");
    TrimmedIsFixed("b=c");
  }

  lemma ExampleParts()
    ensures Split("a/b=c", '/') == ["a", "b=c"]
  {
    var s := "a/b=c";
    IndexOfUnique(s, '/', 1);
    assert s[..1] == "a" && s[2..] == "b=c";
    assert '/' !in "b=c";
    assert Split("b=c", '/') == ["b=c"];
  }

  lemma ExampleLengths()
    ensures Utf8Len("a/b=c") == 5 && Utf8Len("x") == 1
  {
    assert "c"[1..] == "" && "x"[1..] == "";
    assert Utf8Len("c") == 1 && Utf8Len("x") == 1;
    assert "=c"[1..] == "c" && "b=c"[1..] == "=c";
    assert Utf8Len("=c") == 2 && Utf8Len("b=c") == 3;
    assert "/b=c"[1..] == "b=c" && "a/b=c"[1..] == "/b=c";
    assert Utf8Len("/b=c") == 4;
  }
}
