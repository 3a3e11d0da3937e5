/** The editor of `mimeapps.list` refines a map update: what the reader sees
    after an edit is what it saw before, with one key changed. */
module MimeAppsRefinement {
  import opened Wrappers
  import opened Text
  import opened MimeApps

  // ---------- how the reader sees one entry line ----------

  lemma TrimEndEntry(key: string, value: string)
    ensures TrimEnd(key + "=" + value) == key + "=" + TrimEnd(value)
  {
    TrimEndAfter(key + "=", value);
  }

  /** Trailing blanks change nothing about an entry except its raw value. */
  lemma EntryOfTrimmed(line: string)
    ensures SplitOnce(TrimEnd(line), '=').Some? <==> SplitOnce(line, '=').Some?
    ensures SplitOnce(line, '=').Some? ==>
              var (key, value) := SplitOnce(line, '=').value;
              SplitOnce(TrimEnd(line), '=') == Some((key, TrimEnd(value)))
  {
    match SplitOnce(line, '=')
    case None =>
    case Some((key, value)) =>
      TrimEndEntry(key, value);
      SplitOnceAt(key, '=', TrimEnd(value));
  }

  function IdOf(part: string): seq<string>
  {
    if Trim(part) == "" then [] else [Trim(part)]
  }

  lemma IdListStep(part: string, rest: string)
    requires ';' !in part
    ensures IdList(part) == IdOf(part)
    ensures IdList(part + ";" + rest) == IdOf(part) + IdList(rest)
  {
    assert part[..|part|] == part;
    var value := part + ";" + rest;
    assert value[..|part|] == part && value[|part| + 1..] == rest;
    IndexOfUnique(value, ';', |part|);
  }

  lemma {:induction false} IdListIgnoresTrailing(value: string)
    ensures IdList(TrimEnd(value)) == IdList(value)
    decreases |value|
  {
    hide IdList, Trim, TrimEnd;
    var i := IndexOf(value, ';');
    if i == |value| {
      var e := TrimEnd(value);
      assert forall k | 0 <= k < |e| :: e[k] == value[k];
      IdListStep(value, "");
      IdListStep(e, "");
      TrimIgnoresTrailing(value);
    } else {
      var part, rest := value[..i], value[i + 1..];
      TrimEndAfter(part + ";", rest);
      assert value == (part + ";") + rest;
      IdListStep(part, rest);
      IdListStep(part, TrimEnd(rest));
      IdListIgnoresTrailing(rest);
    }
  }

  /** The reader gets back the list the editor wrote. */
  lemma {:induction false} IdListOfWritten(ids: seq<string>)
    requires ids != [] && forall id | id in ids :: CleanId(id)
    ensures IdList(Join(ids, ";") + ";") == ids
  {
    var first := ids[0];
    assert CleanId(first);
    TrimmedIsFixed(first);
    assert IdOf(first) == [first];
    WrittenStep(ids);
    if |ids| > 1 {
      IdListStep(first, Join(ids[1..], ";") + ";");
      IdListOfWritten(ids[1..]);
    } else {
      IdListStep(first, "");
      EmptyIdList();
    }
    assert ids == [first] + ids[1..];
  }

  lemma WrittenStep(ids: seq<string>)
    requires ids != []
    ensures Join(ids, ";") + ";" == ids[0] + ";" + if |ids| == 1 then "" else Join(ids[1..], ";") + ";"
  {
  }

  lemma JoinOne(id: string)
    ensures Join([id], ";") == id
  {
  }

  lemma EmptyIdList()
    ensures IdList("") == []
  {
    TrimmedIsFixed("");
  }

  lemma {:induction false} JoinKeepsOut(ids: seq<string>, separator: string, c: char)
    requires c !in separator && forall id | id in ids :: c !in id
    ensures c !in Join(ids, separator)
  {
    if |ids| > 1 { JoinKeepsOut(ids[1..], separator, c); }
  }

  /** What stands before a key on its line lets the reader see the key: a line
      that starts with `#` is a comment, one that starts with a blank is not. */
  predicate ReadableAfter(front: string, key: string)
  {
    Blank(front) && ListedKey(key) && (front != "" || key[0] != '#')
  }

  /** A written key line, possibly glued behind blanks, is an entry for its key. */
  lemma WrittenLine(blanks: string, key: string, ids: seq<string>)
    requires ReadableAfter(blanks, key)
    requires ids != [] && forall id | id in ids :: CleanId(id)
    ensures HeaderOf(blanks + KeyLine(key, Join(ids, ";"))).None?
    ensures EntryOf(blanks + KeyLine(key, Join(ids, ";"))) == Some((key, ids))
  {
    var value := Join(ids, ";") + ";";
    var line := (blanks + key) + "=" + value;
    assert blanks + KeyLine(key, Join(ids, ";")) == line + "\n";
    TrimEndBlank(line, "\n");
    WrittenLineIsTrimmed(line, blanks, key, value);
    SplitOnceAt(blanks + key, '=', value);
    TrimGivesCoreOnlyAfterBlank(blanks, key);
    IdListOfWritten(ids);
    PlainEntry(line + "\n", line, blanks + key, value);
  }

  /** An entry line, given its trimmed form and its two halves. */
  lemma PlainEntry(line: string, t: string, k: string, value: string)
    requires TrimEnd(line) == t && t != "" && t[0] != '#' && t[0] != '['
    requires SplitOnce(t, '=') == Some((k, value))
    requires Trim(k) != "" && '[' !in Trim(k)
    ensures HeaderOf(line).None? && EntryOf(line) == Some((Trim(k), IdList(value)))
  {
  }

  lemma WrittenLineIsTrimmed(line: string, blanks: string, key: string, value: string)
    requires ReadableAfter(blanks, key) && value != "" && value[|value| - 1] == ';'
    requires line == (blanks + key) + "=" + value
    ensures TrimEnd(line) == line && '=' !in blanks + key
    ensures line[0] != '[' && line[0] != '#'
  {
    assert line[|line| - 1] == ';';
    assert line[0] == if blanks == "" then key[0] else blanks[0];
  }

  lemma ReadKeyLine(state: ReadState, blanks: string, key: string, ids: seq<string>)
    requires ReadableAfter(blanks, key) && state.group != ""
    requires ids != [] && forall id | id in ids :: CleanId(id)
    ensures ReadLine(state, blanks + KeyLine(key, Join(ids, ";")))
         == state.(groups := Insert(state.groups, state.group, key, ids))
  {
    WrittenLine(blanks, key, ids);
  }

  /** A line the editor does not take for its target is no entry for the key. */
  lemma OtherEntry(line: string, key: string)
    requires !IsTarget(line, key)
    ensures EntryOf(line).Some? ==> EntryOf(line).value.0 != key
  {
    EntryOfTrimmed(line);
  }

  /** The editor's target line is the reader's entry for the key. */
  lemma TargetEntry(line: string, key: string)
    requires IsTarget(line, key) && CleanKey(key)
    ensures EntryOf(line) == Some((key, IdList(SplitOnce(line, '=').value.1)))
  {
    EntryOfTrimmed(line);
    var (k, value) := SplitOnce(line, '=').value;
    IdListIgnoresTrailing(value);
    var t := TrimEnd(line);
    if t[0] == '#' {
      assert k[0] == t[0];
      FirstNonWhiteStays(k);
    }
  }

  lemma FirstNonWhiteStays(s: string)
    requires s != "" && !IsWhite(s[0])
    ensures Trim(s) != "" && Trim(s)[0] == s[0]
  {
    TrimEndAfter(s[..1], s[1..]);
    assert s == s[..1] + s[1..];
  }

  // ---------- the map update ----------

  function Lookup(groups: Groups, group: string, key: string): seq<string>
  {
    if key in Members(groups, group) then Members(groups, group)[key] else []
  }

  predicate HasKey(groups: Groups, group: string, key: string)
  {
    key in Members(groups, group)
  }

  /** The defaults map with `id` as the preferred handler of `key`, the
      handlers known before kept behind it. */
  function WithDefault(groups: Groups, key: string, id: string): Groups
  {
    Insert(groups, DEFAULTS, key, [id] + Without(Lookup(groups, DEFAULTS, key), id))
  }

  lemma InsertCommutes(groups: Groups, g: string, k: string, ids: seq<string>, key: string, value: seq<string>)
    requires (g, k) != (DEFAULTS, key)
    ensures Insert(Insert(groups, g, k, ids), DEFAULTS, key, value)
         == Insert(Insert(groups, DEFAULTS, key, value), g, k, ids)
    ensures Lookup(Insert(groups, g, k, ids), DEFAULTS, key) == Lookup(groups, DEFAULTS, key)
    ensures HasKey(Insert(groups, g, k, ids), DEFAULTS, key) <==> HasKey(groups, DEFAULTS, key)
  {
    if g == DEFAULTS {
      var m := Members(groups, g);
      assert m[k := ids][key := value] == m[key := value][k := ids];
      assert Members(Insert(groups, g, k, ids), g) == m[k := ids];
    }
  }

  lemma InsertTwice(groups: Groups, key: string, a: seq<string>, b: seq<string>)
    ensures Insert(Insert(groups, DEFAULTS, key, a), DEFAULTS, key, b) == Insert(groups, DEFAULTS, key, b)
    ensures Lookup(Insert(groups, DEFAULTS, key, a), DEFAULTS, key) == a
  {
    var m := Members(groups, DEFAULTS);
    assert m[key := a][key := b] == m[key := b];
  }

  /** What the flags of the line loop say of each other. */
  predicate Flags(state: EditState)
  {
    && (state.inDefaults || state.wroteKey ==> state.seenGroup)
    && (state.seenGroup && !state.inDefaults ==> state.wroteKey)
  }

  lemma {:induction false} FlagsFrom(state: EditState, lines: seq<string>, key: string, id: string)
    requires Flags(state)
    ensures Flags(EditLines(state, lines, key, id))
    decreases |lines|
  {
    hide Body, HeaderOf, IsTarget, Retargeted;
    if lines != [] { FlagsFrom(EditLine(state, lines[0], key, id), lines[1..], key, id); }
  }

  /** What holds between the editor, the reader on the input read so far, and
      the reader on the output written so far. */
  predicate Simulates(state: EditState, src: ReadState, dst: ReadState, key: string, id: string)
  {
    && dst.group == src.group
    && (state.inDefaults <==> src.group == DEFAULTS)
    && Flags(state)
    && (if state.wroteKey then dst.groups == WithDefault(src.groups, key, id)
        else dst.groups == src.groups && !HasKey(src.groups, DEFAULTS, key))
  }

  lemma HeaderStep(state: EditState, src: ReadState, dst: ReadState, line: string, key: string, id: string)
    requires Simulates(state, src, dst, key, id) && CleanKey(key) && CleanDefault(id)
    requires HeaderOf(Body(line)).Some?
    ensures var next := EditLine(state, line, key, id);
            Simulates(next, ReadLine(src, line), ReadLines(dst, next.out[|state.out|..]), key, id)
  {
    var insert := state.inDefaults && !state.wroteKey;
    var next := EditLine(state, line, key, id);
    TrimmedHeader(line);
    assert next.out[|state.out|..] == (if insert then [KeyLine(key, id)] else []) + [line];
    hide HeaderOf, EntryOf, Body, KeyLine, HasKey, WithDefault, CleanKey, CleanDefault, ReadLines;
    if insert {
      InsertedKeyReads(dst, src, key, id);
      ReadsTwo(dst, KeyLine(key, id), line);
    } else {
      ReadsOne(dst, line);
    }
  }

  lemma ReadsOne(state: ReadState, line: string)
    ensures ReadLines(state, [line]) == ReadLine(state, line)
    ensures ReadLines(state, [] + [line]) == ReadLine(state, line)
  {
    ReadSnoc(state, [], line);
    assert [] + [line] == [line];
  }

  lemma ReadsTwo(state: ReadState, first: string, second: string)
    ensures ReadLines(state, [first] + [second]) == ReadLine(ReadLine(state, first), second)
  {
    ReadsOne(state, first);
    ReadSnoc(state, [first], second);
  }

  lemma TrimmedHeader(line: string)
    ensures HeaderOf(Body(line)) == HeaderOf(line)
  {
    BodyTrimsAlike(line);
  }

  lemma InsertedKeyReads(dst: ReadState, src: ReadState, key: string, id: string)
    requires CleanKey(key) && CleanDefault(id)
    requires dst == src && src.group == DEFAULTS && !HasKey(src.groups, DEFAULTS, key)
    ensures ReadLine(dst, KeyLine(key, id)) == dst.(groups := WithDefault(src.groups, key, id))
  {
    ReadKeyLine(dst, "", key, [id]);
    assert Join([id], ";") == id && "" + KeyLine(key, id) == KeyLine(key, id);
    assert [id] + Without([], id) == [id];
  }

  lemma TargetStep(state: EditState, src: ReadState, dst: ReadState, line: string, key: string, id: string)
    requires Simulates(state, src, dst, key, id) && CleanKey(key) && CleanDefault(id)
    requires HeaderOf(Body(line)).None? && state.inDefaults && IsTarget(Body(line), key)
    ensures var next := EditLine(state, line, key, id);
            Simulates(next, ReadLine(src, line), ReadLines(dst, next.out[|state.out|..]), key, id)
  {
    hide HeaderOf, EntryOf, TrimEnd, Blank, KeyLine, Join, IdList, Insert, CleanKey, CleanId;
    var body := Body(line);
    BodyTrimsAlike(line);
    ReadOnlySeesTrimmed(src, line, body);
    TargetEntry(body, key);
    var existing := IdList(SplitOnce(body, '=').value.1);
    var ids := [id] + Without(existing, id);
    var written := Retargeted(body, key, id);
    CleanIsReadable(key);
    ReadKeyLine(dst, "", key, ids);
    assert "" + KeyLine(key, Join(ids, ";")) == written;
    InsertTwice(src.groups, key, existing, ids);
    InsertTwice(src.groups, key, [id] + Without(Lookup(src.groups, DEFAULTS, key), id), ids);
    var next := EditLine(state, line, key, id);
    assert next.out[|state.out|..] == [] + [written];
    ReadSnoc(dst, [], written);
  }

  lemma CleanIsReadable(key: string)
    requires CleanKey(key)
    ensures ReadableAfter("", key)
  {
  }

  lemma OtherStep(state: EditState, src: ReadState, dst: ReadState, line: string, key: string, id: string)
    requires Simulates(state, src, dst, key, id) && CleanKey(key) && CleanDefault(id)
    requires HeaderOf(Body(line)).None? && !(state.inDefaults && IsTarget(Body(line), key))
    ensures var next := EditLine(state, line, key, id);
            Simulates(next, ReadLine(src, line), ReadLines(dst, next.out[|state.out|..]), key, id)
  {
    hide Body, IsTarget, EntryOf, HeaderOf, TrimEnd, Insert, Without, IdList;
    var body := Body(line);
    var next := EditLine(state, line, key, id);
    assert next.out[|state.out|..] == [] + [line];
    ReadSnoc(dst, [], line);
    BodyTrimsAlike(line);
    ReadOnlySeesTrimmed(src, line, body);
    ReadOnlySeesTrimmed(dst, line, body);
    if EntryOf(body).Some? {
      var (k, ids) := EntryOf(body).value;
      if !IsTarget(body, key) { OtherEntry(body, key); }
      InsertCommutes(src.groups, src.group, k, ids, key, [id] + Without(Lookup(src.groups, DEFAULTS, key), id));
    }
  }

  lemma LineStep(state: EditState, src: ReadState, dst: ReadState, line: string, key: string, id: string)
    requires Simulates(state, src, dst, key, id) && CleanKey(key) && CleanDefault(id)
    ensures state.out <= EditLine(state, line, key, id).out
    ensures var next := EditLine(state, line, key, id);
            Simulates(next, ReadLine(src, line), ReadLines(dst, next.out[|state.out|..]), key, id)
  {
    if HeaderOf(Body(line)).Some? {
      HeaderStep(state, src, dst, line, key, id);
    } else if state.inDefaults && IsTarget(Body(line), key) {
      TargetStep(state, src, dst, line, key, id);
    } else {
      OtherStep(state, src, dst, line, key, id);
    }
  }

  lemma {:induction false} SimulationFrom(state: EditState, src: ReadState, dst: ReadState, lines: seq<string>, key: string, id: string)
    requires Simulates(state, src, dst, key, id) && CleanKey(key) && CleanDefault(id)
    ensures state.out <= EditLines(state, lines, key, id).out
    ensures var next := EditLines(state, lines, key, id);
            Simulates(next, ReadLines(src, lines), ReadLines(dst, next.out[|state.out|..]), key, id)
    decreases |lines|
  {
    hide EditLine, ReadLine, Simulates;
    if lines != [] {
      var mid := EditLine(state, lines[0], key, id);
      LineStep(state, src, dst, lines[0], key, id);
      var written := mid.out[|state.out|..];
      SimulationFrom(mid, ReadLine(src, lines[0]), ReadLines(dst, written), lines[1..], key, id);
      var next := EditLines(mid, lines[1..], key, id);
      assert next.out[|state.out|..] == written + next.out[|mid.out|..];
      ReadConcat(dst, written, next.out[|mid.out|..]);
    }
  }

  lemma Simulation(lines: seq<string>, key: string, id: string)
    requires CleanKey(key) && CleanDefault(id)
    ensures var state := EditLines(BEGIN, lines, key, id);
            Simulates(state, ReadLines(START, lines), ReadLines(START, state.out), key, id)
  {
    SimulationFrom(BEGIN, START, START, lines, key, id);
    var state := EditLines(BEGIN, lines, key, id);
    assert state.out[0..] == state.out;
  }

  // ---------- the lines of the written text ----------

  predicate Lined(lines: seq<string>)
  {
    && (forall i | 0 <= i < |lines| :: OneLine(lines[i]))
    && (forall i | 0 <= i < |lines| - 1 :: Terminated(lines[i]))
  }

  predicate AllTerminated(lines: seq<string>)
  {
    forall i | 0 <= i < |lines| :: OneLine(lines[i]) && Terminated(lines[i])
  }

  predicate SingleLine(key: string, id: string)
  {
    '\n' !in key && '\n' !in id
  }

  lemma KeyLineIsLine(key: string, ids: seq<string>)
    requires '\n' !in key && forall id | id in ids :: '\n' !in id
    ensures OneLine(KeyLine(key, Join(ids, ";"))) && Terminated(KeyLine(key, Join(ids, ";")))
  {
    JoinKeepsOut(ids, ";", '\n');
    var line := KeyLine(key, Join(ids, ";"));
    assert line[..|line| - 1] == key + "=" + Join(ids, ";") + ";";
  }

  lemma KeyLineOfOne(key: string, id: string)
    requires SingleLine(key, id)
    ensures OneLine(KeyLine(key, id)) && Terminated(KeyLine(key, id))
  {
    KeyLineIsLine(key, [id]);
    assert Join([id], ";") == id;
  }

  lemma AppendLined(lines: seq<string>, line: string)
    requires AllTerminated(lines) && OneLine(line)
    ensures Lined(lines + [line])
    ensures Terminated(line) ==> AllTerminated(lines + [line])
  {
    hide OneLine, Terminated;
  }

  lemma RetargetedEnds(body: string, key: string, id: string)
    requires SingleLine(key, id) && IsTarget(body, key) && '\n' !in body
    ensures OneLine(Retargeted(body, key, id)) && Terminated(Retargeted(body, key, id))
  {
    var value := SplitOnce(body, '=').value.1;
    IdListKeepsOut(value, '\n');
    hide IdList, OneLine, Terminated;
    KeyLineIsLine(key, [id] + Without(IdList(value), id));
  }

  lemma EditLineLined(state: EditState, line: string, key: string, id: string)
    requires AllTerminated(state.out) && OneLine(line) && SingleLine(key, id)
    ensures Lined(EditLine(state, line, key, id).out)
    ensures Terminated(line) ==> AllTerminated(EditLine(state, line, key, id).out)
  {
    hide OneLine, Terminated, HeaderOf, Body, Lined, AllTerminated, Retargeted, KeyLine;
    var body, out := Body(line), state.out;
    KeyLineOfOne(key, id);
    AppendLined(out, KeyLine(key, id));
    AppendLined(out, line);
    AppendLined(out + [KeyLine(key, id)], line);
    assert out + [] + [line] == out + [line];
    if IsTarget(body, key) {
      RetargetedEnds(body, key, id);
      AppendLined(out, Retargeted(body, key, id));
    }
  }

  lemma {:induction false} EditLinesLined(state: EditState, lines: seq<string>, key: string, id: string)
    requires AllTerminated(state.out) && Lined(lines) && SingleLine(key, id)
    ensures Lined(EditLines(state, lines, key, id).out) || lines == []
    ensures AllTerminated(lines) ==> AllTerminated(EditLines(state, lines, key, id).out)
    decreases |lines|
  {
    if lines != [] {
      EditLineLined(state, lines[0], key, id);
      if |lines| > 1 {
        EditLinesLined(EditLine(state, lines[0], key, id), lines[1..], key, id);
        if AllTerminated(lines) { assert AllTerminated(lines[1..]); }
      }
    }
  }

  /** The text ends without a newline, inside a defaults group that never set the key. */
  predicate EndsOpen(text: string, key: string, id: string)
  {
    var state := Edit(text, key, id);
    text != "" && !Terminated(text) && state.inDefaults && !state.wroteKey
  }

  /** The line the new key is glued to. */
  function LastLine(text: string): string
    requires text != ""
  {
    var lines := SplitLines(text);
    lines[|lines| - 1]
  }

  lemma TerminatedTextLines(text: string)
    requires text != ""
    ensures SplitLines(text) != [] && Lined(SplitLines(text))
    ensures Terminated(text) <==> Terminated(LastLine(text))
  {
    assert Flatten(SplitLines(text)) == text;
    FlattenTerminated(SplitLines(text));
  }

  function Patched(lines: seq<string>): seq<string>
  {
    if lines == [] then [] else lines[..|lines| - 1] + [WithNewline(lines[|lines| - 1])]
  }

  lemma PatchedIsTerminated(lines: seq<string>)
    requires Lined(lines)
    ensures AllTerminated(Patched(lines))
  {
    if lines != [] {
      var last := lines[|lines| - 1];
      if !Terminated(last) {
        assert last == last[..|last| - 1] + [last[|last| - 1]];
        assert (last + "\n")[..|last|] == last;
      }
    }
  }

  lemma PatchedReadsAlike(state: ReadState, lines: seq<string>)
    ensures ReadLines(state, Patched(lines)) == ReadLines(state, lines)
  {
    hide ReadLine;
    if lines != [] {
      var front, last := lines[..|lines| - 1], lines[|lines| - 1];
      ReadSnoc(state, front, last);
      ReadSnoc(state, front, WithNewline(last));
      assert lines == front + [last];
      TrimEndBlank(last, "\n");
      ReadOnlySeesTrimmed(ReadLines(state, front), last, WithNewline(last));
    }
  }

  lemma WrittenIsFlat(lines: seq<string>)
    requires Lined(lines)
    ensures WithNewline(Flatten(lines)) == Flatten(Patched(lines))
  {
    if lines != [] {
      var front, last := lines[..|lines| - 1], lines[|lines| - 1];
      FlattenTerminated(lines);
      FlattenOne(last);
      FlattenOne(WithNewline(last));
      hide Flatten, Lined;
      FlattenConcat(front, [last]);
      FlattenConcat(front, [WithNewline(last)]);
      assert lines == front + [last];
    }
  }

  lemma FlattenOne(line: string)
    ensures Flatten([line]) == line
  {
    assert [line][1..] == [];
  }

  /** Writing lines out and making sure the text ends in a newline. */
  lemma SplitOfWritten(lines: seq<string>)
    requires Lined(lines)
    ensures SplitLines(WithNewline(Flatten(lines))) == Patched(lines)
  {
    WrittenIsFlat(lines);
    PatchedIsTerminated(lines);
    hide Patched, Flatten, OneLine, Terminated;
    SplitUndoesFlatten(Patched(lines));
  }

  lemma ClosingIsLined(state: EditState, keyLine: string)
    requires Lined(state.out) && OneLine(keyLine) && Terminated(keyLine)
    requires state.inDefaults && !state.wroteKey ==> AllTerminated(state.out)
    requires state.inDefaults ==> state.seenGroup
    ensures Lined(Closing(state, keyLine))
  {
    var out, blank := state.out, WithBlankAfter(state.out);
    assert OneLine("\n") && Terminated("\n") && OneLine(HEADER_LINE) && Terminated(HEADER_LINE);
    if state.seenGroup {
      if state.inDefaults && !state.wroteKey { AppendLined(out, keyLine); }
    } else {
      assert AllTerminated([]);
      PatchedIsTerminated(out);
      hide OneLine, Terminated, Lined, AllTerminated;
      if out != [] { AppendLined(Patched(out), "\n"); }
      AppendLined(blank, HEADER_LINE);
      AppendLined(blank + [HEADER_LINE], keyLine);
    }
  }

  /** What the line loop writes are lines, and ended ones where a key line is
      still to be added. */
  lemma EditedIsLined(text: string, key: string, id: string)
    requires SingleLine(key, id)
    ensures Lined(Edit(text, key, id).out)
    ensures !EndsOpen(text, key, id) && Edit(text, key, id).inDefaults && !Edit(text, key, id).wroteKey ==> AllTerminated(Edit(text, key, id).out)
  {
    var lines := SplitLines(text);
    if text != "" {
      TerminatedTextLines(text);
      if Terminated(text) { EndedLines(text, lines); }
      hide SplitLines, EditLines, OneLine;
      EditLinesLined(BEGIN, lines, key, id);
    }
  }

  lemma EndedLines(text: string, lines: seq<string>)
    requires text != "" && lines == SplitLines(text) && lines != [] && Lined(lines) && Terminated(lines[|lines| - 1])
    ensures AllTerminated(lines)
  {
    hide SplitLines, OneLine, Terminated;
  }

  /** Unless the new key is glued to an unterminated line, the lines of the
      result are the lines the editor meant to write. */
  lemma UpdatedLines(text: string, key: string, id: string)
    requires SingleLine(key, id) && !EndsOpen(text, key, id)
    ensures SplitLines(Updated(text, key, id)) == Patched(Closing(Edit(text, key, id), KeyLine(key, id)))
    ensures AllTerminated(SplitLines(Updated(text, key, id)))
  {
    var state := Edit(text, key, id);
    EditedIsLined(text, key, id);
    KeyLineOfOne(key, id);
    FlagsFrom(BEGIN, SplitLines(text), key, id);
    hide KeyLine, Closing, OneLine, Terminated, Lined, AllTerminated, SplitLines, EditLines, Patched, Flatten;
    ClosingIsLined(state, KeyLine(key, id));
    SplitOfWritten(Closing(state, KeyLine(key, id)));
    PatchedIsTerminated(Closing(state, KeyLine(key, id)));
  }

  /** What the reader makes of the lines the editor meant to write. */
  lemma ReadClosing(text: string, key: string, id: string)
    requires CleanKey(key) && CleanDefault(id)
    ensures ReadLines(START, Closing(Edit(text, key, id), KeyLine(key, id))).groups
         == WithDefault(Parse(text), key, id)
  {
    var state := Edit(text, key, id);
    var lines := SplitLines(text);
    var src, dst := ReadLines(START, lines), ReadLines(START, state.out);
    var keyLine := KeyLine(key, id);
    Simulation(lines, key, id);
    if state.inDefaults && !state.wroteKey {
      InsertedKeyReads(dst, src, key, id);
      ReadSnoc(START, state.out, keyLine);
    } else if !state.seenGroup {
      ReadAppendedGroup(state.out, src, key, id);
    }
  }

  lemma ReadAppendedGroup(out: seq<string>, src: ReadState, key: string, id: string)
    requires CleanKey(key) && CleanDefault(id)
    requires ReadLines(START, out) == src && !HasKey(src.groups, DEFAULTS, key)
    ensures ReadLines(START, WithBlankAfter(out) + [HEADER_LINE] + [KeyLine(key, id)]).groups
         == WithDefault(src.groups, key, id)
  {
    hide ReadLine, ReadLines;
    ReadGroupStart(out);
    var entered := src.(group := DEFAULTS);
    ReadSnoc(START, WithBlankAfter(out) + [HEADER_LINE], KeyLine(key, id));
    InsertedKeyReads(entered, entered, key, id);
  }

  lemma ReadGroupStart(out: seq<string>)
    ensures ReadLines(START, WithBlankAfter(out) + [HEADER_LINE]) == ReadLines(START, out).(group := DEFAULTS)
  {
    hide ReadLine;
    var before := WithBlankAfter(out);
    if out != [] {
      assert before == Patched(out) + ["\n"];
      PatchedReadsAlike(START, out);
      ReadSnoc(START, Patched(out), "\n");
      BlankLineReads(ReadLines(START, out));
    }
    ReadSnoc(START, before, HEADER_LINE);
    HeaderLineReads(ReadLines(START, before));
  }

  lemma BlankLineReads(state: ReadState)
    ensures ReadLine(state, "\n") == state
  {
    TrimEndBlank("", "\n");
    assert "" + "\n" == "\n";
  }

  lemma HeaderLineReads(state: ReadState)
    ensures ReadLine(state, HEADER_LINE) == state.(group := DEFAULTS)
  {
    assert Trimmed(DEFAULTS) by { assert DEFAULTS[0] == 'D' && DEFAULTS[|DEFAULTS| - 1] == 's'; }
    HeaderLine(DEFAULTS);
  }

  lemma HeaderLine(name: string)
    requires Trimmed(name)
    ensures HeaderOf("[" + name + "]\n") == Some(name)
  {
    hide TrimStart, Blank;
    var t := "[" + name + "]";
    assert t + "\n" == "[" + name + "]\n";
    assert t[|t| - 1] == ']';
    TrimEndAfter(t, "\n");
    TrimEndBlank("", "\n");
    assert "" + "\n" == "\n" && t + "" == t;
    assert t[1..|t| - 1] == name;
    TrimmedIsFixed(name);
  }

  // ---------- what the reader can report at all ----------

  /** An entry of the form the reader lets through. */
  predicate Listed(key: string, ids: seq<string>)
  {
    ListedKey(key) && forall id | id in ids :: CleanId(id)
  }

  ghost predicate Reported(groups: Groups)
  {
    forall group, key | HasKey(groups, group, key) :: Listed(key, Lookup(groups, group, key))
  }

  lemma EntryIsReported(line: string)
    ensures EntryOf(line).Some? ==> Listed(EntryOf(line).value.0, EntryOf(line).value.1)
  {
    hide CleanId;
    if EntryOf(line).Some? {
      var k := SplitOnce(TrimEnd(line), '=').value.0;
      TrimIsTrimmed(k);
      TrimKeepsOut(k, '=');
    }
  }

  lemma LineIsReported(state: ReadState, line: string)
    requires Reported(state.groups)
    ensures Reported(ReadLine(state, line).groups)
  {
    hide EntryOf, HeaderOf, Listed, Insert, Reported;
    EntryIsReported(line);
    if EntryOf(line).Some? { InsertIsReported(state.groups, state.group, EntryOf(line).value.0, EntryOf(line).value.1); }
  }

  lemma InsertIsReported(groups: Groups, group: string, key: string, ids: seq<string>)
    requires Reported(groups) && Listed(key, ids)
    ensures Reported(Insert(groups, group, key, ids))
  {
    hide Listed;
    var next := Insert(groups, group, key, ids);
    forall g, k | HasKey(next, g, k) ensures Listed(k, Lookup(next, g, k)) {
      if (g, k) != (group, key) { assert HasKey(groups, g, k) && Lookup(next, g, k) == Lookup(groups, g, k); }
    }
  }

  lemma {:induction false} ReadIsReported(state: ReadState, lines: seq<string>)
    requires Reported(state.groups)
    ensures Reported(ReadLines(state, lines).groups)
    decreases |lines|
  {
    hide ReadLine, Reported;
    if lines != [] {
      LineIsReported(state, lines[0]);
      ReadIsReported(ReadLine(state, lines[0]), lines[1..]);
    }
  }

  /** A key or an id the reader cannot report is in no file it reads. */
  lemma OnlyReported(text: string, groups: Groups, key: string, id: string)
    requires !ListedKey(key) || !CleanId(id)
    ensures id !in Lookup(Parse(text), DEFAULTS, key)
    ensures Parse(text) != WithDefault(groups, key, id)
  {
    hide ListedKey, CleanId;
    ReadIsReported(START, SplitLines(text));
    assert Lookup(WithDefault(groups, key, id), DEFAULTS, key)[0] == id;
    assert HasKey(WithDefault(groups, key, id), DEFAULTS, key);
  }

  // ---------- what the editor has not written yet ----------

  /** Until the key is written, the lines are copied and the reader has not met it. */
  lemma {:induction false} Unwritten(lines: seq<string>, key: string, id: string)
    ensures var state, src := EditLines(BEGIN, lines, key, id), ReadLines(START, lines);
            && (state.inDefaults <==> src.group == DEFAULTS)
            && (!state.wroteKey ==> state.out == lines && !HasKey(src.groups, DEFAULTS, key))
    decreases |lines|
  {
    if lines != [] {
      var front, last := lines[..|lines| - 1], lines[|lines| - 1];
      assert lines == front + [last];
      Unwritten(front, key, id);
      EditSnoc(BEGIN, front, last, key, id);
      ReadSnoc(START, front, last);
      UnwrittenLine(EditLines(BEGIN, front, key, id), ReadLines(START, front), last, key, id);
    }
  }

  lemma UnwrittenLine(state: EditState, src: ReadState, line: string, key: string, id: string)
    requires state.inDefaults <==> src.group == DEFAULTS
    requires !state.wroteKey ==> !HasKey(src.groups, DEFAULTS, key)
    ensures var next, read := EditLine(state, line, key, id), ReadLine(src, line);
            && (next.inDefaults <==> read.group == DEFAULTS)
            && (!next.wroteKey ==> !state.wroteKey && next.out == state.out + [line] && !HasKey(read.groups, DEFAULTS, key))
  {
    hide Body, IsTarget, EntryOf, HeaderOf, Retargeted, KeyLine;
    TrimmedHeader(line);
    BodyTrimsAlike(line);
    ReadOnlySeesTrimmed(src, line, Body(line));
    if !IsTarget(Body(line), key) { OtherEntry(Body(line), key); }
  }

  // ---------- a key that starts a comment ----------

  lemma CommentIsSkipped(key: string, ids: string)
    requires key != "" && key[0] == '#'
    ensures HeaderOf(KeyLine(key, ids)).None? && EntryOf(KeyLine(key, ids)).None?
  {
    var line := KeyLine(key, ids);
    assert line == [key[0]] + line[1..];
    assert !IsWhite('#');
    TrimEndAfter([key[0]], line[1..]);
  }

  /** In the edited lines a key that starts with `#` stands in comments only. */
  lemma {:induction false} CommentedIsUnread(lines: seq<string>, key: string, id: string)
    requires key != "" && key[0] == '#'
    ensures var state := EditLines(BEGIN, lines, key, id);
            var dst := ReadLines(START, state.out);
            (state.inDefaults <==> dst.group == DEFAULTS) && !HasKey(dst.groups, DEFAULTS, key)
    decreases |lines|
  {
    if lines != [] {
      var front, last := lines[..|lines| - 1], lines[|lines| - 1];
      assert lines == front + [last];
      CommentedIsUnread(front, key, id);
      EditSnoc(BEGIN, front, last, key, id);
      CommentedLine(EditLines(BEGIN, front, key, id), last, key, id);
    }
  }

  lemma CommentedLine(state: EditState, line: string, key: string, id: string)
    requires key != "" && key[0] == '#'
    requires var dst := ReadLines(START, state.out);
             (state.inDefaults <==> dst.group == DEFAULTS) && !HasKey(dst.groups, DEFAULTS, key)
    ensures var next := EditLine(state, line, key, id);
            var dst := ReadLines(START, next.out);
            (next.inDefaults <==> dst.group == DEFAULTS) && !HasKey(dst.groups, DEFAULTS, key)
  {
    hide Body, IsTarget, EntryOf, HeaderOf, KeyLine, ReadLines, Retargeted;
    var body := Body(line);
    var dst := ReadLines(START, state.out);
    TrimmedHeader(line);
    BodyTrimsAlike(line);
    ReadOnlySeesTrimmed(dst, line, body);
    if HeaderOf(body).Some? {
      var insert := state.inDefaults && !state.wroteKey;
      var mid := state.out + if insert then [KeyLine(key, id)] else [];
      CommentIsSkipped(key, id);
      ReadSnoc(START, state.out, KeyLine(key, id));
      assert state.out + [] == state.out;
      assert ReadLines(START, mid) == dst;
      ReadSnoc(START, mid, line);
      assert EditLine(state, line, key, id).out == mid + [line];
    } else if state.inDefaults && IsTarget(body, key) {
      RetargetedIsComment(body, key, id);
      ReadSnoc(START, state.out, Retargeted(body, key, id));
    } else {
      if !IsTarget(body, key) { OtherEntry(body, key); }
      ReadSnoc(START, state.out, line);
    }
  }

  lemma RetargetedIsComment(body: string, key: string, id: string)
    requires key != "" && key[0] == '#' && IsTarget(body, key)
    ensures HeaderOf(Retargeted(body, key, id)).None? && EntryOf(Retargeted(body, key, id)).None?
  {
    hide HeaderOf, EntryOf, KeyLine;
    CommentIsSkipped(key, Join([id] + Without(IdList(SplitOnce(body, '=').value.1), id), ";"));
  }

  lemma CommentedClosing(text: string, key: string, id: string)
    requires key != "" && key[0] == '#'
    ensures !HasKey(ReadLines(START, Closing(Edit(text, key, id), KeyLine(key, id))).groups, DEFAULTS, key)
  {
    hide ReadLine, ReadLines, EditLines, HasKey;
    var state, keyLine := Edit(text, key, id), KeyLine(key, id);
    CommentedIsUnread(SplitLines(text), key, id);
    CommentIsSkipped(key, id);
    var dst := ReadLines(START, state.out);
    if state.inDefaults && !state.wroteKey {
      ReadSnoc(START, state.out, keyLine);
      SkippedLine(dst, keyLine);
    }
    FlagsFrom(BEGIN, SplitLines(text), key, id);
    if !state.seenGroup { AppendedCommentIsSkipped(state.out, dst, keyLine); }
  }

  lemma SkippedLine(state: ReadState, line: string)
    requires HeaderOf(line).None? && EntryOf(line).None?
    ensures ReadLine(state, line) == state
  {
  }

  lemma AppendedCommentIsSkipped(out: seq<string>, dst: ReadState, line: string)
    requires dst == ReadLines(START, out)
    requires HeaderOf(line).None? && EntryOf(line).None?
    ensures ReadLines(START, WithBlankAfter(out) + [HEADER_LINE] + [line]) == dst.(group := DEFAULTS)
  {
    hide ReadLine, ReadLines, HeaderOf, EntryOf;
    ReadGroupStart(out);
    ReadSnoc(START, WithBlankAfter(out) + [HEADER_LINE], line);
    SkippedLine(dst.(group := DEFAULTS), line);
  }
}
