/** Repeating the edit that records a default application, and the lines it
    leaves alone. */
module MimeAppsLines {
  import opened Wrappers
  import opened Text
  import opened MimeApps
  import opened MimeAppsRefinement
  import opened MimeAppsTheorems

  // ---------- repeating the edit ----------

  /** A written line is a target again, with the value it was written with. */
  lemma WrittenIsTarget(key: string, ids: string)
    requires TargetKey(key)
    ensures var body := Body(KeyLine(key, ids));
            HeaderOf(body).None? && IsTarget(body, key) && SplitOnce(body, '=').value.1 == ids + ";"
  {
    WrittenBehind("", key, ids);
    assert "" + KeyLine(key, ids) == KeyLine(key, ids);
  }

  /** The same with `front` before the key: a target only when that is blank. */
  lemma WrittenBehind(front: string, key: string, ids: string)
    requires TargetKey(key) && '=' !in front
    ensures var body := Body(front + KeyLine(key, ids));
            HeaderOf(body).None? && SplitOnce(body, '=') == Some((front + key, ids + ";"))
            && (IsTarget(body, key) <==> Blank(front))
  {
    hide Trim, Blank, TrimEnd;
    var value := ids + ";";
    var body := (front + key) + "=" + value;
    GluedBody(front, key, ids);
    SplitOnceAt(front + key, '=', value);
    TrimGivesCoreOnlyAfterBlank(front, key);
    assert body[|body| - 1] == ';';
    NoHeader(body);
  }

  lemma NoHeader(body: string)
    requires body != "" && body[|body| - 1] == ';'
    ensures HeaderOf(body).None?
  {
  }

  /** The list of an id: itself when it is clean. Otherwise it is `Extra` that
      every further edit adds. */
  function Extra(id: string): seq<string>
  {
    Without(IdList(id), id)
  }

  /** An id that is listed as itself or not at all. */
  predicate Stable(id: string)
  {
    IdList(id) == [id] || IdList(id) == []
  }

  lemma StableIff(id: string)
    ensures Stable(id) <==> Extra(id) == []
  {
    var ids := IdList(id);
    assert Without([id], id) == [] by { assert [id][1..] == []; }
    if ids != [] && Extra(id) == [] {
      WithoutNothing(ids, id);
      assert CleanId(ids[0]) && ids[0] == id;
      IdListStep(id, "");
      TrimmedIsFixed(id);
      assert IdList(id) == [id];
    }
  }

  lemma {:induction false} WithoutNothing(ids: seq<string>, id: string)
    requires Without(ids, id) == []
    ensures forall x | x in ids :: x == id
  {
    if ids != [] {
      assert ids == [ids[0]] + ids[1..];
      WithoutNothing(ids[1..], id);
    }
  }

  lemma {:induction false} WithoutConcat(a: seq<string>, b: seq<string>, id: string)
    ensures Without(a + b, id) == Without(a, id) + Without(b, id)
  {
    if a == [] {
      assert a + b == b;
    } else {
      assert (a + b)[1..] == a[1..] + b;
      WithoutConcat(a[1..], b, id);
    }
  }

  lemma {:induction false} IdListConcat(a: string, b: string)
    ensures IdList(a + ";" + b) == IdList(a) + IdList(b)
    decreases |a|
  {
    hide IdList, IdOf;
    var i := IndexOf(a, ';');
    if i == |a| {
      IdListStep(a, b);
    } else {
      var part, rest := a[..i], a[i + 1..];
      assert a == part + ";" + rest;
      assert a + ";" + b == part + ";" + (rest + ";" + b);
      IdListStep(part, rest);
      IdListStep(part, rest + ";" + b);
      IdListConcat(rest, b);
    }
  }

  lemma WrittenList(id: string, rest: seq<string>)
    requires forall x | x in rest :: CleanId(x)
    ensures IdList(Join([id] + rest, ";") + ";") == IdList(id) + rest
  {
    hide IdList;
    WrittenStep([id] + rest);
    assert ([id] + rest)[1..] == rest;
    if rest == [] {
      IdListConcat(id, "");
      EmptyIdList();
    } else {
      IdListConcat(id, Join(rest, ";") + ";");
      IdListOfWritten(rest);
    }
  }

  lemma {:induction false} WithoutTwice(ids: seq<string>, id: string)
    requires id !in ids
    ensures Without(ids, id) == ids
  {
    if ids != [] { WithoutTwice(ids[1..], id); }
  }

  /** What the editor makes of a key line it wrote itself. */
  lemma WrittenAgain(state: EditState, key: string, id: string, rest: seq<string>)
    requires TargetKey(key) && id !in rest && forall x | x in rest :: CleanId(x)
    requires state.inDefaults
    ensures EditLine(state, KeyLine(key, Join([id] + rest, ";")), key, id)
         == state.(wroteKey := true, out := state.out + [KeyLine(key, Join([id] + (Extra(id) + rest), ";"))])
  {
    hide HeaderOf, IsTarget, IdList, KeyLine, Body, Join;
    WrittenIsTarget(key, Join([id] + rest, ";"));
    WrittenList(id, rest);
    WithoutConcat(IdList(id), rest, id);
    WithoutTwice(rest, id);
  }

  /** The editor copies such a line when the id is stable. */
  lemma WrittenLineIsCopied(state: EditState, key: string, id: string, rest: seq<string>)
    requires TargetKey(key) && Stable(id) && id !in rest && forall x | x in rest :: CleanId(x)
    requires state.inDefaults
    ensures var line := KeyLine(key, Join([id] + rest, ";"));
            EditLine(state, line, key, id) == state.(wroteKey := true, out := state.out + [line])
  {
    hide EditLine, KeyLine, Join, IdList;
    WrittenAgain(state, key, id, rest);
    StableIff(id);
    assert [] + rest == rest;
  }

  lemma WrittenOneIsCopied(state: EditState, key: string, id: string)
    requires TargetKey(key) && Stable(id) && state.inDefaults
    ensures EditLine(state, KeyLine(key, id), key, id) == state.(wroteKey := true, out := state.out + [KeyLine(key, id)])
  {
    hide EditLine, KeyLine, TargetKey, Stable;
    WrittenLineIsCopied(state, key, id, []);
    JoinOne(id);
    assert [id] + [] == [id];
  }

  lemma EditOne(state: EditState, line: string, key: string, id: string)
    ensures EditLines(state, [line], key, id) == EditLine(state, line, key, id)
  {
    hide EditLine;
    assert [line][1..] == [];
  }

  lemma EditTwo(state: EditState, a: string, b: string, key: string, id: string)
    ensures EditLines(state, [a, b], key, id) == EditLine(EditLine(state, a, key, id), b, key, id)
  {
    hide EditLine, EditLines;
    EditSnoc(state, [a], b, key, id);
    EditOne(state, a, key, id);
    assert [a] + [b] == [a, b];
  }

  /** Where nothing is inserted or rewritten, the editor copies the line. */
  lemma RewritesCopied(state: EditState, again: EditState, line: string, key: string, id: string)
    requires again.(out := []) == state.(out := [])
    requires EditLine(state, line, key, id).out == state.out + [line]
    requires HeaderOf(Body(line)).None? ==> !(state.inDefaults && IsTarget(Body(line), key))
    ensures EditLines(again, [line], key, id) == EditLine(state, line, key, id).(out := again.out + [line])
  {
    hide HeaderOf, IsTarget, Body, KeyLine, EditLines;
    EditOne(again, line, key, id);
  }

  lemma RewritesInserted(state: EditState, again: EditState, line: string, key: string, id: string)
    requires TargetKey(key) && Stable(id)
    requires again.(out := []) == state.(out := []) && state.inDefaults && !state.wroteKey
    requires HeaderOf(Body(line)).Some?
    ensures var keyLine := KeyLine(key, id);
            EditLines(again, [keyLine, line], key, id) == EditLine(state, line, key, id).(out := again.out + [keyLine, line])
  {
    hide HeaderOf, IsTarget, Body, KeyLine, EditLines, TargetKey, Stable;
    var keyLine := KeyLine(key, id);
    WrittenOneIsCopied(again, key, id);
    EditTwo(again, keyLine, line, key, id);
    assert again.out + [keyLine] + [line] == again.out + [keyLine, line];
  }

  lemma RewritesTarget(state: EditState, again: EditState, line: string, key: string, id: string)
    requires TargetKey(key) && Stable(id)
    requires again.(out := []) == state.(out := []) && state.inDefaults
    requires HeaderOf(Body(line)).None? && IsTarget(Body(line), key)
    ensures var written := Retargeted(Body(line), key, id);
            EditLines(again, [written], key, id) == EditLine(state, line, key, id).(out := again.out + [written])
  {
    hide HeaderOf, Body, IdList, KeyLine, Join, EditLines, TargetKey, Stable;
    var written := Retargeted(Body(line), key, id);
    var rest := Without(IdList(SplitOnce(Body(line), '=').value.1), id);
    WrittenLineIsCopied(again, key, id, rest);
    EditOne(again, written, key, id);
  }

  /** Feeding the editor what it wrote for one line changes nothing. */
  lemma RewritesItself(state: EditState, again: EditState, line: string, key: string, id: string)
    requires TargetKey(key) && Stable(id)
    requires again.(out := []) == state.(out := [])
    ensures var next := EditLine(state, line, key, id);
            EditLines(again, next.out[|state.out|..], key, id) == next.(out := again.out + next.out[|state.out|..])
  {
    hide HeaderOf, IsTarget, Body, KeyLine, Retargeted, EditLines;
    var body := Body(line);
    var next := EditLine(state, line, key, id);
    if HeaderOf(body).Some? && state.inDefaults && !state.wroteKey {
      RewritesInserted(state, again, line, key, id);
      assert next.out[|state.out|..] == [KeyLine(key, id), line];
    } else if HeaderOf(body).None? && state.inDefaults && IsTarget(body, key) {
      RewritesTarget(state, again, line, key, id);
      assert next.out[|state.out|..] == [Retargeted(body, key, id)];
    } else {
      assert next.out == state.out + [line];
      RewritesCopied(state, again, line, key, id);
      assert next.out[|state.out|..] == [line];
    }
  }

  lemma Suffixes(a: seq<string>, b: seq<string>, c: seq<string>)
    requires a <= b <= c
    ensures c[|a|..] == b[|a|..] + c[|b|..]
  {
  }

  lemma {:induction false} RewritesAll(state: EditState, again: EditState, lines: seq<string>, key: string, id: string)
    requires TargetKey(key) && Stable(id)
    requires again.(out := []) == state.(out := [])
    ensures var next := EditLines(state, lines, key, id);
            state.out <= next.out
            && EditLines(again, next.out[|state.out|..], key, id) == next.(out := again.out + next.out[|state.out|..])
    decreases |lines|
  {
    hide EditLine, TargetKey, Stable;
    if lines != [] {
      var mid := EditLine(state, lines[0], key, id);
      OutGrows(state, lines[0], key, id);
      var written := mid.out[|state.out|..];
      RewritesItself(state, again, lines[0], key, id);
      var mid2 := mid.(out := again.out + written);
      RewritesAll(mid, mid2, lines[1..], key, id);
      var next := EditLines(mid, lines[1..], key, id);
      Suffixes(state.out, mid.out, next.out);
      EditConcat(again, written, next.out[|mid.out|..], key, id);
    }
  }

  lemma OutGrows(state: EditState, line: string, key: string, id: string)
    ensures state.out <= EditLine(state, line, key, id).out
  {
  }

  /** The editor copies what it wrote and ends in the same state. */
  lemma EditOfOut(text: string, key: string, id: string)
    requires TargetKey(key) && Stable(id)
    ensures EditLines(BEGIN, Edit(text, key, id).out, key, id) == Edit(text, key, id)
  {
    hide EditLine, SplitLines;
    RewritesAll(BEGIN, BEGIN, SplitLines(text), key, id);
    var state := Edit(text, key, id);
    assert state.out[0..] == state.out && [] + state.out == state.out;
  }

  lemma PatchedIsSame(lines: seq<string>)
    requires AllTerminated(lines)
    ensures Patched(lines) == lines
  {
  }

  lemma {:induction false} OneLineEach(state: EditState, lines: seq<string>, key: string, id: string)
    ensures state.out <= EditLines(state, lines, key, id).out
    ensures |EditLines(state, lines, key, id).out| >= |state.out| + |lines|
    decreases |lines|
  {
    if lines != [] {
      OneLineEach(EditLine(state, lines[0], key, id), lines[1..], key, id);
    }
  }

  lemma NewlineEditsAlike(mid: EditState, last: string, key: string, id: string)
    requires EditLine(mid, last, key, id).out == mid.out + [last]
    ensures EditLine(mid, WithNewline(last), key, id)
         == EditLine(mid, last, key, id).(out := mid.out + [WithNewline(last)])
  {
    hide HeaderOf, IsTarget, Join, IdList;
    assert Body(WithNewline(last)) == Body(last);
  }

  /** Ending the last line properly changes nothing but that line. */
  lemma PatchedEditsAlike(state: EditState, key: string, id: string)
    requires EditLines(BEGIN, state.out, key, id) == state
    ensures EditLines(BEGIN, Patched(state.out), key, id) == state.(out := Patched(state.out))
  {
    hide EditLine, WithNewline;
    var out := state.out;
    if out != [] {
      var front, last := out[..|out| - 1], out[|out| - 1];
      assert out == front + [last];
      var mid := EditLines(BEGIN, front, key, id);
      EditSnoc(BEGIN, front, last, key, id);
      EditSnoc(BEGIN, front, WithNewline(last), key, id);
      OneLineEach(BEGIN, front, key, id);
      OneLineEach(mid, [last], key, id);
      EditSnoc(mid, [], last, key, id);
      assert [] + [last] == [last];
      assert mid.out == out[..|front|] == front;
      NewlineEditsAlike(mid, last, key, id);
    }
  }

  lemma NewlineIsCopied(state: EditState, key: string, id: string)
    requires !state.inDefaults
    ensures EditLine(state, "\n", key, id) == state.(out := state.out + ["\n"])
  {
    assert Body("\n") == "";
    BlankLineIsSkipped("");
  }

  /** What it takes for a second pass over `lines` to copy them all. */
  ghost predicate Copied(lines: seq<string>, key: string, id: string)
  {
    var again := EditLines(BEGIN, lines, key, id);
    again.out == lines && again.seenGroup && (again.inDefaults ==> again.wroteKey)
  }

  lemma OpenIsCopied(state: EditState, key: string, id: string)
    requires SingleLine(key, id) && TargetKey(key) && Stable(id)
    requires EditLines(BEGIN, state.out, key, id) == state
    requires state.inDefaults && !state.wroteKey && state.seenGroup && AllTerminated(state.out)
    ensures Copied(Patched(Closing(state, KeyLine(key, id))), key, id)
  {
    hide KeyLine, EditLine, EditLines, TargetKey, Stable;
    var keyLine := KeyLine(key, id);
    KeyLineOfOne(key, id);
    EditSnoc(BEGIN, state.out, keyLine, key, id);
    WrittenOneIsCopied(state, key, id);
    PatchedIsSame(state.out + [keyLine]);
  }

  lemma AppendedHeaderIsCopied(state: EditState, key: string, id: string)
    requires !state.inDefaults && !state.wroteKey
    requires EditLines(BEGIN, Patched(state.out), key, id) == state.(out := Patched(state.out))
    ensures var lines := WithBlankAfter(state.out) + [HEADER_LINE];
            EditLines(BEGIN, lines, key, id) == EditState(true, true, false, lines)
  {
    hide KeyLine, EditLine, EditLines;
    var before := WithBlankAfter(state.out);
    var patched := state.(out := Patched(state.out));
    if state.out != [] {
      assert before == Patched(state.out) + ["\n"];
      EditSnoc(BEGIN, Patched(state.out), "\n", key, id);
      NewlineIsCopied(patched, key, id);
    } else {
      NothingEdits(key, id);
    }
    EditSnoc(BEGIN, before, HEADER_LINE, key, id);
    HeaderIsCopied(patched.(out := before), key, id);
  }

  lemma AppendedGroupIsCopied(state: EditState, key: string, id: string)
    requires TargetKey(key) && Stable(id) && !state.inDefaults && !state.wroteKey
    requires EditLines(BEGIN, Patched(state.out), key, id) == state.(out := Patched(state.out))
    ensures var lines := WithBlankAfter(state.out) + [HEADER_LINE] + [KeyLine(key, id)];
            EditLines(BEGIN, lines, key, id) == EditState(true, true, true, lines)
  {
    hide KeyLine, EditLine, EditLines, TargetKey, Stable, WithBlankAfter;
    var front := WithBlankAfter(state.out) + [HEADER_LINE];
    AppendedHeaderIsCopied(state, key, id);
    EditSnoc(BEGIN, front, KeyLine(key, id), key, id);
    WrittenOneIsCopied(EditState(true, true, false, front), key, id);
  }

  lemma AppendedIsCopied(state: EditState, key: string, id: string)
    requires SingleLine(key, id) && TargetKey(key) && Stable(id)
    requires EditLines(BEGIN, state.out, key, id) == state
    requires !state.inDefaults && !state.wroteKey && !state.seenGroup
    ensures Copied(Patched(Closing(state, KeyLine(key, id))), key, id)
  {
    hide KeyLine, EditLine, EditLines, CleanKey, CleanDefault, WithBlankAfter;
    var keyLine := KeyLine(key, id);
    KeyLineOfOne(key, id);
    PatchedEditsAlike(state, key, id);
    AppendedGroupIsCopied(state, key, id);
    var lines := WithBlankAfter(state.out) + [HEADER_LINE] + [keyLine];
    assert lines[..|lines| - 1] + [lines[|lines| - 1]] == lines && lines[|lines| - 1] == keyLine;
    assert Patched(lines) == lines;
  }

  /** The editor copies the whole result of an edit. */
  lemma ClosingIsCopied(text: string, key: string, id: string)
    requires SingleLine(key, id) && TargetKey(key) && Stable(id) && !EndsOpen(text, key, id)
    ensures Copied(Patched(Closing(Edit(text, key, id), KeyLine(key, id))), key, id)
  {
    hide KeyLine, EditLine, EditLines, TargetKey, Stable;
    var state := Edit(text, key, id);
    FlagsFrom(BEGIN, SplitLines(text), key, id);
    EditOfOut(text, key, id);
    EditLinesLined(BEGIN, SplitLines(text), key, id);
    if state.inDefaults && !state.wroteKey {
      if text != "" {
        TerminatedTextLines(text);
        assert AllTerminated(SplitLines(text));
      }
      OpenIsCopied(state, key, id);
    } else if !state.seenGroup {
      AppendedIsCopied(state, key, id);
    } else {
      PatchedEditsAlike(state, key, id);
    }
  }

  lemma ClosingOfCopied(lines: seq<string>, keyLine: string, key: string, id: string)
    requires Copied(lines, key, id)
    ensures Closing(EditLines(BEGIN, lines, key, id), keyLine) == lines
  {
  }

  lemma RepeatedEdit(text: string, key: string, id: string)
    requires SingleLine(key, id) && TargetKey(key) && Stable(id) && !EndsOpen(text, key, id)
    ensures Updated(Updated(text, key, id), key, id) == Updated(text, key, id)
  {
    hide Edit, KeyLine, Closing, EndsOpen, Patched, SplitLines, Copied;
    var result := Updated(text, key, id);
    UpdatedLines(text, key, id);
    ClosingIsCopied(text, key, id);
    var lines := SplitLines(result);
    EditUnfolds(result, key, id);
    ClosingOfCopied(lines, KeyLine(key, id), key, id);
    FlattenOfSplit(result);
    assert Updated(result, key, id) == WithNewline(result);
    TerminatedResult(text, key, id);
  }

  lemma FlattenOfSplit(text: string)
    ensures Flatten(SplitLines(text)) == text
  {
  }

  lemma TerminatedResult(text: string, key: string, id: string)
    ensures WithNewline(Updated(text, key, id)) == Updated(text, key, id)
  {
    hide Edit, Closing, Flatten, KeyLine;
  }

  // ---------- an unstable id ----------

  lemma {:induction false} JoinGrows(extra: seq<string>, rest: seq<string>)
    ensures rest != [] || extra != [] ==> |Join(extra + rest, ";")| >= |Join(rest, ";")|
    ensures rest != [] ==> |Join(extra + rest, ";")| >= |Join(rest, ";")| + |extra|
  {
    if extra == [] {
      assert extra + rest == rest;
    } else {
      assert (extra + rest)[1..] == extra[1..] + rest;
      JoinGrows(extra[1..], rest);
    }
  }

  lemma WrittenGrows(key: string, id: string, extra: seq<string>, rest: seq<string>)
    requires extra != []
    ensures |KeyLine(key, Join([id] + (extra + rest), ";"))| > |KeyLine(key, Join([id] + rest, ";"))|
  {
    assert ([id] + rest)[1..] == rest && ([id] + (extra + rest))[1..] == extra + rest;
    JoinGrows(extra, rest);
  }

  function Size(lines: seq<string>): nat
  {
    |Flatten(lines)|
  }

  lemma SizeConcat(a: seq<string>, b: seq<string>)
    ensures Size(a + b) == Size(a) + Size(b)
  {
    FlattenConcat(a, b);
  }

  lemma SizeOne(line: string)
    ensures Size([line]) == |line|
  {
    assert [line][1..] == [];
    assert Flatten([line]) == line + Flatten([]);
  }

  /** A line written once is longer when it is written again. */
  lemma AgainGrows(state: EditState, key: string, id: string, rest: seq<string>)
    requires TargetKey(key) && !Stable(id) && id !in rest && forall x | x in rest :: CleanId(x)
    requires state.inDefaults
    ensures var line := KeyLine(key, Join([id] + rest, ";"));
            var next := EditLine(state, line, key, id);
            next.(out := []) == state.(out := [], wroteKey := true) && Size(next.out) > Size(state.out) + |line|
  {
    hide EditLine, KeyLine, Join, IdList, Flatten;
    var written := KeyLine(key, Join([id] + (Extra(id) + rest), ";"));
    WrittenAgain(state, key, id, rest);
    StableIff(id);
    WrittenGrows(key, id, Extra(id), rest);
    SizeConcat(state.out, [written]);
    SizeOne(written);
  }

  lemma AgainOneGrows(state: EditState, key: string, id: string)
    requires TargetKey(key) && !Stable(id) && state.inDefaults
    ensures var next := EditLine(state, KeyLine(key, id), key, id);
            next.(out := []) == state.(out := [], wroteKey := true) && Size(next.out) > Size(state.out) + |KeyLine(key, id)|
  {
    hide EditLine, KeyLine;
    AgainGrows(state, key, id, []);
    JoinOne(id);
    assert [id] + [] == [id];
  }

  /** Feeding the editor what it wrote for one line only makes it longer. */
  lemma LineGrows(state: EditState, again: EditState, line: string, key: string, id: string)
    requires TargetKey(key) && !Stable(id) && again.(out := []) == state.(out := [])
    ensures var next := EditLine(state, line, key, id);
            var written := next.out[|state.out|..];
            var twice := EditLines(again, written, key, id);
            twice.(out := []) == next.(out := [])
            && Size(twice.out) >= Size(again.out) + Size(written) + if next.wroteKey && !state.wroteKey then 1 else 0
  {
    hide HeaderOf, IsTarget, Body, KeyLine, Retargeted, EditLines, Size, TargetKey, Stable;
    var body := Body(line);
    var next := EditLine(state, line, key, id);
    SizeOne(line);
    if HeaderOf(body).Some? && state.inDefaults && !state.wroteKey {
      var keyLine := KeyLine(key, id);
      AgainOneGrows(again, key, id);
      EditTwo(again, keyLine, line, key, id);
      SizeOne(keyLine);
      SizeConcat([keyLine], [line]);
      SizeConcat(EditLine(again, keyLine, key, id).out, [line]);
      assert next.out[|state.out|..] == [keyLine] + [line] == [keyLine, line];
      assert EditLine(again, keyLine, key, id).out + [] == EditLine(again, keyLine, key, id).out;
    } else if HeaderOf(body).None? && state.inDefaults && IsTarget(body, key) {
      TargetGrows(again, body, key, id);
      EditOne(again, Retargeted(body, key, id), key, id);
      assert next.out[|state.out|..] == [Retargeted(body, key, id)];
    } else {
      assert next.out == state.out + [line];
      RewritesCopied(state, again, line, key, id);
      SizeConcat(again.out, [line]);
      assert next.out[|state.out|..] == [line];
    }
  }

  lemma TargetGrows(again: EditState, body: string, key: string, id: string)
    requires TargetKey(key) && !Stable(id) && again.inDefaults && IsTarget(body, key)
    ensures var line := Retargeted(body, key, id);
            var next := EditLine(again, line, key, id);
            next.(out := []) == again.(out := [], wroteKey := true) && Size(next.out) >= Size(again.out) + Size([line]) + 1
  {
    hide EditLine, KeyLine, Join, Size;
    var rest := Without(IdList(SplitOnce(body, '=').value.1), id);
    AgainGrows(again, key, id, rest);
    SizeOne(Retargeted(body, key, id));
  }

  lemma {:induction false} AllGrow(state: EditState, again: EditState, lines: seq<string>, key: string, id: string)
    requires TargetKey(key) && !Stable(id) && again.(out := []) == state.(out := [])
    ensures var next := EditLines(state, lines, key, id);
            state.out <= next.out
            && var written := next.out[|state.out|..];
               var twice := EditLines(again, written, key, id);
               twice.(out := []) == next.(out := [])
               && Size(twice.out) >= Size(again.out) + Size(written) + if next.wroteKey && !state.wroteKey then 1 else 0
    decreases |lines|
  {
    hide EditLine, Size, TargetKey, Stable;
    if lines == [] {
      SizeConcat(again.out, []);
      assert again.out + [] == again.out;
    } else {
      var mid := EditLine(state, lines[0], key, id);
      OutGrows(state, lines[0], key, id);
      LineGrows(state, again, lines[0], key, id);
      var written := mid.out[|state.out|..];
      var midAgain := EditLines(again, written, key, id);
      AllGrow(mid, midAgain, lines[1..], key, id);
      var next := EditLines(mid, lines[1..], key, id);
      Suffixes(state.out, mid.out, next.out);
      EditConcat(again, written, next.out[|mid.out|..], key, id);
      SizeConcat(written, next.out[|mid.out|..]);
      KeyStaysWritten(state, lines[0], key, id);
    }
  }

  lemma KeyStaysWritten(state: EditState, line: string, key: string, id: string)
    ensures state.wroteKey ==> EditLine(state, line, key, id).wroteKey
  {
  }

  /** Every edit of a properly ended text with an unstable id adds to the last one. */
  lemma UnstableGrows(text: string, key: string, id: string)
    requires SingleLine(key, id) && TargetKey(key) && !Stable(id) && (text == "" || Terminated(text))
    ensures |Updated(Updated(text, key, id), key, id)| > |Updated(text, key, id)|
  {
    hide EditLine, EditLines, TargetKey, Stable, SingleLine, KeyLine, Terminated, OneLine, Updated, SplitLines,
         Patched, Closing, WithNewline, Flatten;
    var state, lines, keyLine, result := Edit(text, key, id), SplitLines(text), KeyLine(key, id), Updated(text, key, id);
    TerminatedEdit(text, key, id);
    UpdatedLines(text, key, id);
    var closed := Closing(state, keyLine);
    ClosedIsPatched(state, keyLine, key, id);
    Unwritten(lines, key, id);
    if state.wroteKey {
      AllGrow(BEGIN, BEGIN, lines, key, id);
      assert state.out[0..] == state.out;
      WrittenIsClosed(state, keyLine);
      EmptySize();
    } else if state.inDefaults {
      AgainOneGrows(state, key, id);
      OpenIsExtended(state, keyLine);
      EditSnoc(BEGIN, state.out, keyLine, key, id);
      SizeConcat(state.out, [keyLine]);
      SizeOne(keyLine);
    } else {
      AppendedGrows(state, key, id);
    }
    FlattenOfSplit(result);
    UpdatedAtLeast(result, key, id);
  }

  lemma EmptySize()
    ensures Size([]) == 0
  {
  }

  lemma WrittenIsClosed(state: EditState, keyLine: string)
    requires Flags(state) && state.wroteKey
    ensures Closing(state, keyLine) == state.out
  {
  }

  lemma OpenIsExtended(state: EditState, keyLine: string)
    requires Flags(state) && state.inDefaults && !state.wroteKey
    ensures Closing(state, keyLine) == state.out + [keyLine]
  {
  }

  lemma ClosedIsPatched(state: EditState, keyLine: string, key: string, id: string)
    requires SingleLine(key, id) && keyLine == KeyLine(key, id) && Flags(state) && AllTerminated(state.out)
    ensures Patched(Closing(state, keyLine)) == Closing(state, keyLine)
  {
    hide KeyLine, SingleLine;
    KeyLineOfOne(key, id);
    PatchedIsSame(state.out);
    assert OneLine(HEADER_LINE) && Terminated(HEADER_LINE);
  }

  lemma AppendedGrows(state: EditState, key: string, id: string)
    requires TargetKey(key) && !Stable(id) && !state.inDefaults && !state.wroteKey && Flags(state)
    requires EditLines(BEGIN, state.out, key, id) == state && AllTerminated(state.out)
    ensures var closed := Closing(state, KeyLine(key, id));
            Size(EditLines(BEGIN, closed, key, id).out) > Size(closed)
  {
    hide KeyLine, EditLine, EditLines, TargetKey, Stable, Size, WithBlankAfter;
    var keyLine, front := KeyLine(key, id), WithBlankAfter(state.out) + [HEADER_LINE];
    PatchedEditsAlike(state, key, id);
    AppendedHeaderIsCopied(state, key, id);
    EditSnoc(BEGIN, front, keyLine, key, id);
    AgainOneGrows(EditState(true, true, false, front), key, id);
    SizeConcat(front, [keyLine]);
    SizeOne(keyLine);
  }

  /** The edited text holds at least what the line loop wrote. */
  lemma UpdatedAtLeast(text: string, key: string, id: string)
    ensures |Updated(text, key, id)| >= Size(EditLines(BEGIN, SplitLines(text), key, id).out)
  {
    hide EditLines, SplitLines, KeyLine, Flatten;
    var state, keyLine := Edit(text, key, id), KeyLine(key, id);
    SizeConcat(state.out, [keyLine]);
    var open := if state.inDefaults && !state.wroteKey then state.out + [keyLine] else state.out;
    SizeConcat(WithBlankAfter(open) + [HEADER_LINE], [keyLine]);
    SizeConcat(WithBlankAfter(open), [HEADER_LINE]);
    BlankAfterAtLeast(open);
  }

  lemma BlankAfterAtLeast(lines: seq<string>)
    ensures Size(WithBlankAfter(lines)) >= Size(lines)
  {
    hide Flatten;
    if lines != [] {
      var front, last := lines[..|lines| - 1], lines[|lines| - 1];
      assert lines == front + [last];
      SizeConcat(front, [last]);
      SizeConcat(front, [WithNewline(last)]);
      SizeConcat(front + [WithNewline(last)], ["\n"]);
      SizeOne(last);
      SizeOne(WithNewline(last));
    }
  }

  // ---------- a key that is never a target ----------

  lemma NeverTarget(body: string, key: string)
    requires key != "" && !TargetKey(key)
    ensures !IsTarget(body, key)
  {
    var entry := SplitOnce(body, '=');
    if entry.Some? {
      TrimIsTrimmed(entry.value.0);
      TrimKeepsOut(entry.value.0, '=');
    }
  }

  lemma {:induction false} ForeignSize(state: EditState, lines: seq<string>, key: string, id: string)
    requires key != "" && !TargetKey(key)
    ensures var next := EditLines(state, lines, key, id);
            (state.wroteKey ==> next.wroteKey)
            && Size(next.out) == Size(state.out) + Size(lines) + if next.wroteKey && !state.wroteKey then |KeyLine(key, id)| else 0
    decreases |lines|
  {
    hide EditLine, TargetKey, KeyLine, Size;
    if lines == [] {
      EmptySize();
    } else {
      ForeignLine(state, lines[0], key, id);
      ForeignSize(EditLine(state, lines[0], key, id), lines[1..], key, id);
      SizeConcat([lines[0]], lines[1..]);
      SizeOne(lines[0]);
      assert [lines[0]] + lines[1..] == lines;
    }
  }

  lemma ForeignLine(state: EditState, line: string, key: string, id: string)
    requires key != "" && !TargetKey(key)
    ensures var next := EditLine(state, line, key, id);
            (state.wroteKey ==> next.wroteKey)
            && Size(next.out) == Size(state.out) + |line| + if next.wroteKey && !state.wroteKey then |KeyLine(key, id)| else 0
  {
    hide TargetKey, KeyLine, Size, IsTarget, Body, HeaderOf;
    NeverTarget(Body(line), key);
    SizeOne(line);
    SizeOne(KeyLine(key, id));
    SizeConcat(state.out, [line]);
    SizeConcat(state.out + [KeyLine(key, id)], [line]);
    SizeConcat(state.out, [KeyLine(key, id)]);
    assert state.out + [] == state.out;
  }

  /** What an edit adds besides the key line. */
  function Added(text: string, key: string, id: string): seq<string>
  {
    if Edit(text, key, id).seenGroup then [] else (if text == "" then [] else ["\n"]) + [HEADER_LINE]
  }

  /** Every edit with such a key adds another line. */
  lemma ForeignGrows(text: string, key: string, id: string)
    requires key != "" && !TargetKey(key)
    ensures |Updated(text, key, id)| > |WithNewline(text)| + Size(Added(text, key, id))
  {
    hide EditLines, SplitLines, KeyLine, Flatten, TargetKey;
    var state, keyLine, lines := Edit(text, key, id), KeyLine(key, id), SplitLines(text);
    ForeignSize(BEGIN, lines, key, id);
    EmptySize();
    FlattenOfSplit(text);
    FlagsFrom(BEGIN, lines, key, id);
    KeyLineLength(key, id);
    if !state.wroteKey {
      Unwritten(lines, key, id);
      ClosingSize(state, keyLine, text, key, id);
    }
  }

  lemma KeyLineLength(key: string, id: string)
    ensures |KeyLine(key, id)| > 2
  {
  }

  /** Closing a text without the key adds the key line, and the group if there is none. */
  lemma ClosingSize(state: EditState, keyLine: string, text: string, key: string, id: string)
    requires state == Edit(text, key, id) && Flags(state) && !state.wroteKey && state.out == SplitLines(text)
    requires |keyLine| > 2
    ensures Size(Closing(state, keyLine)) > |WithNewline(text)| + Size(Added(text, key, id))
  {
    hide Edit, SplitLines, Flatten;
    FlattenOfSplit(text);
    if state.inDefaults {
      SizeConcat(state.out, [keyLine]);
      SizeOne(keyLine);
      EmptySize();
    } else {
      var before := WithBlankAfter(state.out);
      SizeConcat(before + [HEADER_LINE], [keyLine]);
      SizeConcat(before, [HEADER_LINE]);
      SizeOne(keyLine);
      SplitOfText(text);
      SizeConcat(["\n"], [HEADER_LINE]);
      assert [] + [HEADER_LINE] == [HEADER_LINE];
      SizeOfBlankAfter(state.out, text);
    }
  }

  lemma SplitOfText(text: string)
    ensures SplitLines(text) == [] <==> text == ""
    ensures Lined(SplitLines(text))
  {
  }

  lemma SizeOfBlankAfter(lines: seq<string>, text: string)
    requires Lined(lines) && Flatten(lines) == text
    ensures Size(WithBlankAfter(lines)) == if lines == [] then 0 else |WithNewline(text)| + Size(["\n"])
  {
    hide Flatten;
    if lines == [] {
      EmptySize();
    } else {
      PatchedFlattens(lines);
      assert WithBlankAfter(lines) == Patched(lines) + ["\n"];
      SizeConcat(Patched(lines), ["\n"]);
    }
  }

  lemma PatchedFlattens(lines: seq<string>)
    requires Lined(lines)
    ensures Flatten(Patched(lines)) == WithNewline(Flatten(lines))
  {
    hide SplitLines;
    SplitOfWritten(lines);
    FlattenOfSplit(WithNewline(Flatten(lines)));
  }

  // ---------- a text without a last newline ----------

  /** Unless the text ends open, giving it its last newline first changes nothing. */
  lemma NewlineFirst(text: string, key: string, id: string)
    requires SingleLine(key, id) && !EndsOpen(text, key, id)
    ensures Updated(WithNewline(text), key, id) == Updated(text, key, id)
    ensures Edit(WithNewline(text), key, id).seenGroup == Edit(text, key, id).seenGroup
    ensures !EndsOpen(WithNewline(text), key, id)
  {
    if text != "" && !Terminated(text) {
      var whole, keyLine := WithNewline(text), KeyLine(key, id);
      hide *;
      ProperlyEnded(text, key, id);
      NewlineStays(text, key, id);
      PatchedState(text, key, id);
      FlagsFrom(BEGIN, SplitLines(text), key, id);
      EditUnfolds(text, key, id);
      PatchedClosing(text, key, id);
      UpdatedLines(text, key, id);
      UpdatedLines(whole, key, id);
      FlattenOfSplit(Updated(text, key, id));
      FlattenOfSplit(Updated(whole, key, id));
    }
  }

  lemma ProperlyEnded(text: string, key: string, id: string)
    ensures !EndsOpen(WithNewline(text), key, id)
    ensures WithNewline(text) == "" || Terminated(WithNewline(text))
  {
    hide Edit;
  }

  lemma NewlineStays(text: string, key: string, id: string)
    ensures SplitLines(WithNewline(text)) == Patched(SplitLines(text))
  {
    hide SplitLines, Patched;
    SplitOfText(text);
    FlattenOfSplit(text);
    SplitOfWritten(SplitLines(text));
  }

  /** The last line with its newline is treated as it was without. */
  lemma PatchedState(text: string, key: string, id: string)
    requires SingleLine(key, id) && text != ""
    requires SplitLines(WithNewline(text)) == Patched(SplitLines(text))
    ensures Edit(WithNewline(text), key, id) == Edit(text, key, id).(out := Patched(Edit(text, key, id).out))
  {
    hide EditLine, EditLines, SplitLines, SingleLine, WithNewline, Lined, AllTerminated;
    var lines := SplitLines(text);
    TerminatedTextLines(text);
    var front, last := lines[..|lines| - 1], lines[|lines| - 1];
    assert lines == front + [last];
    assert Patched(lines) == front + [WithNewline(last)];
    EditSnoc(BEGIN, front, last, key, id);
    EditSnoc(BEGIN, front, WithNewline(last), key, id);
    PatchedLine(EditLines(BEGIN, front, key, id), last, key, id);
  }

  lemma PatchedLine(mid: EditState, last: string, key: string, id: string)
    requires SingleLine(key, id) && last != ""
    ensures EditLine(mid, WithNewline(last), key, id) == EditLine(mid, last, key, id).(out := Patched(EditLine(mid, last, key, id).out))
  {
    hide HeaderOf, IsTarget, Join, IdList;
    assert Body(WithNewline(last)) == Body(last);
    assert mid.out + ([] + [last]) == mid.out + [last];
    assert mid.out + ([] + [WithNewline(last)]) == mid.out + [WithNewline(last)];
    if HeaderOf(Body(last)).Some? && mid.inDefaults && !mid.wroteKey {
      var front := mid.out + [KeyLine(key, id)];
      assert mid.out + ([KeyLine(key, id)] + [last]) == front + [last];
      assert mid.out + ([KeyLine(key, id)] + [WithNewline(last)]) == front + [WithNewline(last)];
    }
  }

  lemma PatchedClosing(text: string, key: string, id: string)
    requires text != "" && !Terminated(text) && !EndsOpen(text, key, id) && Flags(Edit(text, key, id))
    requires Edit(WithNewline(text), key, id) == Edit(text, key, id).(out := Patched(Edit(text, key, id).out))
    ensures Patched(Closing(Edit(WithNewline(text), key, id), KeyLine(key, id)))
         == Patched(Closing(Edit(text, key, id), KeyLine(key, id)))
  {
    hide Edit, KeyLine, Flags;
    var out := Edit(text, key, id).out;
    PatchedTwice(out);
    assert WithBlankAfter(out) == if out == [] then [] else Patched(out) + ["\n"];
    assert WithBlankAfter(Patched(out)) == if out == [] then [] else Patched(Patched(out)) + ["\n"];
  }

  lemma PatchedTwice(lines: seq<string>)
    ensures Patched(Patched(lines)) == Patched(lines) && (Patched(lines) == [] <==> lines == [])
  {
  }

  // ---------- repeating the edit ----------

  /** Recording the same application again changes nothing, for exactly these
      requests and texts: the key is found again, the id is listed as itself or
      not at all, and the key was not glued to a last line. */
  lemma EditIsIdempotent(text: string, key: string, id: string)
    requires Admitted(key, id)
    ensures Updated(Updated(text, key, id), key, id) == Updated(text, key, id)
        <==> TargetKey(key) && Stable(id) && !EndsOpen(text, key, id)
  {
    hide *;
    AdmittedIsSingleLine(key, id);
    if !TargetKey(key) {
      ForeignGrows(Updated(text, key, id), key, id);
      WithNewlineAtLeast(Updated(text, key, id));
    } else if EndsOpen(text, key, id) {
      GluedIsRewritten(text, key, id);
    } else if Stable(id) {
      RepeatedEdit(text, key, id);
    } else {
      NewlineFirst(text, key, id);
      ProperlyEnded(text, key, id);
      UnstableGrows(WithNewline(text), key, id);
    }
  }

  lemma WithNewlineAtLeast(text: string)
    ensures |WithNewline(text)| >= |text|
  {
  }

  /** A key glued to a line is written again the next time. */
  lemma GluedIsRewritten(text: string, key: string, id: string)
    requires SingleLine(key, id) && TargetKey(key) && EndsOpen(text, key, id)
    ensures Updated(Updated(text, key, id), key, id) != Updated(text, key, id)
  {
    var last, keyLine, result := LastLine(text), KeyLine(key, id), Updated(text, key, id);
    var lines := SplitLines(text);
    hide *;
    var before := OpenLastLine(text, key, id);
    TerminatedTextLines(text);
    GluedText(text, key, id, before);
    OpenFront(text, key, id, before);
    EditSnoc(BEGIN, before.out, last + keyLine, key, id);
    EditUnfolds(result, key, id);
    FlattenOfSplit(result);
    if Blank(last) {
      BlankLineIsSkipped(last);
      GluedBlankAgain(before, last, key, id);
      WrittenDiffers(before, last, key, id, result, KeyLine(key, Join([id] + Extra(id), ";")));
    } else {
      GluedOtherAgain(before, last, key, id);
      NotWritten(before, last + keyLine);
      ClosingGrows(before.(out := before.out + [last + keyLine]), result, key, id);
    }
  }

  lemma NotWritten(before: EditState, line: string)
    requires Flags(before) && !before.wroteKey
    ensures Flags(before.(out := before.out + [line]))
  {
  }

  /** Before the last line the editor has copied everything. */
  lemma OpenFront(text: string, key: string, id: string, before: EditState)
    requires text != "" && SplitLines(text) != [] && !before.wroteKey
    requires before == EditLines(BEGIN, SplitLines(text)[..|SplitLines(text)| - 1], key, id)
    ensures EditLines(BEGIN, before.out, key, id) == before && Flags(before)
    ensures LastLine(text) != ""
  {
    hide EditLine, EditLines;
    var front := SplitLines(text)[..|SplitLines(text)| - 1];
    Unwritten(front, key, id);
    FlagsFrom(BEGIN, front, key, id);
  }

  lemma GluedBlankAgain(before: EditState, last: string, key: string, id: string)
    requires TargetKey(key) && Blank(last) && before.inDefaults
    ensures EditLine(before, last + KeyLine(key, id), key, id)
         == before.(wroteKey := true, out := before.out + [KeyLine(key, Join([id] + Extra(id), ";"))])
  {
    hide HeaderOf, IsTarget, IdList, KeyLine, Body, Join;
    assert '=' !in last;
    WrittenBehind(last, key, id);
    IdListConcat(id, "");
    EmptyIdList();
    assert id + ";" + "" == id + ";" && IdList(id) + [] == IdList(id);
  }

  lemma GluedOtherAgain(before: EditState, last: string, key: string, id: string)
    requires TargetKey(key) && !Blank(last) && (before.inDefaults ==> !IsTarget(last, key))
    ensures EditLine(before, last + KeyLine(key, id), key, id) == before.(out := before.out + [last + KeyLine(key, id)])
  {
    hide HeaderOf, IsTarget, Blank, TargetKey;
    GluedBody(last, key, id);
    var body := (last + key) + "=" + (id + ";");
    assert body == last + (key + "=" + (id + ";"));
    if before.inDefaults { GluedIsNoTarget(last, key, id + ";"); }
    assert body[|body| - 1] == ';';
    NoHeader(body);
  }

  lemma WrittenDiffers(before: EditState, last: string, key: string, id: string, result: string, written: string)
    requires TargetKey(key) && last != "" && Blank(last) && Flags(before) && before.inDefaults
    requires result == Flatten(before.out + [last + KeyLine(key, id)])
    requires written == KeyLine(key, Join([id] + Extra(id), ";"))
    requires Edit(result, key, id) == before.(wroteKey := true, out := before.out + [written])
    ensures Updated(result, key, id) != result
  {
    hide Join, Edit, Flatten, IsWhite;
    var keyLine := KeyLine(key, id);
    FlattenConcat(before.out, [written]);
    FlattenConcat(before.out, [last + keyLine]);
    FlattenTwo(last, keyLine);
    FlattenTwo("", written);
    assert "" + written == written;
    assert written[0] == key[0] && (last + keyLine)[0] == last[0];
    assert IsWhite(last[0]) && !IsWhite(key[0]);
    EndsInNewline(Flatten(before.out), written);
    SameFront(Flatten(before.out), written, last + keyLine);
  }

  lemma SameFront<T>(front: seq<T>, a: seq<T>, b: seq<T>)
    ensures front + a == front + b ==> a == b
  {
    assert (front + a)[|front|..] == a && (front + b)[|front|..] == b;
  }

  lemma ClosingGrows(state: EditState, text: string, key: string, id: string)
    requires Flags(state) && !state.wroteKey && state == Edit(text, key, id) && text == Flatten(state.out)
    ensures |Updated(text, key, id)| > |text|
  {
    hide Edit, Flatten, KeyLine;
    var keyLine := KeyLine(key, id);
    KeyLineLength(key, id);
    SizeOne(keyLine);
    if state.inDefaults {
      SizeConcat(state.out, [keyLine]);
    } else {
      BlankAfterAtLeast(state.out);
      SizeConcat(WithBlankAfter(state.out), [HEADER_LINE]);
      SizeConcat(WithBlankAfter(state.out) + [HEADER_LINE], [keyLine]);
    }
  }

  lemma GluedBody(blanks: string, key: string, ids: string)
    ensures var body := (blanks + key) + "=" + (ids + ";");
            blanks + KeyLine(key, ids) == body + "\n" && Body(body + "\n") == body
  {
  }

  lemma EndsInNewline(front: string, line: string)
    requires Terminated(line)
    ensures WithNewline(front + line) == front + line
  {
  }

  // ---------- the lines an edit leaves alone ----------

  /** Whether the line after `lines` is inside a defaults group. */
  function InsideAfter(lines: seq<string>, inside: bool): bool
    decreases |lines|
  {
    if lines == [] then inside else InsideAfter(lines[1..], InsideNext(lines[0], inside))
  }

  /** Every line but those that set the key in a defaults group. */
  function Unrelated(lines: seq<string>, inside: bool, key: string): seq<string>
    decreases |lines|
  {
    if lines == [] then []
    else Kept(lines[0], inside, key) + Unrelated(lines[1..], InsideNext(lines[0], inside), key)
  }

  function Kept(line: string, inside: bool, key: string): seq<string>
  {
    var body := Body(line);
    if HeaderOf(body).None? && inside && IsTarget(body, key) then [] else [line]
  }

  function InsideNext(line: string, inside: bool): bool
  {
    var header := HeaderOf(Body(line));
    if header.Some? then header.value == DEFAULTS else inside
  }

  lemma {:induction false} InsideConcat(a: seq<string>, b: seq<string>, inside: bool)
    ensures InsideAfter(a + b, inside) == InsideAfter(b, InsideAfter(a, inside))
    decreases |a|
  {
    hide InsideNext;
    if a == [] {
      assert a + b == b;
    } else {
      assert (a + b)[1..] == a[1..] + b;
      InsideConcat(a[1..], b, InsideNext(a[0], inside));
    }
  }

  lemma {:induction false} UnrelatedConcat(a: seq<string>, b: seq<string>, inside: bool, key: string)
    ensures InsideAfter(a + b, inside) == InsideAfter(b, InsideAfter(a, inside))
    ensures Unrelated(a + b, inside, key) == Unrelated(a, inside, key) + Unrelated(b, InsideAfter(a, inside), key)
    decreases |a|
  {
    hide InsideNext, Kept, InsideAfter;
    InsideConcat(a, b, inside);
    if a == [] {
      assert a + b == b;
      NothingInside(inside, key);
    } else {
      assert (a + b)[1..] == a[1..] + b;
      UnrelatedConcat(a[1..], b, InsideNext(a[0], inside), key);
      InsideStep(a, inside);
    }
  }

  lemma NothingInside(inside: bool, key: string)
    ensures InsideAfter([], inside) == inside && Unrelated([], inside, key) == []
  {
  }

  lemma InsideStep(lines: seq<string>, inside: bool)
    requires lines != []
    ensures InsideAfter(lines, inside) == InsideAfter(lines[1..], InsideNext(lines[0], inside))
  {
    hide InsideNext;
  }

  lemma UnrelatedOne(line: string, inside: bool, key: string)
    ensures var header := HeaderOf(Body(line));
            InsideAfter([line], inside) == (if header.Some? then header.value == DEFAULTS else inside)
    ensures Unrelated([line], inside, key)
         == if HeaderOf(Body(line)).None? && inside && IsTarget(Body(line), key) then [] else [line]
  {
    hide Body, HeaderOf, IsTarget;
    assert [line][1..] == [];
  }

  lemma WrittenKeyIsRelated(key: string, ids: string)
    requires TargetKey(key)
    ensures Unrelated([KeyLine(key, ids)], true, key) == [] && InsideAfter([KeyLine(key, ids)], true)
  {
    hide Body, HeaderOf, IsTarget, KeyLine;
    WrittenIsTarget(key, ids);
    UnrelatedOne(KeyLine(key, ids), true, key);
  }

  lemma UnrelatedStep(state: EditState, line: string, key: string, id: string)
    requires TargetKey(key)
    ensures var next := EditLine(state, line, key, id);
            state.out <= next.out
            && InsideAfter(next.out[|state.out|..], state.inDefaults) == next.inDefaults
            && InsideAfter([line], state.inDefaults) == next.inDefaults
            && Unrelated(next.out[|state.out|..], state.inDefaults, key) == Unrelated([line], state.inDefaults, key)
  {
    hide HeaderOf, IsTarget, Body, Retargeted, KeyLine, Unrelated, InsideAfter, TargetKey;
    var next := EditLine(state, line, key, id);
    UnrelatedOne(line, state.inDefaults, key);
    if HeaderOf(Body(line)).Some? && state.inDefaults && !state.wroteKey {
      var keyLine := KeyLine(key, id);
      WrittenKeyIsRelated(key, id);
      UnrelatedConcat([keyLine], [line], true, key);
      assert next.out[|state.out|..] == [keyLine] + [line];
    } else if HeaderOf(Body(line)).None? && state.inDefaults && IsTarget(Body(line), key) {
      RetargetedIsRelated(Body(line), key, id);
      assert next.out[|state.out|..] == [Retargeted(Body(line), key, id)];
    } else {
      assert next.out[|state.out|..] == [line];
    }
  }

  lemma RetargetedIsRelated(body: string, key: string, id: string)
    requires TargetKey(key) && IsTarget(body, key)
    ensures Unrelated([Retargeted(body, key, id)], true, key) == []
    ensures InsideAfter([Retargeted(body, key, id)], true)
  {
    hide KeyLine, Unrelated, InsideAfter, Join;
    WrittenKeyIsRelated(key, Join([id] + Without(IdList(SplitOnce(body, '=').value.1), id), ";"));
  }

  lemma {:induction false} UnrelatedLinesKept(state: EditState, lines: seq<string>, key: string, id: string)
    requires TargetKey(key)
    ensures var next := EditLines(state, lines, key, id);
            state.out <= next.out
            && InsideAfter(next.out[|state.out|..], state.inDefaults) == next.inDefaults
            && Unrelated(next.out[|state.out|..], state.inDefaults, key) == Unrelated(lines, state.inDefaults, key)
    decreases |lines|
  {
    hide EditLine, TargetKey, Body, HeaderOf, IsTarget, Kept, InsideNext, Unrelated, InsideAfter;
    if lines == [] {
      NothingInside(state.inDefaults, key);
      assert state.out[|state.out|..] == [];
    } else {
      var mid := EditLine(state, lines[0], key, id);
      UnrelatedStep(state, lines[0], key, id);
      UnrelatedLinesKept(mid, lines[1..], key, id);
      var next := EditLines(mid, lines[1..], key, id);
      var written := mid.out[|state.out|..];
      Suffixes(state.out, mid.out, next.out);
      UnrelatedConcat(written, next.out[|mid.out|..], state.inDefaults, key);
      UnrelatedConcat([lines[0]], lines[1..], state.inDefaults, key);
      assert [lines[0]] + lines[1..] == lines;
    }
  }

  /** An edit keeps every line, byte for byte and in order, except the lines of
      the key itself, ends the text properly, and adds at most one group: for
      exactly the keys that are found again and the texts that do not end open. */
  lemma UnrelatedLinesSurvive(text: string, key: string, id: string)
    requires Admitted(key, id)
    ensures Unrelated(SplitLines(Updated(text, key, id)), false, key)
         == Unrelated(SplitLines(WithNewline(text)), false, key) + Added(text, key, id)
        <==> TargetKey(key) && !EndsOpen(text, key, id)
  {
    hide *;
    AdmittedIsSingleLine(key, id);
    if !TargetKey(key) {
      ForeignLines(text, key, id);
    } else if EndsOpen(text, key, id) {
      GluedLineIsNew(text, key, id);
    } else {
      NewlineFirst(text, key, id);
      ProperlyEnded(text, key, id);
      SameAdded(text, key, id);
      ProperLinesSurvive(WithNewline(text), key, id);
    }
  }

  lemma SameAdded(text: string, key: string, id: string)
    requires Edit(WithNewline(text), key, id).seenGroup == Edit(text, key, id).seenGroup
    ensures Added(WithNewline(text), key, id) == Added(text, key, id)
    ensures WithNewline(WithNewline(text)) == WithNewline(text)
  {
    hide Edit;
  }

  lemma {:induction false} ForeignUnrelated(lines: seq<string>, inside: bool, key: string)
    requires key != "" && !TargetKey(key)
    ensures Unrelated(lines, inside, key) == lines
    decreases |lines|
  {
    hide IsTarget, HeaderOf, Body, TargetKey;
    if lines != [] {
      NeverTarget(Body(lines[0]), key);
      ForeignUnrelated(lines[1..], InsideNext(lines[0], inside), key);
    }
  }

  lemma ForeignLines(text: string, key: string, id: string)
    requires key != "" && !TargetKey(key)
    ensures Unrelated(SplitLines(Updated(text, key, id)), false, key)
         != Unrelated(SplitLines(WithNewline(text)), false, key) + Added(text, key, id)
  {
    hide Updated, Unrelated, SplitLines, Flatten, TargetKey, Added, WithNewline;
    ForeignUnrelated(SplitLines(Updated(text, key, id)), false, key);
    ForeignUnrelated(SplitLines(WithNewline(text)), false, key);
    ForeignGrows(text, key, id);
    FlattenOfSplit(Updated(text, key, id));
    FlattenOfSplit(WithNewline(text));
    SizeConcat(SplitLines(WithNewline(text)), Added(text, key, id));
  }

  /** The line the key was glued to is not the line that was there. */
  lemma GluedLineIsNew(text: string, key: string, id: string)
    requires SingleLine(key, id) && TargetKey(key) && EndsOpen(text, key, id)
    ensures Unrelated(SplitLines(Updated(text, key, id)), false, key)
         != Unrelated(SplitLines(WithNewline(text)), false, key) + Added(text, key, id)
  {
    var last, glued := LastLine(text), LastLine(text) + KeyLine(key, id);
    OpenAddsNothing(text, key, id);
    LastIsPatched(text);
    hide *;
    var before := OpenLastLine(text, key, id);
    TerminatedTextLines(text);
    GluedText(text, key, id, before);
    UnrelatedLinesKept(BEGIN, SplitLines(text)[..|SplitLines(text)| - 1], key, id);
    Unwritten(SplitLines(text)[..|SplitLines(text)| - 1], key, id);
    StartsOutside(before.out);
    LastIsKept(last, before.inDefaults, key);
    KeyLineLength(key, id);
    NewLineTells(before.out, glued, last + "\n", before.inDefaults, key);
  }

  lemma NewLineTells(front: seq<string>, a: string, b: string, inside: bool, key: string)
    requires InsideAfter(front, false) == inside && |a| > |b|
    requires !(HeaderOf(Body(b)).None? && inside && IsTarget(Body(b), key))
    ensures Unrelated(front + [a], false, key) != Unrelated(front + [b], false, key) + []
  {
    hide Unrelated, InsideAfter, HeaderOf, Body, IsTarget;
    UnrelatedConcat(front, [a], false, key);
    UnrelatedConcat(front, [b], false, key);
    UnrelatedOne(a, inside, key);
    UnrelatedOne(b, inside, key);
    assert a != b;
    assert [a] != [b] by { assert [a][0] != [b][0]; }
    SameFront(Unrelated(front, false, key), Unrelated([a], inside, key), Unrelated([b], inside, key));
  }

  lemma OpenAddsNothing(text: string, key: string, id: string)
    requires EndsOpen(text, key, id)
    ensures Added(text, key, id) == []
  {
    hide EditLines;
    FlagsFrom(BEGIN, SplitLines(text), key, id);
  }

  lemma LastIsPatched(text: string)
    requires text != "" && !Terminated(text)
    ensures var lines := SplitLines(text);
            lines != [] && SplitLines(WithNewline(text)) == lines[..|lines| - 1] + [LastLine(text) + "\n"]
  {
    hide SplitLines;
    SplitOfText(text);
    NewlineStays(text, "", "");
    TerminatedTextLines(text);
  }

  lemma StartsOutside(lines: seq<string>)
    ensures BEGIN.out + lines == lines && lines[0..] == lines && !BEGIN.inDefaults
  {
  }

  lemma LastIsKept(last: string, inside: bool, key: string)
    requires Body(last) == last
    requires HeaderOf(last).None? && inside ==> !IsTarget(last, key)
    ensures var body := Body(last + "\n"); !(HeaderOf(body).None? && inside && IsTarget(body, key))
  {
    hide HeaderOf, IsTarget;
    assert Body(last + "\n") == last;
  }

  lemma ProperLinesSurvive(text: string, key: string, id: string)
    requires SingleLine(key, id) && TargetKey(key) && (text == "" || Terminated(text))
    ensures Unrelated(SplitLines(Updated(text, key, id)), false, key)
         == Unrelated(SplitLines(text), false, key) + Added(text, key, id)
  {
    var state := Edit(text, key, id);
    AddedIs(text, key, id);
    hide *;
    TerminatedEdit(text, key, id);
    UpdatedLines(text, key, id);
    UnrelatedOfClosing(state, key, id);
  }

  lemma AddedIs(text: string, key: string, id: string)
    ensures Added(text, key, id)
         == if Edit(text, key, id).seenGroup then [] else (if text == "" then [] else ["\n"]) + [HEADER_LINE]
  {
  }

  /** The editor's state after a properly ended text. */
  lemma TerminatedEdit(text: string, key: string, id: string)
    requires SingleLine(key, id) && TargetKey(key) && (text == "" || Terminated(text))
    ensures var state := Edit(text, key, id);
            && AllTerminated(state.out) && (state.out == [] <==> text == "")
            && InsideAfter(state.out, false) == state.inDefaults
            && Unrelated(state.out, false, key) == Unrelated(SplitLines(text), false, key)
            && Flags(state)
    ensures !EndsOpen(text, key, id)
  {
    hide EditLine, EditLines, Unrelated, InsideAfter, TargetKey, Terminated, OneLine;
    var state, lines := Edit(text, key, id), SplitLines(text);
    UnrelatedLinesKept(BEGIN, lines, key, id);
    assert state.out[0..] == state.out;
    FlagsFrom(BEGIN, lines, key, id);
    EditLinesLined(BEGIN, lines, key, id);
    OneLineEach(BEGIN, lines, key, id);
    if text == "" {
      NoLines(key, id);
    } else {
      TerminatedTextLines(text);
      assert AllTerminated(lines);
    }
  }

  lemma UnrelatedOfClosing(state: EditState, key: string, id: string)
    requires SingleLine(key, id) && TargetKey(key) && AllTerminated(state.out)
    requires InsideAfter(state.out, false) == state.inDefaults
    requires Flags(state)
    ensures Unrelated(Patched(Closing(state, KeyLine(key, id))), false, key)
         == Unrelated(state.out, false, key)
            + if state.seenGroup then [] else (if state.out == [] then [] else ["\n"]) + [HEADER_LINE]
  {
    hide Unrelated, InsideAfter, KeyLine, TargetKey, Terminated, OneLine;
    var keyLine := KeyLine(key, id);
    PatchedIsSame(state.out);
    KeyLineOfOne(key, id);
    WrittenKeyIsRelated(key, id);
    if state.inDefaults && !state.wroteKey {
      PatchedIsSame(state.out + [keyLine]);
      UnrelatedConcat(state.out, [keyLine], false, key);
    } else if !state.seenGroup {
      AppendedIsUnrelated(state.out, keyLine, key);
      PatchedWithEnd(WithBlankAfter(state.out) + [HEADER_LINE], keyLine);
    }
  }

  lemma NoLines(key: string, id: string)
    ensures EditLines(BEGIN, [], key, id) == BEGIN && SplitLines("") == []
  {
  }

  lemma PatchedWithEnd(lines: seq<string>, last: string)
    requires Terminated(last)
    ensures Patched(lines + [last]) == lines + [last]
  {
  }

  lemma AppendedIsUnrelated(out: seq<string>, keyLine: string, key: string)
    requires Patched(out) == out && !InsideAfter(out, false)
    requires TargetKey(key)
    requires Unrelated([keyLine], true, key) == []
    ensures Unrelated(WithBlankAfter(out) + [HEADER_LINE] + [keyLine], false, key)
         == Unrelated(out, false, key) + (if out == [] then [] else ["\n"]) + [HEADER_LINE]
  {
    hide Unrelated, InsideAfter, HeaderOf, Body, IsTarget;
    var before := WithBlankAfter(out);
    var blank := if out == [] then [] else ["\n"];
    assert before == out + blank;
    BlankIsOutside(key, blank);
    UnrelatedConcat(out, blank, false, key);
    HeaderIsKept(key);
    UnrelatedConcat(before, [HEADER_LINE], false, key);
    UnrelatedConcat(before + [HEADER_LINE], [keyLine], false, key);
  }

  lemma BlankIsOutside(key: string, blank: seq<string>)
    requires blank == [] || blank == ["\n"]
    ensures Unrelated(blank, false, key) == blank && !InsideAfter(blank, false)
  {
    hide HeaderOf;
    if blank != [] {
      assert Body("\n") == "";
      BlankLineIsSkipped("");
      UnrelatedOne("\n", false, key);
    }
  }

  lemma HeaderIsKept(key: string)
    ensures Unrelated([HEADER_LINE], false, key) == [HEADER_LINE] && InsideAfter([HEADER_LINE], false)
  {
    hide HeaderOf, Body;
    assert Trimmed(DEFAULTS) by { assert DEFAULTS[0] == 'D' && DEFAULTS[|DEFAULTS| - 1] == 's'; }
    HeaderLine(DEFAULTS);
    TrimmedHeader(HEADER_LINE);
    UnrelatedOne(HEADER_LINE, false, key);
  }
}
