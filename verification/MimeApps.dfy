/** The `mimeapps.list` reader and the in-place edit that records a new
    default application: the edit is proved to be a map update as seen
    through the reader. */
module MimeApps {
  import opened Wrappers
  import opened Text

  const DEFAULTS := "Default Applications"
  const HEADER_LINE := "[" + DEFAULTS + "]\n"

  type Groups = map<string, map<string, seq<string>>>

  // ---------- what is admitted ----------

  const MAX_ID_BYTES := 256

  predicate ValidContentType(contentType: string)
  {
    var parts := Split(contentType, '/');
    && |parts| == 2 && Utf8Len(contentType) <= MAX_ID_BYTES
    && '\0' !in contentType && '\n' !in contentType
    && Trim(parts[0]) != "" && Trim(parts[1]) != ""
  }

  predicate ValidDesktopId(id: string)
  {
    && id != "" && Utf8Len(id) <= MAX_ID_BYTES
    && '/' !in id && '\\' !in id && '\0' !in id && '\n' !in id
  }

  /** What recording a default lets through; every statement about the edit is
      for all of these. */
  predicate Admitted(contentType: string, id: string)
  {
    ValidContentType(contentType) && ValidDesktopId(id)
  }

  // ---------- the reader ----------

  datatype ReadState = ReadState(group: string, groups: Groups)

  const START := ReadState("", map[])

  /** The name of a `[group]` line. */
  function HeaderOf(line: string): (name: Option<string>)
  {
    var t := TrimEnd(line);
    if |t| >= 2 && t[0] == '[' && t[|t| - 1] == ']' then Some(Trim(t[1..|t| - 1])) else None
  }

  /** The nonempty trimmed members of a `;`-separated value. */
  function IdList(value: string): (ids: seq<string>)
    ensures forall id | id in ids :: CleanId(id)
    decreases |value|
  {
    var i := IndexOf(value, ';');
    var id := Trim(value[..i]);
    assert CleanId(id) || id == "" by { TrimIsTrimmed(value[..i]); TrimKeepsOut(value[..i], ';'); }
    var head := if id == "" then [] else [id];
    if i == |value| then head else head + IdList(value[i + 1..])
  }

  lemma TrimKeepsOut(s: string, c: char)
    requires c !in s
    ensures c !in Trim(s)
  {
    TrimStartIsSuffix(TrimEnd(s));
  }

  lemma {:induction false} IdListKeepsOut(value: string, c: char)
    requires c !in value
    ensures forall id | id in IdList(value) :: c !in id
    decreases |value|
  {
    var i := IndexOf(value, ';');
    TrimKeepsOut(value[..i], c);
    if i < |value| { IdListKeepsOut(value[i + 1..], c); }
  }

  predicate CleanId(id: string)
  {
    id != "" && Trimmed(id) && ';' !in id
  }

  function Insert(groups: Groups, group: string, key: string, ids: seq<string>): Groups
  {
    groups[group := Members(groups, group)[key := ids]]
  }

  function Members(groups: Groups, group: string): map<string, seq<string>>
  {
    if group in groups then groups[group] else map[]
  }

  /** The key and members of an entry line; `None` for a comment or anything
      else the reader skips. */
  function EntryOf(line: string): (entry: Option<(string, seq<string>)>)
  {
    var t := TrimEnd(line);
    if t != "" && t[0] == '#' then None
    else match SplitOnce(t, '=')
      case None => None
      case Some((k, value)) =>
        var key := Trim(k);
        if key == "" || '[' in key then None else Some((key, IdList(value)))
  }

  function ReadLine(state: ReadState, line: string): ReadState
  {
    if HeaderOf(line).Some? then state.(group := HeaderOf(line).value)
    else if state.group == "" || EntryOf(line).None? then state
    else
      var (key, ids) := EntryOf(line).value;
      state.(groups := Insert(state.groups, state.group, key, ids))
  }

  function ReadLines(state: ReadState, lines: seq<string>): ReadState
    decreases |lines|
  {
    if lines == [] then state else ReadLines(ReadLine(state, lines[0]), lines[1..])
  }

  function Parse(text: string): Groups
  {
    ReadLines(START, SplitLines(text)).groups
  }

  lemma {:induction false} ReadConcat(state: ReadState, a: seq<string>, b: seq<string>)
    decreases |a|
    ensures ReadLines(state, a + b) == ReadLines(ReadLines(state, a), b)
  {
    if a == [] {
      assert a + b == b;
    } else {
      assert (a + b)[1..] == a[1..] + b;
      ReadConcat(ReadLine(state, a[0]), a[1..], b);
    }
  }

  lemma ReadSnoc(state: ReadState, lines: seq<string>, line: string)
    ensures ReadLines(state, lines + [line]) == ReadLine(ReadLines(state, lines), line)
  {
    ReadConcat(state, lines, [line]);
    assert [line][1..] == [];
  }

  lemma TrimEndTwice(s: string)
    ensures TrimEnd(TrimEnd(s)) == TrimEnd(s)
  {
  }

  lemma ReadOnlySeesTrimmed(state: ReadState, a: string, b: string)
    requires TrimEnd(a) == TrimEnd(b)
    ensures ReadLine(state, a) == ReadLine(state, b)
  {
    hide TrimEnd, Trim, IdList, SplitOnce;
  }

  method ParseGroupedLists(text: string) returns (groups: Groups)
    ensures groups == Parse(text)
  {
    hide TrimEnd, Trim, IdList, SplitOnce, LineContent, SplitLines, Insert;
    groups := map[];
    var group := "";
    var lines := Lines(text);
    ghost var pieces := SplitLines(text);
    for i := 0 to |lines|
      invariant ReadState(group, groups) == ReadLines(START, pieces[..i])
    {
      assert pieces[..i + 1] == pieces[..i] + [pieces[i]];
      ReadSnoc(START, pieces[..i], pieces[i]);
      var line := TrimEnd(lines[i]);
      LineContentTrimsAlike(pieces[i]);
      TrimEndTwice(lines[i]);
      ReadOnlySeesTrimmed(ReadState(group, groups), line, pieces[i]);
      var name := HeaderOf(line);
      if name.Some? {
        group := name.value;
        continue;
      }
      if group == "" || (line != "" && line[0] == '#') {
        continue;
      }
      var entry := SplitOnce(line, '=');
      if entry.None? {
        continue;
      }
      var key := Trim(entry.value.0);
      if key == "" || '[' in key {
        continue;
      }
      groups := Insert(groups, group, key, IdList(entry.value.1));
    }
    assert pieces[..|pieces|] == pieces;
  }

  // ---------- the editor ----------

  /** A key the editor finds again on the lines it wrote. */
  predicate TargetKey(key: string)
  {
    key != "" && Trimmed(key) && '=' !in key
  }

  /** A key the reader can report. */
  predicate ListedKey(key: string)
  {
    TargetKey(key) && '[' !in key
  }

  /** A key that is read back from a line of its own. */
  predicate CleanKey(key: string)
  {
    ListedKey(key) && key[0] != '#' && '\n' !in key
  }

  predicate CleanDefault(id: string)
  {
    CleanId(id) && '\n' !in id
  }

  function KeyLine(key: string, ids: string): string
  {
    key + "=" + ids + ";\n"
  }

  predicate IsTarget(body: string, key: string)
  {
    var entry := SplitOnce(body, '=');
    entry.Some? && Trim(entry.value.0) == key
  }

  function Without(ids: seq<string>, id: string): (rest: seq<string>)
    ensures id !in rest
    ensures forall x | x in rest :: x in ids
  {
    if ids == [] then []
    else if ids[0] == id then Without(ids[1..], id)
    else [ids[0]] + Without(ids[1..], id)
  }

  /** A target line with `id` put in front of its other members. */
  function Retargeted(body: string, key: string, id: string): string
    requires IsTarget(body, key)
  {
    var existing := SplitOnce(body, '=').value.1;
    KeyLine(key, Join([id] + Without(IdList(existing), id), ";"))
  }

  datatype EditState = EditState(inDefaults: bool, seenGroup: bool, wroteKey: bool, out: seq<string>)

  const BEGIN := EditState(false, false, false, [])

  function EditLine(state: EditState, line: string, key: string, id: string): EditState
  {
    var body := Body(line);
    var header := HeaderOf(body);
    if header.Some? then
      var insert := state.inDefaults && !state.wroteKey;
      var enters := header.value == DEFAULTS;
      EditState(enters, state.seenGroup || enters, state.wroteKey || insert,
                state.out + (if insert then [KeyLine(key, id)] else []) + [line])
    else if state.inDefaults && IsTarget(body, key) then
      state.(wroteKey := true, out := state.out + [Retargeted(body, key, id)])
    else state.(out := state.out + [line])
  }

  function EditLines(state: EditState, lines: seq<string>, key: string, id: string): EditState
    decreases |lines|
  {
    if lines == [] then state
    else EditLines(EditLine(state, lines[0], key, id), lines[1..], key, id)
  }

  function Edit(text: string, key: string, id: string): EditState
  {
    EditLines(BEGIN, SplitLines(text), key, id)
  }

  function WithNewline(text: string): string
  {
    if text != "" && !Terminated(text) then text + "\n" else text
  }

  /** The lines once the input is used up, `keyLine` being the line to add. */
  function Closing(state: EditState, keyLine: string): seq<string>
  {
    var open := if state.inDefaults && !state.wroteKey then state.out + [keyLine] else state.out;
    if state.seenGroup then open else WithBlankAfter(open) + [HEADER_LINE] + [keyLine]
  }

  function WithBlankAfter(lines: seq<string>): seq<string>
  {
    if lines == [] then [] else lines[..|lines| - 1] + [WithNewline(lines[|lines| - 1])] + ["\n"]
  }

  function Updated(text: string, key: string, id: string): string
  {
    WithNewline(Flatten(Closing(Edit(text, key, id), KeyLine(key, id))))
  }

  lemma {:induction false} EditConcat(state: EditState, a: seq<string>, b: seq<string>, key: string, id: string)
    decreases |a|
    ensures EditLines(state, a + b, key, id) == EditLines(EditLines(state, a, key, id), b, key, id)
  {
    if a == [] {
      assert a + b == b;
    } else {
      assert (a + b)[1..] == a[1..] + b;
      EditConcat(EditLine(state, a[0], key, id), a[1..], b, key, id);
    }
  }

  lemma EditSnoc(state: EditState, lines: seq<string>, line: string, key: string, id: string)
    ensures EditLines(state, lines + [line], key, id) == EditLine(EditLines(state, lines, key, id), line, key, id)
  {
    EditConcat(state, lines, [line], key, id);
    assert [line][1..] == [];
  }

  /** The editor's line loop. */
  method EditEachLine(lines: seq<string>, key: string, id: string) returns (state: EditState)
    ensures state == EditLines(BEGIN, lines, key, id)
  {
    hide Body, HeaderOf, IsTarget, Retargeted, KeyLine;
    var out: seq<string> := [];
    var inDefaults, seenGroup, wroteKey := false, false, false;
    for i := 0 to |lines|
      invariant EditState(inDefaults, seenGroup, wroteKey, out) == EditLines(BEGIN, lines[..i], key, id)
    {
      var line := lines[i];
      assert lines[..i + 1] == lines[..i] + [line];
      EditSnoc(BEGIN, lines[..i], line, key, id);
      var body := Body(line);
      var header := HeaderOf(body);
      if header.Some? {
        // Leaving the group without having seen the key.
        if inDefaults && !wroteKey {
          out := out + [KeyLine(key, id)];
          wroteKey := true;
        }
        inDefaults := header.value == DEFAULTS;
        seenGroup := seenGroup || inDefaults;
        out := out + [line];
      } else if inDefaults && IsTarget(body, key) {
        out := out + [Retargeted(body, key, id)];
        wroteKey := true;
      } else {
        out := out + [line];
      }
    }
    assert lines[..|lines|] == lines;
    state := EditState(inDefaults, seenGroup, wroteKey, out);
  }

  method UpdateDefaultApplications(text: string, key: string, id: string) returns (result: string)
    ensures result == Updated(text, key, id)
  {
    hide KeyLine, Flatten, SplitLines, WithNewline;
    var state := EditEachLine(SplitLines(text), key, id);
    var out, keyLine := state.out, KeyLine(key, id);
    if state.inDefaults && !state.wroteKey {
      out := out + [keyLine];
    }
    if !state.seenGroup {
      if out != [] {
        var last := |out| - 1;
        out := out[..last] + [WithNewline(out[last])];
        out := out + ["\n"];
      }
      out := out + [HEADER_LINE];
      out := out + [keyLine];
    }
    result := WithNewline(Flatten(out));
  }
}
