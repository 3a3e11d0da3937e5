/** What the reader of grouped lists reports, in terms of the lines of the
    file. */
module MimeAppsReader {
  import opened Wrappers
  import opened Text
  import opened MimeApps

  /** The group a line is in: the nearest header at or above it. */
  function GroupAt(lines: seq<string>, i: nat): Option<string>
    requires i < |lines|
  {
    if HeaderOf(lines[i]).Some? then HeaderOf(lines[i])
    else if i == 0 then None
    else GroupAt(lines, i - 1)
  }

  /** Line `i` gives `key` members, in a group that has a name. */
  predicate Lists(lines: seq<string>, i: nat, group: string, key: string)
  {
    && i < |lines| && group != "" && GroupAt(lines, i) == Some(group) && HeaderOf(lines[i]).None?
    && EntryOf(lines[i]).Some? && EntryOf(lines[i]).value.0 == key
  }

  /** The last of the first `n` lines to give the key members gives these. */
  predicate LastGives(lines: seq<string>, n: nat, group: string, key: string, ids: seq<string>)
  {
    exists i: nat :: i < n && Lists(lines, i, group, key) && EntryOf(lines[i]).value.1 == ids &&
      forall j: nat | i < j < n :: !Lists(lines, j, group, key)
  }

  predicate Reports(groups: Groups, group: string, key: string, ids: seq<string>)
  {
    group in groups && key in groups[group] && groups[group][key] == ids
  }

  lemma {:induction false} GroupReached(lines: seq<string>, n: nat)
    requires n <= |lines|
    ensures ReadLines(START, lines[..n]).group ==
            if n == 0 || GroupAt(lines, n - 1).None? then "" else GroupAt(lines, n - 1).value
  {
    hide HeaderOf, EntryOf;
    if n == 0 {
      assert lines[..0] == [];
    } else {
      GroupReached(lines, n - 1);
      ReadOneMore(lines, n - 1);
    }
  }

  lemma ReadOneMore(lines: seq<string>, n: nat)
    requires n < |lines|
    ensures ReadLines(START, lines[..n + 1]) == ReadLine(ReadLines(START, lines[..n]), lines[n])
  {
    assert lines[..n + 1] == lines[..n] + [lines[n]];
    ReadSnoc(START, lines[..n], lines[n]);
  }

  lemma {:induction false} ReportsUpTo(lines: seq<string>, n: nat, group: string, key: string, ids: seq<string>)
    requires n <= |lines|
    ensures Reports(ReadLines(START, lines[..n]).groups, group, key, ids) <==> LastGives(lines, n, group, key, ids)
  {
    hide Reports, LastGives, Lists, ReadLine, EntryOf, HeaderOf;
    if n == 0 {
      assert lines[..0] == [];
      NothingReported(lines, group, key, ids);
    } else {
      ReportsUpTo(lines, n - 1, group, key, ids);
      ReadOneMore(lines, n - 1);
      GroupReached(lines, n - 1);
      LineReports(lines, n - 1, group, key, ids);
      LastStep(lines, n - 1, group, key, ids);
    }
  }

  lemma NothingReported(lines: seq<string>, group: string, key: string, ids: seq<string>)
    ensures !Reports(START.groups, group, key, ids) && !LastGives(lines, 0, group, key, ids)
  {
  }

  /** A line changes what is reported for the key it gives members, and for no
      other. */
  lemma LineReports(lines: seq<string>, n: nat, group: string, key: string, ids: seq<string>)
    requires n < |lines|
    requires ReadLines(START, lines[..n]).group == if n == 0 || GroupAt(lines, n - 1).None? then "" else GroupAt(lines, n - 1).value
    ensures var before := ReadLines(START, lines[..n]);
            Reports(ReadLine(before, lines[n]).groups, group, key, ids) <==>
            if Lists(lines, n, group, key) then EntryOf(lines[n]).value.1 == ids
            else Reports(before.groups, group, key, ids)
  {
    hide HeaderOf, EntryOf, ReadLines;
  }

  lemma LastStep(lines: seq<string>, n: nat, group: string, key: string, ids: seq<string>)
    requires n < |lines|
    ensures LastGives(lines, n + 1, group, key, ids) <==>
            if Lists(lines, n, group, key) then EntryOf(lines[n]).value.1 == ids
            else LastGives(lines, n, group, key, ids)
  {
    hide EntryOf, HeaderOf, GroupAt;
    if !Lists(lines, n, group, key) && LastGives(lines, n, group, key, ids) {
      var i: nat :| i < n && Lists(lines, i, group, key) && EntryOf(lines[i]).value.1 == ids &&
        forall j: nat | i < j < n :: !Lists(lines, j, group, key);
      assert forall j: nat | i < j < n + 1 :: !Lists(lines, j, group, key);
    }
    hide Lists;
  }

  /** The reader reports members for a key of a group if and only if the last line
      of that group to give the key members gives these. */
  lemma ReportsIff(text: string, group: string, key: string, ids: seq<string>)
    ensures Reports(Parse(text), group, key, ids) <==> LastGives(SplitLines(text), |SplitLines(text)|, group, key, ids)
  {
    var lines := SplitLines(text);
    ReportsUpTo(lines, |lines|, group, key, ids);
    assert lines[..|lines|] == lines;
  }

  predicate IsEntry(t: string, left: string, right: string, key: string, ids: seq<string>)
  {
    && t == left + "=" + right && '=' !in left && Trim(left) == key && IdList(right) == ids
    && key != "" && '[' !in key && !("#" <= t)
  }

  /** An entry line is a key, an equals sign and a list; the key is what stands
      before the first such sign, names no section and starts no comment. */
  lemma EntryIff(line: string, key: string, ids: seq<string>)
    ensures EntryOf(line) == Some((key, ids)) <==> exists left, right :: IsEntry(TrimEnd(line), left, right, key, ids)
  {
    hide IdList, Trim, TrimEnd, SplitOnce;
    var t := TrimEnd(line);
    assert "=" == ['='] && ("#" <= t <==> t != "" && t[0] == '#');
    forall left, right | IsEntry(t, left, right, key, ids) ensures SplitOnce(t, '=') == Some((left, right)) {
      SplitOnceAt(left, '=', right);
    }
    if EntryOf(line) == Some((key, ids)) {
      var (left, right) := SplitOnce(t, '=').value;
      assert IsEntry(t, left, right, key, ids);
    }
  }

  /** The members of a list that is one piece, and of one that is several. */
  lemma MembersOfPiece(piece: string)
    requires ';' !in piece
    ensures IdList(piece) == if Trim(piece) == "" then [] else [Trim(piece)]
  {
    hide Trim;
    assert IndexOf(piece, ';') == |piece| && piece[..|piece|] == piece;
  }

  lemma {:induction false} MembersOfPieces(piece: string, rest: string)
    ensures IdList(piece + ";" + rest) == IdList(piece) + IdList(rest)
    decreases |piece|
  {
    hide Trim, IndexOf, IdList;
    var list, i := piece + ";" + rest, IndexOf(piece, ';');
    assert list[..i] == piece[..i] && list[i] == ';';
    IndexOfUnique(list, ';', i);
    FirstMember(list);
    FirstMember(piece);
    if i < |piece| {
      assert list[i + 1..] == piece[i + 1..] + ";" + rest;
      MembersOfPieces(piece[i + 1..], rest);
    } else {
      assert list[i + 1..] == rest;
    }
  }

  lemma FirstMember(value: string)
    ensures var i := IndexOf(value, ';'); var id := Trim(value[..i]);
            IdList(value) == (if id == "" then [] else [id]) + if i == |value| then [] else IdList(value[i + 1..])
  {
    hide Trim, IndexOf;
  }
}
