/** What a desktop entry says, key by key, and that its reader finds it. */
module DesktopKeys {
  import opened Wrappers
  import opened Text
  import opened DesktopEntry
  import MimeApps
  import opened MimeAppsReader

  /** The key and value of a line that is no header and no comment. */
  function PairOf(line: string): Option<(string, string)>
  {
    var t := TrimEnd(line);
    if MimeApps.HeaderOf(line).Some? || (t != "" && t[0] == '#') then None
    else match SplitOnce(t, '=')
      case None => None
      case Some((key, value)) => Some((Trim(key), Trim(value)))
  }

  function PairAt(lines: seq<string>, i: nat): Option<(string, string)>
    requires i < |lines|
  {
    if GroupAt(lines, i) == Some("Desktop Entry") then PairOf(lines[i]) else None
  }

  /** An Exec beyond 8 KiB and an empty Icon are passed over. */
  predicate Counts(key: string, value: string)
  {
    (key == "Exec" ==> Utf8Len(value) <= 8192) && (key == "Icon" ==> value != "")
  }

  predicate SetsTo(lines: seq<string>, i: nat, key: string, value: string)
  {
    i < |lines| && PairAt(lines, i) == Some((key, value)) && Counts(key, value)
  }

  /** The last value the first lines give a key. */
  function LastValue(lines: seq<string>, n: nat, key: string): Option<string>
    requires n <= |lines|
  {
    if n == 0 then None
    else
      var pair := PairAt(lines, n - 1);
      if pair.Some? && pair.value.0 == key && Counts(key, pair.value.1) then Some(pair.value.1) else LastValue(lines, n - 1, key)
  }

  /** It is the value of a line after which no other counts. */
  lemma {:induction false} LastValueIff(lines: seq<string>, n: nat, key: string, value: string)
    requires n <= |lines|
    ensures LastValue(lines, n, key) == Some(value) <==>
            exists i: nat :: i < n && SetsTo(lines, i, key, value) &&
              forall j: nat, other: string | i < j < n :: !SetsTo(lines, j, key, other)
    ensures LastValue(lines, n, key) == None <==> forall i: nat, other: string | i < n :: !SetsTo(lines, i, key, other)
  {
    hide PairAt, Counts;
    if n > 0 {
      LastValueIff(lines, n - 1, key, value);
      var pair := PairAt(lines, n - 1);
      if pair.Some? && pair.value.0 == key && Counts(key, pair.value.1) {
        assert SetsTo(lines, n - 1, key, pair.value.1);
      }
    }
  }

  predicate Hides(lines: seq<string>, n: nat)
    requires n <= |lines|
  {
    exists i: nat :: i < n && PairAt(lines, i) == Some(("Hidden", "true"))
  }

  function KeysUpTo(lines: seq<string>, n: nat): Keys
    requires n <= |lines|
  {
    Keys(LastValue(lines, n, "Name"), LastValue(lines, n, "Exec"), LastValue(lines, n, "Icon"),
         LastValue(lines, n, "NoDisplay") == Some("true"), LastValue(lines, n, "Terminal") == Some("true"),
         match LastValue(lines, n, "MimeType") case None => [] case Some(list) => MimeApps.IdList(list))
  }

  /** One line sets the field of its key and no other. */
  lemma LineSets(lines: seq<string>, n: nat)
    requires n < |lines| && GroupAt(lines, n) == Some("Desktop Entry") && MimeApps.HeaderOf(lines[n]).None?
    ensures SetFrom(KeysUpTo(lines, n), lines[n])
         == if PairAt(lines, n) == Some(("Hidden", "true")) then None else Some(KeysUpTo(lines, n + 1))
  {
    var keys := KeysUpTo(lines, n);
    var pair := PairAt(lines, n);
    if pair.Some? {
      var (key, value) := pair.value;
      PairSets(keys, key, value);
      hide SetKey, PairAt, TrimEnd, Trim, MimeApps.IdList;
      LastStep(lines, n, "Name");
      LastStep(lines, n, "Exec");
      LastStep(lines, n, "Icon");
      LastStep(lines, n, "NoDisplay");
      LastStep(lines, n, "Terminal");
      LastStep(lines, n, "MimeType");
      assert SetFrom(keys, lines[n]) == SetKey(keys, key, value) by { PairIsSet(lines, n, keys); }
      hide SetFrom, LastValue;
    } else {
      assert SetFrom(keys, lines[n]) == Some(keys) by { PairIsSet(lines, n, keys); }
    }
  }

  lemma PairIsSet(lines: seq<string>, n: nat, keys: Keys)
    requires n < |lines| && GroupAt(lines, n) == Some("Desktop Entry") && MimeApps.HeaderOf(lines[n]).None?
    ensures SetFrom(keys, lines[n]) == match PairAt(lines, n) case None => Some(keys) case Some((key, value)) => SetKey(keys, key, value)
  {
    hide SetKey, TrimEnd, Trim, SplitOnce;
  }

  lemma LastStep(lines: seq<string>, n: nat, key: string)
    requires n < |lines|
    ensures LastValue(lines, n + 1, key) ==
            match PairAt(lines, n)
            case None => LastValue(lines, n, key)
            case Some((k, v)) => if k == key && Counts(key, v) then Some(v) else LastValue(lines, n, key)
  {
    hide PairAt, Counts;
  }

  lemma PairSets(keys: Keys, key: string, value: string)
    ensures var counts := Counts(key, value);
            SetKey(keys, key, value) ==
            if key == "Hidden" && value == "true" then None
            else Some(Keys(
              if key == "Name" then Some(value) else keys.name,
              if key == "Exec" && counts then Some(value) else keys.exec,
              if key == "Icon" && counts then Some(value) else keys.icon,
              if key == "NoDisplay" then value == "true" else keys.noDisplay,
              if key == "Terminal" then value == "true" else keys.terminal,
              if key == "MimeType" then MimeApps.IdList(value) else keys.mimeTypes))
  {
    hide MimeApps.IdList, Utf8Len;
  }

  predicate Inside(lines: seq<string>, n: nat)
    requires n <= |lines|
  {
    n > 0 && GroupAt(lines, n - 1) == Some("Desktop Entry")
  }

  lemma ReadsLine(lines: seq<string>, n: nat)
    requires n < |lines|
    ensures ReadKeys(lines[n..], Inside(lines, n), KeysUpTo(lines, n)) ==
            if PairAt(lines, n) == Some(("Hidden", "true")) then None
            else ReadKeys(lines[n + 1..], Inside(lines, n + 1), KeysUpTo(lines, n + 1))
  {
    var rest := lines[n..];
    assert rest[0] == lines[n] && rest[1..] == lines[n + 1..];
    if GroupAt(lines, n) == Some("Desktop Entry") && MimeApps.HeaderOf(lines[n]).None? {
      LineSets(lines, n);
    } else {
      OtherLine(lines, n);
    }
    hide SetFrom, KeysUpTo, PairAt, MimeApps.HeaderOf;
  }

  lemma {:induction false} ReadsUpTo(lines: seq<string>, n: nat)
    requires n <= |lines|
    ensures ReadKeys(lines, false, NO_KEYS) ==
            if Hides(lines, n) then None else ReadKeys(lines[n..], Inside(lines, n), KeysUpTo(lines, n))
  {
    hide ReadKeys, KeysUpTo, PairAt, Hides, Inside;
    if n == 0 {
      NothingRead(lines);
      assert lines[0..] == lines;
    } else {
      ReadsUpTo(lines, n - 1);
      ReadsLine(lines, n - 1);
      HidesStep(lines, n - 1);
    }
  }

  lemma NothingRead(lines: seq<string>)
    ensures KeysUpTo(lines, 0) == NO_KEYS && !Inside(lines, 0) && !Hides(lines, 0)
  {
  }

  lemma HidesStep(lines: seq<string>, n: nat)
    requires n < |lines|
    ensures Hides(lines, n + 1) <==> Hides(lines, n) || PairAt(lines, n) == Some(("Hidden", "true"))
  {
    hide PairAt;
  }

  lemma OtherLine(lines: seq<string>, n: nat)
    requires n < |lines| && (GroupAt(lines, n) != Some("Desktop Entry") || MimeApps.HeaderOf(lines[n]).Some?)
    ensures PairAt(lines, n) == None && KeysUpTo(lines, n + 1) == KeysUpTo(lines, n)
  {
    assert PairAt(lines, n) == None;
    hide PairAt, Counts;
  }

  /** Each key of the entry group reaches its own field and no other, the last
      value that counts wins, a line `Hidden=true` deletes the entry, and so does
      the lack of a name or of a command line; other groups say nothing. */
  lemma EachKeyReachesItsField(text: string, id: string)
    ensures var app, lines := ParseDesktop(text, id), SplitLines(text); var n := |lines|;
            && (app.None? <==> Hides(lines, n) || LastValue(lines, n, "Name").None? || LastValue(lines, n, "Exec").None?)
            && (app.Some? ==>
                  && app.value.id == id
                  && app.value.name <= LastValue(lines, n, "Name").value
                  && |app.value.name| == (if |LastValue(lines, n, "Name").value| <= 256 then |LastValue(lines, n, "Name").value| else 256)
                  && Some(app.value.exec) == LastValue(lines, n, "Exec") && app.value.icon == LastValue(lines, n, "Icon")
                  && (app.value.noDisplay <==> LastValue(lines, n, "NoDisplay") == Some("true"))
                  && (app.value.terminal <==> LastValue(lines, n, "Terminal") == Some("true"))
                  && app.value.mimeTypes == match LastValue(lines, n, "MimeType") case None => [] case Some(list) => MimeApps.IdList(list))
  {
    var lines := SplitLines(text);
    ReadsUpTo(lines, |lines|);
    assert lines[|lines|..] == [];
    hide SplitLines, LastValue, Hides, Inside, MimeApps.IdList;
  }
}
