/** SaveFiles: giving every suggested name a path of its own in the chosen
    folder, next to whatever already occupies it. */
module SaveFiles {
  import opened Wrappers
  import opened ByteStrings

  const SLASH: byte := 0x2F
  const DOT: byte := 0x2E

  const MAX_SUFFIX: nat := 0xFFFF_FFFF

  // ---------- basenames ----------

  function UpToSlash(s: Bytes): (n: nat)
    ensures n <= |s| && SLASH !in s[..n]
    ensures n < |s| ==> s[n] == SLASH
  {
    if s == [] || s[0] == SLASH then 0
    else
      var n := 1 + UpToSlash(s[1..]);
      assert s[..n] == [s[0]] + s[1..][..n - 1];
      n
  }

  /** The path components of what follows a name hold nothing but `.`. */
  predicate OnlyDots(s: Bytes)
    decreases |s|
  {
    if s == [] then true
    else
      var n := UpToSlash(s);
      (n == 0 || s[..n] == [DOT]) && (n == |s| || OnlyDots(s[n + 1..]))
  }

  /** A single normal component, as path parsing sees it: `a`, but also `a/`. */
  predicate ValidBasename(name: Bytes)
  {
    var n := UpToSlash(name);
    && 0 !in name
    && n > 0 && name[..n] != [DOT] && name[..n] != [DOT, DOT]
    && (n == |name| || OnlyDots(name[n + 1..]))
  }

  function JoinPath(folder: Bytes, name: Bytes): Bytes
  {
    if folder == [] || folder[|folder| - 1] == SLASH then folder + name else folder + [SLASH] + name
  }

  // ---------- numbered names ----------

  /** The last dot that separates a nonempty stem from a nonempty extension. */
  function LastDot(name: Bytes): (dot: nat)
    ensures dot <= |name|
    ensures dot < |name| ==> name[dot] == DOT
  {
    if name == [] then 0
    else if name[|name| - 1] == DOT then |name| - 1
    else
      var front := name[..|name| - 1];
      var dot := LastDot(front);
      if dot == |front| then |name| else dot
  }

  /** Where the suffix goes: before the extension if there is one. */
  function SplitAt(name: Bytes): (at: nat)
    ensures at <= |name|
  {
    var dot := LastDot(name);
    if dot == |name| || dot == 0 || dot + 1 == |name| then |name| else dot
  }

  lemma {:induction false} LastDotIsLast(name: Bytes)
    ensures DOT !in name[if LastDot(name) == |name| then 0 else LastDot(name) + 1..]
  {
    if name != [] && name[|name| - 1] != DOT {
      var front := name[..|name| - 1];
      LastDotIsLast(front);
      var from := if LastDot(front) == |front| then 0 else LastDot(front) + 1;
      assert name[from..] == front[from..] + [name[|name| - 1]];
    }
  }

  /** The suffix stands right before an extension of at least one byte behind a
      stem of at least one byte, or at the very end when there is none. */
  lemma SplitAtExtension(name: Bytes)
    ensures var at := SplitAt(name);
            if at < |name| then 0 < at && name[at] == DOT && at + 1 < |name| && DOT !in name[at + 1..]
            else forall i | 0 < i < |name| - 1 && name[i] == DOT :: name[|name| - 1] == DOT
  {
    LastDotIsLast(name);
    var dot := LastDot(name);
    assert forall i | (if dot == |name| then 0 else dot + 1) <= i < |name| :: name[i] in name[if dot == |name| then 0 else dot + 1..];
  }

  function Digits(n: nat): (digits: Bytes)
    ensures digits != []
    ensures forall d | d in digits :: 0x30 <= d <= 0x39
  {
    if n < 10 then [(0x30 + n) as byte] else Digits(n / 10) + [(0x30 + n % 10) as byte]
  }

  lemma {:induction false} DigitsAreInjective(a: nat, b: nat)
    requires Digits(a) == Digits(b)
    ensures a == b
  {
    var da, db := Digits(a), Digits(b);
    assert da[|da| - 1] == (0x30 + a % 10) as byte && db[|db| - 1] == (0x30 + b % 10) as byte;
    if a >= 10 && b >= 10 {
      assert da[..|da| - 1] == Digits(a / 10) && db[..|db| - 1] == Digits(b / 10);
      DigitsAreInjective(a / 10, b / 10);
    }
  }

  function Numbered(name: Bytes, suffix: nat): Bytes
  {
    var at := SplitAt(name);
    name[..at] + [0x28] + Digits(suffix) + [0x29] + name[at..]
  }

  lemma TrailingSlashIsValid()
    ensures ValidBasename([0x61, SLASH])
  {
    var name: Bytes := [0x61, SLASH];
    assert UpToSlash(name[1..]) == 0;
    assert UpToSlash(name) == 1;
    assert name[2..] == [];
  }

  // ---------- paths as their components ----------

  function Segment(s: Bytes): seq<Bytes>
  {
    if s == [] || s == [DOT] then [] else [s]
  }

  /** The parts between slashes, without empty ones and without `.`. */
  function Segments(path: Bytes): seq<Bytes>
    decreases |path|
  {
    if path == [] then []
    else
      var n := UpToSlash(path);
      Segment(path[..n]) + if n == |path| then [] else Segments(path[n + 1..])
  }

  /** What two equal paths have in common: the root, a leading `.`, the parts. */
  datatype Key = Key(rooted: bool, here: bool, segments: seq<Bytes>)

  function KeyOf(path: Bytes): Key
  {
    Key(path != [] && path[0] == SLASH, UpToSlash(path) == 1 && path[0] == DOT, Segments(path))
  }

  /** Where the last part of `s` starts. */
  function LastPart(s: Bytes): (at: nat)
    ensures at <= |s| && SLASH !in s[at..]
    ensures at > 0 ==> s[at - 1] == SLASH
  {
    if s == [] || s[|s| - 1] == SLASH then |s|
    else
      var at := LastPart(s[..|s| - 1]);
      assert s[at..] == s[..|s| - 1][at..] + [s[|s| - 1]];
      at
  }

  lemma {:induction false} UpToSlashUnique(s: Bytes, n: nat)
    requires n <= |s| && SLASH !in s[..n] && (n < |s| ==> s[n] == SLASH)
    ensures UpToSlash(s) == n
  {
    var m := UpToSlash(s);
    assert forall k | 0 <= k < n :: s[k] == s[..n][k];
    assert forall k | 0 <= k < m :: s[k] == s[..m][k];
  }

  lemma {:induction false} SegmentsConcat(a: Bytes, b: Bytes)
    requires a == [] || a[|a| - 1] == SLASH
    ensures Segments(a + b) == Segments(a) + Segments(b)
    decreases |a|
  {
    if a == [] {
      assert a + b == b;
    } else {
      var n := UpToSlash(a);
      assert a[..|a|] == a && SLASH in a;
      assert (a + b)[..n] == a[..n] && (a + b)[n + 1..] == a[n + 1..] + b;
      UpToSlashUnique(a + b, n);
      SegmentsConcat(a[n + 1..], b);
    }
  }

  lemma OneSegment(part: Bytes)
    requires SLASH !in part
    ensures Segments(part) == Segment(part)
  {
    hide Segment;
    UpToSlashUnique(part, |part|);
    assert part[..|part|] == part;
    NoSegment();
  }

  lemma NoSegment()
    ensures Segment([]) == [] && Segments([]) == []
  {
  }

  lemma SegmentBeforeSlash(part: Bytes, more: Bytes)
    requires SLASH !in part
    ensures Segments(part + [SLASH] + more) == Segment(part) + Segments(more)
  {
    hide Segment, UpToSlash;
    var path := part + [SLASH] + more;
    assert path[..|part|] == part && path[|part|] == SLASH && path[|part| + 1..] == more;
    UpToSlashUnique(path, |part|);
  }

  lemma FirstSegment(part: Bytes, rest: Bytes)
    requires SLASH !in part && (rest == [] || rest[0] == SLASH)
    ensures Segments(part + rest) == Segment(part) + Segments(rest)
  {
    hide *;
    NoSegment();
    if rest == [] {
      OneSegment(part);
      assert part + rest == part;
    } else {
      var more := rest[1..];
      SegmentBeforeSlash(part, more);
      SegmentBeforeSlash([], more);
      assert rest == [] + [SLASH] + more && part + rest == part + [SLASH] + more;
    }
  }

  /** The parts of a path around a piece that holds no slash. */
  lemma SegmentsAround(u: Bytes, w: Bytes, v: Bytes)
    requires SLASH !in w
    ensures var at, n := LastPart(u), UpToSlash(v);
            Segments(u + w + v) == Segments(u[..at]) + Segment(u[at..] + w + v[..n]) + Segments(v[n..])
  {
    var at, n := LastPart(u), UpToSlash(v);
    hide *;
    Regrouped(u, w, v, at, n);
    NoSlash(u[at..], w, v[..n]);
    AroundPart(u[..at], u[at..] + w + v[..n], v[n..]);
  }

  lemma AroundPart(front: Bytes, part: Bytes, rest: Bytes)
    requires front == [] || front[|front| - 1] == SLASH
    requires SLASH !in part && (rest == [] || rest[0] == SLASH)
    ensures Segments(front + (part + rest)) == Segments(front) + Segment(part) + Segments(rest)
  {
    hide *;
    SegmentsConcat(front, part + rest);
    FirstSegment(part, rest);
  }

  lemma NoSlash(a: Bytes, b: Bytes, c: Bytes)
    requires SLASH !in a && SLASH !in b && SLASH !in c
    ensures SLASH !in a + b + c
  {
  }

  lemma Regrouped(u: Bytes, w: Bytes, v: Bytes, at: nat, n: nat)
    requires at <= |u| && n <= |v|
    ensures u + w + v == u[..at] + ((u[at..] + w + v[..n]) + v[n..])
  {
  }

  // ---------- a free path ----------

  /** Not given out before, compared as paths, and not occupied. */
  predicate Free(path: Bytes, reserved: set<Key>, occupied: set<Bytes>)
  {
    KeyOf(path) !in reserved && path !in occupied
  }

  function Candidate(folder: Bytes, name: Bytes, suffix: nat): Bytes
  {
    JoinPath(folder, if suffix == 0 then name else Numbered(name, suffix))
  }

  /** The path a suggestion gets: the name itself or the smallest free number. */
  ghost predicate IsChosen(path: Bytes, folder: Bytes, name: Bytes, reserved: set<Key>, occupied: set<Bytes>)
  {
    exists suffix: nat | suffix <= MAX_SUFFIX ::
      path == Candidate(folder, name, suffix) && IsSmallestFree(folder, name, reserved, occupied, suffix)
  }

  ghost predicate IsSmallestFree(folder: Bytes, name: Bytes, reserved: set<Key>, occupied: set<Bytes>, suffix: nat)
  {
    && Free(Candidate(folder, name, suffix), reserved, occupied)
    && forall earlier: nat | earlier < suffix :: !Free(Candidate(folder, name, earlier), reserved, occupied)
  }

  /** What stands between the stem and the extension. */
  function Infix(suffix: nat): Bytes
  {
    if suffix == 0 then [] else [0x28] + Digits(suffix) + [0x29]
  }

  lemma InfixIsInjective(a: nat, b: nat)
    requires Infix(a) == Infix(b)
    ensures a == b
  {
    if a != 0 && b != 0 {
      assert Infix(a)[1..|Infix(a)| - 1] == Digits(a) && Infix(b)[1..|Infix(b)| - 1] == Digits(b);
      DigitsAreInjective(a, b);
    }
  }

  lemma JoinExtends(folder: Bytes, a: Bytes, b: Bytes)
    ensures JoinPath(folder, a + b) == JoinPath(folder, a) + b
  {
    assert folder + (a + b) == (folder + a) + b;
    assert folder + [SLASH] + (a + b) == (folder + [SLASH] + a) + b;
  }

  lemma NumberedParts(name: Bytes, suffix: nat)
    ensures (if suffix == 0 then name else Numbered(name, suffix))
         == name[..SplitAt(name)] + (Infix(suffix) + name[SplitAt(name)..])
    ensures SLASH !in Infix(suffix)
  {
    hide SplitAt;
    var at := SplitAt(name);
    var digits := Digits(suffix);
    hide Digits;
    assert SLASH !in digits;
    assert name == name[..at] + ([] + name[at..]);
    if suffix != 0 {
      assert name[..at] + [0x28] + digits + [0x29] + name[at..] == name[..at] + ([0x28] + digits + [0x29] + name[at..]);
    }
  }

  lemma CandidateParts(folder: Bytes, name: Bytes, suffix: nat)
    ensures Candidate(folder, name, suffix) == JoinPath(folder, name[..SplitAt(name)]) + Infix(suffix) + name[SplitAt(name)..]
    ensures SLASH !in Infix(suffix)
  {
    hide JoinPath, Numbered, Infix, SplitAt;
    var stem, rest := name[..SplitAt(name)], name[SplitAt(name)..];
    NumberedParts(name, suffix);
    JoinExtends(folder, stem, Infix(suffix) + rest);
    assert JoinPath(folder, stem) + (Infix(suffix) + rest) == JoinPath(folder, stem) + Infix(suffix) + rest;
  }

  /** Different numbers make different paths, whatever the name holds. */
  lemma CandidatesAreDistinct(folder: Bytes, name: Bytes, a: nat, b: nat)
    requires KeyOf(Candidate(folder, name, a)) == KeyOf(Candidate(folder, name, b))
    ensures a == b
  {
    hide Segments, Segment, JoinPath, SplitAt, Infix;
    var u, v := JoinPath(folder, name[..SplitAt(name)]), name[SplitAt(name)..];
    var head, tail := u[LastPart(u)..], v[..UpToSlash(v)];
    CandidateParts(folder, name, a);
    CandidateParts(folder, name, b);
    SegmentsAround(u, Infix(a), v);
    SegmentsAround(u, Infix(b), v);
    SameMiddle(Segments(u[..LastPart(u)]), Segment(head + Infix(a) + tail), Segment(head + Infix(b) + tail), Segments(v[UpToSlash(v)..]));
    PartTells(head, tail, a, b);
    InfixIsInjective(a, b);
  }

  lemma SameMiddle<T>(front: seq<T>, a: seq<T>, b: seq<T>, back: seq<T>)
    requires front + a + back == front + b + back
    ensures a == b
  {
    assert |a| == |b|;
    assert (front + a + back)[|front|..|front| + |a|] == a && (front + b + back)[|front|..|front| + |b|] == b;
  }

  lemma PartTells(head: Bytes, tail: Bytes, a: nat, b: nat)
    requires Segment(head + Infix(a) + tail) == Segment(head + Infix(b) + tail)
    ensures Infix(a) == Infix(b)
  {
    var x, y := head + Infix(a) + tail, head + Infix(b) + tail;
    InfixShows(head, tail, a);
    InfixShows(head, tail, b);
    if a == 0 && b == 0 {
    } else {
      assert x == y by { assert Segment(x)[0] == x || Segment(y)[0] == y; }
      SameMiddle(head, Infix(a), Infix(b), tail);
    }
  }

  lemma InfixShows(head: Bytes, tail: Bytes, a: nat)
    ensures a != 0 ==> Segment(head + Infix(a) + tail) == [head + Infix(a) + tail]
  {
    if a != 0 { assert |Infix(a)| >= 3; }
  }

  // ---------- inside the folder ----------

  /** Something directly in the folder: the folder's path with one more
      component, which does not lead out again. */
  ghost predicate ChildOf(path: Bytes, folder: Bytes)
  {
    exists child: Bytes ::
      child != [DOT, DOT] && KeyOf(path) == KeyOf(folder).(segments := Segments(folder) + [child])
  }

  /** The number goes into the first component of the name. */
  predicate NumberedInside(name: Bytes)
  {
    SplitAt(name) <= UpToSlash(name)
  }

  lemma {:induction false} OnlyDotsVanish(s: Bytes)
    ensures Segments(s) == [] <==> OnlyDots(s)
    decreases |s|
  {
    if s != [] {
      var n := UpToSlash(s);
      if n < |s| { OnlyDotsVanish(s[n + 1..]); }
    }
  }

  /** What follows the first component of a valid name names nothing. */
  lemma TailVanishes(name: Bytes)
    requires ValidBasename(name)
    ensures var n := UpToSlash(name);
            && name == name[..n] + name[n..] && SLASH !in name[..n] && (name[n..] == [] || name[n..][0] == SLASH)
            && Segments(name[n..]) == []
            && Segment(name[..n]) == [name[..n]] && name[..n] != [DOT, DOT]
  {
    hide Segments, OnlyDots;
    var n := UpToSlash(name);
    hide UpToSlash;
    NoSegment();
    if n < |name| {
      OnlyDotsVanish(name[n + 1..]);
      SlashFirst(name[n..]);
    }
  }

  lemma SlashFirst(s: Bytes)
    requires s != [] && s[0] == SLASH
    ensures Segments(s) == Segments(s[1..])
  {
    hide Segments, Segment;
    SegmentBeforeSlash([], s[1..]);
    NoSegment();
    assert s == [] + [SLASH] + s[1..];
  }

  /** A name is accepted if and only if it holds no NUL and, read as a path, is
      one component below the current directory, neither `.` nor `..`. */
  lemma ValidIff(name: Bytes)
    ensures ValidBasename(name) <==>
            0 !in name && exists child :: KeyOf(name) == Key(false, false, [child]) && child != [DOT, DOT]
  {
    var n := UpToSlash(name);
    if n < |name| { OnlyDotsVanish(name[n + 1..]); }
    if n > 0 && name[..n] != [DOT] { OnlyComponent(name, n); }
    hide OnlyDots, Segments, UpToSlash;
    assert name[..n] == [DOT] ==> n == 1 && name[0] == DOT;
  }

  lemma OnlyComponent(name: Bytes, n: nat)
    requires n == UpToSlash(name) > 0 && name[..n] != [DOT]
    ensures forall child :: Segments(name) == [child] <==> child == name[..n] && (n < |name| ==> Segments(name[n + 1..]) == [])
  {
    var rest := if n == |name| then [] else Segments(name[n + 1..]);
    assert Segments(name) == [name[..n]] + rest;
    hide Segments, UpToSlash;
    assert forall child :: [child] == [name[..n]] + rest ==> [child][0] == name[..n] && rest == [child][1..];
  }

  /** The components of a valid name, and of its numbered forms: one if and
      only if the number goes into the first component. */
  lemma NumberedSegments(name: Bytes, suffix: nat)
    requires ValidBasename(name)
    ensures var numbered, n, at := if suffix == 0 then name else Numbered(name, suffix), UpToSlash(name), SplitAt(name);
            if suffix == 0 || NumberedInside(name)
            then Segments(numbered) == [if suffix == 0 then name[..n] else name[..at] + Infix(suffix) + name[at..n]]
            else |Segments(numbered)| >= 2
  {
    hide Segments, Segment, OnlyDots, ValidBasename, SplitAt, UpToSlash, Infix, Numbered;
    var n, at := UpToSlash(name), SplitAt(name);
    TailVanishes(name);
    if suffix == 0 {
      FirstSegment(name[..n], name[n..]);
    } else {
      NumberedParts(name, suffix);
      if at <= n {
        NumberedFirst(name, suffix, at, n);
      } else {
        NumberedBehind(name, suffix, at, n);
      }
    }
  }

  lemma NumberedFirst(name: Bytes, suffix: nat, at: nat, n: nat)
    requires at <= n <= |name| && SLASH !in name[..n] && (name[n..] == [] || name[n..][0] == SLASH) && Segments(name[n..]) == []
    requires suffix != 0 && SLASH !in Infix(suffix)
    ensures Segments(name[..at] + (Infix(suffix) + name[at..])) == [name[..at] + Infix(suffix) + name[at..n]]
  {
    hide Segments, Infix;
    var part := name[..at] + Infix(suffix) + name[at..n];
    assert name[..at] + (Infix(suffix) + name[at..]) == part + name[n..];
    assert name[..n] == name[..at] + name[at..n];
    NoSlash(name[..at], Infix(suffix), name[at..n]);
    InfixShows(name[..at], name[at..n], suffix);
    FirstSegment(part, name[n..]);
  }

  lemma NumberedBehind(name: Bytes, suffix: nat, at: nat, n: nat)
    requires n < at <= |name| && SLASH !in name[..n] && name[n] == SLASH && Segment(name[..n]) == [name[..n]]
    requires suffix != 0 && SLASH !in Infix(suffix)
    ensures |Segments(name[..at] + (Infix(suffix) + name[at..]))| >= 2
  {
    hide Segments, Segment, Infix, UpToSlash, LastPart;
    var u, v := name[..at], name[at..];
    var last, k := LastPart(u), UpToSlash(v);
    assert u + (Infix(suffix) + v) == u + Infix(suffix) + v;
    SegmentsAround(u, Infix(suffix), v);
    InfixShows(u[last..], v[..k], suffix);
    assert u[n] == SLASH && u[..n] == name[..n];
    assert forall i | last <= i < |u| :: u[i] == u[last..][i - last];
    FrontSegment(u, n, last);
  }

  lemma FrontSegment(u: Bytes, n: nat, last: nat)
    requires n < last <= |u| && u[n] == SLASH && SLASH !in u[..n] && Segment(u[..n]) == [u[..n]]
    ensures |Segments(u[..last])| >= 1
  {
    hide Segments, Segment;
    assert u[..last] == u[..n] + [SLASH] + u[n + 1..last];
    SegmentBeforeSlash(u[..n], u[n + 1..last]);
  }

  lemma JoinKey(folder: Bytes, name: Bytes)
    requires name != [] && name[0] != SLASH && (name[0] == DOT ==> UpToSlash(name) != 1)
    ensures KeyOf(JoinPath(folder, name)) == KeyOf(folder).(segments := Segments(folder) + Segments(name))
  {
    hide KeyOf, Segments, UpToSlash;
    if folder == [] {
      assert folder + name == name;
      PlainStart(name);
    } else if folder[|folder| - 1] == SLASH {
      JoinedToSlash(folder, name);
    } else {
      JoinedBySlash(folder, name);
      SlashBetween(folder, name);
    }
  }

  lemma PlainStart(name: Bytes)
    requires name != [] && name[0] != SLASH && (name[0] == DOT ==> UpToSlash(name) != 1)
    ensures KeyOf(name) == KeyOf([]).(segments := Segments([]) + Segments(name))
  {
    NoSegment();
    hide Segments;
    assert [] + Segments(name) == Segments(name);
  }

  lemma JoinedToSlash(folder: Bytes, name: Bytes)
    requires folder != [] && folder[|folder| - 1] == SLASH
    ensures KeyOf(folder + name) == KeyOf(folder).(segments := Segments(folder) + Segments(name))
  {
    hide Segments, UpToSlash;
    SegmentsConcat(folder, name);
    FolderStart(folder, name);
  }

  lemma JoinedBySlash(folder: Bytes, name: Bytes)
    requires folder != []
    ensures KeyOf(folder + ([SLASH] + name)) == KeyOf(folder).(segments := Segments(folder) + Segments(name))
  {
    hide Segments, UpToSlash;
    JoinedSegments(folder, name);
    SlashBetween(folder, name);
    FolderStart(folder, [SLASH] + name);
  }

  lemma SlashBetween(folder: Bytes, name: Bytes)
    ensures folder + [SLASH] + name == folder + ([SLASH] + name)
  {
  }

  /** The first part of a joined path is that of the folder. */
  lemma FolderStart(folder: Bytes, rest: Bytes)
    requires folder != [] && (folder[|folder| - 1] == SLASH || (rest != [] && rest[0] == SLASH))
    ensures UpToSlash(folder + rest) == UpToSlash(folder) && (folder + rest)[0] == folder[0]
  {
    hide UpToSlash;
    var n := UpToSlash(folder);
    assert (folder + rest)[..n] == folder[..n];
    assert folder[..|folder|] == folder;
    UpToSlashUnique(folder + rest, n);
  }

  lemma JoinedSegments(folder: Bytes, name: Bytes)
    ensures Segments(folder + [SLASH] + name) == Segments(folder) + Segments(name)
  {
    hide *;
    SegmentsConcat(folder + [SLASH], name);
    assert folder + [SLASH] + [] == folder + [SLASH];
    EndingSlash(folder);
  }

  lemma {:induction false} EndingSlash(folder: Bytes)
    ensures Segments(folder + [SLASH]) == Segments(folder)
    decreases |folder|
  {
    hide Segments, Segment, UpToSlash;
    var n := UpToSlash(folder);
    NoSegment();
    if n == |folder| {
      assert folder[..n] == folder;
      OneSegment(folder);
      SegmentBeforeSlash(folder, []);
      assert folder + [SLASH] + [] == folder + [SLASH];
    } else {
      var part, rest := folder[..n], folder[n + 1..];
      assert folder == part + [SLASH] + rest;
      assert folder + [SLASH] == part + [SLASH] + (rest + [SLASH]);
      SegmentBeforeSlash(part, rest);
      SegmentBeforeSlash(part, rest + [SLASH]);
      EndingSlash(rest);
    }
  }

  /** A candidate lies directly in the folder if and only if it is the name as
      suggested or the number goes into the first component. */
  lemma CandidateIsChildIff(folder: Bytes, name: Bytes, suffix: nat)
    requires ValidBasename(name)
    ensures ChildOf(Candidate(folder, name, suffix), folder) <==> suffix == 0 || NumberedInside(name)
  {
    var numbered := if suffix == 0 then name else Numbered(name, suffix);
    StartsPlainly(name, suffix);
    hide KeyOf, Segments, Segment, ValidBasename, NumberedInside, SplitAt, UpToSlash, Infix, Numbered, JoinPath, OnlyDots;
    JoinKey(folder, numbered);
    NumberedSegments(name, suffix);
    var path := Candidate(folder, name, suffix);
    if suffix == 0 || NumberedInside(name) {
      var child := Segments(numbered)[0];
      NotParent(name, suffix);
      assert KeyOf(path) == KeyOf(folder).(segments := Segments(folder) + [child]);
    } else {
      assert |KeyOf(path).segments| >= |Segments(folder)| + 2;
    }
  }

  lemma StartsPlainly(name: Bytes, suffix: nat)
    requires ValidBasename(name)
    ensures var numbered := if suffix == 0 then name else Numbered(name, suffix);
            numbered != [] && numbered[0] != SLASH && (numbered[0] == DOT ==> UpToSlash(numbered) != 1)
  {
    hide OnlyDots, LastDot;
    var n, at := UpToSlash(name), SplitAt(name);
    NumberedParts(name, suffix);
    hide Numbered;
    assert n == 1 ==> name[..n] == [name[0]];
    assert name[..n][0] == name[0];
    if suffix != 0 { StartKept(name, Infix(suffix), at, n); }
  }

  lemma StartKept(name: Bytes, infix: Bytes, at: nat, n: nat)
    requires 0 < at <= |name| && n == UpToSlash(name) && n > 0 && name[..n] != [DOT]
    requires infix != [] && SLASH !in infix
    ensures var numbered := name[..at] + (infix + name[at..]);
            numbered[0] != SLASH && (numbered[0] == DOT ==> UpToSlash(numbered) != 1)
  {
    var numbered := name[..at] + (infix + name[at..]);
    assert numbered[0] == name[0] == name[..n][0];
    assert n == 1 ==> name[..n] == [name[0]];
    assert forall k | 0 <= k < n :: name[k] == name[..n][k];
    assert numbered[1] == if at == 1 then infix[0] else name[1];
  }

  /** The one component is never the way back. */
  lemma NotParent(name: Bytes, suffix: nat)
    requires ValidBasename(name) && (suffix == 0 || NumberedInside(name))
    ensures var n, at := UpToSlash(name), SplitAt(name);
            (if suffix == 0 then name[..n] else name[..at] + Infix(suffix) + name[at..n]) != [DOT, DOT]
  {
    hide OnlyDots, LastDot, SplitAt, Digits;
    if suffix != 0 { assert |Infix(suffix)| >= 3; }
  }

  /** Names without a slash never lead out of the folder. */
  lemma SlashFreeIsInside(name: Bytes)
    requires SLASH !in name
    ensures NumberedInside(name)
  {
  }

  /** Where a chosen path lies: directly in the folder if and only if the name
      was free as suggested or is one whose number goes into its first component. */
  lemma ChosenIsChildIff(path: Bytes, folder: Bytes, name: Bytes, reserved: set<Key>, occupied: set<Bytes>)
    requires ValidBasename(name) && IsChosen(path, folder, name, reserved, occupied)
    ensures ChildOf(path, folder) <==> Free(Candidate(folder, name, 0), reserved, occupied) || NumberedInside(name)
    ensures SLASH !in name ==> ChildOf(path, folder)
  {
    if SLASH !in name { SlashFreeIsInside(name); }
    hide Candidate, ChildOf, NumberedInside, ValidBasename, Free;
    var suffix: nat :| suffix <= MAX_SUFFIX && path == Candidate(folder, name, suffix)
                       && IsSmallestFree(folder, name, reserved, occupied, suffix);
    CandidateIsChildIff(folder, name, suffix);
    assert suffix != 0 ==> !Free(Candidate(folder, name, 0), reserved, occupied);
  }

  const FOLDER: Bytes := [SLASH, 0x66]
  const A: Bytes := [0x61]

  /** A second suggestion "a/" next to "a" in "/f" gets the path "/f/a/(1)",
      which lies below what the first one gets. */
  lemma TrailingSlashLeavesFolder()
    ensures var paths := [FOLDER + [SLASH] + A, FOLDER + [SLASH] + A + [SLASH, 0x28, 0x31, 0x29]];
            var files := [A, A + [SLASH]];
            && AllValid(files) && Allotted(paths, FOLDER, files, {}) && !ChildOf(paths[1], FOLDER)
  {
    var first, second := FOLDER + [SLASH] + A, FOLDER + [SLASH] + A + [SLASH, 0x28, 0x31, 0x29];
    var dir := A + [SLASH];
    TheNames();
    SameKey();
    hide *;
    CandidateIsChildIff(FOLDER, dir, 1);
    if KeyOf(second) == KeyOf(first) { CandidatesAreDistinct(FOLDER, dir, 1, 0); }
    TheyAreAllotted(first, second, FOLDER, A, dir);
  }

  /** Two suggestions whose unnumbered paths are the same. */
  lemma TheyAreAllotted(first: Bytes, second: Bytes, folder: Bytes, a: Bytes, b: Bytes)
    requires ValidBasename(a) && ValidBasename(b)
    requires first == Candidate(folder, a, 0) && second == Candidate(folder, b, 1)
    requires KeyOf(Candidate(folder, b, 0)) == KeyOf(first) != KeyOf(second)
    ensures AllValid([a, b]) && Allotted([first, second], folder, [a, b], {})
  {
    hide KeyOf, ValidBasename, Candidate;
    var paths := [first, second];
    assert paths[..0] == [] && paths[..1] == [first];
    assert Keys([]) == {} && Keys([first]) == {KeyOf(first)};
    assert IsSmallestFree(folder, a, {}, {}, 0);
    assert !Free(Candidate(folder, b, 0), {KeyOf(first)}, {});
    assert IsSmallestFree(folder, b, {KeyOf(first)}, {}, 1);
  }

  lemma TheNames()
    ensures ValidBasename(A) && ValidBasename(A + [SLASH]) && !NumberedInside(A + [SLASH])
    ensures Candidate(FOLDER, A, 0) == FOLDER + [SLASH] + A
    ensures Candidate(FOLDER, A + [SLASH], 0) == FOLDER + [SLASH] + (A + [SLASH])
    ensures Candidate(FOLDER, A + [SLASH], 1) == FOLDER + [SLASH] + A + [SLASH, 0x28, 0x31, 0x29]
    ensures Segments(A) == [A] && Segments(A + [SLASH]) == [A]
  {
    hide Segments;
    var dir := A + [SLASH];
    assert UpToSlash(A[1..]) == 0 && UpToSlash(A) == 1;
    assert UpToSlash(dir[1..]) == 0 && UpToSlash(dir) == 1 && dir[2..] == [];
    assert dir[..1] == A && A[..1] == A;
    assert LastDot(dir[..1]) == 1 by { assert dir[..1][..0] == []; }
    assert SplitAt(dir) == 2 && Digits(1) == [0x31];
    OneSegment(A);
    SegmentBeforeSlash(A, []);
    NoSegment();
    assert dir == A + [SLASH] + [];
  }

  lemma SameKey()
    ensures KeyOf(Candidate(FOLDER, A + [SLASH], 0)) == KeyOf(Candidate(FOLDER, A, 0))
  {
    TheNames();
    hide KeyOf, Segments;
    JoinKey(FOLDER, A);
    JoinKey(FOLDER, A + [SLASH]);
  }

  /** `n` candidates that are not free are `n` different paths in the way. */
  lemma {:induction false} TakenCandidatesCount(folder: Bytes, name: Bytes, reserved: set<Key>, occupied: set<Bytes>, n: nat)
    requires forall suffix: nat | suffix < n :: !Free(Candidate(folder, name, suffix), reserved, occupied)
    ensures n <= |reserved| + |occupied|
    decreases n
  {
    hide Candidate, KeyOf;
    if n > 0 {
      var last := Candidate(folder, name, n - 1);
      assert !Free(last, reserved, occupied);
      var lessReserved := reserved - {KeyOf(last)};
      var lessOccupied := if KeyOf(last) in reserved then occupied else occupied - {last};
      forall suffix: nat | suffix < n - 1 ensures !Free(Candidate(folder, name, suffix), lessReserved, lessOccupied) {
        if KeyOf(Candidate(folder, name, suffix)) == KeyOf(last) { CandidatesAreDistinct(folder, name, suffix, n - 1); }
      }
      TakenCandidatesCount(folder, name, lessReserved, lessOccupied, n - 1);
    }
  }

  datatype Failure = BadName | NoUniqueName | NoFolder

  method UniqueChild(folder: Bytes, name: Bytes, reserved: set<Key>, occupied: set<Bytes>)
    returns (path: Result<Bytes, Failure>)
    ensures !ValidBasename(name) ==> path == Err(BadName)
    ensures ValidBasename(name) && path.Ok? ==> IsChosen(path.value, folder, name, reserved, occupied)
    ensures ValidBasename(name) && path.Ok? ==>
              (ChildOf(path.value, folder) <==> Free(Candidate(folder, name, 0), reserved, occupied) || NumberedInside(name))
    ensures ValidBasename(name) && path.Err? ==> path == Err(NoUniqueName)
    ensures ValidBasename(name) && path.Err? ==>
              forall suffix: nat | suffix <= MAX_SUFFIX :: !Free(Candidate(folder, name, suffix), reserved, occupied)
    ensures ValidBasename(name) && |reserved| + |occupied| <= MAX_SUFFIX ==> path.Ok?
  {
    hide Candidate, ValidBasename, KeyOf, ChildOf, NumberedInside;
    if !ValidBasename(name) {
      return Err(BadName);
    }
    var candidate := Candidate(folder, name, 0);
    if KeyOf(candidate) !in reserved && candidate !in occupied {
      assert IsSmallestFree(folder, name, reserved, occupied, 0);
      ChosenIsChildIff(candidate, folder, name, reserved, occupied);
      return Ok(candidate);
    }
    for suffix := 1 to MAX_SUFFIX + 1
      invariant forall earlier: nat | earlier < suffix :: !Free(Candidate(folder, name, earlier), reserved, occupied)
    {
      candidate := Candidate(folder, name, suffix);
      if KeyOf(candidate) !in reserved && candidate !in occupied {
        assert IsSmallestFree(folder, name, reserved, occupied, suffix);
        ChosenIsChildIff(candidate, folder, name, reserved, occupied);
        return Ok(candidate);
      }
    }
    TakenCandidatesCount(folder, name, reserved, occupied, MAX_SUFFIX + 1);
    return Err(NoUniqueName);
  }

  datatype Mode = SaveFilesMode | OtherMode

  function Keys(paths: seq<Bytes>): set<Key>
  {
    set path | path in paths :: KeyOf(path)
  }

  /** Pairwise different as paths. */
  ghost predicate Distinct(paths: seq<Bytes>)
  {
    forall i, j | 0 <= i < j < |paths| :: KeyOf(paths[i]) != KeyOf(paths[j])
  }

  lemma {:induction false} KeysSize(paths: seq<Bytes>)
    ensures |Keys(paths)| <= |paths|
  {
    hide KeyOf;
    if paths != [] {
      var last := paths[|paths| - 1];
      KeysSize(paths[..|paths| - 1]);
      assert Keys(paths) == Keys(paths[..|paths| - 1]) + {KeyOf(last)};
    }
  }

  /** The paths given out so far: each chosen around what was occupied and what
      was given out before it. */
  ghost predicate Allotted(paths: seq<Bytes>, folder: Bytes, files: seq<Bytes>, occupied: set<Bytes>)
  {
    && |paths| <= |files|
    && Distinct(paths)
    && (forall i | 0 <= i < |paths| :: paths[i] !in occupied)
    && forall i | 0 <= i < |paths| :: IsChosen(paths[i], folder, files[i], Keys(paths[..i]), occupied)
  }

  lemma AllotNext(paths: seq<Bytes>, path: Bytes, folder: Bytes, files: seq<Bytes>, occupied: set<Bytes>)
    requires Allotted(paths, folder, files, occupied) && |paths| < |files|
    requires IsChosen(path, folder, files[|paths|], Keys(paths), occupied)
    ensures Allotted(paths + [path], folder, files, occupied)
    ensures Keys(paths + [path]) == Keys(paths) + {KeyOf(path)}
  {
    hide Candidate, IsSmallestFree, KeyOf;
    ChosenIsFree(path, folder, files[|paths|], Keys(paths), occupied);
    var more := paths + [path];
    assert forall i | 0 <= i < |paths| :: more[..i] == paths[..i];
    assert more[..|paths|] == paths;
    assert forall p | p in paths :: KeyOf(p) in Keys(paths);
  }

  predicate AllValid(files: seq<Bytes>)
  {
    forall i | 0 <= i < |files| :: ValidBasename(files[i])
  }

  /** Each path lies directly in the folder if and only if its name was free as
      suggested or is one whose number goes into its first component. */
  ghost predicate StaysInside(paths: seq<Bytes>, folder: Bytes, files: seq<Bytes>, occupied: set<Bytes>)
    requires |paths| <= |files|
  {
    forall i | 0 <= i < |paths| ::
      ChildOf(paths[i], folder) <==> Free(Candidate(folder, files[i], 0), Keys(paths[..i]), occupied) || NumberedInside(files[i])
  }

  lemma AllottedStaysInside(paths: seq<Bytes>, folder: Bytes, files: seq<Bytes>, occupied: set<Bytes>)
    requires Allotted(paths, folder, files, occupied) && AllValid(files)
    ensures StaysInside(paths, folder, files, occupied)
  {
    hide IsChosen, ChildOf, Free, Candidate, NumberedInside, Keys, ValidBasename;
    forall i | 0 <= i < |paths|
      ensures ChildOf(paths[i], folder) <==> Free(Candidate(folder, files[i], 0), Keys(paths[..i]), occupied) || NumberedInside(files[i])
    {
      assert ValidBasename(files[i]);
      ChosenIsChildIff(paths[i], folder, files[i], Keys(paths[..i]), occupied);
    }
  }

  /** One path per suggestion, in order, all different and none occupied; it
      succeeds whenever there are fewer paths in the way than candidates. */
  method FinishPaths(mode: Mode, files: seq<Bytes>, selected: seq<Bytes>, occupied: set<Bytes>)
    returns (result: Result<seq<Bytes>, Failure>)
    ensures mode != SaveFilesMode ==> result == Ok(selected)
    ensures mode == SaveFilesMode && selected == [] ==> result == Err(NoFolder)
    ensures mode == SaveFilesMode && result.Ok? ==>
              |result.value| == |files| && selected != [] && Allotted(result.value, selected[0], files, occupied)
    ensures mode == SaveFilesMode && result.Ok? ==> AllValid(files)
    ensures mode == SaveFilesMode && result.Ok? ==> StaysInside(result.value, selected[0], files, occupied)
    ensures mode == SaveFilesMode && selected != [] && AllValid(files) && |occupied| + |files| <= MAX_SUFFIX + 1 ==> result.Ok?
  {
    hide ValidBasename, IsChosen, Allotted, Keys, KeyOf, StaysInside;
    if mode != SaveFilesMode {
      return Ok(selected);
    }
    if selected == [] {
      return Err(NoFolder);
    }
    var folder := selected[0];
    var reserved: set<Key> := {};
    var paths: seq<Bytes> := [];
    NothingAllotted(folder, files, occupied);
    for i := 0 to |files|
      invariant |paths| == i && reserved == Keys(paths)
      invariant Allotted(paths, folder, files, occupied)
      invariant forall k | 0 <= k < i :: ValidBasename(files[k])
    {
      KeysSize(paths);
      var path := UniqueChild(folder, files[i], reserved, occupied);
      if path.Err? {
        return Err(path.error);
      }
      AllotNext(paths, path.value, folder, files, occupied);
      reserved := reserved + {KeyOf(path.value)};
      paths := paths + [path.value];
    }
    AllottedStaysInside(paths, folder, files, occupied);
    return Ok(paths);
  }

  lemma NothingAllotted(folder: Bytes, files: seq<Bytes>, occupied: set<Bytes>)
    ensures Allotted([], folder, files, occupied) && Keys([]) == {}
  {
  }

  lemma ChosenIsFree(path: Bytes, folder: Bytes, name: Bytes, reserved: set<Key>, occupied: set<Bytes>)
    requires IsChosen(path, folder, name, reserved, occupied)
    ensures Free(path, reserved, occupied)
  {
  }
}
