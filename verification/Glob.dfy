/** The `globs2` matcher: one scan with a single remembered star, against a
    declarative definition of what a pattern means. */
module Glob {

  /** The meaning of a pattern: `*` stands for any run of characters, `?` for
      any one character, and everything else for itself. */
  ghost predicate Matches(pattern: string, text: string)
  {
    if pattern == [] then text == []
    else if pattern[0] == '*' then exists k | 0 <= k <= |text| :: Matches(pattern[1..], text[k..])
    else text != [] && (pattern[0] == '?' || pattern[0] == text[0]) && Matches(pattern[1..], text[1..])
  }

  ghost predicate AllStars(pattern: string)
  {
    forall i | 0 <= i < |pattern| :: pattern[i] == '*'
  }

  /** The number of characters any match of `pattern` must at least have. */
  ghost function MinLength(pattern: string): nat
  {
    if pattern == [] then 0
    else (if pattern[0] == '*' then 0 else 1) + MinLength(pattern[1..])
  }

  lemma {:induction false} MatchIsLongEnough(pattern: string, text: string)
    requires Matches(pattern, text)
    ensures MinLength(pattern) <= |text|
  {
    if pattern == [] {
    } else if pattern[0] == '*' {
      var k :| 0 <= k <= |text| && Matches(pattern[1..], text[k..]);
      MatchIsLongEnough(pattern[1..], text[k..]);
    } else {
      MatchIsLongEnough(pattern[1..], text[1..]);
    }
  }

  lemma {:induction false} NonStarNeedsCharacter(pattern: string)
    requires !AllStars(pattern)
    ensures MinLength(pattern) >= 1
  {
    if pattern[0] == '*' {
      assert !AllStars(pattern[1..]) by {
        var i :| 0 <= i < |pattern| && pattern[i] != '*';
        assert pattern[1..][i - 1] != '*';
      }
      NonStarNeedsCharacter(pattern[1..]);
    }
  }

  lemma {:induction false} MinLengthConcat(a: string, b: string)
    ensures MinLength(a + b) == MinLength(a) + MinLength(b)
  {
    if a == [] {
      assert a + b == b;
    } else {
      assert (a + b)[1..] == a[1..] + b;
      MinLengthConcat(a[1..], b);
    }
  }

  lemma {:induction false} StarsMatchEmpty(pattern: string)
    requires AllStars(pattern)
    ensures Matches(pattern, [])
  {
    if pattern != [] {
      StarsMatchEmpty(pattern[1..]);
      assert ""[0..] == "";
    }
  }

  /** A leading star absorbs any prefix put before a match. */
  lemma StarAbsorbs(pattern: string, text: string, k: nat)
    requires pattern != [] && pattern[0] == '*' && k <= |text|
    requires Matches(pattern, text[k..])
    ensures Matches(pattern, text)
  {
    var j :| 0 <= j <= |text[k..]| && Matches(pattern[1..], text[k..][j..]);
    assert text[k..][j..] == text[k + j..];
  }

  lemma {:induction false} MatchesConcat(p1: string, t1: string, p2: string, t2: string)
    requires Matches(p1, t1) && Matches(p2, t2)
    ensures Matches(p1 + p2, t1 + t2)
  {
    if p1 == [] {
      assert p1 + p2 == p2 && t1 + t2 == t2;
    } else {
      assert (p1 + p2)[1..] == p1[1..] + p2;
      if p1[0] == '*' {
        var k :| 0 <= k <= |t1| && Matches(p1[1..], t1[k..]);
        MatchesConcat(p1[1..], t1[k..], p2, t2);
        assert (t1 + t2)[k..] == t1[k..] + t2;
      } else {
        MatchesConcat(p1[1..], t1[1..], p2, t2);
        assert (t1 + t2)[1..] == t1[1..] + t2;
      }
    }
  }

  /** A star-free block of a pattern consumes exactly its own length. */
  lemma {:induction false} BlockSplits(block: string, rest: string, text: string)
    requires '*' !in block
    ensures Matches(block + rest, text) <==>
            |block| <= |text| && Matches(block, text[..|block|]) && Matches(rest, text[|block|..])
  {
    if block == [] {
      assert block + rest == rest && text[0..] == text && text[..0] == "";
    } else if text != [] {
      assert (block + rest)[1..] == block[1..] + rest;
      BlockSplits(block[1..], rest, text[1..]);
      if |block| <= |text| {
        assert text[1..][..|block| - 1] == text[..|block|][1..];
        assert text[1..][|block| - 1..] == text[|block|..];
      }
    }
  }

  lemma StarRun(pattern: string, text: string) returns (k: nat)
    requires pattern != [] && pattern[0] == '*' && Matches(pattern, text)
    ensures k <= |text| && Matches(pattern[1..], text[k..])
  {
    k :| 0 <= k <= |text| && Matches(pattern[1..], text[k..]);
  }

  lemma StarMatchesNothing(pattern: string, text: string)
    requires pattern != [] && pattern[0] == '*' && Matches(pattern[1..], text)
    ensures Matches(pattern, text)
  {
    assert text[0..] == text;
  }

  /** Giving a remembered star nothing first: if a block between two stars
      matches right here, the earlier star never needs to be reconsidered. */
  lemma LaterStarSuffices(block: string, rest: string, text: string, n: nat)
    requires '*' !in block && n == |block| <= |text| && Matches(block, text[..n])
    requires rest != [] && rest[0] == '*'
    ensures Matches("*" + block + rest, text) <==> Matches(rest, text[n..])
  {
    hide Matches;
    var whole := "*" + block + rest;
    assert whole[1..] == block + rest;
    if Matches(whole, text) {
      var k := StarRun(whole, text);
      BlockSplits(block, rest, text[k..]);
      assert text[k..][n..] == text[n..][k..];
      StarAbsorbs(rest, text[n..], k);
    }
    if Matches(rest, text[n..]) {
      BlockSplits(block, rest, text);
      StarMatchesNothing(whole, text);
    }
  }

  /** One step of a star: it matches here only by matching nothing or one more. */
  lemma StarUnfolds(pattern: string, text: string)
    requires pattern != [] && pattern[0] == '*' && text != []
    ensures Matches(pattern, text) <==> Matches(pattern[1..], text) || Matches(pattern, text[1..])
  {
    assert text[0..] == text;
    if Matches(pattern, text) && !Matches(pattern[1..], text) {
      var k :| 0 <= k <= |text| && Matches(pattern[1..], text[k..]);
      assert text[1..][k - 1..] == text[k..];
    }
    if Matches(pattern, text[1..]) {
      StarAbsorbs(pattern, text, 1);
    }
  }

  /** What the scan has established about the text after it consumed
      `text[..t]` with `pattern[..p]`, remembering a star at `starP`. */
  ghost predicate Consumed(pattern: string, text: string, p: nat, t: nat, starP: int, starT: nat)
  {
    && p <= |pattern| && t <= |text| && starT <= t
    && Matches(pattern[..p], text[..t])
    && (starP >= 0 ==> starP < p && pattern[starP] == '*' && Matches(pattern[..starP + 1], text[..starT]))
    && (starP < 0 ==> starT == 0)
  }

  /** For a text without a literal star, the scan also never loses a match:
      the whole question is the question about what is left. */
  ghost predicate NothingLost(pattern: string, text: string, p: nat, t: nat, starP: int, starT: nat)
  {
    && p <= |pattern| && starT <= t <= |text| && starP < p
    && (starP < 0 ==> (Matches(pattern, text) <==> Matches(pattern[p..], text[t..])))
    && (starP >= 0 ==>
          && pattern[starP] == '*'
          && '*' !in pattern[starP + 1..p]
          && p - starP - 1 == t - starT
          && Matches(pattern[starP + 1..p], text[starT..t])
          && (Matches(pattern, text) <==> Matches(pattern[starP..], text[starT..])))
  }

  lemma CharacterConsumed(pattern: string, text: string, p: nat, t: nat, from: nat, fromT: nat)
    requires from <= p < |pattern| && fromT <= t < |text|
    requires pattern[p] == '?' || pattern[p] == text[t]
    requires Matches(pattern[from..p], text[fromT..t])
    ensures Matches(pattern[from..p + 1], text[fromT..t + 1])
  {
    var c, d := [pattern[p]], [text[t]];
    assert c[1..] == [] && d[1..] == [];
    assert Matches(c, d);
    MatchesConcat(pattern[from..p], text[fromT..t], c, d);
    assert pattern[from..p] + c == pattern[from..p + 1];
    assert text[fromT..t] + d == text[fromT..t + 1];
  }

  lemma StarConsumed(pattern: string, text: string, p: nat, t: nat, n: nat)
    requires p < |pattern| && pattern[p] == '*' && t <= n <= |text|
    requires Matches(pattern[..p], text[..t])
    ensures Matches(pattern[..p + 1], text[..n])
  {
    assert pattern[p..p + 1][1..] == [] && text[t..n][n - t..] == [];
    assert Matches(pattern[p..p + 1], text[t..n]);
    MatchesConcat(pattern[..p], text[..t], pattern[p..p + 1], text[t..n]);
    assert pattern[..p] + pattern[p..p + 1] == pattern[..p + 1];
    assert text[..t] + text[t..n] == text[..n];
  }

  /** The remembered star takes one more character: its run was `..starT`. */
  lemma StarTakesOneMore(pattern: string, text: string, starP: nat, starT: nat)
    requires starP < |pattern| && pattern[starP] == '*' && starT < |text|
    requires Matches(pattern[..starP + 1], text[..starT])
    ensures Matches(pattern[..starP + 1], text[..starT + 1])
  {
    var stars := pattern[..starP + 1];
    var c := [text[starT]];
    StarEndAbsorbs(stars, text[..starT], c);
    assert text[..starT] + c == text[..starT + 1];
  }

  lemma {:induction false} StarEndAbsorbs(pattern: string, text: string, more: string)
    requires pattern != [] && pattern[|pattern| - 1] == '*'
    requires Matches(pattern, text)
    ensures Matches(pattern, text + more)
  {
    var whole := text + more;
    if |pattern| == 1 {
      assert whole[|whole|..] == [] && pattern[1..] == [];
      assert Matches(pattern[1..], whole[|whole|..]);
    } else if pattern[0] == '*' {
      var k :| 0 <= k <= |text| && Matches(pattern[1..], text[k..]);
      StarEndAbsorbs(pattern[1..], text[k..], more);
      assert whole[k..] == text[k..] + more;
    } else {
      StarEndAbsorbs(pattern[1..], text[1..], more);
      assert whole[1..] == text[1..] + more;
    }
  }

  /** The scan's `NothingLost` is kept when it moves past one character. */
  lemma StepKeepsMatches(pattern: string, text: string, p: nat, t: nat, starP: int, starT: nat)
    requires NothingLost(pattern, text, p, t, starP, starT)
    requires p < |pattern| && t < |text| && pattern[p] != '*'
    requires pattern[p] == '?' || pattern[p] == text[t]
    ensures NothingLost(pattern, text, p + 1, t + 1, starP, starT)
  {
    if starP < 0 {
      assert pattern[p..][1..] == pattern[p + 1..] && text[t..][1..] == text[t + 1..];
    } else {
      CharacterConsumed(pattern, text, p, t, starP + 1, starT);
      assert pattern[starP + 1..p + 1] == pattern[starP + 1..p] + [pattern[p]];
    }
  }

  /** ... when it meets a new star, which replaces the remembered one ... */
  lemma NewStarKeepsMatches(pattern: string, text: string, p: nat, t: nat, starP: int, starT: nat)
    requires NothingLost(pattern, text, p, t, starP, starT)
    requires p < |pattern| && pattern[p] == '*'
    ensures NothingLost(pattern, text, p + 1, t, p, t)
  {
    assert pattern[p + 1..p + 1] == [] && text[t..t] == [];
    if starP >= 0 {
      var block := pattern[starP + 1..p];
      assert pattern[starP..] == "*" + block + pattern[p..];
      assert text[starT..][..|block|] == text[starT..t];
      assert text[starT..][|block|..] == text[t..];
      LaterStarSuffices(block, pattern[p..], text[starT..], |block|);
    }
  }

  /** ... and when it falls back, letting the remembered star take one more. */
  lemma FallbackKeepsMatches(pattern: string, text: string, p: nat, t: nat, starP: nat, starT: nat)
    requires NothingLost(pattern, text, p, t, starP, starT)
    requires t < |text|
    requires p < |pattern| ==> pattern[p] != '*' && pattern[p] != '?' && pattern[p] != text[t]
    ensures NothingLost(pattern, text, starP + 1, starT + 1, starP, starT + 1)
  {
    var block := pattern[starP + 1..p];
    assert pattern[starP..][1..] == block + pattern[p..];
    BlockSplits(block, pattern[p..], text[starT..]);
    assert text[starT..][|block|..] == text[t..];
    StarUnfolds(pattern[starP..], text[starT..]);
    assert text[starT..][1..] == text[starT + 1..];
    assert pattern[starP + 1..starP + 1] == [] && text[starT + 1..starT + 1] == [];
  }

  /** At the end of the text, only stars may be left of the pattern. */
  lemma LeftoverDecides(pattern: string, text: string, p: nat, starP: int, starT: nat)
    requires NothingLost(pattern, text, p, |text|, starP, starT)
    ensures Matches(pattern, text) <==> AllStars(pattern[p..])
  {
    hide Matches, MinLength;
    var t := |text|;
    assert text[t..] == [];
    if AllStars(pattern[p..]) {
      StarsMatchEmpty(pattern[p..]);
      if starP >= 0 {
        var block := pattern[starP + 1..p];
        assert pattern[starP..][1..] == block + pattern[p..];
        assert text[starT..][..|block|] == text[starT..t] && text[starT..][|block|..] == [];
        BlockSplits(block, pattern[p..], text[starT..]);
        StarMatchesNothing(pattern[starP..], text[starT..]);
      }
    } else {
      NonStarNeedsCharacter(pattern[p..]);
      if starP < 0 {
        if Matches(pattern[p..], text[t..]) { MatchIsLongEnough(pattern[p..], text[t..]); }
      } else if Matches(pattern[starP..], text[starT..]) {
        MatchIsLongEnough(pattern[starP..], text[starT..]);
        var block := pattern[starP + 1..p];
        assert pattern[starP..] == ("*" + block) + pattern[p..];
        StarFreeMinLength(block);
        MinLengthConcat("*", block);
        MinLengthConcat("*" + block, pattern[p..]);
      }
    }
  }

  lemma {:induction false} StarFreeMinLength(block: string)
    requires '*' !in block
    ensures MinLength(block) == |block|
  {
    if block != [] { StarFreeMinLength(block[1..]); }
  }

  /** The scan as a function of its four cursors, so that other statements can
      speak of what the matcher answers. */
  ghost predicate Scan(pattern: string, text: string, p: nat, t: nat, starP: int, starT: nat)
    requires p <= |pattern| && starT <= t <= |text| && starP < p
    decreases |text| - starT, |pattern| - p
  {
    if t == |text| then AllStars(pattern[p..])
    else if p < |pattern| && (pattern[p] == '?' || pattern[p] == text[t]) then
      Scan(pattern, text, p + 1, t + 1, starP, starT)
    else if p < |pattern| && pattern[p] == '*' then Scan(pattern, text, p + 1, t, p, t)
    else if starP >= 0 then Scan(pattern, text, starP + 1, starT + 1, starP, starT + 1)
    else false
  }

  ghost predicate GlobDecides(pattern: string, text: string)
  {
    Scan(pattern, text, 0, 0, -1, 0)
  }

  /** Everything the scan keeps. */
  ghost predicate ScanState(pattern: string, text: string, p: nat, t: nat, starP: int, starT: nat)
  {
    && Consumed(pattern, text, p, t, starP, starT)
    && starP < p
    && ('*' !in text ==> NothingLost(pattern, text, p, t, starP, starT))
  }

  lemma StartState(pattern: string, text: string)
    ensures ScanState(pattern, text, 0, 0, -1, 0)
  {
    assert pattern[..0] == [] && text[..0] == [];
    assert pattern[0..] == pattern && text[0..] == text;
  }

  lemma CharacterStep(pattern: string, text: string, p: nat, t: nat, starP: int, starT: nat)
    requires ScanState(pattern, text, p, t, starP, starT)
    requires p < |pattern| && t < |text| && (pattern[p] == '?' || pattern[p] == text[t])
    ensures ScanState(pattern, text, p + 1, t + 1, starP, starT)
  {
    assert pattern[0..p] == pattern[..p] && text[0..t] == text[..t];
    CharacterConsumed(pattern, text, p, t, 0, 0);
    assert pattern[0..p + 1] == pattern[..p + 1] && text[0..t + 1] == text[..t + 1];
    if '*' !in text { StepKeepsMatches(pattern, text, p, t, starP, starT); }
  }

  lemma StarStep(pattern: string, text: string, p: nat, t: nat, starP: int, starT: nat)
    requires ScanState(pattern, text, p, t, starP, starT)
    requires p < |pattern| && pattern[p] == '*'
    ensures ScanState(pattern, text, p + 1, t, p, t)
  {
    StarConsumed(pattern, text, p, t, t);
    if '*' !in text { NewStarKeepsMatches(pattern, text, p, t, starP, starT); }
  }

  lemma FallbackStep(pattern: string, text: string, p: nat, t: nat, starP: nat, starT: nat)
    requires ScanState(pattern, text, p, t, starP, starT)
    requires t < |text|
    requires p < |pattern| ==> pattern[p] != '*' && pattern[p] != '?' && pattern[p] != text[t]
    ensures ScanState(pattern, text, starP + 1, starT + 1, starP, starT + 1)
  {
    StarTakesOneMore(pattern, text, starP, starT);
    if '*' !in text { FallbackKeepsMatches(pattern, text, p, t, starP, starT); }
  }

  lemma RejectStep(pattern: string, text: string, p: nat, t: nat, starP: int, starT: nat)
    requires ScanState(pattern, text, p, t, starP, starT)
    requires t < |text| && starP < 0
    requires p < |pattern| ==> pattern[p] != '*' && pattern[p] != '?' && pattern[p] != text[t]
    ensures '*' !in text ==> !Matches(pattern, text)
  {
    assert text[t..][0] == text[t];
    assert pattern[p..] != [] ==> pattern[p..][0] == pattern[p];
  }

  lemma FinalStep(pattern: string, text: string, p: nat, starP: int, starT: nat)
    requires ScanState(pattern, text, p, |text|, starP, starT)
    ensures AllStars(pattern[p..]) ==> Matches(pattern, text)
    ensures '*' !in text ==> (AllStars(pattern[p..]) <==> Matches(pattern, text))
  {
    assert text[..|text|] == text;
    if AllStars(pattern[p..]) {
      StarsMatchEmpty(pattern[p..]);
      MatchesConcat(pattern[..p], text, pattern[p..], []);
      assert pattern[..p] + pattern[p..] == pattern && text + [] == text;
    }
    if '*' !in text { LeftoverDecides(pattern, text, p, starP, starT); }
  }

  /** The matcher on the folded pattern and file name. It never accepts a name
      the pattern does not describe, and it rejects wrongly only a name that
      holds a literal star. */
  method GlobMatches(pattern: string, text: string) returns (matched: bool)
    ensures matched == GlobDecides(pattern, text)
    ensures matched ==> Matches(pattern, text)
    ensures '*' !in text ==> (matched <==> Matches(pattern, text))
  {
    hide Matches, NothingLost, AllStars;
    StartState(pattern, text);
    var p, t := 0, 0;
    var starP: int, starT := -1, 0;
    while t < |text|
      invariant ScanState(pattern, text, p, t, starP, starT)
      invariant GlobDecides(pattern, text) == Scan(pattern, text, p, t, starP, starT)
      decreases |text| - starT, |pattern| - p
    {
      if p < |pattern| && (pattern[p] == '?' || pattern[p] == text[t]) {
        CharacterStep(pattern, text, p, t, starP, starT);
        p, t := p + 1, t + 1;
      } else if p < |pattern| && pattern[p] == '*' {
        StarStep(pattern, text, p, t, starP, starT);
        starP, starT := p, t;
        p := p + 1;
      } else if starP >= 0 {
        FallbackStep(pattern, text, p, t, starP, starT);
        p := starP + 1;
        starT := starT + 1;
        t := starT;
      } else {
        RejectStep(pattern, text, p, t, starP, starT);
        return false;
      }
    }
    FinalStep(pattern, text, p, starP, starT);
    ghost var start := p;
    while p < |pattern| && pattern[p] == '*'
      invariant start <= p <= |pattern|
      invariant AllStars(pattern[start..]) == AllStars(pattern[p..])
    {
      StarsFrom(pattern, p);
      p := p + 1;
    }
    StarsFrom(pattern, p);
    matched := p == |pattern|;
  }

  lemma StarsFrom(pattern: string, p: nat)
    requires p <= |pattern|
    ensures p == |pattern| ==> AllStars(pattern[p..])
    ensures p < |pattern| && pattern[p] != '*' ==> !AllStars(pattern[p..])
    ensures p < |pattern| && pattern[p] == '*' ==> AllStars(pattern[p..]) == AllStars(pattern[p + 1..])
  {
    if p < |pattern| {
      assert pattern[p..][0] == pattern[p];
      assert pattern[p..][1..] == pattern[p + 1..];
      assert pattern[p..] == [pattern[p]] + pattern[p + 1..];
    }
  }

  /** What the matcher answers is what patterns mean, for every pattern,
      exactly when the name holds no literal star: the scan tries a literal
      match before it looks at a star, so a star in the name uses up a star
      of the pattern as an ordinary character. */
  lemma DecidesEveryPatternIff(text: string)
    ensures (forall pattern :: GlobDecides(pattern, text) == Matches(pattern, text)) <==> '*' !in text
  {
    hide Matches, Scan;
    if '*' in text {
      var pattern := MisjudgedPattern(text);
      assert GlobDecides(pattern, text) != Matches(pattern, text);
    } else {
      forall pattern ensures GlobDecides(pattern, text) == Matches(pattern, text) {
        StartState(pattern, text);
        ScanIsCorrect(pattern, text, 0, 0, -1, 0);
      }
    }
  }

  lemma {:induction false} ScanIsCorrect(pattern: string, text: string, p: nat, t: nat, starP: int, starT: nat)
    requires '*' !in text
    requires ScanState(pattern, text, p, t, starP, starT)
    ensures Scan(pattern, text, p, t, starP, starT) == Matches(pattern, text)
    decreases |text| - starT, |pattern| - p
  {
    if t == |text| {
      FinalStep(pattern, text, p, starP, starT);
    } else if p < |pattern| && (pattern[p] == '?' || pattern[p] == text[t]) {
      CharacterStep(pattern, text, p, t, starP, starT);
      ScanIsCorrect(pattern, text, p + 1, t + 1, starP, starT);
    } else if p < |pattern| && pattern[p] == '*' {
      StarStep(pattern, text, p, t, starP, starT);
      ScanIsCorrect(pattern, text, p + 1, t, p, t);
    } else if starP >= 0 {
      FallbackStep(pattern, text, p, t, starP, starT);
      ScanIsCorrect(pattern, text, starP + 1, starT + 1, starP, starT + 1);
    } else {
      RejectStep(pattern, text, p, t, starP, starT);
    }
  }

  /** For a name with a literal star: everything before its first star, then
      a star, is described by a pattern the scan gets wrong. */
  lemma MisjudgedPattern(text: string) returns (pattern: string)
    requires '*' in text
    ensures Matches(pattern, text) && !GlobDecides(pattern, text)
  {
    hide Matches, Scan;
    var i := FirstStar(text);
    var tail := if i + 1 == |text| then "?" else "";
    var before := text[..i];
    pattern := before + ("*" + tail);
    Verbatim(before);
    StarTailMatches(tail, text[i..]);
    MatchesConcat(before, before, "*" + tail, text[i..]);
    assert before + text[i..] == text;
    assert pattern[..i + 1] == before + ['*'] == text[..i + 1];
    LiteralScan(pattern, text, 0, i + 1);
    assert pattern[i + 1..] == tail;
    StuckScan(pattern, text, i + 1, tail);
  }

  lemma StarTailMatches(tail: string, rest: string)
    requires rest != "" && tail == if |rest| == 1 then "?" else ""
    ensures Matches("*" + tail, rest)
  {
    assert ("*" + tail)[1..] == tail;
    if tail == "" {
      assert Matches(tail, rest[|rest|..]);
    } else {
      assert tail[1..] == [] && rest[1..] == [] && rest[0..] == rest;
      assert Matches(tail, rest[0..]);
    }
  }

  lemma StuckScan(pattern: string, text: string, p: nat, tail: string)
    requires p <= |pattern| && p <= |text| && pattern[p..] == tail
    requires tail == if p == |text| then "?" else ""
    ensures !Scan(pattern, text, p, p, -1, 0)
  {
    if p == |text| { assert pattern[p..][0] == '?'; }
  }

  lemma {:induction false} FirstStar(text: string) returns (i: nat)
    requires '*' in text
    ensures i < |text| && text[i] == '*' && '*' !in text[..i]
  {
    if text[0] == '*' {
      i := 0;
    } else {
      i := FirstStar(text[1..]);
      i := i + 1;
      assert text[..i] == [text[0]] + text[1..][..i - 1];
    }
  }

  lemma {:induction false} Verbatim(text: string)
    requires '*' !in text
    ensures Matches(text, text)
  {
    if text != [] { Verbatim(text[1..]); }
  }

  lemma {:induction false} LiteralScan(pattern: string, text: string, p: nat, n: nat)
    requires p <= n <= |pattern| && n <= |text| && pattern[..n] == text[..n]
    ensures Scan(pattern, text, p, p, -1, 0) == Scan(pattern, text, n, n, -1, 0)
    decreases n - p
  {
    if p < n {
      assert pattern[p] == pattern[..n][p] == text[..n][p] == text[p];
      LiteralScan(pattern, text, p + 1, n);
    }
  }
}
