/** The bounded line reader of the notification stream: one answer per line,
    with bounded memory, for exactly the streams whose lines it can outrun. */
module NotifyReader {
  import opened Wrappers
  import opened ByteStrings

  const MAX_NOTIFY_LINE_BYTES: nat := 64 * 1024

  const NEWLINE: byte := 10

  datatype Line = Line(bytes: Bytes) | Oversized

  /** The length of the first line of a stream, its newline included. */
  function FirstLine(s: Bytes): (n: nat)
    ensures n <= |s|
    ensures s != [] ==> n >= 1
  {
    if s == [] then 0 else if s[0] == NEWLINE then 1 else 1 + FirstLine(s[1..])
  }

  /** The first line ends at the first newline, or where the stream ends. */
  lemma {:induction false} FirstLineEnds(s: Bytes)
    ensures forall i | 0 <= i < FirstLine(s) - 1 :: s[i] != NEWLINE
    ensures FirstLine(s) < |s| ==> s[FirstLine(s) - 1] == NEWLINE
  {
    if s != [] && s[0] != NEWLINE {
      FirstLineEnds(s[1..]);
      assert forall i | 1 <= i < |s| :: s[i] == s[1..][i - 1];
    }
  }

  predicate Terminated(line: Bytes)
  {
    line != [] && line[|line| - 1] == NEWLINE
  }

  /** The number of bytes of a line before its newline. */
  function ContentLength(line: Bytes): nat
  {
    if Terminated(line) then |line| - 1 else |line|
  }

  function Min(a: nat, b: nat): nat
  {
    if a < b then a else b
  }

  /** One call of the reader: its answer and how much of the stream it used. */
  function ReadOne(s: Bytes): (r: (Line, nat))
    requires s != []
    ensures 1 <= r.1 <= |s|
  {
    var read := Min(MAX_NOTIFY_LINE_BYTES + 1, FirstLine(s));
    if read > MAX_NOTIFY_LINE_BYTES && s[read - 1] != NEWLINE then
      (Oversized, read + Min(MAX_NOTIFY_LINE_BYTES * 4, FirstLine(s[read..])))
    else (Line(s[..read]), read)
  }

  function ReadAll(s: Bytes): seq<Line>
    decreases |s|
  {
    if s == [] then [] else
    var (line, used) := ReadOne(s);
    [line] + ReadAll(s[used..])
  }

  class Stream {
    var rest: Bytes

    /** `take(limit).read_until(b'\n')`: the bytes up to a newline, at most `limit`. */
    method ReadUntilNewline(limit: nat) returns (bytes: Bytes)
      modifies this
      ensures old(rest) == bytes + rest
      ensures |bytes| == Min(limit, FirstLine(old(rest)))
    {
      hide FirstLine;
      bytes := [];
      ghost var before := rest;
      FirstLineEnds(before);
      while |bytes| < limit && rest != [] && (bytes == [] || bytes[|bytes| - 1] != NEWLINE)
        invariant before == bytes + rest
        invariant |bytes| <= limit && |bytes| <= FirstLine(before)
        invariant bytes != [] && bytes[|bytes| - 1] == NEWLINE ==> |bytes| == FirstLine(before)
        decreases |rest|
      {
        assert rest[0] == before[|bytes|];
        assert |bytes| > 0 ==> bytes[|bytes| - 1] == before[|bytes| - 1];
        LineGoesOn(before, |bytes|);
        bytes := bytes + [rest[0]];
        rest := rest[1..];
        if bytes[|bytes| - 1] == NEWLINE { LineEndsAt(before, |bytes|); }
      }
    }

    /** Read one bounded line; an oversized one is drained, as far as the bound allows. */
    method ReadLineBounded() returns (line: Option<Line>)
      modifies this
      ensures old(rest) == [] ==> line == None && rest == []
      ensures old(rest) != [] ==>
                line == Some(ReadOne(old(rest)).0) && rest == old(rest)[ReadOne(old(rest)).1..]
    {
      ghost var before := rest;
      var bytes := ReadUntilNewline(MAX_NOTIFY_LINE_BYTES + 1);
      if bytes == [] {
        return None;
      }
      assert bytes == before[..|bytes|] && rest == before[|bytes|..];
      if bytes[|bytes| - 1] != NEWLINE && |bytes| > MAX_NOTIFY_LINE_BYTES {
        var drained := ReadUntilNewline(MAX_NOTIFY_LINE_BYTES * 4);
        return Some(Oversized);
      }
      return Some(Line(bytes));
    }
  }

  lemma LineGoesOn(s: Bytes, n: nat)
    requires n < |s| && n <= FirstLine(s) && (n > 0 ==> s[n - 1] != NEWLINE)
    ensures n < FirstLine(s)
  {
    hide FirstLine;
    FirstLineEnds(s);
  }

  lemma LineEndsAt(s: Bytes, n: nat)
    requires 1 <= n <= FirstLine(s) && s[n - 1] == NEWLINE
    ensures n == FirstLine(s)
  {
    hide FirstLine;
    FirstLineEnds(s);
  }

  // ---------- one answer per line ----------

  /** The lines of a stream, each with its newline. */
  function StreamLines(s: Bytes): (lines: seq<Bytes>)
    decreases |s|
  {
    if s == [] then [] else [s[..FirstLine(s)]] + StreamLines(s[FirstLine(s)..])
  }

  /** What a line deserves: itself when it is within the cap. */
  function Verdict(line: Bytes): Line
  {
    if ContentLength(line) <= MAX_NOTIFY_LINE_BYTES then Line(line) else Oversized
  }

  function Verdicts(lines: seq<Bytes>): seq<Line>
  {
    if lines == [] then [] else [Verdict(lines[0])] + Verdicts(lines[1..])
  }

  /** The longest line one call can get past: the capped read, one byte to tell
      it is too long, and four caps of draining. */
  predicate Fits(line: Bytes)
  {
    |line| <= 5 * MAX_NOTIFY_LINE_BYTES + 1
  }

  predicate AllFit(lines: seq<Bytes>)
  {
    forall i | 0 <= i < |lines| :: Fits(lines[i])
  }

  lemma {:induction false} FirstLineFrom(s: Bytes, k: nat)
    requires k < FirstLine(s)
    ensures FirstLine(s[k..]) == FirstLine(s) - k
  {
    if k > 0 {
      assert s[1..][k - 1..] == s[k..];
      FirstLineFrom(s[1..], k - 1);
    } else {
      assert s[0..] == s;
    }
  }

  /** Where a call stops: behind the first line, or inside it if it is too long. */
  lemma ReadOneStops(s: Bytes)
    requires s != []
    ensures ReadOne(s).1 == Min(5 * MAX_NOTIFY_LINE_BYTES + 1, FirstLine(s))
  {
    hide FirstLine;
    FirstLineEnds(s);
    var n := FirstLine(s);
    var read := Min(MAX_NOTIFY_LINE_BYTES + 1, n);
    if read < n {
      FirstLineFrom(s, read);
    } else if read == |s| {
      assert s[read..] == [];
      NothingIsNoLine();
    }
  }

  /** What a call answers: the first line's verdict. */
  lemma ReadOneAnswers(s: Bytes)
    requires s != []
    ensures ReadOne(s).0 == Verdict(s[..FirstLine(s)])
  {
    hide FirstLine;
    FirstLineEnds(s);
    var n := FirstLine(s);
    var line := s[..n];
    assert line[n - 1] == s[n - 1];
    if n > MAX_NOTIFY_LINE_BYTES + 1 {
      assert s[MAX_NOTIFY_LINE_BYTES] != NEWLINE;
      assert ContentLength(line) > MAX_NOTIFY_LINE_BYTES;
    } else {
      assert Min(MAX_NOTIFY_LINE_BYTES + 1, n) == n;
    }
  }

  lemma NothingIsNoLine()
    ensures FirstLine([]) == 0
  {
  }

  /** What is left of a line is one line. */
  lemma LinesInside(s: Bytes, k: nat)
    requires k < FirstLine(s)
    ensures |StreamLines(s[k..])| == |StreamLines(s)|
  {
    hide FirstLine;
    FirstLineFrom(s, k);
    assert s[k..][FirstLine(s) - k..] == s[FirstLine(s)..];
  }

  lemma {:induction false} AnswersPerLine(s: Bytes)
    ensures |ReadAll(s)| >= |StreamLines(s)|
    ensures if AllFit(StreamLines(s)) then ReadAll(s) == Verdicts(StreamLines(s))
            else |ReadAll(s)| > |StreamLines(s)|
    decreases |s|
  {
    hide FirstLine, ReadOne, Verdict;
    if s != [] {
      var n := FirstLine(s);
      var lines, tail := StreamLines(s), StreamLines(s[n..]);
      assert lines == [s[..n]] + tail;
      ReadOneStops(s);
      ReadOneAnswers(s);
      var used := ReadOne(s).1;
      AnswersPerLine(s[used..]);
      if Fits(s[..n]) {
        assert AllFit(lines) <==> AllFit(tail) by {
          assert forall i | 0 <= i < |tail| :: tail[i] == lines[i + 1];
        }
        assert lines[1..] == tail;
      } else {
        assert !Fits(lines[0]);
        LinesInside(s, used);
      }
    }
  }

  lemma {:induction false} VerdictPerLine(lines: seq<Bytes>)
    ensures |Verdicts(lines)| == |lines|
  {
    if lines != [] { VerdictPerLine(lines[1..]); }
  }

  /** Repeated calls answer once per line, in order, for exactly the streams
      whose every line fits. */
  lemma ResynchronisesIff(s: Bytes)
    ensures ReadAll(s) == Verdicts(StreamLines(s)) <==> AllFit(StreamLines(s))
  {
    hide ReadAll, StreamLines, Verdicts, AllFit;
    AnswersPerLine(s);
    VerdictPerLine(StreamLines(s));
  }

  /** The memory one call holds: the line buffer and the drain buffer. */
  lemma MemoryIsBounded(s: Bytes)
    requires s != []
    ensures ReadOne(s).1 <= 5 * MAX_NOTIFY_LINE_BYTES + 1
    ensures ReadOne(s).0.Line? ==> |ReadOne(s).0.bytes| <= MAX_NOTIFY_LINE_BYTES + 1
  {
  }
}
