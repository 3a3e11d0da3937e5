/** `file://` URIs: the encoder, and the two decoders that read them back. */
module FileUri {
  import opened Wrappers
  import opened ByteStrings

  const SLASH: byte := '/' as int as byte
  const PERCENT: byte := '%' as int as byte

  /** "file://" */
  const SCHEME: Bytes := [0x66, 0x69, 0x6C, 0x65, 0x3A, 0x2F, 0x2F]

  /** "localhost" */
  const LOCALHOST: Bytes := [0x6C, 0x6F, 0x63, 0x61, 0x6C, 0x68, 0x6F, 0x73, 0x74]

  // ---------- the encoder ----------

  predicate IsUnescaped(b: byte)
  {
    || 0x41 <= b <= 0x5A || 0x61 <= b <= 0x7A || 0x30 <= b <= 0x39
    || b == SLASH || b == 0x2D || b == 0x2E || b == 0x5F || b == 0x7E
  }

  function HexDigit(value: int): byte
    requires 0 <= value < 16
  {
    if value < 10 then (0x30 + value) as byte else (0x41 + value - 10) as byte
  }

  function Encoded(b: byte): Bytes
  {
    if IsUnescaped(b) then [b]
    else [PERCENT, HexDigit(b as int / 16), HexDigit(b as int % 16)]
  }

  function EncodedAll(path: Bytes): Bytes
  {
    if path == [] then [] else Encoded(path[0]) + EncodedAll(path[1..])
  }

  lemma {:induction false} EncodedConcat(a: Bytes, b: Bytes)
    ensures EncodedAll(a + b) == EncodedAll(a) + EncodedAll(b)
  {
    if a == [] {
      assert a + b == b;
    } else {
      assert (a + b)[1..] == a[1..] + b;
      EncodedConcat(a[1..], b);
    }
  }

  lemma NothingEncoded()
    ensures EncodedAll([]) == []
  {
  }

  lemma EncodedOne(b: byte)
    ensures EncodedAll([b]) == Encoded(b)
  {
    hide Encoded;
    assert [b][1..] == [] && Encoded(b) + [] == Encoded(b);
  }

  method FileUriOf(path: Bytes) returns (uri: Bytes)
    ensures uri == SCHEME + EncodedAll(path)
  {
    hide IsUnescaped, HexDigit, EncodedAll;
    NothingEncoded();
    uri := SCHEME;
    for i := 0 to |path|
      invariant uri == SCHEME + EncodedAll(path[..i])
    {
      assert path[..i + 1] == path[..i] + [path[i]];
      EncodedConcat(path[..i], [path[i]]);
      EncodedOne(path[i]);
      if IsUnescaped(path[i]) {
        uri := uri + [path[i]];
      } else {
        uri := uri + [PERCENT, HexDigit(path[i] as int / 16), HexDigit(path[i] as int % 16)];
      }
    }
    assert path[..|path|] == path;
  }

  // ---------- the strict decoder ----------

  function HexValue(b: byte): (value: Option<int>)
    ensures value.Some? ==> 0 <= value.value < 16
  {
    if 0x30 <= b <= 0x39 then Some(b as int - 0x30)
    else if 0x61 <= b <= 0x66 then Some(b as int - 0x61 + 10)
    else if 0x41 <= b <= 0x46 then Some(b as int - 0x41 + 10)
    else None
  }

  function EscapeValue(hi: byte, lo: byte): byte
    requires HexValue(hi).Some? && HexValue(lo).Some?
  {
    (HexValue(hi).value * 16 + HexValue(lo).value) as byte
  }

  function Before(bytes: Bytes, rest: Option<Bytes>): Option<Bytes>
  {
    match rest case None => None case Some(more) => Some(bytes + more)
  }

  lemma BeforeTwice(a: Bytes, b: Bytes, rest: Option<Bytes>)
    ensures Before(a, Before(b, rest)) == Before(a + b, rest)
    ensures Before([], rest) == rest
  {
    if rest.Some? { assert a + (b + rest.value) == a + b + rest.value && [] + rest.value == rest.value; }
  }

  /** Percent escapes undone byte for byte; a malformed escape fails. */
  function Unescaped(text: Bytes): Option<Bytes>
  {
    if text == [] then Some([])
    else if text[0] != PERCENT then Before([text[0]], Unescaped(text[1..]))
    else if |text| < 3 || HexValue(text[1]).None? || HexValue(text[2]).None? then None
    else Before([EscapeValue(text[1], text[2])], Unescaped(text[3..]))
  }

  /** What follows the scheme and an optional local authority. */
  function LocalPart(uri: Bytes): Option<Bytes>
  {
    if SCHEME + LOCALHOST + [SLASH] <= uri then Some(uri[|SCHEME| + |LOCALHOST|..])
    else if SCHEME <= uri then Some(uri[|SCHEME|..])
    else None
  }

  function PathOf(uri: Bytes): Option<Bytes>
  {
    match LocalPart(uri)
    case None => None
    case Some(rest) =>
      if rest == [] || rest[0] != SLASH then None
      else match Unescaped(rest)
        case None => None
        case Some(path) => if 0 in path then None else Some(path)
  }

  /** `Unescaped` at position `i` of a text, given what follows. */
  lemma UnescapedStep(text: Bytes, i: nat)
    requires i < |text|
    ensures text[i] != PERCENT ==> Unescaped(text[i..]) == Before([text[i]], Unescaped(text[i + 1..]))
    ensures text[i] == PERCENT ==>
              Unescaped(text[i..])
              == if |text| < i + 3 || HexValue(text[i + 1]).None? || HexValue(text[i + 2]).None? then None
                 else Before([EscapeValue(text[i + 1], text[i + 2])], Unescaped(text[i + 3..]))
  {
    hide HexValue;
    var tail := text[i..];
    assert tail[0] == text[i] && tail[1..] == text[i + 1..];
    if |text| >= i + 3 {
      assert tail[1] == text[i + 1] && tail[2] == text[i + 2] && tail[3..] == text[i + 3..];
    }
  }

  lemma NothingUnescaped()
    ensures Unescaped([]) == Some([])
  {
  }

  method PathFromFileUri(uri: Bytes) returns (path: Option<Bytes>)
    ensures path == PathOf(uri)
  {
    hide Unescaped, HexValue, LocalPart;
    var local := LocalPart(uri);
    if local.None? || local.value == [] || local.value[0] != SLASH {
      return None;
    }
    var rest := local.value;
    var bytes: Bytes := [];
    var i := 0;
    assert rest[0..] == rest;
    BeforeTwice([], [], Unescaped(rest));
    while i < |rest|
      invariant i <= |rest|
      invariant Unescaped(rest) == Before(bytes, Unescaped(rest[i..]))
    {
      UnescapedStep(rest, i);
      if rest[i] == PERCENT {
        if |rest| < i + 3 || HexValue(rest[i + 1]).None? || HexValue(rest[i + 2]).None? {
          return None;
        }
        var b := EscapeValue(rest[i + 1], rest[i + 2]);
        BeforeTwice(bytes, [b], Unescaped(rest[i + 3..]));
        bytes := bytes + [b];
        i := i + 3;
      } else {
        BeforeTwice(bytes, [rest[i]], Unescaped(rest[i + 1..]));
        bytes := bytes + [rest[i]];
        i := i + 1;
      }
    }
    NothingUnescaped();
    assert rest[i..] == [] && bytes + [] == bytes;
    return if 0 in bytes then None else Some(bytes);
  }

  // ---------- the lenient decoder behind the path field codes ----------

  /** UTF-8 as RFC 3629 defines it. */
  predicate ValidUtf8(s: Bytes)
  {
    s == [] ||
    var n := SequenceLength(s[0]);
    1 <= n <= |s| && WellFormed(s[..n]) && ValidUtf8(s[n..])
  }

  function SequenceLength(lead: byte): nat
  {
    if lead < 0x80 then 1
    else if 0xC2 <= lead <= 0xDF then 2
    else if 0xE0 <= lead <= 0xEF then 3
    else if 0xF0 <= lead <= 0xF4 then 4
    else 0
  }

  predicate IsContinuation(b: byte)
  {
    0x80 <= b <= 0xBF
  }

  /** The limits on a sequence's second byte keep out overlong forms,
      surrogates and values past the last code point. */
  predicate WellFormed(s: Bytes)
    requires s != []
  {
    && (forall i | 1 <= i < |s| :: IsContinuation(s[i]))
    && (|s| > 1 ==>
          && (s[0] == 0xE0 ==> s[1] >= 0xA0) && (s[0] == 0xED ==> s[1] <= 0x9F)
          && (s[0] == 0xF0 ==> s[1] >= 0x90) && (s[0] == 0xF4 ==> s[1] <= 0x8F))
  }

  /** The value of a two-character slice read as a base-16 `u8`: two digits, or
      a plus sign and one digit. */
  function Radix16(a: byte, b: byte): Option<byte>
  {
    if HexValue(b).None? then None
    else if a == 0x2B then Some(HexValue(b).value as byte)
    else if HexValue(a).None? then None
    else Some(EscapeValue(a, b))
  }

  datatype Decoded = Text(bytes: Bytes) | NotUtf8 | Panics

  /** Slicing a string inside a character aborts the program. */
  predicate SplitsCharacter(text: Bytes, i: nat)
  {
    i < |text| && IsContinuation(text[i])
  }

  /** Percent escapes undone where they are well formed; `None` where reading
      one would slice through a character. */
  function Lenient(text: Bytes): Option<Bytes>
  {
    if text == [] then Some([])
    else if text[0] == PERCENT && |text| >= 3 && (SplitsCharacter(text, 1) || SplitsCharacter(text, 3)) then None
    else if text[0] == PERCENT && |text| >= 3 && Radix16(text[1], text[2]).Some? then
      Before([Radix16(text[1], text[2]).value], Lenient(text[3..]))
    else Before([text[0]], Lenient(text[1..]))
  }

  function DecodedText(text: Bytes): Decoded
  {
    match Lenient(text)
    case None => Panics
    case Some(bytes) => if ValidUtf8(bytes) then Text(bytes) else NotUtf8
  }

  /** Where the scan goes from a position it can pass. */
  function NextAt(text: Bytes, i: nat): nat
    requires i < |text|
  {
    if text[i] == PERCENT && i + 3 <= |text| && Radix16(text[i + 1], text[i + 2]).Some? then i + 3 else i + 1
  }

  /** The scan that stands at `i` comes to a percent sign whose escape would end
      inside a character: the byte three places on continues one. */
  predicate MeetsSplit(text: Bytes, i: nat)
    decreases |text| - i
  {
    i < |text| &&
    ((text[i] == PERCENT && i + 3 < |text| && IsContinuation(text[i + 3])) || MeetsSplit(text, NextAt(text, i)))
  }

  /** In UTF-8 a one-byte character is followed by the start of another. */
  lemma {:induction false} NoContinuationAfterAscii(s: Bytes, i: nat)
    requires ValidUtf8(s) && i + 1 < |s| && s[i] < 0x80
    ensures !IsContinuation(s[i + 1])
    decreases |s|
  {
    var n := SequenceLength(s[0]);
    assert WellFormed(s[..n]) && ValidUtf8(s[n..]);
    assert forall k | 1 <= k < n :: s[..n][k] == s[k] && IsContinuation(s[..n][k]);
    if i < n {
      assert i == 0;
      assert n == 1;
      assert s[1..][0] == s[1] && SequenceLength(s[1]) >= 1;
    } else {
      assert s[n..][i - n] == s[i] && s[n..][i - n + 1] == s[i + 1];
      NoContinuationAfterAscii(s[n..], i - n);
    }
  }

  lemma {:induction false} PanicsFrom(text: Bytes, i: nat)
    requires ValidUtf8(text) && i <= |text|
    ensures Lenient(text[i..]).None? <==> MeetsSplit(text, i)
    decreases |text| - i
  {
    hide ValidUtf8, Radix16, IsContinuation, WellFormed;
    if i == |text| {
      NothingLenient();
      assert text[i..] == [];
    } else {
      LenientStep(text, i);
      if text[i] == PERCENT && i + 3 <= |text| { NoContinuationAfterAscii(text, i); }
      PanicsFrom(text, NextAt(text, i));
    }
  }

  /** Reading a path with the lenient decoder ends the program if and only if the
      scan reaches a percent sign with a continuation byte three places on. */
  lemma PanicsIff(text: Bytes)
    requires ValidUtf8(text)
    ensures DecodedText(text).Panics? <==> MeetsSplit(text, 0)
  {
    hide ValidUtf8, Lenient, MeetsSplit;
    PanicsFrom(text, 0);
    assert text[0..] == text;
  }

  /** One such text is "/%a" before an e with an acute accent. */
  lemma SplitEscapePanics()
    ensures var text: Bytes := [SLASH, PERCENT, 0x61, 0xC3, 0xA9];
            ValidUtf8(text) && UriToPath(SCHEME + text) == Some(Panics)
  {
    var text: Bytes := [SLASH, PERCENT, 0x61, 0xC3, 0xA9];
    SplitEscapeIsText();
    assert MeetsSplit(text, 1);
    assert NextAt(text, 0) == 1;
    assert MeetsSplit(text, 0);
    PanicsIff(text);
    var uri := SCHEME + text;
    assert uri[|SCHEME|..] == text;
    assert !(LOCALHOST <= text) by { assert LOCALHOST[0] != SLASH; }
  }

  lemma SplitEscapeIsText()
    ensures ValidUtf8([SLASH, PERCENT, 0x61, 0xC3, 0xA9])
  {
    var tail: Bytes := [0xC3, 0xA9];
    assert tail[2..] == [] && tail[..2] == tail;
    assert ValidUtf8(tail);
    AsciiBefore(0x61, tail);
    AsciiBefore(PERCENT, [0x61] + tail);
    AsciiBefore(SLASH, [PERCENT] + ([0x61] + tail));
    assert [SLASH] + ([PERCENT] + ([0x61] + tail)) == [SLASH, PERCENT, 0x61, 0xC3, 0xA9];
  }

  lemma AsciiBefore(b: byte, rest: Bytes)
    requires b < 0x80 && ValidUtf8(rest)
    ensures ValidUtf8([b] + rest)
  {
    var s := [b] + rest;
    assert s[1..] == rest && s[..1] == [b];
  }

  lemma LenientStep(text: Bytes, i: nat)
    requires i < |text|
    ensures Lenient(text[i..])
         == if text[i] == PERCENT && i + 3 <= |text| && (SplitsCharacter(text, i + 1) || SplitsCharacter(text, i + 3)) then None
            else if text[i] == PERCENT && i + 3 <= |text| && Radix16(text[i + 1], text[i + 2]).Some? then
              Before([Radix16(text[i + 1], text[i + 2]).value], Lenient(text[i + 3..]))
            else Before([text[i]], Lenient(text[i + 1..]))
  {
    hide Radix16, IsContinuation;
    var tail := text[i..];
    assert tail[0] == text[i] && tail[1..] == text[i + 1..];
    if i + 3 <= |text| {
      assert tail[1] == text[i + 1] && tail[2] == text[i + 2] && tail[3..] == text[i + 3..];
      assert i + 3 < |text| ==> tail[3] == text[i + 3];
    }
  }

  lemma NothingLenient()
    ensures Lenient([]) == Some([])
  {
  }

  method PercentDecode(text: Bytes) returns (decoded: Decoded)
    ensures decoded == DecodedText(text)
  {
    hide ValidUtf8, Radix16, Lenient, SplitsCharacter;
    var out: Bytes := [];
    var i := 0;
    assert text[0..] == text;
    BeforeTwice([], [], Lenient(text));
    while i < |text|
      invariant i <= |text|
      invariant Lenient(text) == Before(out, Lenient(text[i..]))
    {
      LenientStep(text, i);
      if text[i] == PERCENT && i + 3 <= |text| {
        if SplitsCharacter(text, i + 1) || SplitsCharacter(text, i + 3) {
          return Panics;
        }
        var value := Radix16(text[i + 1], text[i + 2]);
        if value.Some? {
          BeforeTwice(out, [value.value], Lenient(text[i + 3..]));
          out := out + [value.value];
          i := i + 3;
          continue;
        }
      }
      BeforeTwice(out, [text[i]], Lenient(text[i + 1..]));
      out := out + [text[i]];
      i := i + 1;
    }
    NothingLenient();
    assert text[i..] == [] && out + [] == out;
    return if ValidUtf8(out) then Text(out) else NotUtf8;
  }

  function UriToPath(uri: Bytes): Option<Decoded>
  {
    if !(SCHEME <= uri) then None
    else
      var rest := uri[|SCHEME|..];
      var path := if LOCALHOST <= rest then rest[|LOCALHOST|..] else rest;
      if path == [] || path[0] != SLASH then None else Some(DecodedText(path))
  }

  // ---------- both decoders undo the encoder ----------

  lemma HexRoundTrip(value: int)
    requires 0 <= value < 16
    ensures HexValue(HexDigit(value)) == Some(value)
    ensures 0x30 <= HexDigit(value) < 0x80 && HexDigit(value) != 0x2B
  {
  }

  lemma EncodedByte(b: byte, rest: Bytes)
    ensures var text := Encoded(b) + rest;
            if IsUnescaped(b) then text != [] && text[0] == b != PERCENT && text[1..] == rest
            else |text| == 3 + |rest| && text[0] == PERCENT && text[1] == HexDigit(b as int / 16) && text[2] == HexDigit(b as int % 16) && text[3..] == rest
  {
  }

  lemma EscapeRoundTrip(b: byte)
    ensures var hi, lo := HexDigit(b as int / 16), HexDigit(b as int % 16);
            && HexValue(hi).Some? && HexValue(lo).Some? && EscapeValue(hi, lo) == b
            && 0x30 <= hi < 0x80 && 0x30 <= lo < 0x80 && hi != 0x2B && lo != 0x2B
  {
    hide HexDigit;
    HexRoundTrip(b as int / 16);
    HexRoundTrip(b as int % 16);
  }

  lemma StrictByteReads(b: byte, rest: Bytes)
    ensures Unescaped(Encoded(b) + rest) == Before([b], Unescaped(rest))
  {
    EncodedByte(b, rest);
    EscapeRoundTrip(b);
    hide HexDigit, HexValue, EscapeValue, Encoded, IsUnescaped;
  }

  lemma LenientByteReads(b: byte, rest: Bytes)
    requires forall i | 0 <= i < |rest| :: rest[i] < 0x80
    ensures Lenient(Encoded(b) + rest) == Before([b], Lenient(rest))
  {
    EncodedByte(b, rest);
    EscapeRoundTrip(b);
    hide HexDigit, HexValue, EscapeValue, Encoded, IsUnescaped;
    var text := Encoded(b) + rest;
    assert |text| > 3 && text[3..] == rest ==> text[3] == rest[0];
  }

  /** Both decoders undo the encoding of one byte. */
  lemma EncodedByteReads(b: byte, rest: Bytes)
    ensures Unescaped(Encoded(b) + rest) == Before([b], Unescaped(rest))
    ensures (forall i | 0 <= i < |rest| :: rest[i] < 0x80) ==> Lenient(Encoded(b) + rest) == Before([b], Lenient(rest))
  {
    hide *;
    StrictByteReads(b, rest);
    if forall i | 0 <= i < |rest| :: rest[i] < 0x80 { LenientByteReads(b, rest); }
  }

  lemma {:induction false} UnescapedUndoesEncoded(path: Bytes)
    ensures Unescaped(EncodedAll(path)) == Some(path)
  {
    hide Unescaped, Encoded;
    NothingUnescaped();
    if path != [] {
      UnescapedUndoesEncoded(path[1..]);
      EncodedByteReads(path[0], EncodedAll(path[1..]));
      assert path == [path[0]] + path[1..];
    }
  }

  lemma {:induction false} EncodedIsAscii(path: Bytes)
    ensures forall i | 0 <= i < |EncodedAll(path)| :: EncodedAll(path)[i] < 0x80
  {
    if path != [] {
      EncodedIsAscii(path[1..]);
      if !IsUnescaped(path[0]) {
        HexRoundTrip(path[0] as int / 16);
        HexRoundTrip(path[0] as int % 16);
      }
    }
  }

  lemma {:induction false} LenientUndoesEncoded(path: Bytes)
    ensures Lenient(EncodedAll(path)) == Some(path)
  {
    hide Lenient, Encoded;
    NothingLenient();
    if path != [] {
      LenientUndoesEncoded(path[1..]);
      EncodedIsAscii(path[1..]);
      EncodedByteReads(path[0], EncodedAll(path[1..]));
      assert path == [path[0]] + path[1..];
    }
  }

  lemma EncodedStart(path: Bytes)
    ensures path == [] <==> EncodedAll(path) == []
    ensures path != [] ==> (EncodedAll(path)[0] == SLASH <==> path[0] == SLASH)
    ensures path != [] && path[0] == SLASH ==> !(LOCALHOST <= EncodedAll(path))
  {
  }

  /** A path comes back from its URI exactly when it is absolute and holds no
      NUL; every other byte string is either refused or read as another path. */
  lemma PathRoundTripIff(path: Bytes)
    ensures PathOf(SCHEME + EncodedAll(path)) == Some(path) <==> path != [] && path[0] == SLASH && 0 !in path
  {
    hide Unescaped, EncodedAll;
    var rest := EncodedAll(path);
    var uri := SCHEME + rest;
    EncodedStart(path);
    UnescapedUndoesEncoded(path);
    assert uri[|SCHEME|..] == rest;
    if SCHEME + LOCALHOST + [SLASH] <= uri {
      assert LOCALHOST == uri[|SCHEME|..|SCHEME| + |LOCALHOST|];
      assert LOCALHOST <= rest;
      var tail := uri[|SCHEME| + |LOCALHOST|..];
      UnescapedStart(tail);
    } else {
      assert LocalPart(uri) == Some(rest);
    }
  }

  lemma UnescapedStart(text: Bytes)
    requires text != [] && text[0] != PERCENT
    ensures Unescaped(text).Some? ==> Unescaped(text).value != [] && Unescaped(text).value[0] == text[0]
  {
  }

  /** For the same paths the lenient decoder agrees, as far as a string can hold
      the result: it gives the path back when it is UTF-8 and nothing otherwise. */
  lemma LenientRoundTrip(path: Bytes)
    requires path != [] && path[0] == SLASH
    ensures UriToPath(SCHEME + EncodedAll(path)) == Some(if ValidUtf8(path) then Text(path) else NotUtf8)
  {
    hide Lenient, EncodedAll, ValidUtf8;
    var uri := SCHEME + EncodedAll(path);
    assert uri[|SCHEME|..] == EncodedAll(path);
    EncodedStart(path);
    LenientUndoesEncoded(path);
  }

  /** Different paths have different URIs. */
  lemma UrisAreInjective(a: Bytes, b: Bytes)
    requires SCHEME + EncodedAll(a) == SCHEME + EncodedAll(b)
    ensures a == b
  {
    hide EncodedAll, Unescaped;
    assert (SCHEME + EncodedAll(a))[|SCHEME|..] == EncodedAll(a);
    assert (SCHEME + EncodedAll(b))[|SCHEME|..] == EncodedAll(b);
    UnescapedUndoesEncoded(a);
    UnescapedUndoesEncoded(b);
  }
}
