/** What the two URI decoders accept and what they read it as, piece by piece,
    and UTF-8 as the encoding of code points. */
module UriReaders {
  import opened Wrappers
  import opened ByteStrings
  import opened FileUri

  // ---------- the pieces of an escaped text ----------

  function Digit(value: int, upper: bool): byte
    requires 0 <= value < 16
  {
    (if upper then "0123456789ABCDEF"[value] else "0123456789abcdef"[value]) as int as byte
  }

  predicate IsDigit(b: byte)
  {
    exists value, upper :: 0 <= value < 16 && b == Digit(value, upper)
  }

  type Nibble = n: int | 0 <= n < 16

  /** A byte that stands for itself, an escape in digits of either case, an escape
      of a plus sign and one digit, or a percent sign that begins no escape. */
  datatype Piece =
    | Itself(b: byte)
    | Escape(hi: Nibble, lo: Nibble, upperHi: bool, upperLo: bool)
    | Signed(lo: Nibble, upper: bool)
    | Stray

  function WrittenAs(piece: Piece): Bytes
  {
    match piece
    case Itself(b) => [b]
    case Escape(hi, lo, upperHi, upperLo) => [PERCENT, Digit(hi, upperHi), Digit(lo, upperLo)]
    case Signed(lo, upper) => [PERCENT, '+' as int as byte, Digit(lo, upper)]
    case Stray => [PERCENT]
  }

  function Meant(piece: Piece): byte
  {
    match piece
    case Itself(b) => b
    case Escape(hi, lo, _, _) => (16 * hi + lo) as byte
    case Signed(lo, _) => lo as byte
    case Stray => PERCENT
  }

  function WrittenAll(pieces: seq<Piece>): Bytes
  {
    if pieces == [] then [] else WrittenAs(pieces[0]) + WrittenAll(pieces[1..])
  }

  function MeantAll(pieces: seq<Piece>): Bytes
  {
    if pieces == [] then [] else [Meant(pieces[0])] + MeantAll(pieces[1..])
  }

  predicate Begins(rest: Bytes)
  {
    |rest| >= 2 && (rest[0] == '+' as int as byte || IsDigit(rest[0])) && IsDigit(rest[1])
  }

  /** A percent sign counts for itself only where no escape begins. */
  predicate WellSpelt(pieces: seq<Piece>)
  {
    pieces != [] ==>
      && (pieces[0].Itself? ==> pieces[0].b != PERCENT)
      && (pieces[0].Stray? ==> !Begins(WrittenAll(pieces[1..])))
      && WellSpelt(pieces[1..])
  }

  /** Without signs and stray percent signs. */
  predicate StrictlySpelt(pieces: seq<Piece>)
  {
    forall piece <- pieces :: (piece.Itself? && piece.b != PERCENT) || piece.Escape?
  }

  lemma DigitIff(b: byte)
    ensures HexValue(b).Some? <==> IsDigit(b)
    ensures HexValue(b).Some? ==> var v := HexValue(b).value; b == Digit(v, true) || b == Digit(v, false)
    ensures forall v, upper | 0 <= v < 16 && b == Digit(v, upper) :: HexValue(b) == Some(v)
  {
    forall v: Nibble, upper ensures HexValue(Digit(v, upper)) == Some(v) { DigitMeans(v, upper); }
    if HexValue(b).Some? { IsOneDigit(b); }
    hide Digit, HexValue;
  }

  lemma IsOneDigit(b: byte)
    requires HexValue(b).Some?
    ensures var v := HexValue(b).value; b == Digit(v, true) || b == Digit(v, false)
  {
  }

  // ---------- the strict decoder ----------

  lemma {:induction false} StrictReads(pieces: seq<Piece>)
    requires StrictlySpelt(pieces)
    ensures Unescaped(WrittenAll(pieces)) == Some(MeantAll(pieces))
  {
    if pieces != [] {
      StrictReads(pieces[1..]);
      StrictReadsOne(pieces[0], WrittenAll(pieces[1..]));
      hide Unescaped, WrittenAs;
    }
  }

  lemma StrictReadsOne(piece: Piece, rest: Bytes)
    requires (piece.Itself? && piece.b != PERCENT) || piece.Escape?
    ensures Unescaped(WrittenAs(piece) + rest) == Before([Meant(piece)], Unescaped(rest))
  {
    var text := WrittenAs(piece) + rest;
    if piece.Escape? {
      DigitIff(text[1]);
      DigitIff(text[2]);
      hide Digit, HexValue;
      assert text[1] == Digit(piece.hi, piece.upperHi) && text[2] == Digit(piece.lo, piece.upperLo);
      assert text[3..] == rest;
    } else {
      assert text[1..] == rest;
    }
  }

  lemma {:induction false} StrictSpells(text: Bytes) returns (pieces: seq<Piece>)
    requires Unescaped(text).Some?
    ensures StrictlySpelt(pieces) && WrittenAll(pieces) == text && MeantAll(pieces) == Unescaped(text).value
    decreases |text|
  {
    hide HexValue;
    if text == [] {
      pieces := [];
    } else if text[0] != PERCENT {
      var more := StrictSpells(text[1..]);
      pieces := [Itself(text[0])] + more;
      assert pieces[1..] == more;
    } else {
      var more := StrictSpells(text[3..]);
      var piece := EscapeOf(text[1], text[2]);
      pieces := [piece] + more;
      assert pieces[1..] == more;
      assert text == text[..3] + text[3..];
    }
  }

  lemma EscapeOf(a: byte, b: byte) returns (piece: Piece)
    requires HexValue(a).Some? && HexValue(b).Some?
    ensures piece.Escape? && WrittenAs(piece) == [PERCENT, a, b] && Meant(piece) == EscapeValue(a, b)
  {
    DigitIff(a);
    DigitIff(b);
    var hi, lo := HexValue(a).value, HexValue(b).value;
    piece := Escape(hi, lo, a == Digit(hi, true), b == Digit(lo, true));
  }

  /** The local part of a URI: an absolute path behind the scheme and no authority
      but the local host. */
  predicate Names(uri: Bytes, text: Bytes)
  {
    && text != [] && text[0] == SLASH
    && (uri == SCHEME + text || uri == SCHEME + LOCALHOST + text)
  }

  lemma WithoutHost(scheme: Bytes, host: Bytes, uri: Bytes, text: Bytes)
    requires host != [] && host[0] != SLASH && text != [] && text[0] == SLASH
    ensures uri == scheme + text <==>
            scheme <= uri && uri[|scheme|..] == text && !(scheme + host + [SLASH] <= uri) && !(host <= uri[|scheme|..])
  {
    if uri == scheme + text {
      assert uri[|scheme|..] == text;
    }
  }

  lemma WithHost(scheme: Bytes, host: Bytes, uri: Bytes, text: Bytes)
    requires host != [] && host[0] != SLASH && text != [] && text[0] == SLASH
    ensures uri == scheme + host + text <==> scheme + host + [SLASH] <= uri && uri[|scheme| + |host|..] == text
    ensures uri == scheme + host + text <==> scheme <= uri && host <= uri[|scheme|..] && uri[|scheme|..][|host|..] == text
  {
    if uri == scheme + host + text {
      assert uri == scheme + (host + text) && uri[|scheme|..] == host + text;
      assert text == [SLASH] + text[1..];
      assert uri == scheme + host + [SLASH] + text[1..];
    }
  }

  /** Both decoders take the local part of the same URIs. */
  lemma NamesIff(uri: Bytes, text: Bytes)
    ensures Names(uri, text) <==> LocalPart(uri) == Some(text) && text != [] && text[0] == SLASH
    ensures Names(uri, text) ==> UriToPath(uri) == Some(DecodedText(text))
  {
    hide DecodedText;
    if text != [] && text[0] == SLASH {
      WithoutHost(SCHEME, LOCALHOST, uri, text);
      WithHost(SCHEME, LOCALHOST, uri, text);
    }
  }

  lemma ReadIsNamed(uri: Bytes) returns (text: Bytes)
    requires UriToPath(uri).Some?
    ensures Names(uri, text)
  {
    hide DecodedText;
    var rest := uri[|SCHEME|..];
    text := if LOCALHOST <= rest then rest[|LOCALHOST|..] else rest;
    WithoutHost(SCHEME, LOCALHOST, uri, text);
    WithHost(SCHEME, LOCALHOST, uri, text);
    PrefixOf(SCHEME, uri);
  }

  lemma PrefixOf(prefix: Bytes, text: Bytes)
    requires prefix <= text
    ensures text == prefix + text[|prefix|..]
  {
  }

  /** The strict decoder reads a path from a URI if and only if the URI is the file
      scheme, no authority or the local host, and an absolute path in which every
      percent sign begins an escape of two digits; it is then read byte for byte,
      and refused if that gives a NUL. */
  lemma StrictIff(uri: Bytes, path: Bytes)
    ensures PathOf(uri) == Some(path) <==>
            0 !in path && exists pieces :: StrictlySpelt(pieces) && Names(uri, WrittenAll(pieces)) && MeantAll(pieces) == path
  {
    hide Unescaped, Names, LocalPart, StrictlySpelt;
    forall text ensures Names(uri, text) <==> LocalPart(uri) == Some(text) && text != [] && text[0] == SLASH { NamesIff(uri, text); }
    forall pieces | StrictlySpelt(pieces) ensures Unescaped(WrittenAll(pieces)) == Some(MeantAll(pieces)) { StrictReads(pieces); }
    if PathOf(uri).Some? {
      var pieces := StrictSpells(LocalPart(uri).value);
      assert StrictlySpelt(pieces) && Names(uri, WrittenAll(pieces)) && MeantAll(pieces) == PathOf(uri).value;
    }
  }

  // ---------- the lenient decoder ----------

  lemma RadixIff(a: byte, b: byte)
    ensures Radix16(a, b).Some? <==> IsDigit(b) && (a == '+' as int as byte || IsDigit(a))
  {
    hide HexValue, IsDigit;
    DigitIff(a);
    DigitIff(b);
  }

  lemma LenientReadsOne(piece: Piece, rest: Bytes)
    requires (piece.Itself? ==> piece.b != PERCENT) && (piece.Stray? ==> !Begins(rest))
    requires Lenient(WrittenAs(piece) + rest).Some?
    ensures Lenient(WrittenAs(piece) + rest) == Before([Meant(piece)], Lenient(rest))
  {
    hide Lenient, Begins;
    match piece
    case Itself(b) => LenientByte(b, rest);
    case Stray => LenientStray(rest);
    case Escape(hi, lo, upperHi, upperLo) =>
      DigitMeans(hi, upperHi);
      DigitMeans(lo, upperLo);
      NoDigitIsPlus(hi, upperHi);
      hide Digit, HexValue;
      LenientEscape(Digit(hi, upperHi), Digit(lo, upperLo), rest);
    case Signed(lo, upper) =>
      DigitMeans(lo, upper);
      hide Digit, HexValue;
      LenientEscape('+' as int as byte, Digit(lo, upper), rest);
  }

  lemma DigitMeans(value: Nibble, upper: bool)
    ensures HexValue(Digit(value, upper)) == Some(value)
  {
  }

  lemma LenientByte(b: byte, rest: Bytes)
    requires b != PERCENT
    ensures Lenient([b] + rest) == Before([b], Lenient(rest))
  {
    assert ([b] + rest)[1..] == rest;
  }

  lemma LenientStray(rest: Bytes)
    requires !Begins(rest) && Lenient([PERCENT] + rest).Some?
    ensures Lenient([PERCENT] + rest) == Before([PERCENT], Lenient(rest))
  {
    var text := [PERCENT] + rest;
    assert text[1..] == rest;
    if |text| >= 3 {
      assert text[1] == rest[0] && text[2] == rest[1];
      RadixIff(text[1], text[2]);
    }
    hide Radix16, IsDigit;
  }

  lemma LenientEscape(a: byte, b: byte, rest: Bytes)
    requires Radix16(a, b).Some? && Lenient([PERCENT, a, b] + rest).Some?
    ensures Lenient([PERCENT, a, b] + rest) == Before([Radix16(a, b).value], Lenient(rest))
  {
    hide Radix16;
    var text := [PERCENT, a, b] + rest;
    assert text[1] == a && text[2] == b && text[3..] == rest;
  }

  lemma NoDigitIsPlus(value: Nibble, upper: bool)
    ensures Digit(value, upper) != '+' as int as byte
  {
  }

  lemma {:induction false} LenientReads(pieces: seq<Piece>)
    requires WellSpelt(pieces) && Lenient(WrittenAll(pieces)).Some?
    ensures Lenient(WrittenAll(pieces)).value == MeantAll(pieces)
  {
    hide Lenient, WrittenAs, Begins;
    NothingLenient();
    if pieces != [] {
      LenientReadsOne(pieces[0], WrittenAll(pieces[1..]));
      LenientReads(pieces[1..]);
    }
  }

  lemma {:induction false} LenientSpells(text: Bytes) returns (pieces: seq<Piece>)
    requires Lenient(text).Some?
    ensures WellSpelt(pieces) && WrittenAll(pieces) == text && MeantAll(pieces) == Lenient(text).value
    decreases |text|
  {
    hide Radix16, SplitsCharacter, IsDigit;
    if text == [] {
      pieces := [];
    } else {
      var piece, n := LenientPiece(text);
      var more := LenientSpells(text[n..]);
      pieces := [piece] + more;
      assert pieces[1..] == more;
      assert text == text[..n] + text[n..];
    }
  }

  lemma LenientPiece(text: Bytes) returns (piece: Piece, n: nat)
    requires text != [] && Lenient(text).Some?
    ensures 1 <= n <= |text| && WrittenAs(piece) == text[..n] && Lenient(text) == Before([Meant(piece)], Lenient(text[n..]))
    ensures (piece.Itself? ==> piece.b != PERCENT) && (piece.Stray? ==> !Begins(text[n..]))
  {
    hide SplitsCharacter, IsDigit, HexValue;
    if text[0] == PERCENT && |text| >= 3 && Radix16(text[1], text[2]).Some? {
      n := 3;
      assert text[..3] == [PERCENT, text[1], text[2]];
      if text[1] == 0x2B {
        DigitIff(text[2]);
        var lo := HexValue(text[2]).value;
        piece := Signed(lo, text[2] == Digit(lo, true));
      } else {
        piece := EscapeOf(text[1], text[2]);
      }
    } else {
      n, piece := 1, if text[0] == PERCENT then Stray else Itself(text[0]);
      if |text| >= 3 { RadixIff(text[1], text[2]); assert text[1..][0] == text[1] && text[1..][1] == text[2]; }
      hide Radix16;
    }
  }

  /** On text the lenient decoder reads escapes of two digits, or of a plus sign
      and one, lets every other percent sign stand, and fails only by ending the
      program. */
  lemma LenientIff(text: Bytes, bytes: Bytes)
    requires ValidUtf8(text)
    ensures Lenient(text) == Some(bytes) <==>
            !MeetsSplit(text, 0) && exists pieces :: WellSpelt(pieces) && WrittenAll(pieces) == text && MeantAll(pieces) == bytes
  {
    hide Lenient, ValidUtf8, MeetsSplit, WellSpelt;
    PanicsFrom(text, 0);
    assert text[0..] == text;
    if Lenient(text).Some? {
      var pieces := LenientSpells(text);
      assert WellSpelt(pieces) && WrittenAll(pieces) == text;
      forall p | WellSpelt(p) && WrittenAll(p) == text ensures MeantAll(p) == Lenient(text).value { LenientReads(p); }
    }
  }

  /** A URI is read leniently if and only if it is one the strict decoder takes the
      local part of; what is read is the local part decoded, where it is text. */
  lemma LenientNames(uri: Bytes, path: Bytes)
    ensures UriToPath(uri) == Some(Text(path)) <==>
            exists text :: Names(uri, text) && Lenient(text) == Some(path) && ValidUtf8(path)
    ensures UriToPath(uri) == None <==> forall text :: !Names(uri, text)
  {
    hide ValidUtf8, Lenient, Names, UriToPath;
    forall text | Names(uri, text) ensures UriToPath(uri) == Some(DecodedText(text)) { NamesIff(uri, text); }
    if UriToPath(uri).Some? { var text := ReadIsNamed(uri); }
  }

  // ---------- the encoder ----------

  /** The unreserved characters of section 2.3 of RFC 3986, and the slash. */
  predicate Unreserved(b: byte)
  {
    var c := b as char;
    'A' <= c <= 'Z' || 'a' <= c <= 'z' || '0' <= c <= '9' || c in "-._~/"
  }

  /** The normal form of section 6.2.2 of RFC 3986: upper-case digits, and no
      escape where none is needed. */
  predicate Normal(pieces: seq<Piece>)
  {
    forall piece <- pieces :: if Unreserved(Meant(piece)) then piece.Itself? else piece.Escape? && piece.upperHi && piece.upperLo
  }

  lemma EncodesOne(piece: Piece)
    requires if Unreserved(Meant(piece)) then piece.Itself? else piece.Escape? && piece.upperHi && piece.upperLo
    ensures Encoded(Meant(piece)) == WrittenAs(piece)
  {
    UnreservedIff(Meant(piece));
    hide Unreserved, IsUnescaped;
    if piece.Escape? {
      var b := Meant(piece);
      assert b as int / 16 == piece.hi && b as int % 16 == piece.lo;
      SameDigits(piece.hi);
      SameDigits(piece.lo);
      hide Digit, HexDigit;
    }
  }

  lemma UnreservedIff(b: byte)
    ensures Unreserved(b) <==> IsUnescaped(b)
  {
  }

  lemma SameDigits(value: Nibble)
    ensures HexDigit(value) == Digit(value, true)
  {
  }

  /** A path's URI is its one normal spelling. */
  lemma {:induction false} EncodesNormally(path: Bytes, pieces: seq<Piece>)
    requires Normal(pieces) && MeantAll(pieces) == path
    ensures EncodedAll(path) == WrittenAll(pieces)
  {
    hide Unreserved, Encoded, WrittenAs, Meant;
    if pieces != [] {
      EncodesOne(pieces[0]);
      EncodesNormally(path[1..], pieces[1..]);
    }
  }

  lemma {:induction false} NormalExists(path: Bytes) returns (pieces: seq<Piece>)
    ensures Normal(pieces) && MeantAll(pieces) == path && StrictlySpelt(pieces)
  {
    if path == [] {
      pieces := [];
    } else {
      var b := path[0];
      var more := NormalExists(path[1..]);
      pieces := [if Unreserved(b) then Itself(b) else Escape(b as int / 16, b as int % 16, true, true)] + more;
      assert pieces[1..] == more && Meant(pieces[0]) == b;
      hide Unreserved, Meant;
    }
  }

  // ---------- UTF-8 ----------

  /** A code point that is no surrogate. */
  type Scalar = c: int | (0 <= c < 0xD800) || (0xE000 <= c < 0x11_0000)

  /** The table of section 3 of RFC 3629. */
  function EncodeScalar(c: Scalar): Bytes
  {
    if c < 0x80 then [c as byte]
    else if c < 0x800 then [(0xC0 + c / 64) as byte, (0x80 + c % 64) as byte]
    else if c < 0x1_0000 then [(0xE0 + c / 4096) as byte, (0x80 + c / 64 % 64) as byte, (0x80 + c % 64) as byte]
    else [(0xF0 + c / 262144) as byte, (0x80 + c / 4096 % 64) as byte, (0x80 + c / 64 % 64) as byte, (0x80 + c % 64) as byte]
  }

  function EncodeScalars(text: seq<Scalar>): Bytes
  {
    if text == [] then [] else EncodeScalar(text[0]) + EncodeScalars(text[1..])
  }

  lemma ScalarIsWellFormed(c: Scalar)
    ensures var s := EncodeScalar(c); SequenceLength(s[0]) == |s| && WellFormed(s)
  {
  }

  lemma InBase64(a: int, b: int, c: int)
    requires 0 <= b < 64 && 0 <= c < 64
    ensures var n := (a * 64 + b) * 64 + c; n % 64 == c && n / 64 == a * 64 + b && n / 64 % 64 == b && n / 4096 == a
  {
  }

  lemma WellFormedIsScalar(s: Bytes) returns (c: Scalar)
    requires s != [] && SequenceLength(s[0]) == |s| && WellFormed(s)
    ensures EncodeScalar(c) == s
  {
    assert forall i | 1 <= i < |s| :: 0x80 <= s[i] <= 0xBF;
    if |s| == 1 {
      c := s[0] as int;
    } else if |s| == 2 {
      c := (s[0] as int - 0xC0) * 64 + (s[1] as int - 0x80);
    } else if |s| == 3 {
      c := ThreeBytes(s);
    } else {
      c := FourBytes(s);
    }
  }

  lemma ThreeBytes(s: Bytes) returns (c: Scalar)
    requires |s| == 3 == SequenceLength(s[0]) && WellFormed(s)
    ensures EncodeScalar(c) == s
  {
    var x, y, z := s[0] as int - 0xE0, s[1] as int - 0x80, s[2] as int - 0x80;
    assert IsContinuation(s[1]) && IsContinuation(s[2]) && 0 <= x < 16;
    InBase64(x, y, z);
    c := (x * 64 + y) * 64 + z;
    assert s == [s[0], s[1], s[2]];
  }

  lemma FourBytes(s: Bytes) returns (c: Scalar)
    requires |s| == 4 == SequenceLength(s[0]) && WellFormed(s)
    ensures EncodeScalar(c) == s
  {
    var w, x, y, z := s[0] as int - 0xF0, s[1] as int - 0x80, s[2] as int - 0x80, s[3] as int - 0x80;
    assert IsContinuation(s[1]) && IsContinuation(s[2]) && IsContinuation(s[3]) && 0 <= w < 5;
    InBase64(w, x, y);
    InBase64(w * 64 + x, y, z);
    c := ((w * 64 + x) * 64 + y) * 64 + z;
    assert c / 262144 == w && c / 4096 == w * 64 + x;
    assert s == [s[0], s[1], s[2], s[3]];
  }

  /** The bytes that pass for text are exactly the encodings of code points, each
      in its shortest form and none a surrogate. */
  lemma Utf8Iff(s: Bytes)
    ensures ValidUtf8(s) <==> exists text :: s == EncodeScalars(text)
  {
    if ValidUtf8(s) {
      var text := TextOf(s);
    }
    if text :| s == EncodeScalars(text) { ScalarsAreValid(text); }
  }

  lemma {:induction false} TextOf(s: Bytes) returns (text: seq<Scalar>)
    requires ValidUtf8(s)
    ensures s == EncodeScalars(text)
  {
    hide EncodeScalar, WellFormed, SequenceLength;
    if s == [] {
      text := [];
    } else {
      var n := SequenceLength(s[0]);
      var c := WellFormedIsScalar(s[..n]);
      var more := TextOf(s[n..]);
      text := [c] + more;
      assert text[1..] == more && s == s[..n] + s[n..];
    }
  }

  lemma {:induction false} ScalarsAreValid(text: seq<Scalar>)
    ensures ValidUtf8(EncodeScalars(text))
  {
    if text != [] {
      ScalarsAreValid(text[1..]);
      ScalarIsWellFormed(text[0]);
      hide EncodeScalar, WellFormed, SequenceLength;
      var first, rest := EncodeScalar(text[0]), EncodeScalars(text[1..]);
      assert (first + rest)[..|first|] == first && (first + rest)[|first|..] == rest;
    }
  }
}
