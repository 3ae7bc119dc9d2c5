// The texts that the referee's parsers take, described without them: trimmed values, the integers of
// Python's `int`, status lines and header lines.
module Grammars {
  import opened Bytes
  import opened PyText
  import opened Wire
  import opened ChunkOutcomes
  import opened Http1
  import opened Rfc9112

  // ----- trimming -----------------------------------------------------------------------

  /** The octets Python counts as white space: tab to carriage return, and the space. */
  predicate AllWhite(s: bytes) {
    forall i :: 0 <= i < |s| ==> s[i] in {9, 10, 11, 12, 13, 32}
  }

  predicate NoPad(s: bytes) {
    s == [] || (s[0] !in {9, 10, 11, 12, 13, 32} && s[|s| - 1] !in {9, 10, 11, 12, 13, 32})
  }

  /** `t` is `s` without the white space around it. */
  ghost predicate Trimmed(s: bytes, t: bytes) {
    exists a, b :: AllWhite(a) && AllWhite(b) && s == a + t + b && NoPad(t)
  }

  lemma {:induction false} LeftTrim(s: bytes) returns (a: bytes)
    ensures AllWhite(a) && s == a + StripLeft(s)
    ensures StripLeft(s) == [] || StripLeft(s)[0] !in {9, 10, 11, 12, 13, 32}
    ensures StripLeft(s) != [] ==> StripLeft(s)[|StripLeft(s)| - 1] == s[|s| - 1]
  {
    if s != [] && IsSpace(s[0]) {
      var more := LeftTrim(s[1..]);
      a := [s[0]] + more;
      assert s == [s[0]] + s[1..];
    } else {
      a := [];
    }
  }

  lemma {:induction false} RightTrim(s: bytes) returns (b: bytes)
    ensures AllWhite(b) && s == StripRight(s) + b
    ensures StripRight(s) == [] || StripRight(s)[|StripRight(s)| - 1] !in {9, 10, 11, 12, 13, 32}
  {
    if s != [] && IsSpace(s[|s| - 1]) {
      var more := RightTrim(s[..|s| - 1]);
      b := more + [s[|s| - 1]];
      assert s == s[..|s| - 1] + [s[|s| - 1]];
    } else {
      b := [];
    }
  }

  lemma {:induction false} StripRightPast(t: bytes, b: bytes)
    requires AllWhite(b) && (t == [] || t[|t| - 1] !in {9, 10, 11, 12, 13, 32})
    ensures StripRight(t + b) == t
  {
    if b == [] {
      assert t + b == t;
    } else {
      var n := |b| - 1;
      assert (t + b)[..|t + b| - 1] == t + b[..n] && (t + b)[|t + b| - 1] == b[n];
      StripRightPast(t, b[..n]);
    }
  }

  lemma {:induction false} StripLeftPast(a: bytes, t: bytes)
    requires AllWhite(a) && (t == [] || t[0] !in {9, 10, 11, 12, 13, 32})
    ensures StripLeft(a + t) == t
  {
    if a == [] {
      assert a + t == t;
    } else {
      assert (a + t)[1..] == a[1..] + t && (a + t)[0] == a[0];
      StripLeftPast(a[1..], t);
    }
  }

  lemma {:induction false} StripRightAll(a: bytes)
    requires AllWhite(a)
    ensures StripRight(a) == []
  {
    StripRightPast([], a);
    assert [] + a == a;
  }

  /** `strip` removes exactly the white space around a text. */
  lemma StripExact(s: bytes, t: bytes)
    ensures Strip(s) == t <==> Trimmed(s, t)
  {
    hide StripLeft, StripRight, AllWhite;
    if Strip(s) == t {
      var b := RightTrim(s);
      var a := LeftTrim(StripRight(s));
      assert s == a + t + b;
    }
    if Trimmed(s, t) {
      var a, b :| AllWhite(a) && AllWhite(b) && s == a + t + b && NoPad(t);
      if t == [] {
        WhiteBoth(a, b);
        assert s == a + b;
        StripRightAll(s);
        NothingToStrip();
      } else {
        assert (a + t)[|a + t| - 1] == t[|t| - 1];
        StripRightPast(a + t, b);
        StripLeftPast(a, t);
      }
    }
  }

  lemma NothingToStrip()
    ensures StripLeft([]) == []
  {
  }

  lemma WhiteBoth(a: bytes, b: bytes)
    requires AllWhite(a) && AllWhite(b)
    ensures AllWhite(a + b)
  {
  }

  // ----- integers ------------------------------------------------------------------------

  /** The figures up to the base, small or capital. */
  predicate Figure(b: byte, value: nat) {
    && value < 16
    && (b as int == "0123456789abcdef"[value] as int || b as int == "0123456789ABCDEF"[value] as int)
  }

  lemma FigureIs(b: byte, value: nat)
    ensures Figure(b, value) <==> value < 16 && DigitOf(b) == value
  {
  }

  predicate FigureBelow(b: byte, base: nat) {
    exists d: nat :: d < base && Figure(b, d)
  }

  /** Figures with single underscores between them. */
  predicate Grouped(s: bytes, base: nat) {
    && s != [] && s[0] != 95 && s[|s| - 1] != 95
    && (forall i :: 0 <= i < |s| - 1 ==> s[i] != 95 || s[i + 1] != 95)
    && forall i :: 0 <= i < |s| && s[i] != 95 ==> FigureBelow(s[i], base)
  }

  function NoBars(s: bytes): bytes {
    if s == [] then [] else (if s[0] == 95 then [] else [s[0]]) + NoBars(s[1..])
  }

  /** Figures and single underscores, after a figure or not. */
  predicate Chain(s: bytes, base: nat, afterDigit: bool) {
    if s == [] then afterDigit
    else if s[0] == 95 then afterDigit && Chain(s[1..], base, false)
    else DigitOf(s[0]) < base && Chain(s[1..], base, true)
  }

  lemma FigureBelowIs(b: byte, base: nat)
    requires base <= 16
    ensures FigureBelow(b, base) <==> DigitOf(b) < base
    ensures b == 95 ==> !FigureBelow(b, base)
  {
    if FigureBelow(b, base) {
      var d: nat :| d < base && Figure(b, d);
      FigureIs(b, d);
    }
    if DigitOf(b) < base {
      FigureIs(b, DigitOf(b));
    }
  }

  lemma {:induction false} ChainIsGrouped(s: bytes, base: nat)
    requires base <= 16
    ensures Chain(s, base, false) <==> Grouped(s, base)
    ensures Chain(s, base, true) <==> s == [] || Grouped(s, base) || (s[0] == 95 && Grouped(s[1..], base))
  {
    hide FigureBelow, DigitOf;
    if s != [] {
      ChainIsGrouped(s[1..], base);
      FigureBelowIs(s[0], base);
      GroupedSplits(s, base);
    }
  }

  lemma GroupedSplits(s: bytes, base: nat)
    requires s != [] && base <= 16
    ensures Grouped(s, base)
            <==> s[0] != 95 && FigureBelow(s[0], base)
                 && (s[1..] == [] || Grouped(s[1..], base) || (s[1] == 95 && Grouped(s[1..][1..], base)))
  {
    hide FigureBelow;
    var t := s[1..];
    assert forall i :: 0 <= i < |t| ==> t[i] == s[i + 1];
    assert |s| >= 2 ==> forall i :: 0 <= i < |t[1..]| ==> t[1..][i] == s[i + 2];
    if Grouped(s, base) && |s| >= 2 {
      assert s[0 + 1] == s[1];
      assert forall i :: 0 <= i < |t| - 1 ==> t[i] != 95 || t[i + 1] != 95;
    }
  }

  lemma {:induction false} DigitsGrouped(before: bytes, s: bytes, base: nat, afterDigit: bool)
    ensures Digits(s, base, Worth(before, base), afterDigit)
            == if Chain(s, base, afterDigit) then Some(Worth(before + NoBars(s), base)) else None
    decreases |s|
  {
    hide DigitOf, Worth;
    if s == [] {
      assert before + NoBars(s) == before;
    } else if s[0] == 95 {
      assert NoBars(s) == NoBars(s[1..]);
      DigitsGrouped(before, s[1..], base, false);
    } else {
      WorthNext(before, s[0], base);
      assert before + NoBars(s) == before + [s[0]] + NoBars(s[1..]);
      DigitsGrouped(before + [s[0]], s[1..], base, true);
    }
  }

  lemma WorthNext(before: bytes, b: byte, base: nat)
    ensures Worth(before + [b], base) == Worth(before, base) * base + DigitOf(b)
  {
    assert (before + [b])[..|before|] == before;
  }

  lemma DigitsExact(s: bytes, base: nat)
    requires base <= 16
    ensures Digits(s, base, 0, false) == if Grouped(s, base) then Some(Worth(NoBars(s), base)) else None
  {
    hide Grouped, Digits, Chain, NoBars;
    DigitsGrouped([], s, base, false);
    ChainIsGrouped(s, base);
    assert [] + NoBars(s) == NoBars(s);
    assert Worth([], base) == 0;
  }

  /** A hexadecimal number may be announced by 0x or 0X, and one underscore. */
  predicate Announces(s: bytes, base: nat, figures: bytes) {
    || s == figures
    || (base == 16 && (s == [48, 120] + figures || s == [48, 88] + figures
                       || s == [48, 120, 95] + figures || s == [48, 88, 95] + figures))
  }

  ghost predicate Unsigned(s: bytes, base: nat, value: int) {
    exists figures :: Announces(s, base, figures) && Grouped(figures, base) && value == Worth(NoBars(figures), base)
  }

  lemma MagnitudeExact(s: bytes, base: nat, n: nat)
    requires base == 10 || base == 16
    ensures Magnitude(s, base) == Some(n) <==> Unsigned(s, base, n)
  {
    hide Digits, Grouped, NoBars, Worth;
    var hex := base == 16 && |s| >= 2 && s[0] == 48 && (s[1] == 88 || s[1] == 120);
    var bar := hex && |s| >= 3 && s[2] == 95;
    var figures := if bar then s[3..] else if hex then s[2..] else s;
    DigitsExact(figures, base);
    assert hex ==> s == [48, s[1]] + s[2..];
    assert bar ==> s == [48, s[1], 95] + s[3..];
    assert Announces(s, base, figures);
    forall g | Announces(s, base, g) && Grouped(g, base)
      ensures g == figures
    {
      GroupedStarts(g, base);
      if hex && g == s {
        NotFigures(g, base);
      }
    }
  }

  lemma GroupedStarts(g: bytes, base: nat)
    requires Grouped(g, base)
    ensures g != [] && g[0] != 95
  {
  }

  /** Figures do not start like the announcement of a hexadecimal number. */
  lemma NotFigures(g: bytes, base: nat)
    requires base <= 16 && |g| >= 2 && (g[1] == 88 || g[1] == 120)
    ensures !Grouped(g, base)
  {
    FigureBelowIs(g[1], base);
  }

  /** The texts `int` takes for a number, and that number: a sign, an announcement, figures, in white space. */
  ghost predicate Integer(s: bytes, base: nat, value: int) {
    exists t :: Trimmed(s, t) && t != []
                && if t[0] == 43 then Unsigned(t[1..], base, value)
                   else if t[0] == 45 then Unsigned(t[1..], base, -value)
                   else Unsigned(t, base, value)
  }

  /** `int(s, base)` reads exactly these texts, as these numbers. */
  lemma IntExact(s: bytes, base: nat, value: int)
    requires base == 10 || base == 16
    ensures Int(s, base) == Some(value) <==> Integer(s, base, value)
  {
    hide Strip, Trimmed, Magnitude, Unsigned;
    var t := Strip(s);
    forall u
      ensures Trimmed(s, u) <==> u == t
    {
      StripExact(s, u);
    }
    if t != [] {
      var signed := t[0] == 43 || t[0] == 45;
      var m := if signed then t[1..] else t;
      forall n: int
        ensures Unsigned(m, base, n) <==> n >= 0 && Magnitude(m, base) == Some(n)
      {
        if n >= 0 {
          MagnitudeExact(m, base, n);
        } else {
          NotNegative(m, base, n);
        }
      }
    }
  }

  lemma NotNegative(s: bytes, base: nat, n: int)
    requires n < 0
    ensures !Unsigned(s, base, n)
  {
  }

  predicate AllAscii(s: bytes) {
    forall i :: 0 <= i < |s| ==> s[i] <= 127
  }

  /** The spaces of Latin-1 that ASCII does not have, and the four separators, made plain spaces. */
  function Spaced(s: bytes): bytes {
    if s == [] then []
    else [if s[0] in {0x1C, 0x1D, 0x1E, 0x1F, 0x85, 0xA0} then 32 else s[0]] + Spaced(s[1..])
  }

  lemma {:induction false} SpacedAt(s: bytes, i: nat)
    requires i < |s|
    ensures |Spaced(s)| == |s|
    ensures Spaced(s)[i] == if s[i] in {0x1C, 0x1D, 0x1E, 0x1F, 0x85, 0xA0} then 32 else s[i]
  {
    if |s| > 1 {
      SpacedAt(s[1..], if i > 0 then i - 1 else 0);
    }
  }

  /** The same for header values, which are Latin-1 text. */
  lemma IntLatin1Exact(s: bytes, value: int)
    ensures IntLatin1(s) == Some(value) <==> Integer(if AllAscii(s) then s else Spaced(s), 10, value)
  {
    hide Int, Integer, Spaced;
    IntExact(s, 10, value);
    IntExact(Spaced(s), 10, value);
    if !AllAscii(s) {
      SpacedAt(s, 0);
      var t := seq(|s|, i requires 0 <= i < |s| =>
                     if 0x1C <= s[i] <= 0x1F || s[i] == 0x85 || s[i] == 0xA0 then 32 else s[i]);
      forall i | 0 <= i < |s|
        ensures |Spaced(s)| == |s| && t[i] == Spaced(s)[i]
      {
        SpacedAt(s, i);
      }
      assert t == Spaced(s);
    }
  }

  // ----- framing ---------------------------------------------------------------------------

  /**
   * How the body of a response is told, from its header fields in whatever case: a transfer coding must be
   * chunked, and the version 1.1; else a length must be a number up to 2^20; without either the
   * response ends with the connection, which only HTTP/1.0 may do.
   */
  lemma FramingExact(v: Version, fields: seq<FieldOf>)
    ensures var coding, length := LastOf(fields, Ascii("transfer-encoding")), LastOf(fields, Ascii("content-length"));
            var framing := FramingOf(v, FieldMap(fields));
            if !Uncoded(fields) then
              framing == if v.V11? && Spelled(coding.value, Ascii("chunked")) then Chunked else Misframed
            else if length.None? then framing == if v.V11? then Misframed else ToClose
            else
              var text := if AllAscii(length.value) then length.value else Spaced(length.value);
              && (forall n: nat :: framing == Sized(n) <==> n <= 0x10_0000 && Integer(text, 10, n))
              && (framing == Misframed || framing.Sized?)
  {
    hide LowerLatin1, IntLatin1, Spelled, Word, LastOf, FieldMap, Integer, Spaced, AllAscii;
    HeaderWords();
    FoundInAnyCase(fields, Ascii("transfer-encoding"));
    FoundInAnyCase(fields, Ascii("content-length"));
    var coding := Get(FieldMap(fields), TRANSFER_ENCODING);
    ValueSpelled(coding, Ascii("chunked"));
    ValueSpelled(coding, Ascii("identity"));
    LowerEmpty();
    LowerNotEmpty(coding);
    if CONTENT_LENGTH in FieldMap(fields) {
      var length := FieldMap(fields)[CONTENT_LENGTH];
      var text := if AllAscii(length) then length else Spaced(length);
      forall n: nat
        ensures IntLatin1(length) == Some(n) <==> Integer(text, 10, n)
      {
        IntLatin1Exact(length, n);
      }
      if Uncoded(fields) {
        forall n: nat
          ensures FramingOf(v, FieldMap(fields)) == Sized(n) <==> n <= 0x10_0000 && Integer(text, 10, n)
        {
          assert IntLatin1(length) == Some(n) <==> Integer(text, 10, n);
        }
      }
    }
  }

  lemma LowerNotEmpty(s: bytes)
    ensures LowerLatin1(s) == [] <==> s == []
  {
  }

  // ----- the lines of a head ---------------------------------------------------------------

  /** A status line of this version: the protocol, a space, a decimal number, and then nothing or a space. */
  ghost predicate StatusSays(v: Version, line: bytes, n: nat) {
    exists code, tail :: StatusParts(v, line, n, code, tail)
  }

  predicate StatusParts(v: Version, line: bytes, n: nat, code: bytes, tail: bytes) {
    && line == [72, 84, 84, 80, 47, 49, 46, if v.V10? then 48 else 49, 32] + code + tail
    && Decimals(code) && n == Decimal(code) && (tail == [] || tail[0] == 32)
  }

  lemma PartitionSplits(s: bytes, b: byte)
    ensures var (before, after) := Partition(s, b);
            && (forall i :: 0 <= i < |before| ==> before[i] != b)
            && (match after
                case None => s == before
                case Some(rest) => s == before + [b] + rest)
  {
    forall j: nat | j + 1 <= |s|
      ensures Holds(s, j, [b]) <==> s[j] == b
    {
      assert s[j..j + 1][0] == s[j];
    }
  }

  lemma PartitionNone(s: bytes, b: byte)
    requires forall i :: 0 <= i < |s| ==> s[i] != b
    ensures Partition(s, b) == (s, None)
  {
    forall j: nat | j + 1 <= |s|
      ensures !Holds(s, j, [b])
    {
      assert s[j..j + 1][0] == s[j];
    }
  }

  lemma ProtoOctets(v: Version)
    ensures Proto(v) == [72, 84, 84, 80, 47, 49, 46, if v.V10? then 48 else 49]
  {
  }

  /** Exactly these status lines are accepted, with this status. */
  lemma StatusExact(v: Version, line: bytes, n: nat)
    ensures ParseStatus(v, line) == Some(n) <==> StatusSays(v, line, n)
  {
    hide Partition, Proto, Worth, Decimal, Digital;
    ProtoOctets(v);
    var proto := Proto(v);
    if ParseStatus(v, line) == Some(n) {
      PartitionSplits(line, SPACE);
      var rest := Partition(line, SPACE).1.value;
      PartitionSplits(rest, SPACE);
      var (code, more) := Partition(rest, SPACE);
      var tail := if more.None? then [] else [SPACE] + more.value;
      CodeRead(code);
      assert rest == code + tail;
      assert line == proto + [32] + code + tail;
      assert proto + [32] == [72, 84, 84, 80, 47, 49, 46, if v.V10? then 48 else 49, 32];
      assert StatusParts(v, line, n, code, tail);
    }
    if StatusSays(v, line, n) {
      var code, tail :| StatusParts(v, line, n, code, tail);
      CodeRead(code);
      assert line == proto + [SPACE] + (code + tail);
      PartitionAt(proto, SPACE, code + tail);
      if tail == [] {
        assert code + tail == code;
        PartitionNone(code, SPACE);
      } else {
        assert code + tail == code + [SPACE] + tail[1..];
        PartitionAt(code, SPACE, tail[1..]);
      }
    }
  }

  lemma CodeRead(code: bytes)
    ensures Digital(code, 10) <==> Decimals(code)
    ensures Decimals(code) ==> Worth(code, 10) == Decimal(code) && forall i :: 0 <= i < |code| ==> code[i] != 32
  {
    hide Worth, Decimal;
    DigitalIsDecimals(code);
    if Decimals(code) {
      WorthIsDecimal(code);
    }
  }

  /** A header line: a name without white space around it, a colon, and a value, which is trimmed. */
  ghost predicate FieldSays(line: bytes, key: bytes, value: bytes) {
    exists name, text ::
      && line == name + [58] + text && (forall i :: 0 <= i < |name| ==> name[i] != 58)
      && NoPad(name) && key == Small(name) && Trimmed(text, value)
  }

  /** Exactly these header lines are accepted, as this name and value; an empty line is passed over. */
  lemma LineExact(line: bytes, key: bytes, value: bytes)
    ensures ParseLine(line) == FieldLine(key, value) <==> FieldSays(line, key, value)
    ensures ParseLine(line) == Blank <==> line == []
  {
    hide Partition, Strip, LowerLatin1, Small, Trimmed;
    PartitionSplits(line, COLON);
    var (name, text) := Partition(line, COLON);
    StripFixed(name);
    SmallIsLower(name);
    if text.Some? {
      StripExact(text.value, value);
    }
    if FieldSays(line, key, value) {
      var before, after :|
        && line == before + [58] + after && (forall i :: 0 <= i < |before| ==> before[i] != 58)
        && NoPad(before) && key == Small(before) && Trimmed(after, value);
      PartitionAt(before, COLON, after);
      assert line[0] == (before + [58])[0];
    }
  }

  /** A head that ends past 65536 octets and one read more is refused, however it is cut. */
  lemma LongHeadRefused(v: Version, s: bytes, pieces: seq<bytes>)
    requires Cut(pieces) && Concat(pieces) == s && Find(s, [13, 10, 13, 10], 0).Some?
    requires Find(s, [13, 10, 13, 10], 0).value + 4 > 65536 + 8192
    ensures RequestOn(v, pieces).reply == None
  {
    hide RequestOn, MayAnswer, Find;
    RequestRuns(v, s, pieces);
    assert BLANK_LINE == [13, 10, 13, 10];
  }

  /**
   * What a header block says, line by line: an empty line nothing, any other a name and a value, which
   * replaces what was said of that name before.
   */
  ghost predicate BlockSays(lines: seq<bytes>, start: Headers, h: Headers)
    decreases |lines|
  {
    if lines == [] then h == start
    else if lines[0] == [] then BlockSays(lines[1..], start, h)
    else exists key, value :: FieldSays(lines[0], key, value) && BlockSays(lines[1..], start[key := value], h)
  }

  /** A header block is accepted exactly if every line says something or is empty, with the headers it says. */
  lemma {:induction false} BlockExact(lines: seq<bytes>, start: Headers, h: Headers)
    ensures ParseLines(lines, start) == Some(h) <==> BlockSays(lines, start, h)
    decreases |lines|
  {
    hide ParseLine, FieldSays;
    if lines != [] {
      var line := lines[0];
      LineExact(line, [], []);
      match ParseLine(line)
      case Malformed =>
        forall key, value
          ensures !FieldSays(line, key, value)
        {
          LineExact(line, key, value);
        }
      case Blank => BlockExact(lines[1..], start, h);
      case FieldLine(name, text) =>
        LineExact(line, name, text);
        forall key, value
          ensures FieldSays(line, key, value) <==> key == name && value == text
        {
          LineExact(line, key, value);
        }
        BlockExact(lines[1..], start[name := text], h);
    }
  }

  /**
   * Behind a well-formed head, a body told by its length is that many of the octets that follow, and
   * refused if there are fewer; one that ends with the connection is all of them, up to 2^20.
   */
  lemma BodiesExact(
      v: Version, code: bytes, reason: bytes, fields: seq<FieldOf>, rest: bytes, pieces: seq<bytes>)
    requires Digital(code, 10) && OneLine(reason)
    requires forall i :: 0 <= i < |fields| ==> WellFormed(fields[i])
    requires |Rfc9112.Head(v, code, reason, fields)| + 3 <= 0x1_0000
    requires Cut(pieces) && Concat(pieces) == Rfc9112.Head(v, code, reason, fields) + BLANK_LINE + rest
    ensures var reply := RequestOn(v, pieces).reply;
            var meant := (body: bytes) => Some(Response(Worth(code, 10), FieldMap(fields), body, Ends(v, fields)));
            match FramingOf(v, FieldMap(fields))
            case Misframed => reply == None
            case Sized(n) => reply == if n <= |rest| then meant(rest[..n]) else None
            case ToClose => reply == if |rest| <= 0x10_0000 then meant(rest) else None
            case Chunked => true
  {
    hide ParseHead, Join, Closes, Ends, FieldMap, StatusLine, PrintField, OneLine, WellFormed, FramingOf,
      RequestOn, Worth, MayEnd;
    var head := Rfc9112.Head(v, code, reason, fields);
    var s := head + BLANK_LINE + rest;
    EndsTold(v, fields);
    HeadLines(v, code, reason, fields);
    FindAfterHead([StatusLine(v, code, reason)] + PrintFields(fields), rest);
    assert s[..|head|] == head && s[|head| + 4..] == rest;
    HeadParses(v, code, reason, fields);
    RequestRuns(v, s, pieces);
    var x := RequestOn(v, pieces);
    var left: nat :| LineLeaves(|head| + 4, 0, left, |s|) && left <= |rest| && MayAnswer(v, head, rest, left, x);
  }
}
