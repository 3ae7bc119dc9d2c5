// The text operations of Python that the referee applies to wire bytes.
module PyText {
  import opened Bytes

  /** ASCII white space, as `bytes.strip()` understands it. */
  predicate IsSpace(b: byte) {
    9 <= b <= 13 || b == 32
  }

  function StripLeft(s: bytes): bytes {
    if s != [] && IsSpace(s[0]) then StripLeft(s[1..]) else s
  }

  function StripRight(s: bytes): bytes {
    if s != [] && IsSpace(s[|s| - 1]) then StripRight(s[..|s| - 1]) else s
  }

  function Strip(s: bytes): bytes {
    StripLeft(StripRight(s))
  }

  /** `str.lower()` on Latin-1 text. */
  function LowerLatin1(s: bytes): bytes {
    seq(|s|, i requires 0 <= i < |s| =>
      if 65 <= s[i] <= 90 || (192 <= s[i] <= 222 && s[i] != 215) then s[i] + 32 else s[i])
  }

  /** `s[lo:hi]`: negative bounds count from the end, and bounds are clamped. */
  function Slice(s: bytes, lo: int, hi: int): (r: bytes)
    ensures 0 <= lo <= hi <= |s| ==> r == s[lo..hi]
    ensures |r| <= |s|
  {
    var from, to := Bound(lo, |s|), Bound(hi, |s|);
    if from <= to then s[from..to] else []
  }

  function Bound(i: int, n: nat): (r: nat)
    ensures r <= n && (0 <= i <= n ==> r == i)
  {
    if i + n < 0 then 0 else if i < 0 then n + i else if i > n then n else i
  }

  /** The part of `s` before the first `b`, and the part after it, if there is one. */
  function Partition(s: bytes, b: byte): (bytes, Option<bytes>) {
    match Find(s, [b], 0)
    case None => (s, None)
    case Some(i) => (s[..i], Some(s[i + 1..]))
  }

  // ----- int() ---------------------------------------------------------------------------

  /** The value of a digit in any base up to 16; 16 for anything else. */
  function DigitOf(b: byte): nat {
    if 48 <= b <= 57 then b - 48
    else if 65 <= b <= 70 then b - 55
    else if 97 <= b <= 102 then b - 87
    else 16
  }

  /** Digits with single underscores between them; `afterDigit` says what came before. */
  function Digits(s: bytes, base: nat, value: nat, afterDigit: bool): Option<nat> {
    if s == [] then (if afterDigit then Some(value) else None)
    else if s[0] == 95 then (if afterDigit then Digits(s[1..], base, value, false) else None)
    else if DigitOf(s[0]) < base then Digits(s[1..], base, value * base + DigitOf(s[0]), true)
    else None
  }

  /** Without sign or surrounding space; base 16 may be announced by `0x`, then one underscore. */
  function Magnitude(s: bytes, base: nat): Option<nat> {
    if base == 16 && |s| >= 2 && s[0] == 48 && (s[1] == 88 || s[1] == 120) then
      Digits(if |s| >= 3 && s[2] == 95 then s[3..] else s[2..], base, 0, false)
    else
      Digits(s, base, 0, false)
  }

  /** `int(s, base)`; None is the ValueError. */
  function Int(s: bytes, base: nat): Option<int> {
    var t := Strip(s);
    if t == [] then None
    else if t[0] == 43 || t[0] == 45 then
      match Magnitude(t[1..], base)
      case None => None
      case Some(n) => Some(if t[0] == 45 then 0 - n else n as int)
    else
      match Magnitude(t, base)
      case None => None
      case Some(n) => Some(n)
  }

  /** `int(s)` on Latin-1 text: unless it is all ASCII, what Unicode counts as space does so here. */
  function IntLatin1(s: bytes): Option<int> {
    if forall i :: 0 <= i < |s| ==> s[i] < 128 then Int(s, 10)
    else Int(seq(|s|, i requires 0 <= i < |s| =>
               if 0x1C <= s[i] <= 0x1F || s[i] == 0x85 || s[i] == 0xA0 then 32 else s[i]), 10)
  }

  // ----- plain digit strings, as the standards write numbers ---------------------------------

  predicate Digital(s: bytes, base: nat) {
    s != [] && forall i :: 0 <= i < |s| ==> DigitOf(s[i]) < base
  }

  /** What a plain digit string is worth, most significant digit first. */
  function Worth(s: bytes, base: nat): nat {
    if s == [] then 0 else Worth(s[..|s| - 1], base) * base + DigitOf(s[|s| - 1])
  }

  function Power(base: nat, n: nat): nat {
    if n == 0 then 1 else base * Power(base, n - 1)
  }

  /** The first digit counts for its value times the base to the number of digits behind it. */
  lemma {:induction false} WorthFirst(s: bytes, base: nat)
    requires s != []
    ensures Worth(s, base) == DigitOf(s[0]) * Power(base, |s| - 1) + Worth(s[1..], base)
  {
    var n := |s| - 1;
    if n == 0 {
      assert s[..0] == [] && s[1..] == [];
    } else {
      WorthFirst(s[..n], base);
      assert s[..n][1..] == s[1..][..n - 1] && s[1..][n - 1] == s[n];
      Distribute(DigitOf(s[0]), Power(base, n - 1), Worth(s[..n][1..], base), base);
    }
  }

  lemma Distribute(d: nat, p: nat, w: nat, base: nat)
    ensures (d * p + w) * base == d * (base * p) + w * base
  {
    assert d * p * base == d * (base * p);
  }

  /** A decimal number as one reads it: octets 48 to 57, the first digit counting most. */
  function Decimal(s: bytes): int {
    if s == [] then 0 else (s[0] - 48) * Power(10, |s| - 1) + Decimal(s[1..])
  }

  predicate Decimals(s: bytes) {
    s != [] && forall i :: 0 <= i < |s| ==> 48 <= s[i] <= 57
  }

  lemma {:induction false} WorthIsDecimal(s: bytes)
    requires forall i :: 0 <= i < |s| ==> 48 <= s[i] <= 57
    ensures Worth(s, 10) == Decimal(s)
  {
    if s != [] {
      WorthFirst(s, 10);
      WorthIsDecimal(s[1..]);
    }
  }

  lemma DigitalIsDecimals(s: bytes)
    ensures Digital(s, 10) <==> Decimals(s)
  {
    forall i | 0 <= i < |s|
      ensures DigitOf(s[i]) < 10 <==> 48 <= s[i] <= 57
    {
    }
  }

  lemma {:induction false} DigitsWorth(before: bytes, s: bytes, base: nat, afterDigit: bool)
    requires base <= 16 && (forall i :: 0 <= i < |s| ==> DigitOf(s[i]) < base)
    requires s != [] || afterDigit
    ensures Digits(s, base, Worth(before, base), afterDigit) == Some(Worth(before + s, base))
    ensures Worth([], base) == 0
    decreases |s|
  {
    if s == [] {
      assert before + s == before;
    } else {
      assert (before + [s[0]])[..|before|] == before;
      assert before + s == before + [s[0]] + s[1..];
      DigitsWorth(before + [s[0]], s[1..], base, true);
    }
  }

  lemma {:induction false} StripShortens(s: bytes)
    ensures |StripLeft(s)| <= |s| && |StripRight(s)| <= |s|
    ensures s != [] && IsSpace(s[0]) ==> |StripLeft(s)| < |s|
    ensures s != [] && IsSpace(s[|s| - 1]) ==> |StripRight(s)| < |s|
  {
    if s != [] {
      StripShortens(s[1..]);
      StripShortens(s[..|s| - 1]);
    }
  }

  /** What `strip` leaves alone is exactly what has no space at either end. */
  lemma StripFixed(s: bytes)
    ensures Strip(s) == s <==> s == [] || (!IsSpace(s[0]) && !IsSpace(s[|s| - 1]))
  {
    StripShortens(s);
    StripShortens(StripRight(s));
  }

  lemma {:induction false} StripSolid(s: bytes)
    requires s == [] || (!IsSpace(s[0]) && !IsSpace(s[|s| - 1]))
    ensures Strip(s) == s
  {
  }

  /** `int()` reads every plain digit string as the number it is worth. */
  lemma IntReadsDigits(s: bytes, base: nat)
    requires (base == 10 || base == 16) && Digital(s, base)
    ensures Int(s, base) == Some(Worth(s, base)) && Strip(s) == s
  {
    hide Strip, Digits, Worth;
    assert DigitOf(s[0]) < base && DigitOf(s[|s| - 1]) < base;
    StripSolid(s);
    DigitsWorth([], s, base, false);
    assert [] + s == s;
    assert |s| >= 2 ==> DigitOf(s[1]) < base;
    assert Magnitude(s, base) == Digits(s, base, 0, false);
  }

  lemma IntLatin1ReadsDigits(s: bytes)
    requires Digital(s, 10)
    ensures IntLatin1(s) == Some(Worth(s, 10))
  {
    IntReadsDigits(s, 10);
    assert forall i :: 0 <= i < |s| ==> DigitOf(s[i]) < 10;
  }

  // ----- lines ---------------------------------------------------------------------------------

  /** `block.split(CRLF)`. */
  function Lines(block: bytes): (r: seq<bytes>)
    ensures r != []
    decreases |block|
  {
    match Find(block, CRLF, 0)
    case None => [block]
    case Some(i) => [block[..i]] + Lines(block[i + 2..])
  }

  /** The lines with CRLF between them. */
  function Join(lines: seq<bytes>): bytes
    requires lines != []
  {
    if |lines| == 1 then lines[0] else lines[0] + CRLF + Join(lines[1..])
  }

  /** A line that can be told from its neighbours. */
  predicate OneLine(s: bytes) {
    forall i :: 0 <= i < |s| ==> s[i] != CR
  }

  lemma FindAfterLine(line: bytes, rest: bytes)
    requires OneLine(line)
    ensures Find(line + CRLF + rest, CRLF, 0) == Some(|line|)
  {
    var s := line + CRLF + rest;
    forall j: nat | j < |line|
      ensures !Holds(s, j, CRLF)
    {
      assert s[j] == line[j];
      assert j + 2 <= |s| ==> s[j..j + 2][0] == s[j];
    }
    assert s[|line|..|line| + 2] == CRLF;
    FindIs(s, CRLF, 0, |line|);
  }

  lemma NoneInLine(line: bytes)
    requires OneLine(line)
    ensures Find(line, CRLF, 0) == None
  {
    forall j: nat | j + 2 <= |line|
      ensures !Holds(line, j, CRLF)
    {
      assert line[j..j + 2][0] == line[j];
    }
  }

  lemma FirstLine(line: bytes, rest: bytes)
    requires OneLine(line)
    ensures Lines(line + CRLF + rest) == [line] + Lines(rest)
  {
    hide Find, Holds;
    var s := line + CRLF + rest;
    FindAfterLine(line, rest);
    assert s[..|line|] == line && s[|line| + 2..] == rest;
  }

  lemma {:induction false} LinesOfJoin(lines: seq<bytes>)
    requires lines != [] && forall i :: 0 <= i < |lines| ==> OneLine(lines[i])
    ensures Lines(Join(lines)) == lines
    decreases |lines|
  {
    hide Find, Holds, OneLine;
    if |lines| == 1 {
      NoneInLine(lines[0]);
    } else {
      FirstLine(lines[0], Join(lines[1..]));
      LinesOfJoin(lines[1..]);
      assert lines == [lines[0]] + lines[1..];
    }
  }

  const BLANK_LINE: bytes := [13, 10, 13, 10]

  /** No empty line starts within a line or its end, unless the next line is empty. */
  lemma NotWithinLine(line: bytes, tail: bytes, j: nat)
    requires OneLine(line) && j < |line| + 2 && tail != [] && tail[0] != CR
    ensures !Holds(line + CRLF + tail, j, BLANK_LINE)
  {
    var s := line + CRLF + tail;
    if j + 4 <= |s| {
      if j < |line| {
        assert s[j..j + 4][0] == line[j];
      } else if j == |line| {
        assert s[j..j + 4][2] == tail[0];
      } else {
        assert s[j..j + 4][0] == LF;
      }
    }
  }

  lemma PastLine(line: bytes, tail: bytes, part: bytes, j: nat)
    ensures Holds(line + CRLF + tail, |line| + 2 + j, part) <==> Holds(tail, j, part)
  {
    var s := line + CRLF + tail;
    assert s[|line| + 2..] == tail;
    if j + |part| <= |tail| {
      assert s[|line| + 2 + j..|line| + 2 + j + |part|] == tail[j..j + |part|];
    }
  }

  /** The head of a message ends at the first empty line. */
  lemma {:induction false} FindAfterHead(lines: seq<bytes>, rest: bytes)
    requires lines != [] && forall i :: 0 <= i < |lines| ==> OneLine(lines[i]) && lines[i] != []
    ensures Find(Join(lines) + BLANK_LINE + rest, BLANK_LINE, 0) == Some(|Join(lines)|)
    decreases |lines|
  {
    hide Holds, Find;
    var s := Join(lines) + BLANK_LINE + rest;
    var line, off := lines[0], |lines[0]| + 2;
    if |lines| == 1 {
      assert s == line + BLANK_LINE + rest;
      FindBlank(line, rest);
    } else {
      var tail := Join(lines[1..]) + BLANK_LINE + rest;
      FindAfterHead(lines[1..], rest);
      assert s == line + CRLF + tail;
      FirstOfJoin(lines[1..]);
      forall j: nat | j < |Join(lines)|
        ensures !Holds(s, j, BLANK_LINE)
      {
        if j < off {
          NotWithinLine(line, tail, j);
        } else {
          PastLine(line, tail, BLANK_LINE, j - off);
        }
      }
      PastLine(line, tail, BLANK_LINE, |Join(lines[1..])|);
      FindIs(s, BLANK_LINE, 0, |Join(lines)|);
    }
  }

  lemma FirstOfJoin(lines: seq<bytes>)
    requires lines != [] && OneLine(lines[0]) && lines[0] != []
    ensures Join(lines) != [] && Join(lines)[0] != CR
  {
  }

  lemma FindBlank(line: bytes, rest: bytes)
    requires OneLine(line)
    ensures Find(line + BLANK_LINE + rest, BLANK_LINE, 0) == Some(|line|)
  {
    var s := line + BLANK_LINE + rest;
    forall j: nat | j < |line|
      ensures !Holds(s, j, BLANK_LINE)
    {
      assert s[j] == line[j];
      assert j + 4 <= |s| ==> s[j..j + 4][0] == s[j];
    }
    assert s[|line|..|line| + 4] == BLANK_LINE;
    FindIs(s, BLANK_LINE, 0, |line|);
  }
}
