// The size lines of a chunked body: what they read as, in the grammar of RFC 9112 and beyond it.
module SizeLines {
  import opened Bytes
  import opened PyText
  import opened Wire
  import opened Chunks

  function HexDigit(k: nat): (b: byte)
    requires k < 16
    ensures DigitOf(b) == k
  {
    if k < 10 then 48 + k else 87 + k
  }

  function Hex(n: nat): (r: bytes)
    ensures Digital(r, 16) && Worth(r, 16) == n && |r| <= n + 1
  {
    if n < 16 then [HexDigit(n)]
    else
      var r := Hex(n / 16) + [HexDigit(n % 16)];
      assert r[..|r| - 1] == Hex(n / 16);
      r
  }

  /** A size line of plain digits. */
  lemma SizeReads(digits: bytes)
    requires Digital(digits, 16)
    ensures SizeOf(digits) == Some(Worth(digits, 16)) && OneLine(digits)
  {
    hide Worth, Strip, Find;
    assert forall i :: 0 <= i < |digits| ==> DigitOf(digits[i]) < 16;
    NoSemicolon(digits);
    IntReadsDigits(digits, 16);
  }

  /** The same with a minus sign, which the size grammar of RFC 9112 does not have. */
  lemma NegativeReads(digits: bytes)
    requires Digital(digits, 16)
    ensures SizeOf([45] + digits) == Some(0 - Worth(digits, 16)) && OneLine([45] + digits)
  {
    hide Worth, Digits, Strip, Find, DigitOf, Digital;
    var line := [45] + digits;
    DigitsPlain(digits);
    NoSemicolon(line);
    assert line[1..] == digits && line[|line| - 1] == digits[|digits| - 1];
    StripSolid(line);
    MagnitudeWorth(digits);
  }

  lemma DigitsPlain(digits: bytes)
    requires Digital(digits, 16)
    ensures digits != []
    ensures forall i :: 0 <= i < |digits| ==> digits[i] != SEMICOLON && digits[i] != CR && !IsSpace(digits[i])
  {
    assert forall i :: 0 <= i < |digits| ==> DigitOf(digits[i]) < 16;
  }

  lemma MagnitudeWorth(digits: bytes)
    requires Digital(digits, 16)
    ensures Magnitude(digits, 16) == Some(Worth(digits, 16))
  {
    hide Digits, Worth;
    DigitsWorth([], digits, 16, false);
    assert [] + digits == digits;
    assert |digits| >= 2 ==> DigitOf(digits[1]) < 16;
  }

  lemma NoSemicolon(line: bytes)
    requires forall i :: 0 <= i < |line| ==> line[i] != SEMICOLON
    ensures Partition(line, SEMICOLON).0 == line
  {
    forall j: nat | j + 1 <= |line|
      ensures !Holds(line, j, [SEMICOLON])
    {
      assert line[j..j + 1][0] == line[j];
    }
  }

  /** A line with its end in front of a stream is the stream's first line. */
  lemma LineFirst(line: bytes, rest: bytes)
    requires OneLine(line)
    ensures var s := line + CRLF + rest;
            Find(s, CRLF, 0) == Some(|line|) && s[..|line|] == line && s[|line| + 2..] == rest
  {
    FindAfterLine(line, rest);
    assert (line + CRLF + rest)[..|line|] == line && (line + CRLF + rest)[|line| + 2..] == rest;
  }

  // ----- a line for any size, behind any number of spaces -----------------------------------------

  function Spaces(n: nat): (r: bytes)
    ensures |r| == n && forall i :: 0 <= i < n ==> r[i] == 32
  {
    seq(n, _ => 32)
  }

  function Numeral(z: int): bytes {
    if z < 0 then [45] + Hex(-z) else Hex(z)
  }

  function Padded(n: nat, z: int): bytes {
    Spaces(n) + Numeral(z)
  }

  lemma {:induction false} StripPadding(n: nat, solid: bytes)
    requires solid != [] && !IsSpace(solid[0]) && !IsSpace(solid[|solid| - 1])
    ensures StripLeft(Spaces(n) + solid) == solid
  {
    var t := Spaces(n) + solid;
    if n == 0 {
      assert t == solid;
    } else {
      assert t[0] == 32 && t[1..] == Spaces(n - 1) + solid;
      StripPadding(n - 1, solid);
    }
  }

  lemma NumeralSolid(z: int)
    ensures var s := Numeral(z);
            && s != [] && (forall i :: 0 <= i < |s| ==> s[i] != SEMICOLON && s[i] != CR && !IsSpace(s[i]))
            && SizeOf(s) == Some(z) && Partition(s, SEMICOLON).0 == s && Strip(s) == s
  {
    hide SizeOf, Hex, Partition, Strip;
    var digits := Hex(if z < 0 then -z else z);
    DigitsPlain(digits);
    if z < 0 {
      NegativeReads(digits);
    } else {
      SizeReads(digits);
    }
    NoSemicolon(Numeral(z));
    StripSolid(Numeral(z));
  }

  /** Padding does not change what a size line reads as. */
  lemma PaddedReads(n: nat, z: int)
    ensures SizeOf(Padded(n, z)) == Some(z) && OneLine(Padded(n, z))
  {
    hide Numeral, Int, Partition;
    var s, t := Numeral(z), Padded(n, z);
    NumeralSolid(z);
    NoSemicolon(t);
    StripPadding(n, s);
    assert t[|t| - 1] == s[|s| - 1];
  }

  lemma PaddedShort(n: nat, z: int)
    requires z <= MAX_BODY && 0 - z <= MAX_BODY
    ensures |Padded(n, z)| <= n + 4100
  {
    HexShort(if z < 0 then -z else z);
  }

  lemma HexShort(n: nat)
    requires n <= MAX_BODY
    ensures |Hex(n)| <= 4099
  {
    if n >= 256 {
      assert |Hex(n)| == |Hex(n / 16)| + 1;
      assert |Hex(n / 16)| == |Hex(n / 16 / 16)| + 1;
    }
  }
}
