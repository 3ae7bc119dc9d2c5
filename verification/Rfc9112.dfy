// Responses written by the rules of RFC 9112, and what the client reads back from them.
module Rfc9112 {
  import opened Bytes
  import opened PyText
  import opened Wire
  import opened Chunks
  import opened ChunkOutcomes
  import opened SizeLines
  import opened Http1

  // ----- the grammar -----------------------------------------------------------------

  datatype FieldOf = FieldOf(name: bytes, value: bytes)

  /** A name without colon or spaces around it, a trimmed value, and no line break in either. */
  predicate WellFormed(f: FieldOf) {
    && f.name != [] && Strip(f.name) == f.name && !IsSpace(f.name[0])
    && (forall i :: 0 <= i < |f.name| ==> f.name[i] != COLON)
    && Strip(f.value) == f.value
    && OneLine(f.name) && OneLine(f.value)
  }

  function PrintField(f: FieldOf): bytes {
    f.name + [COLON, SPACE] + f.value
  }

  /** The capital letters of Latin-1; their small letters are 32 further on. */
  predicate Capital(b: byte) {
    65 <= b <= 90 || 192 <= b <= 214 || 216 <= b <= 222
  }

  /** A text with its capital letters made small. */
  function Small(s: bytes): bytes {
    if s == [] then [] else [if Capital(s[0]) then s[0] + 32 else s[0]] + Small(s[1..])
  }

  /** `s` is the lower-case word `key`, written with any of its letters as capitals. */
  predicate Spelled(s: bytes, key: bytes) {
    |s| == |key| && forall i :: 0 <= i < |s| ==> s[i] == key[i] || (97 <= key[i] <= 122 && s[i] == key[i] - 32)
  }

  /** The header map a list of fields means: later fields override, names compare in lower case. */
  function FieldMap(fields: seq<FieldOf>): Headers {
    if fields == [] then map[]
    else
      var last := fields[|fields| - 1];
      FieldMap(fields[..|fields| - 1])[Small(last.name) := last.value]
  }

  /** The value of the last field with that name, in whatever case it is written. */
  function LastOf(fields: seq<FieldOf>, key: bytes): Option<bytes> {
    if fields == [] then None
    else
      var last := fields[|fields| - 1];
      if Spelled(last.name, key) then Some(last.value) else LastOf(fields[..|fields| - 1], key)
  }

  function StatusLine(v: Version, code: bytes, reason: bytes): bytes {
    Proto(v) + [SPACE] + code + [SPACE] + reason
  }

  function PrintFields(fields: seq<FieldOf>): seq<bytes> {
    seq(|fields|, i requires 0 <= i < |fields| => PrintField(fields[i]))
  }

  function Head(v: Version, code: bytes, reason: bytes, fields: seq<FieldOf>): bytes {
    Join([StatusLine(v, code, reason)] + PrintFields(fields))
  }

  /** Section 7.1: a size in hexadecimal, an optional extension, the data. */
  datatype Piece = Piece(size: bytes, ext: bytes, data: bytes)

  predicate SizeLine(size: bytes, ext: bytes, worth: nat) {
    && Digital(size, 16) && Worth(size, 16) == worth
    && (ext == [] || (ext[0] == 59 && OneLine(ext)))
    && |size| + |ext| + 1 <= 0x1_0000
  }

  predicate GoodPiece(p: Piece) {
    p.data != [] && SizeLine(p.size, p.ext, |p.data|)
  }

  function PrintPieces(pieces: seq<Piece>): bytes {
    if pieces == [] then []
    else
      var p := pieces[0];
      p.size + p.ext + CRLF + (p.data + CRLF + PrintPieces(pieces[1..]))
  }

  function Data(pieces: seq<Piece>): bytes {
    if pieces == [] then [] else pieces[0].data + Data(pieces[1..])
  }

  /** Section 6.3: how the length of a body is told. */
  datatype Framed =
    | ByLength(length: bytes)
    | ByChunks(pieces: seq<Piece>, last: bytes, ext: bytes)
    | ByClose

  /** No transfer coding is applied, or only the identity. */
  predicate Uncoded(fields: seq<FieldOf>) {
    match LastOf(fields, Ascii("transfer-encoding"))
    case None => true
    case Some(coding) => coding == [] || Spelled(coding, Ascii("identity"))
  }

  /** A response whose header fields, in whatever case, announce the framing its body is sent with. */
  predicate Announced(v: Version, fields: seq<FieldOf>, framed: Framed, body: bytes) {
    && |body| <= 0x10_0000
    && match framed
       case ByLength(length) =>
         && Uncoded(fields) && LastOf(fields, Ascii("content-length")) == Some(length)
         && Digital(length, 10) && Worth(length, 10) == |body|
       case ByChunks(pieces, last, ext) =>
         && v.V11? && LastOf(fields, Ascii("transfer-encoding")).Some?
         && Spelled(LastOf(fields, Ascii("transfer-encoding")).value, Ascii("chunked"))
         && |pieces| < 4096 && (forall i :: 0 <= i < |pieces| ==> GoodPiece(pieces[i]))
         && SizeLine(last, ext, 0) && Data(pieces) == body
       case ByClose => v.V10? && Uncoded(fields) && LastOf(fields, Ascii("content-length")).None?
  }

  /** The server ends the connection with this response; in HTTP/1.0 it always does. */
  predicate Ends(v: Version, fields: seq<FieldOf>) {
    v.V10? || match LastOf(fields, Ascii("connection"))
              case None => false
              case Some(option) => Spelled(option, Ascii("close"))
  }

  // ----- names and words in any case -----------------------------------------------------

  lemma {:induction false} SmallIsLower(s: bytes)
    ensures Small(s) == LowerLatin1(s)
  {
    if s == [] {
      assert LowerLatin1(s) == [];
    } else {
      SmallIsLower(s[1..]);
      assert LowerLatin1(s) == LowerLatin1(s)[..1] + LowerLatin1(s[1..]);
    }
  }

  /** ASCII words with small letters only. */
  predicate Word(key: bytes) {
    forall i :: 0 <= i < |key| ==> key[i] < 128 && !Capital(key[i])
  }

  lemma {:induction false} SmallSpelled(s: bytes, key: bytes)
    requires Word(key)
    ensures Small(s) == key <==> Spelled(s, key)
    decreases |s|
  {
    if s == [] {
    } else if key != [] {
      SmallSpelled(s[1..], key[1..]);
      assert Small(s)[1..] == Small(s[1..]);
      assert Small(s) == key <==> Small(s)[0] == key[0] && Small(s)[1..] == key[1..];
      assert forall i :: 0 <= i < |s| - 1 ==> s[1..][i] == s[i + 1];
      assert |s| == |key| ==> forall i :: 0 <= i < |key| - 1 ==> key[1..][i] == key[i + 1];
      SpelledSplits(s, key);
    }
  }

  lemma SpelledSplits(s: bytes, key: bytes)
    requires s != [] && key != []
    ensures Spelled(s, key) <==>
              (s[0] == key[0] || (97 <= key[0] <= 122 && s[0] == key[0] - 32)) && Spelled(s[1..], key[1..])
  {
    if Spelled(s[1..], key[1..]) {
      assert forall i :: 1 <= i < |s| ==> s[i] == s[1..][i - 1] && key[i] == key[1..][i - 1];
    }
  }

  /** A header is found under its lower-case name in whatever case it was written. */
  lemma {:induction false} FoundInAnyCase(fields: seq<FieldOf>, key: bytes)
    requires Word(key)
    ensures LastOf(fields, key) == if key in FieldMap(fields) then Some(FieldMap(fields)[key]) else None
  {
    hide Small, Spelled, Word;
    if fields != [] {
      var n := |fields| - 1;
      FoundInAnyCase(fields[..n], key);
      SmallSpelled(fields[n].name, key);
    }
  }

  /** The same fields, their names written in whatever case. */
  predicate SameInCase(a: seq<FieldOf>, b: seq<FieldOf>) {
    |a| == |b| && forall i :: 0 <= i < |a| ==> a[i].value == b[i].value && SameLetters(a[i].name, b[i].name)
  }

  predicate SameLetters(a: bytes, b: bytes) {
    |a| == |b| && forall i :: 0 <= i < |a| ==>
      || a[i] == b[i] || (65 <= a[i] <= 90 && b[i] == a[i] + 32) || (65 <= b[i] <= 90 && a[i] == b[i] + 32)
  }

  lemma {:induction false} SameSmall(a: bytes, b: bytes)
    requires SameLetters(a, b)
    ensures Small(a) == Small(b)
  {
    if a != [] {
      SameSmall(a[1..], b[1..]);
    }
  }

  /** Fields whose names differ only in case mean the same headers. */
  lemma {:induction false} SameInAnyCase(a: seq<FieldOf>, b: seq<FieldOf>)
    requires SameInCase(a, b)
    ensures FieldMap(a) == FieldMap(b)
  {
    hide Small, SameLetters;
    if a != [] {
      var n := |a| - 1;
      SameInAnyCase(a[..n], b[..n]);
      SameSmall(a[n].name, b[n].name);
    }
  }

  lemma HeaderWords()
    ensures Word(Ascii("transfer-encoding")) && Word(Ascii("content-length")) && Word(Ascii("connection"))
    ensures Word(Ascii("chunked")) && Word(Ascii("identity")) && Word(Ascii("close"))
    ensures Ascii("chunked") != Ascii("identity") && Ascii("chunked") != [] && Ascii("identity") != []
  {
    hide Word, Ascii;
    IsWord("transfer-encoding");
    IsWord("content-length");
    IsWord("connection");
    IsWord("chunked");
    IsWord("identity");
    IsWord("close");
    assert |Ascii("chunked")| == 7 && |Ascii("identity")| == 8;
  }

  lemma IsWord(s: string)
    requires forall i :: 0 <= i < |s| ==> 'a' <= s[i] <= 'z' || s[i] == '-'
    ensures Word(Ascii(s))
  {
  }

  lemma ValueSpelled(value: bytes, word: bytes)
    requires Word(word)
    ensures LowerLatin1(value) == word <==> Spelled(value, word)
  {
    hide Small, Word, Spelled, LowerLatin1;
    SmallIsLower(value);
    SmallSpelled(value, word);
  }

  /** The headers say how long the body is, as the fields announce it. */
  lemma FramingTold(v: Version, fields: seq<FieldOf>, framed: Framed, body: bytes)
    requires Announced(v, fields, framed, body)
    ensures FramingOf(v, FieldMap(fields)) == match framed
                                              case ByLength(_) => Sized(|body|)
                                              case ByChunks(_, _, _) => Chunked
                                              case ByClose => ToClose
  {
    hide LowerLatin1, IntLatin1, Worth, Spelled, Word, LastOf, FieldMap, Digital, Data, GoodPiece, SizeLine;
    HeaderWords();
    FoundInAnyCase(fields, Ascii("transfer-encoding"));
    FoundInAnyCase(fields, Ascii("content-length"));
    var coding := Get(FieldMap(fields), TRANSFER_ENCODING);
    ValueSpelled(coding, Ascii("chunked"));
    ValueSpelled(coding, Ascii("identity"));
    LowerEmpty();
    if framed.ByLength? {
      IntLatin1ReadsDigits(framed.length);
    }
  }

  lemma LowerEmpty()
    ensures LowerLatin1([]) == []
  {
  }

  lemma EndsTold(v: Version, fields: seq<FieldOf>)
    ensures Closes(v, FieldMap(fields)) <==> Ends(v, fields)
  {
    hide LowerLatin1, Spelled, Word, LastOf, FieldMap;
    HeaderWords();
    FoundInAnyCase(fields, Ascii("connection"));
    ValueSpelled(Get(FieldMap(fields), CONNECTION), Ascii("close"));
    LowerEmpty();
    CloseIsWord();
  }

  lemma CloseIsWord()
    ensures Ascii("close") != []
  {
  }

  /** The bytes after the head. After a length or the last chunk anything may follow. */
  function PrintBody(framed: Framed, body: bytes, more: bytes): bytes {
    match framed
    case ByLength(_) => body + more
    case ByChunks(pieces, last, ext) => PrintPieces(pieces) + (last + ext + CRLF + more)
    case ByClose => body
  }

  // ----- reading the head back ----------------------------------------------------------

  lemma PartitionAt(before: bytes, b: byte, after: bytes)
    requires forall i :: 0 <= i < |before| ==> before[i] != b
    ensures Partition(before + [b] + after, b) == (before, Some(after))
  {
    var s := before + [b] + after;
    forall j: nat | j < |before|
      ensures !Holds(s, j, [b])
    {
      assert s[j] == before[j];
      assert j + 1 <= |s| ==> s[j..j + 1][0] == s[j];
    }
    assert s[|before|..|before| + 1] == [b];
    FindIs(s, [b], 0, |before|);
    assert s[..|before|] == before && s[|before| + 1..] == after;
  }

  lemma DigitsArePlain(s: bytes, base: nat)
    requires base <= 16 && Digital(s, base)
    ensures forall i :: 0 <= i < |s| ==> s[i] != SPACE && s[i] != SEMICOLON && s[i] != CR
  {
    assert forall i :: 0 <= i < |s| ==> DigitOf(s[i]) < base;
  }

  lemma ProtoIsPlain(v: Version)
    ensures forall i :: 0 <= i < |Proto(v)| ==> Proto(v)[i] != SPACE && Proto(v)[i] != CR
    ensures Proto(v) != []
  {
  }

  lemma StatusParses(v: Version, code: bytes, reason: bytes)
    requires Digital(code, 10)
    ensures ParseStatus(v, StatusLine(v, code, reason)) == Some(Worth(code, 10))
  {
    hide Proto, Worth;
    ProtoIsPlain(v);
    DigitsArePlain(code, 10);
    var rest := code + [SPACE] + reason;
    assert StatusLine(v, code, reason) == Proto(v) + [SPACE] + rest;
    PartitionAt(Proto(v), SPACE, rest);
    PartitionAt(code, SPACE, reason);
  }

  lemma FieldParses(f: FieldOf)
    requires WellFormed(f)
    ensures ParseLine(PrintField(f)) == FieldLine(Small(f.name), f.value)
    ensures OneLine(PrintField(f)) && PrintField(f) != []
  {
    hide LowerLatin1, StripRight, Small;
    SmallIsLower(f.name);
    var line := PrintField(f);
    assert line == f.name + [COLON] + ([SPACE] + f.value);
    PartitionAt(f.name, COLON, [SPACE] + f.value);
    StripSpace(f.value);
    assert line[0] == f.name[0];
  }

  lemma StripSpace(s: bytes)
    requires Strip(s) == s
    ensures Strip([SPACE] + s) == s
  {
    StripFixed(s);
    var t := [SPACE] + s;
    assert t[1..] == s;
    if s == [] {
      assert t == [SPACE] && StripRight(t) == StripRight([]) == [];
    } else {
      assert t[|t| - 1] == s[|s| - 1];
      assert StripRight(t) == t && StripLeft(s) == s;
    }
  }

  lemma {:induction false} FieldsParse(fields: seq<FieldOf>, before: seq<FieldOf>)
    requires forall i :: 0 <= i < |fields| ==> WellFormed(fields[i])
    ensures ParseLines(PrintFields(fields), FieldMap(before)) == Some(FieldMap(before + fields))
    decreases |fields|
  {
    hide WellFormed, PrintField, ParseLine, Small;
    if fields == [] {
      assert before + fields == before;
    } else {
      var f := fields[0];
      FieldParses(f);
      assert PrintFields(fields)[1..] == PrintFields(fields[1..]);
      assert (before + [f])[..|before|] == before;
      assert before + [f] + fields[1..] == before + fields;
      FieldsParse(fields[1..], before + [f]);
    }
  }

  lemma StatusLineIsLine(v: Version, code: bytes, reason: bytes)
    requires Digital(code, 10) && OneLine(reason)
    ensures OneLine(StatusLine(v, code, reason)) && StatusLine(v, code, reason) != []
  {
    hide Proto;
    ProtoIsPlain(v);
    DigitsArePlain(code, 10);
  }

  lemma HeadLines(v: Version, code: bytes, reason: bytes, fields: seq<FieldOf>)
    requires Digital(code, 10) && OneLine(reason)
    requires forall i :: 0 <= i < |fields| ==> WellFormed(fields[i])
    ensures var lines := [StatusLine(v, code, reason)] + PrintFields(fields);
            forall i :: 0 <= i < |lines| ==> OneLine(lines[i]) && lines[i] != []
  {
    hide OneLine, StatusLine, PrintField;
    StatusLineIsLine(v, code, reason);
    forall i | 0 <= i < |fields|
      ensures OneLine(PrintField(fields[i])) && PrintField(fields[i]) != []
    {
      FieldParses(fields[i]);
    }
  }

  /** Status and header map come back from the head. */
  lemma HeadParses(v: Version, code: bytes, reason: bytes, fields: seq<FieldOf>)
    requires Digital(code, 10) && OneLine(reason)
    requires forall i :: 0 <= i < |fields| ==> WellFormed(fields[i])
    ensures ParseHead(v, Head(v, code, reason, fields)) == Http1.Head.Head(Worth(code, 10), FieldMap(fields))
  {
    hide StatusLine, PrintField, ParseStatus, OneLine, Lines;
    var status := StatusLine(v, code, reason);
    var lines := PrintFields(fields);
    var head := Head(v, code, reason, fields);
    StatusParses(v, code, reason);
    HeadLines(v, code, reason, fields);
    assert OneLine(([status] + lines)[0]);
    FieldsParse(fields, []);
    assert [] + fields == fields;
    if fields == [] {
      assert head == status;
      NoneInLine(status);
      BlankBlock();
    } else {
      assert ([status] + lines)[1..] == lines;
      assert head == status + CRLF + Join(lines);
      FindAfterLine(status, Join(lines));
      assert head[..|status|] == status && head[|status| + 2..] == Join(lines);
      forall i | 0 <= i < |lines| ensures OneLine(lines[i]) {
        assert lines[i] == ([status] + lines)[i + 1];
      }
      LinesOfJoin(lines);
    }
  }

  lemma BlankBlock()
    ensures ParseLines(Lines([]), map[]) == Some(map[])
  {
    NoneInLine([]);
    assert Lines([]) == [[]];
  }

  // ----- reading the body back -----------------------------------------------------------

  lemma SizeLineReads(size: bytes, ext: bytes, worth: nat)
    requires SizeLine(size, ext, worth)
    ensures PyText.Int(Strip(Partition(size + ext, SEMICOLON).0), 16) == Some(worth)
    ensures OneLine(size + ext)
  {
    hide Worth, DigitOf, Int, Strip, Find;
    IntReadsDigits(size, 16);
    DigitsArePlain(size, 16);
    if ext == [] {
      assert size + ext == size;
      forall j: nat | j + 1 <= |size|
        ensures !Holds(size, j, [SEMICOLON])
      {
        assert size[j..j + 1][0] == size[j];
      }
      assert Find(size, [SEMICOLON], 0) == None;
    } else {
      assert size + ext == size + [SEMICOLON] + ext[1..];
      PartitionAt(size, SEMICOLON, ext[1..]);
    }
  }

  lemma SizeLineSize(size: bytes, ext: bytes, worth: nat)
    requires SizeLine(size, ext, worth)
    ensures SizeOf(size + ext) == Some(worth) && OneLine(size + ext)
  {
    hide Partition, Int, Strip;
    SizeLineReads(size, ext, worth);
  }

  /** A size line within the cap is read under every segmentation, whatever is buffered of it. */
  lemma SizeLineRead(size: bytes, ext: bytes, worth: nat, rest: bytes, held: nat, body: bytes, chunks: nat, o: Outcome)
    returns (left: nat)
    requires SizeLine(size, ext, worth) && chunks > 0
    requires held <= |size + ext + CRLF + rest| && MayEnd(size + ext + CRLF + rest, held, body, chunks, o)
    ensures left <= |rest| && MaySize(rest, left, Some(worth), body, chunks - 1, o)
  {
    hide Find, SizeOf, MaySize;
    var line := size + ext;
    var s := line + CRLF + rest;
    SizeLineSize(size, ext, worth);
    LineFirst(line, rest);
    left :| LineLeaves(|line| + 2, held, left, |s|) && left <= |rest|
            && MaySize(rest, left, Some(worth), body, chunks - 1, o);
  }

  lemma ChunkRead(p: Piece, tail: bytes, held: nat, body: bytes, chunks: nat, o: Outcome)
    returns (left: nat, later: Outcome)
    requires GoodPiece(p) && chunks > 0 && |body| + |p.data| <= MAX_BODY
    requires var s := p.size + p.ext + CRLF + (p.data + CRLF + tail);
             held <= |s| && MayEnd(s, held, body, chunks, o)
    ensures left <= |tail| && MayEnd(tail, left, body + p.data, chunks - 1, later) && later.body == o.body
  {
    hide MayEnd, SizeLine;
    var rest, n := p.data + CRLF + tail, |p.data|;
    var past := SizeLineRead(p.size, p.ext, n, rest, held, body, chunks, o);
    assert rest[n..n + 2] == CRLF && rest[..n] == p.data && rest[n + 2..] == tail;
    assert MayFill(rest, n, n + 2, past, body + rest[..n], chunks - 1, o);
    left :| FillLeaves(n + 2, past, left, |rest|) && MayGoOn(rest[n + 2..], left, n, body + rest[..n], chunks - 1, o);
    later := Outcome(o.body, o.sizes[1..]);
  }

  /** The data of well-formed chunks, whatever is buffered of them and however the rest is cut. */
  lemma {:induction false} PiecesRead(
      pieces: seq<Piece>, last: bytes, ext: bytes, more: bytes, held: nat, body: bytes, chunks: nat, o: Outcome)
    requires |pieces| < chunks && SizeLine(last, ext, 0) && |body| + |Data(pieces)| <= MAX_BODY
    requires forall i :: 0 <= i < |pieces| ==> GoodPiece(pieces[i])
    requires var s := PrintPieces(pieces) + (last + ext + CRLF + more);
             held <= |s| && MayEnd(s, held, body, chunks, o)
    ensures o.body == Some(body + Data(pieces))
    decreases |pieces|
  {
    hide MayEnd, SizeLine, GoodPiece;
    var end := last + ext + CRLF + more;
    if pieces == [] {
      assert PrintPieces(pieces) + end == end && body + Data(pieces) == body;
      var left := SizeLineRead(last, ext, 0, more, held, body, chunks, o);
    } else {
      var p := pieces[0];
      var tail := PrintPieces(pieces[1..]) + end;
      assert GoodPiece(p);
      Regroup(p.size + p.ext, p.data, PrintPieces(pieces[1..]), end);
      var left, later := ChunkRead(p, tail, held, body, chunks, o);
      PiecesRead(pieces[1..], last, ext, more, left, body + p.data, chunks - 1, later);
      assert body + p.data + Data(pieces[1..]) == body + Data(pieces);
    }
  }

  lemma Regroup(line: bytes, data: bytes, tail: bytes, end: bytes)
    ensures line + CRLF + (data + CRLF + tail) + end == line + CRLF + (data + CRLF + (tail + end))
  {
  }

  /** An announced body is read back whole, whatever is buffered of it and however the rest is cut. */
  lemma BodyReads(
      v: Version, fields: seq<FieldOf>, framed: Framed, body: bytes, more: bytes, held: nat, o: Outcome)
    requires Announced(v, fields, framed, body)
    requires held <= |PrintBody(framed, body, more)|
    requires MayBody(FramingOf(v, FieldMap(fields)), PrintBody(framed, body, more), held, o)
    ensures o.body == Some(body)
  {
    hide FramingOf, FieldMap, LastOf, Uncoded, Spelled, Digital, Worth, MayEnd;
    FramingTold(v, fields, framed, body);
    match framed
    case ByLength(length) =>
      assert (body + more)[..|body|] == body;
    case ByChunks(pieces, last, ext) =>
      PiecesRead(pieces, last, ext, more, held, [], MAX_CHUNKS, o);
      assert [] + Data(pieces) == body;
    case ByClose =>
  }

  /**
   * A response printed by the rules of RFC 9112, its header names and words in whatever case and its
   * head at least three bytes under the cap, is answered as exactly its status, header map and body under
   * every segmentation.
   */
  lemma ResponseRoundTrip(
      v: Version, code: bytes, reason: bytes, fields: seq<FieldOf>, framed: Framed, body: bytes, more: bytes)
    requires Digital(code, 10) && OneLine(reason)
    requires forall i :: 0 <= i < |fields| ==> WellFormed(fields[i])
    requires Announced(v, fields, framed, body)
    requires |Head(v, code, reason, fields)| + 3 <= 0x1_0000
    ensures var h := FieldMap(fields);
            var s := Head(v, code, reason, fields) + BLANK_LINE + PrintBody(framed, body, more);
            var reply := Response(Worth(code, 10), h, body, Ends(v, fields));
            && ReplyOf(v, s) == Answer(reply)
            && forall pieces :: Cut(pieces) && Concat(pieces) == s ==> RequestOn(v, pieces).reply == Some(reply)
  {
    hide ParseHead, Announced, Join, PrintBody, Closes, Ends, FieldMap, StatusLine, PrintField, OneLine, WellFormed,
      MayBody, FramingOf, RequestOn, Worth;
    var head := Head(v, code, reason, fields);
    var rest := PrintBody(framed, body, more);
    var s := head + BLANK_LINE + rest;
    var h := FieldMap(fields);
    var reply := Response(Worth(code, 10), h, body, Ends(v, fields));
    EndsTold(v, fields);
    HeadLines(v, code, reason, fields);
    FindAfterHead([StatusLine(v, code, reason)] + PrintFields(fields), rest);
    assert s[..|head|] == head && s[|head| + 4..] == rest;
    HeadParses(v, code, reason, fields);
    forall x | MayReply(v, s, x)
      ensures x.reply == Some(reply)
    {
      var left: nat :| LineLeaves(|head| + 4, 0, left, |s|) && left <= |rest| && MayAnswer(v, head, rest, left, x);
      var o :| MayBody(FramingOf(v, h), rest, left, o) && x == Reply(v, Http1.Head.Head(Worth(code, 10), h), o);
      BodyReads(v, fields, framed, body, more, left, o);
    }
    Answered(v, s, reply);
  }

  lemma Answered(v: Version, s: bytes, reply: Response)
    requires forall x :: MayReply(v, s, x) ==> x.reply == Some(reply)
    ensures ReplyOf(v, s) == Answer(reply)
    ensures forall pieces :: Cut(pieces) && Concat(pieces) == s ==> RequestOn(v, pieces).reply == Some(reply)
  {
    hide MayReply, RequestOn;
    forall pieces | Cut(pieces) && Concat(pieces) == s
      ensures RequestOn(v, pieces).reply == Some(reply)
    {
      RequestRuns(v, s, pieces);
    }
    RequestRuns(v, s, Singles(s));
    assert Settled(v, s, Some(reply));
  }
}
