// Several responses on one HTTP/1.1 connection (`probe_http`, orchestrator/probes.py): which framings
// leave the connection clean for the next one.
module Persistence {
  import opened Bytes
  import opened PyText
  import opened Wire
  import opened Chunks
  import opened ChunkOutcomes
  import opened SizeLines
  import opened Http1
  import opened Rfc9112

  /** A response as a server means it. */
  datatype Message = Message(code: bytes, reason: bytes, fields: seq<FieldOf>, framed: Framed, body: bytes)
  {
    /** It is written by the rules of RFC 9112, and its head is at least three octets under the cap. */
    predicate Proper() {
      && Digital(code, 10) && OneLine(reason)
      && (forall i :: 0 <= i < |fields| ==> WellFormed(fields[i]))
      && Announced(V11, fields, framed, body)
      && |Rfc9112.Head(V11, code, reason, fields)| + 3 <= 0x1_0000
    }

    /** The octets, with `more` behind a length or the last chunk. */
    function Printed(more: bytes): bytes {
      Rfc9112.Head(V11, code, reason, fields) + BLANK_LINE + PrintBody(framed, body, more)
    }

    function Meant(): Response {
      Response(Worth(code, 10), FieldMap(fields), body, Ends(V11, fields))
    }
  }

  // ----- what a response leaves ------------------------------------------------------------------

  /** The head is read, with some of what follows it, under every segmentation. */
  lemma HeadOn(m: Message, more: bytes, pieces: seq<bytes>) returns (surplus: bytes, rest: seq<bytes>)
    requires m.Proper() && Cut(pieces) && Concat(pieces) == m.Printed(more)
    ensures Cut(rest) && surplus + Concat(rest) == PrintBody(m.framed, m.body, more)
    ensures LeftOn(V11, pieces) == LeftAfter(FramingOf(V11, FieldMap(m.fields)), surplus, rest)
    ensures RequestOn(V11, pieces).reply == Some(m.Meant())
  {
    hide Announced, ParseHead, FramingOf, LeftAfter, Rfc9112.Head, PrintBody, RequestOn, Ends, OneLine, WellFormed,
      Worth, FieldMap, Digital, StatusLine, Join;
    ResponseRoundTrip(V11, m.code, m.reason, m.fields, m.framed, m.body, more);
    HeadParses(V11, m.code, m.reason, m.fields);
    var after := PrintBody(m.framed, m.body, more);
    var head := Rfc9112.Head(V11, m.code, m.reason, m.fields);
    HeadFound(m, after);
    surplus, rest := HeadRead(head, after, pieces);
  }

  lemma HeadFound(m: Message, after: bytes)
    requires m.Proper()
    ensures var head := Rfc9112.Head(V11, m.code, m.reason, m.fields);
            Find(head + BLANK_LINE + after, BLANK_LINE, 0) == Some(|head|)
  {
    hide Announced, OneLine, WellFormed, Digital, Find, StatusLine, PrintField, Join;
    HeadLines(V11, m.code, m.reason, m.fields);
    FindAfterHead([StatusLine(V11, m.code, m.reason)] + PrintFields(m.fields), after);
  }

  lemma HeadRead(head: bytes, after: bytes, pieces: seq<bytes>) returns (surplus: bytes, rest: seq<bytes>)
    requires Cut(pieces) && Concat(pieces) == head + BLANK_LINE + after && |head| + 3 <= MAX_HEADER
    requires Find(head + BLANK_LINE + after, BLANK_LINE, 0) == Some(|head|)
    ensures ReadUntilOn(pieces, BLANK_LINE, MAX_HEADER, []) == (Some((head, surplus)), rest)
    ensures Cut(rest) && surplus + Concat(rest) == after
  {
    hide ReadUntilOn, Find;
    var s := head + BLANK_LINE + after;
    assert s[0..] == s && s[..0] == [] && s[..|head|] == head;
    ReadUntilHolds(s, 0, pieces, BLANK_LINE, MAX_HEADER);
    var (r, more) := ReadUntilOn(pieces, BLANK_LINE, MAX_HEADER, []);
    rest, surplus := more, r.value.1;
    assert s[|head| + 4..] == after;
    var now := |head| + 4 + |surplus|;
    assert s[|head| + 4..now] + s[now..] == s[|head| + 4..];
  }

  /** A body sent by its length leaves nothing, however it is cut. */
  lemma SizedLeavesNothing(m: Message, pieces: seq<bytes>)
    requires m.Proper() && m.framed.ByLength? && Cut(pieces) && Concat(pieces) == m.Printed([])
    ensures RequestOn(V11, pieces).reply == Some(m.Meant()) && LeftOn(V11, pieces) == []
  {
    hide LeftOn, RequestOn, Worth, FramingOf, FieldMap, Rfc9112.Head, Uncoded, LastOf;
    var surplus, rest := HeadOn(m, [], pieces);
    FramingTold(V11, m.fields, m.framed, m.body);
    assert m.body + [] == m.body;
  }

  /** One exchange: what the client sends, and the answer as the network cuts it. */
  datatype Turn = Turn(wire: bytes, answer: Message, pieces: seq<bytes>)
  {
    ghost predicate Sound() {
      && answer.Proper() && answer.framed.ByLength? && !answer.Meant().closed
      && Cut(pieces) && Concat(pieces) == answer.Printed([])
    }
  }

  function Wires(turns: seq<Turn>): bytes {
    if turns == [] then [] else Wires(turns[..|turns| - 1]) + turns[|turns| - 1].wire
  }

  lemma WiresNext(turns: seq<Turn>, k: nat)
    requires k < |turns|
    ensures Wires(turns[..k + 1]) == Wires(turns[..k]) + turns[k].wire
  {
    assert turns[..k + 1][..k] == turns[..k];
  }

  /**
   * On one connection, any number of responses sent by their length are all read back, each in its
   * turn, however each of them is cut.
   */
  method Converse(c: Client, dial: Socket, turns: seq<Turn>) returns (replies: seq<Option<Response>>)
    requires c.version.V11? && c.sock == null && dial.Valid() && dial.Unread() == []
    requires forall k :: 0 <= k < |turns| ==> turns[k].Sound()
    modifies c, dial
    ensures |replies| == |turns|
    ensures forall k :: 0 <= k < |turns| ==> replies[k] == Some(turns[k].answer.Meant())
    ensures dial.sent == old(dial.sent) + Wires(turns) && dial.Unread() == []
  {
    hide LeftOn, RequestOn, ReplyOf, Message.Proper, Message.Meant, Message.Printed, Forward, Wires;
    replies := [];
    assert turns[..0] == [];
    NoWires();
    assert dial.sent + [] == dial.sent;
    for k := 0 to |turns|
      invariant |replies| == k && dial.Valid() && dial.Unread() == []
      invariant c.sock == null || c.sock == dial
      invariant forall j :: 0 <= j < k ==> replies[j] == Some(turns[j].answer.Meant())
      invariant dial.sent == old(dial.sent) + Wires(turns[..k])
    {
      var t := turns[k];
      dial.Arrives(t.pieces);
      SizedLeavesNothing(t.answer, dial.pieces);
      var r, _ := c.Request(t.wire, dial);
      replies := replies + [r];
      WiresNext(turns, k);
    }
    assert turns[..|turns|] == turns;
  }

  lemma NoWires()
    ensures Wires([]) == []
  {
  }

  // ----- chunked bodies ------------------------------------------------------------------------------

  lemma LineOn(size: bytes, ext: bytes, worth: nat, rest: bytes, held: nat, body: bytes, chunks: nat, p: seq<bytes>)
    returns (left: nat, q: seq<bytes>)
    requires SizeLine(size, ext, worth) && chunks > 0 && Cut(p)
    requires var s := size + ext + CRLF + rest; held <= |s| && Concat(p) == s[held..]
    ensures left <= |rest| && Cut(q) && Concat(q) == rest[left..]
    ensures DechunkOn(p, (size + ext + CRLF + rest)[..held], body, chunks)
            == FromRound(SizeOn(q, rest[..left], Some(worth), body), chunks - 1)
  {
    hide ReadUntilOn, Find, SizeOf, SizeOn, FromRound;
    var line := size + ext;
    var s := line + CRLF + rest;
    SizeLineSize(size, ext, worth);
    LineFirst(line, rest);
    ReadUntilHolds(s, held, p, CRLF, MAX_HEADER);
    var (r, more) := ReadUntilOn(p, CRLF, MAX_HEADER, s[..held]);
    left, q := |r.value.1|, more;
    var end := |line| + 2;
    assert s[end..end + left] == rest[..left] && s[end + left..] == rest[left..];
  }

  /** What well-formed chunks leave unread is the end of what follows them. */
  lemma {:induction false} PiecesLeave(
      pieces: seq<Piece>, last: bytes, ext: bytes, more: bytes, held: nat, body: bytes, chunks: nat, p: seq<bytes>)
    returns (k: nat)
    requires |pieces| < chunks && SizeLine(last, ext, 0) && |body| + |Data(pieces)| <= MAX_BODY
    requires forall i :: 0 <= i < |pieces| ==> GoodPiece(pieces[i])
    requires var s := PrintPieces(pieces) + (last + ext + CRLF + more);
             held <= |s| && Cut(p) && Concat(p) == s[held..]
    ensures k <= |more|
    ensures var s := PrintPieces(pieces) + (last + ext + CRLF + more);
            Concat(DechunkOn(p, s[..held], body, chunks).1) == more[k..]
    decreases |pieces|
  {
    hide DechunkOn, SizeLine, GoodPiece, TakeOn;
    var end := last + ext + CRLF + more;
    if pieces == [] {
      assert PrintPieces(pieces) + end == end;
      var q: seq<bytes>;
      k, q := LineOn(last, ext, 0, more, held, body, chunks, p);
    } else {
      var d := pieces[0];
      var tail, n := PrintPieces(pieces[1..]) + end, |d.data|;
      assert GoodPiece(d);
      GoodSize(d);
      Regroup(d.size + d.ext, d.data, PrintPieces(pieces[1..]), end);
      var u := d.data + CRLF + tail;
      assert u[n..n + 2] == CRLF && u[..n] == d.data && u[n + 2..] == tail;
      var left, q := LineOn(d.size, d.ext, n, u, held, body, chunks, p);
      TakeForward(u, left, n, body, q);
      var (round, rest) := TakeOn(q, u[..left], n, body);
      k := PiecesLeave(pieces[1..], last, ext, more, |round.buf|, body + d.data, chunks - 1, rest);
    }
  }

  lemma GoodSize(d: Piece)
    requires GoodPiece(d)
    ensures d.data != [] && SizeLine(d.size, d.ext, |d.data|)
  {
  }

  /** A chunked response is read back, and leaves the end of what closes its chunks unread. */
  lemma ChunkedLeaves(m: Message, more: bytes, pieces: seq<bytes>) returns (k: nat)
    requires m.Proper() && m.framed.ByChunks? && Cut(pieces) && Concat(pieces) == m.Printed(more)
    ensures RequestOn(V11, pieces).reply == Some(m.Meant())
    ensures k <= |more| && LeftOn(V11, pieces) == more[k..]
  {
    hide LeftOn, RequestOn, Worth, FramingOf, FieldMap, Rfc9112.Head, DechunkOn, SizeLine, GoodPiece, LastOf, Spelled;
    FramingTold(V11, m.fields, m.framed, m.body);
    var surplus, rest := HeadOn(m, more, pieces);
    var s := PrintBody(m.framed, m.body, more);
    assert s[..|surplus|] == surplus && s[|surplus|..] == Concat(rest);
    k := PiecesLeave(m.framed.pieces, m.framed.last, m.framed.ext, more, |surplus|, [], MAX_CHUNKS, rest);
  }

  // ----- cuts that leave as much as one likes -----------------------------------------------------------

  lemma LineCut(size: bytes, ext: bytes, worth: nat, rest: bytes, left: nat, q: seq<bytes>, body: bytes, chunks: nat)
    returns (p: seq<bytes>)
    requires SizeLine(size, ext, worth) && chunks > 0 && left < RECV && left <= |rest|
    requires Cut(q) && Concat(q) == rest[left..]
    ensures Cut(p) && Concat(p) == size + ext + CRLF + rest
    ensures DechunkOn(p, [], body, chunks) == FromRound(SizeOn(q, rest[..left], Some(worth), body), chunks - 1)
  {
    hide ReadUntilOn, Find, SizeOf, SizeOn, FromRound;
    var line := size + ext;
    var s := line + CRLF + rest;
    SizeLineSize(size, ext, worth);
    LineFirst(line, rest);
    var end := |line| + 2;
    assert s[end..end + left] == rest[..left] && s[end + left..] == rest[left..];
    p := ReadUntilReaches(s, 0, end + left, CRLF, MAX_HEADER, q);
    assert s[0..] == s && s[..0] == [];
  }

  lemma {:induction false} PiecesCut(
      pieces: seq<Piece>, last: bytes, ext: bytes, more: bytes, k: nat, body: bytes, chunks: nat)
    returns (p: seq<bytes>)
    requires |pieces| < chunks && SizeLine(last, ext, 0) && |body| + |Data(pieces)| <= MAX_BODY
    requires forall i :: 0 <= i < |pieces| ==> GoodPiece(pieces[i])
    requires k <= |more| && k < RECV
    ensures Cut(p) && Concat(p) == PrintPieces(pieces) + (last + ext + CRLF + more)
    ensures Concat(DechunkOn(p, [], body, chunks).1) == more[k..]
    decreases |pieces|
  {
    hide DechunkOn, SizeLine, GoodPiece;
    var end := last + ext + CRLF + more;
    if pieces == [] {
      assert PrintPieces(pieces) + end == end;
      p := LineCut(last, ext, 0, more, k, Singles(more[k..]), body, chunks);
    } else {
      var d := pieces[0];
      assert GoodPiece(d);
      Regroup(d.size + d.ext, d.data, PrintPieces(pieces[1..]), end);
      var rest := PiecesCut(pieces[1..], last, ext, more, k, body + d.data, chunks - 1);
      p := ChunkCut(d, PrintPieces(pieces[1..]) + end, body, chunks, rest);
    }
  }

  lemma ChunkCut(d: Piece, tail: bytes, body: bytes, chunks: nat, rest: seq<bytes>) returns (p: seq<bytes>)
    requires GoodPiece(d) && chunks > 0 && |body| + |d.data| <= MAX_BODY && Cut(rest) && Concat(rest) == tail
    ensures Cut(p) && Concat(p) == d.size + d.ext + CRLF + (d.data + CRLF + tail)
    ensures DechunkOn(p, [], body, chunks).1 == DechunkOn(rest, [], body + d.data, chunks - 1).1
  {
    hide DechunkOn, SizeLine, FillOn, Slice, CutOff, Holds;
    var n, u := |d.data|, d.data + CRLF + tail;
    DataStands(d.data, tail);
    var q := FillReaches(u, 0, 0, n + 2, rest);
    CutWhole(u, 0, n, body);
    p := LineCut(d.size, d.ext, n, u, 0, q, body, chunks);
  }

  lemma DataStands(data: bytes, tail: bytes)
    ensures var n, u := |data|, data + CRLF + tail;
            && Holds(u, n, CRLF) && u[..n] == data && u[n + 2..] == tail && u[n + 2 + 0..] == tail
            && u[n + 2..][..0] == [] && u[0..] == u && u[..0] == []
  {
    var n, u := |data|, data + CRLF + tail;
    assert u[n..n + 2] == CRLF;
  }

  /** Some cut of a chunked response has `k` octets of what closes its chunks come with the last chunk. */
  lemma ChunkedCut(m: Message, more: bytes, k: nat) returns (pieces: seq<bytes>)
    requires m.Proper() && m.framed.ByChunks? && k <= |more| && k < RECV
    ensures Cut(pieces) && Concat(pieces) == m.Printed(more) && LeftOn(V11, pieces) == more[k..]
  {
    hide RequestOn, Worth, FramingOf, FieldMap, Rfc9112.Head, DechunkOn, SizeLine, GoodPiece, ReadUntilOn, Find,
      ParseHead, Digital, WellFormed, OneLine, LastOf, Spelled;
    FramingTold(V11, m.fields, m.framed, m.body);
    var head := Rfc9112.Head(V11, m.code, m.reason, m.fields);
    var after := PrintBody(m.framed, m.body, more);
    var s, end := head + BLANK_LINE + after, |head| + 4;
    var q := PiecesCut(m.framed.pieces, m.framed.last, m.framed.ext, more, k, [], MAX_CHUNKS);
    HeadFound(m, after);
    HeadParses(V11, m.code, m.reason, m.fields);
    assert s[0..] == s && s[..0] == [] && s[..|head|] == head && s[end..end] == [] && s[end..] == after;
    pieces := ReadUntilReaches(s, 0, end, BLANK_LINE, MAX_HEADER, q);
  }

  // ----- and what becomes of the next response -------------------------------------------------------------

  /** A response behind a stray CR or LF is refused, whatever it is and however it is cut. */
  lemma StrayRefused(v: Version, s: bytes, pieces: seq<bytes>)
    requires Cut(pieces) && Concat(pieces) == s && s != [] && s[0] in {CR, LF}
    ensures RequestOn(v, pieces).reply == None
  {
    hide RequestOn, MayBody, LineLeaves, Find, ParseHead;
    RequestRuns(v, s, pieces);
    if Find(s, BLANK_LINE, 0).Some? {
      StrayHead(v, s[..Find(s, BLANK_LINE, 0).value]);
    }
  }

  lemma StrayHead(v: Version, head: bytes)
    requires head == [] || head[0] in {CR, LF}
    ensures ParseHead(v, head).NoHead?
  {
    hide Find;
    var line := match Find(head, CRLF, 0) case None => head case Some(j) => head[..j];
    var proto := Partition(line, SPACE).0;
    assert proto == [] || proto[0] in {CR, LF};
    ProtoIsPlain(v);
    assert Proto(v)[0] == 72;
  }

  /**
   * A chunked response whose chunks are closed by an empty line, and another response to the next
   * request: `_dechunk` stops at the zero chunk and drops what it holds, so the second is read exactly
   * if nothing of that line is left on the connection, and refused otherwise, however it is cut.
   */
  lemma NextIsReadIff(first: Message, pieces: seq<bytes>, second: Message, more: bytes, next: seq<bytes>)
    requires first.Proper() && first.framed.ByChunks? && Cut(pieces) && Concat(pieces) == first.Printed(CRLF)
    requires second.Proper() && Cut(next) && Concat(next) == LeftOn(V11, pieces) + second.Printed(more)
    ensures RequestOn(V11, pieces).reply == Some(first.Meant())
    ensures RequestOn(V11, next).reply == if LeftOn(V11, pieces) == [] then Some(second.Meant()) else None
  {
    hide LeftOn, RequestOn, Message.Proper, Message.Meant, Message.Printed;
    var k := ChunkedLeaves(first, CRLF, pieces);
    if k < 2 {
      StrayRefused(V11, Concat(next), next);
    } else {
      assert CRLF[2..] == [] && [] + second.Printed(more) == second.Printed(more);
      var surplus, rest := HeadOn(second, more, next);
    }
  }

  /** Both happen to every chunked response: the network decides whether the next one is read. */
  lemma NetworkDecides(first: Message)
    requires first.Proper() && first.framed.ByChunks?
    ensures exists pieces :: Cut(pieces) && Concat(pieces) == first.Printed(CRLF) && LeftOn(V11, pieces) == []
    ensures exists pieces :: Cut(pieces) && Concat(pieces) == first.Printed(CRLF) && LeftOn(V11, pieces) == CRLF
  {
    hide LeftOn, Message.Proper, Message.Printed;
    var clean := ChunkedCut(first, CRLF, 2);
    var stray := ChunkedCut(first, CRLF, 0);
    assert CRLF[2..] == [] && CRLF[0..] == CRLF;
  }
}
