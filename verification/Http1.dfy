// The HTTP/1.x client of orchestrator/httpclient.py: what it makes of a response.
module Http1 {
  import opened Bytes
  import opened PyText
  import opened Wire
  import opened Chunks
  import opened ChunkOutcomes

  datatype Version = V10 | V11

  function Proto(v: Version): bytes {
    Ascii(if v.V10? then "HTTP/1.0" else "HTTP/1.1")
  }

  type Headers = map<bytes, bytes>

  function Get(h: Headers, name: bytes): bytes {
    if name in h then h[name] else []
  }

  const TRANSFER_ENCODING: bytes := Ascii("transfer-encoding")
  const CONTENT_LENGTH: bytes := Ascii("content-length")
  const CONNECTION: bytes := Ascii("connection")

  datatype Response = Response(status: nat, headers: Headers, body: bytes, closed: bool)

  // ----- the head --------------------------------------------------------------------

  const SPACE: byte := 32
  const COLON: byte := 58

  /** The status code, or None for a line this version must not send. */
  function ParseStatus(v: Version, line: bytes): Option<nat> {
    var (proto, rest) := Partition(line, SPACE);
    if rest.None? || proto != Proto(v) then None
    else
      var code := Partition(rest.value, SPACE).0;
      if Digital(code, 10) then Some(Worth(code, 10)) else None
  }

  datatype LineRead = Malformed | Blank | FieldLine(name: bytes, value: bytes)

  function ParseLine(line: bytes): LineRead {
    if line == [] then Blank
    else if line[0] == 32 || line[0] == 9 then Malformed
    else
      var (name, value) := Partition(line, COLON);
      if value.None? || name != Strip(name) then Malformed
      else FieldLine(LowerLatin1(name), Strip(value.value))
  }

  function ParseLines(lines: seq<bytes>, headers: Headers): Option<Headers>
    decreases |lines|
  {
    if lines == [] then Some(headers)
    else
      match ParseLine(lines[0])
      case Malformed => None
      case Blank => ParseLines(lines[1..], headers)
      case FieldLine(name, value) => ParseLines(lines[1..], headers[name := value])
  }

  method ParseHeaders(block: bytes) returns (r: Option<Headers>)
    ensures r == ParseLines(Lines(block), map[])
  {
    var headers: Headers := map[];
    var lines := Lines(block);
    for i := 0 to |lines|
      invariant ParseLines(lines[i..], headers) == ParseLines(lines, map[])
    {
      assert lines[i..][1..] == lines[i + 1..];
      match ParseLine(lines[i])
      case Malformed => return None;
      case Blank =>
      case FieldLine(name, value) => headers := headers[name := value];
    }
    return Some(headers);
  }

  // ----- bodies ------------------------------------------------------------------------

  /** How the headers frame a body: not at all, in chunks, by a length, or by the close. */
  datatype Framing = Misframed | Chunked | Sized(length: nat) | ToClose

  function FramingOf(v: Version, headers: Headers): Framing {
    var te := LowerLatin1(Get(headers, TRANSFER_ENCODING));
    if te != [] && te != Ascii("identity") then
      if v.V10? || te != Ascii("chunked") then Misframed else Chunked
    else if CONTENT_LENGTH in headers then
      match IntLatin1(headers[CONTENT_LENGTH])
      case None => Misframed
      case Some(n) => if n < 0 || n > MAX_BODY then Misframed else Sized(n)
    else if v.V11? then Misframed
    else ToClose
  }

  /** A body that is not chunked, from everything the peer sends. */
  function WholeBody(f: Framing, s: bytes): Option<bytes> {
    match f
    case Sized(n) => if n <= |s| then Some(s[..n]) else None
    case ToClose => if |s| <= MAX_BODY then Some(s) else None
    case _ => None
  }

  /** `_read_body` on a cut stream whose first part is already buffered, with the sizes it reads. */
  function BodyOn(f: Framing, rest: bytes, pieces: seq<bytes>): Outcome
    requires Cut(pieces)
  {
    if f.Chunked? then DechunkOn(pieces, rest, [], MAX_CHUNKS).0
    else Outcome(WholeBody(f, rest + Concat(pieces)), [])
  }

  /** What `_read_body` may come to on a stream of which `held` octets are buffered. */
  ghost predicate MayBody(f: Framing, s: bytes, held: nat, o: Outcome)
    requires held <= |s|
  {
    if f.Chunked? then MayEnd(s, held, [], MAX_CHUNKS, o) else o == Outcome(WholeBody(f, s), [])
  }

  lemma BodyRuns(f: Framing, s: bytes, held: nat, pieces: seq<bytes>)
    requires held <= |s| && Cut(pieces) && Concat(pieces) == s[held..]
    ensures MayBody(f, s, held, BodyOn(f, s[..held], pieces))
  {
    hide MayEnd, DechunkOn;
    assert s[..held] + s[held..] == s;
    RunsMay(s, held, [], MAX_CHUNKS, pieces);
  }

  lemma BodyReached(f: Framing, s: bytes, held: nat, o: Outcome) returns (p: seq<bytes>)
    requires held <= |s| && MayBody(f, s, held, o)
    ensures Cut(p) && Concat(p) == s[held..] && BodyOn(f, s[..held], p) == o
  {
    hide MayEnd, DechunkOn;
    assert s[..held] + s[held..] == s;
    if f.Chunked? {
      p := OutcomeReached(s, held, [], MAX_CHUNKS, o);
    } else {
      p := Singles(s[held..]);
    }
  }

  // ----- a whole response -----------------------------------------------------------------

  datatype Head = NoHead | Head(status: nat, headers: Headers)

  function ParseHead(v: Version, head: bytes): Head {
    var (line, block) := match Find(head, CRLF, 0)
                         case None => (head, [])
                         case Some(j) => (head[..j], head[j + 2..]);
    match ParseStatus(v, line)
    case None => NoHead
    case Some(status) =>
      match ParseLines(Lines(block), map[])
      case None => NoHead
      case Some(headers) => Head(status, headers)
  }

  /** A 1.0 exchange always ends the connection; a 1.1 exchange when the server says so. */
  predicate Closes(v: Version, headers: Headers) {
    v.V10? || LowerLatin1(Get(headers, CONNECTION)) == Ascii("close")
  }

  /** The response, or None for an error; and the chunk sizes read on the way. */
  datatype Exchange = Exchange(reply: Option<Response>, sizes: seq<int>)

  function Reply(v: Version, h: Head, o: Outcome): Exchange
    requires h.Head?
  {
    if o.body.None? then Exchange(None, o.sizes)
    else Exchange(Some(Response(h.status, h.headers, o.body.value, Closes(v, h.headers))), o.sizes)
  }

  function AnsweredOn(v: Version, head: bytes, rest: bytes, pieces: seq<bytes>): Exchange
    requires Cut(pieces)
  {
    var h := ParseHead(v, head);
    if h.NoHead? then Exchange(None, []) else Reply(v, h, BodyOn(FramingOf(v, h.headers), rest, pieces))
  }

  /** `request` on a cut stream, from an empty buffer. */
  function RequestOn(v: Version, pieces: seq<bytes>): Exchange
    requires Cut(pieces)
  {
    ReadUntilSplits(pieces, BLANK_LINE, MAX_HEADER, []);
    match ReadUntilOn(pieces, BLANK_LINE, MAX_HEADER, [])
    case (None, _) => Exchange(None, [])
    case (Some((head, rest)), more) => AnsweredOn(v, head, rest, more)
  }

  /** What of a body's octets nobody reads: a surplus that was buffered with it is dropped. */
  function LeftAfter(f: Framing, rest: bytes, pieces: seq<bytes>): bytes
    requires Cut(pieces)
  {
    match f
    case Chunked => Concat(DechunkOn(pieces, rest, [], MAX_CHUNKS).1)
    case Sized(n) =>
      if n <= |rest| then Concat(pieces)
      else if n - |rest| <= |Concat(pieces)| then Concat(pieces)[n - |rest|..] else []
    case ToClose => []
    case Misframed => Concat(pieces)
  }

  function LeftHead(v: Version, head: bytes, rest: bytes, pieces: seq<bytes>): bytes
    requires Cut(pieces)
  {
    var h := ParseHead(v, head);
    if h.NoHead? then Concat(pieces) else LeftAfter(FramingOf(v, h.headers), rest, pieces)
  }

  /** What is left on the connection for the next response, once one was read. */
  function LeftOn(v: Version, pieces: seq<bytes>): bytes
    requires Cut(pieces)
  {
    ReadUntilSplits(pieces, BLANK_LINE, MAX_HEADER, []);
    match ReadUntilOn(pieces, BLANK_LINE, MAX_HEADER, [])
    case (None, more) => Concat(more)
    case (Some((head, rest)), more) => LeftHead(v, head, rest, more)
  }

  // ----- what segmentation decides ------------------------------------------------------------

  ghost predicate MayAnswer(v: Version, head: bytes, u: bytes, held: nat, x: Exchange)
    requires held <= |u|
  {
    var h := ParseHead(v, head);
    if h.NoHead? then x == Exchange(None, [])
    else exists o :: MayBody(FramingOf(v, h.headers), u, held, o) && x == Reply(v, h, o)
  }

  ghost predicate MayAnswerAt(v: Version, s: bytes, head: bytes, end: nat, x: Exchange)
    requires end <= |s|
  {
    exists left: nat :: LineLeaves(end, 0, left, |s|) && MayAnswer(v, head, s[end..], left, x)
  }

  /** What a request may come to on a stream, told from its octets. */
  ghost predicate MayReply(v: Version, s: bytes, x: Exchange) {
    match Find(s, BLANK_LINE, 0)
    case None => x == Exchange(None, [])
    case Some(i) =>
      || (MayMiss(i + 4, 0, MAX_HEADER) && x == Exchange(None, []))
      || MayAnswerAt(v, s, s[..i], i + 4, x)
  }

  lemma AnswerRuns(v: Version, head: bytes, u: bytes, held: nat, pieces: seq<bytes>)
    requires held <= |u| && Cut(pieces) && Concat(pieces) == u[held..]
    ensures MayAnswer(v, head, u, held, AnsweredOn(v, head, u[..held], pieces))
  {
    hide MayBody, BodyOn, ParseHead, FramingOf, Reply;
    var h := ParseHead(v, head);
    if h.Head? {
      BodyRuns(FramingOf(v, h.headers), u, held, pieces);
    }
  }

  lemma RequestRuns(v: Version, s: bytes, pieces: seq<bytes>)
    requires Cut(pieces) && Concat(pieces) == s
    ensures MayReply(v, s, RequestOn(v, pieces))
  {
    hide MayAnswer, AnsweredOn, ReadUntilOn, Find, LineLeaves;
    assert s[0..] == s && s[..0] == [];
    ReadUntilHolds(s, 0, pieces, BLANK_LINE, MAX_HEADER);
    var (r, rest) := ReadUntilOn(pieces, BLANK_LINE, MAX_HEADER, []);
    if r.Some? {
      var end := Find(s, BLANK_LINE, 0).value + 4;
      var left := |r.value.1|;
      var u := s[end..];
      LineLeft(end, 0, |s|);
      assert s[end..end + left] == u[..left] && s[end + left..] == u[left..];
      AnswerRuns(v, r.value.0, u, left, rest);
    }
  }

  lemma AnswerReached(v: Version, head: bytes, u: bytes, held: nat, x: Exchange) returns (p: seq<bytes>)
    requires held <= |u| && MayAnswer(v, head, u, held, x)
    ensures Cut(p) && Concat(p) == u[held..] && AnsweredOn(v, head, u[..held], p) == x
  {
    hide MayBody, BodyOn, ParseHead, FramingOf, Reply;
    var h := ParseHead(v, head);
    p := Singles(u[held..]);
    if h.Head? {
      var o :| MayBody(FramingOf(v, h.headers), u, held, o) && x == Reply(v, h, o);
      p := BodyReached(FramingOf(v, h.headers), u, held, o);
    }
  }

  lemma ReplyReached(v: Version, s: bytes, x: Exchange) returns (p: seq<bytes>)
    requires MayReply(v, s, x)
    ensures Cut(p) && Concat(p) == s && RequestOn(v, p) == x
  {
    hide MayAnswer, AnsweredOn, ReadUntilOn, Find, LineLeaves;
    assert s[0..] == s && s[..0] == [];
    p := Singles(s);
    ReadUntilHolds(s, 0, p, BLANK_LINE, MAX_HEADER);
    if Find(s, BLANK_LINE, 0).Some? {
      var i := Find(s, BLANK_LINE, 0).value;
      if MayMiss(i + 4, 0, MAX_HEADER) && x == Exchange(None, []) {
        p := ReadUntilMisses(s, 0, BLANK_LINE, MAX_HEADER);
      } else {
        LineLeft(i + 4, 0, |s|);
        var left: nat :| LineLeaves(i + 4, 0, left, |s|) && left <= |s| - (i + 4)
                         && MayAnswer(v, s[..i], s[i + 4..], left, x);
        var u := s[i + 4..];
        var q := AnswerReached(v, s[..i], u, left, x);
        assert u[left..] == s[i + 4 + left..] && u[..left] == s[i + 4..i + 4 + left];
        p := ReadUntilReaches(s, 0, i + 4 + left, BLANK_LINE, MAX_HEADER, q);
      }
    }
  }

  /** The reply every segmentation leads to, if there is one. */
  ghost predicate Settled(v: Version, s: bytes, r: Option<Response>) {
    forall x :: MayReply(v, s, x) ==> x.reply == r
  }

  /** What a stream settles: an error, a response, or nothing because the cuts decide. */
  datatype Verdict = Refused | Undecided | Answer(r: Response)

  ghost function ReplyOf(v: Version, s: bytes): Verdict {
    if Settled(v, s, None) then Refused
    else if exists r :: Settled(v, s, Some(r)) then
      var r :| Settled(v, s, Some(r));
      Answer(r)
    else Undecided
  }

  /** The reply on some segmentation of the stream. */
  ghost predicate Replies(v: Version, s: bytes, x: Exchange) {
    exists p :: Cut(p) && Concat(p) == s && RequestOn(v, p) == x
  }

  /**
   * For every stream: it is refused, or answered in one way, exactly when every segmentation ends
   * so; and undecided exactly when two segmentations of it end differently.
   */
  lemma ReplyExact(v: Version, s: bytes)
    ensures exists x :: Replies(v, s, x)
    ensures match ReplyOf(v, s)
            case Refused => forall x :: Replies(v, s, x) ==> x.reply == None
            case Answer(r) => forall x :: Replies(v, s, x) ==> x.reply == Some(r)
            case Undecided => exists x, y :: Replies(v, s, x) && Replies(v, s, y) && x.reply != y.reply
  {
    hide MayReply, RequestOn;
    var p0 := Singles(s);
    var x0 := RequestOn(v, p0);
    RequestRuns(v, s, p0);
    assert Replies(v, s, x0);
    forall x
      ensures Replies(v, s, x) <==> MayReply(v, s, x)
    {
      if MayReply(v, s, x) {
        var p := ReplyReached(v, s, x);
      }
      if Replies(v, s, x) {
        var p :| Cut(p) && Concat(p) == s && RequestOn(v, p) == x;
        RequestRuns(v, s, p);
      }
    }
    if ReplyOf(v, s).Undecided? {
      assert !Settled(v, s, x0.reply);
    }
  }

  // ----- the client ------------------------------------------------------------------------------

  class Client {
    const version: Version
    var sock: Socket?

    constructor (v: Version)
      ensures version == v && sock == null
    {
      version := v;
      sock := null;
    }

    /** `_read_body`. Whatever the stream and its cuts, the body is capped. */
    method ReadBody(s: Socket, headers: Headers, rest: bytes) returns (r: Option<(bytes, bool)>, ghost sizes: seq<int>)
      requires s.Valid()
      modifies s`pieces
      ensures s.Valid()
      ensures var f := FramingOf(version, headers);
              var o := BodyOn(f, rest, old(s.pieces));
              && sizes == o.sizes
              && r == (if o.body.Some? then Some((o.body.value, f.ToClose?)) else None)
              && (r.Some? ==> s.Unread() == LeftAfter(f, rest, old(s.pieces)))
      ensures r.Some? && |rest| < RECV ==> |r.value.0| <= MAX_BODY + RECV - 1
      ensures r.Some? && |rest| < RECV && Forward(sizes) ==> |r.value.0| <= MAX_BODY
    {
      hide DechunkOn, Forward;
      sizes := [];
      var te := LowerLatin1(Get(headers, TRANSFER_ENCODING));
      if te != [] && te != Ascii("identity") {
        if version.V10? || te != Ascii("chunked") {
          return None, sizes;
        }
        ghost var peak, surge: nat;
        var body: Option<bytes>;
        body, sizes, peak, surge := Dechunk(s, rest);
        return if body.None? then None else Some((body.value, false)), sizes;
      }
      if CONTENT_LENGTH in headers {
        var n := IntLatin1(headers[CONTENT_LENGTH]);
        if n.None? || n.value < 0 || n.value > MAX_BODY {
          return None, sizes;
        }
        ghost var pieces := s.pieces;
        var body := ReadExact(s, n.value, rest);
        ExactLeaves(rest, pieces, n.value, body, s.Unread());
        return if body.None? then None else Some((body.value, false)), sizes;
      }
      if version.V11? {
        return None, sizes;
      }
      var body := ReadAll(s, rest);
      return if body.None? then None else Some((body.value, true)), sizes;
    }

    /**
     * One request on the open connection, or on `dial` if there is none: exactly the reply of the
     * segmentation at hand, which is the settled one if the stream settles it. The body is within
     * its cap unless a chunk size from -8190 to -3 was read, and less than one `recv` over it if so.
     * A response that ends the exchange drops the socket; any other result keeps it, with whatever
     * is left on it.
     */
    method Request(wire: bytes, dial: Socket) returns (r: Option<Response>, ghost sizes: seq<int>)
      requires dial.Valid() && (sock != null ==> sock.Valid())
      modifies this, dial, sock
      ensures var used := if old(sock) == null then dial else old(sock);
              && used.sent == old(used.sent) + wire && used.Valid()
              && Exchange(r, sizes) == RequestOn(version, old(used.pieces))
              && (match ReplyOf(version, old(used.Unread()))
                  case Refused => r == None
                  case Undecided => true
                  case Answer(a) => r == Some(a))
              && (r.Some? ==> used.Unread() == LeftOn(version, old(used.pieces)))
              && sock == if r.Some? && r.value.closed then null else used
      ensures r.Some? ==> |r.value.body| <= MAX_BODY + RECV - 1
      ensures r.Some? && Forward(sizes) ==> |r.value.body| <= MAX_BODY
    {
      hide RequestOn, MayReply, ReplyOf, Forward, ReadUntilOn, AnsweredOn, LeftOn, LeftHead;
      if sock == null {
        sock := dial;
      }
      var s: Socket := sock;
      ghost var stream, pieces := s.Unread(), s.pieces;
      RequestRuns(version, stream, pieces);
      SettledSo(version, stream, RequestOn(version, pieces));
      s.SendAll(wire);
      var got := ReadUntil(s, BLANK_LINE, MAX_HEADER);
      RequestStarts(version, pieces);
      if got.None? {
        return None, [];
      }
      var (head, rest) := got.value;
      r, sizes := Answered(s, head, rest);
    }

    method Answered(s: Socket, head: bytes, rest: bytes) returns (r: Option<Response>, ghost sizes: seq<int>)
      requires s.Valid() && |rest| < RECV && sock == s
      modifies this`sock, s`pieces
      ensures s.Valid() && Exchange(r, sizes) == AnsweredOn(version, head, rest, old(s.pieces))
      ensures r.Some? ==> s.Unread() == LeftHead(version, head, rest, old(s.pieces))
      ensures sock == if r.Some? && r.value.closed then null else s
      ensures r.Some? ==> |r.value.body| <= MAX_BODY + RECV - 1
      ensures r.Some? && Forward(sizes) ==> |r.value.body| <= MAX_BODY
    {
      hide BodyOn, LeftAfter, Forward, Find, ParseStatus, ParseLines, Lines, FramingOf, Closes;
      sizes := [];
      var end := Find(head, CRLF, 0);
      var line := if end.Some? then head[..end.value] else head;
      var block := if end.Some? then head[end.value + 2..] else [];
      var status := ParseStatus(version, line);
      if status.None? {
        return None, sizes;
      }
      var headers := ParseHeaders(block);
      if headers.None? {
        return None, sizes;
      }
      var body: Option<(bytes, bool)>;
      body, sizes := ReadBody(s, headers.value, rest);
      if body.None? {
        return None, sizes;
      }
      var (payload, closed) := body.value;
      UpToClose(version, headers.value);
      if closed || Closes(version, headers.value) {
        sock := null;
        closed := true;
      }
      return Some(Response(status.value, headers.value, payload, closed)), sizes;
    }
  }

  lemma ExactLeaves(rest: bytes, pieces: seq<bytes>, n: nat, body: Option<bytes>, unread: bytes)
    requires Cut(pieces)
    requires body.Some? ==> n <= |rest + Concat(pieces)| && body.value == (rest + Concat(pieces))[..n]
    requires body.Some? && |rest| <= n ==> body.value + unread == rest + Concat(pieces)
    requires |rest| >= n ==> unread == Concat(pieces)
    ensures body.Some? ==> unread == LeftAfter(Sized(n), rest, pieces)
  {
    if body.Some? && |rest| < n {
      assert unread == (body.value + unread)[n..] == (rest + Concat(pieces))[n..] == Concat(pieces)[n - |rest|..];
    }
  }

  lemma UpToClose(v: Version, headers: Headers)
    ensures FramingOf(v, headers).ToClose? ==> Closes(v, headers)
  {
  }

  lemma SettledSo(v: Version, s: bytes, x: Exchange)
    requires MayReply(v, s, x)
    ensures match ReplyOf(v, s)
            case Refused => x.reply == None
            case Undecided => true
            case Answer(a) => x.reply == Some(a)
  {
    hide MayReply;
  }

  lemma RequestStarts(v: Version, pieces: seq<bytes>)
    requires Cut(pieces)
    ensures match ReadUntilOn(pieces, BLANK_LINE, MAX_HEADER, [])
            case (None, _) => RequestOn(v, pieces) == Exchange(None, [])
            case (Some((head, rest)), more) =>
              && Cut(more) && |rest| < RECV && RequestOn(v, pieces) == AnsweredOn(v, head, rest, more)
              && LeftOn(v, pieces) == LeftHead(v, head, rest, more)
  {
    hide ReadUntilOn, AnsweredOn, LeftHead;
    ReadUntilSplits(pieces, BLANK_LINE, MAX_HEADER, []);
    ReadUntilCounts(pieces, BLANK_LINE, MAX_HEADER, []);
  }
}
