// Chunked bodies (`_dechunk`, orchestrator/httpclient.py): what the reader makes of a stream and of
// the ways the network may cut it.
module Chunks {
  import opened Bytes
  import opened PyText
  import opened Wire

  const MAX_CHUNKS: nat := 4096
  const SEMICOLON: byte := 59

  /** The most a reader holds when a chunk begins. */
  const MAX_HELD: nat := MAX_HEADER + RECV

  function SizeOf(line: bytes): Option<int> {
    Int(Strip(Partition(line, SEMICOLON).0), 16)
  }

  /** The body, or None for an error; and the sizes read on the way. */
  datatype Outcome = Outcome(body: Option<bytes>, sizes: seq<int>)
  {
    function After(size: int): Outcome {
      Outcome(body, [size] + sizes)
    }
  }

  // ----- the reader on a cut stream ------------------------------------------------------------

  /** Reading until `n` octets are held. */
  function FillOn(pieces: seq<bytes>, buf: bytes, n: int): (Option<bytes>, seq<bytes>)
    requires Cut(pieces)
    decreases |Concat(pieces)|
  {
    if |buf| >= n then (Some(buf), pieces)
    else
      DeliverKeeps(pieces, RECV);
      var (chunk, rest) := Deliver(pieces, RECV);
      if chunk == [] then (None, rest) else FillOn(rest, buf + chunk, n)
  }

  /** What one turn of the loop comes to: the end, or a chunk taken over. */
  datatype Round = Ended(o: Outcome) | Next(size: int, body: bytes, buf: bytes)

  /** Takes a chunk off the buffer, by Python's slices: a negative size counts from the end. */
  function CutOff(buf: bytes, size: int, body: bytes): Round {
    if Slice(buf, size, size + 2) != CRLF then Ended(Outcome(None, [size]))
    else Next(size, body + Slice(buf, 0, size), Slice(buf, size + 2, |buf|))
  }

  /** The rest of a round, once its size is known. */
  function TakeOn(pieces: seq<bytes>, buf: bytes, size: int, body: bytes): (Round, seq<bytes>)
    requires Cut(pieces)
  {
    match FillOn(pieces, buf, size + 2)
    case (None, rest) => (Ended(Outcome(None, [size])), rest)
    case (Some(b), rest) => (CutOff(b, size, body), rest)
  }

  function Larger(a: nat, b: nat): nat {
    if a < b then b else a
  }

  /** A negative size that can take over what stands before its last octets in a buffer of one `recv`. */
  predicate Backward(size: int) {
    2 - RECV <= size <= -3
  }

  /** Whether a declared size is turned down before anything of it is read. */
  predicate TooLarge(size: int, body: bytes) {
    size > MAX_BODY || |body| + size > MAX_BODY
  }

  lemma {:induction false} FillKeepsCut(pieces: seq<bytes>, buf: bytes, n: int)
    requires Cut(pieces)
    ensures Cut(FillOn(pieces, buf, n).1)
    decreases |Concat(pieces)|
  {
    if |buf| < n {
      DeliverKeeps(pieces, RECV);
      var (chunk, rest) := Deliver(pieces, RECV);
      if chunk != [] {
        FillKeepsCut(rest, buf + chunk, n);
      }
    }
  }

  /** A round from its size on. */
  function SizeOn(pieces: seq<bytes>, buf: bytes, size: Option<int>, body: bytes): (r: (Round, seq<bytes>))
    requires Cut(pieces)
    ensures Cut(r.1)
  {
    if size.None? then (Ended(Outcome(None, [])), pieces)
    else if size.value == 0 then (Ended(Outcome(Some(body), [0])), pieces)
    else if TooLarge(size.value, body) then (Ended(Outcome(None, [size.value])), pieces)
    else
      FillKeepsCut(pieces, buf, size.value + 2);
      TakeOn(pieces, buf, size.value, body)
  }

  function RoundOn(pieces: seq<bytes>, buf: bytes, body: bytes): (r: (Round, seq<bytes>))
    requires Cut(pieces)
    ensures Cut(r.1)
  {
    ReadUntilSplits(pieces, CRLF, MAX_HEADER, buf);
    match ReadUntilOn(pieces, CRLF, MAX_HEADER, buf)
    case (None, rest) => (Ended(Outcome(None, [])), rest)
    case (Some((line, surplus)), rest) => SizeOn(rest, surplus, SizeOf(line), body)
  }

  function DechunkOn(pieces: seq<bytes>, buf: bytes, body: bytes, chunks: nat): (Outcome, seq<bytes>)
    requires Cut(pieces)
    decreases chunks, 0
  {
    if chunks == 0 then (Outcome(None, []), pieces) else FromRound(RoundOn(pieces, buf, body), chunks - 1)
  }

  function FromRound(turn: (Round, seq<bytes>), chunks: nat): (Outcome, seq<bytes>)
    requires Cut(turn.1)
    decreases chunks, 1
  {
    match turn
    case (Ended(o), rest) => (o, rest)
    case (Next(size, body, buf), rest) =>
      var (o, last) := DechunkOn(rest, buf, body, chunks);
      (o.After(size), last)
  }

  // ----- the reader ---------------------------------------------------------------------------------

  /** Past the line that was waited for, less than one `recv` is held. */
  lemma LineLeavesLess(pieces: seq<bytes>, buf: bytes)
    requires Cut(pieces)
    ensures var r := ReadUntilOn(pieces, CRLF, MAX_HEADER, buf).0;
            r.Some? && |buf| < RECV ==> |r.value.1| < RECV
  {
    hide ReadUntilOn, Find;
    ReadUntilCounts(pieces, CRLF, MAX_HEADER, buf);
  }

  /** Reads until `buf` holds a line; `held` is how much was buffered at most. */
  method ReadSizeLine(sock: Socket, buf: bytes) returns (r: Option<(bytes, bytes)>, ghost held: nat)
    requires sock.Valid()
    modifies sock`pieces
    ensures sock.Valid() && (r, sock.pieces) == ReadUntilOn(old(sock.pieces), CRLF, MAX_HEADER, buf)
    ensures held <= MAX_HELD || held == |buf|
    ensures r.Some? ==> |r.value.0| + 2 + |r.value.1| <= held
    ensures r.Some? && |buf| < RECV ==> |r.value.1| < RECV
  {
    hide Find;
    LineLeavesLess(sock.pieces, buf);
    var b := buf;
    while Find(b, CRLF, 0).None?
      invariant sock.Valid()
      invariant ReadUntilOn(sock.pieces, CRLF, MAX_HEADER, b) == ReadUntilOn(old(sock.pieces), CRLF, MAX_HEADER, buf)
      invariant |b| <= MAX_HELD || b == buf
      decreases MAX_HEADER + 1 - |b|
    {
      if |b| > MAX_HEADER {
        return None, |b|;
      }
      var chunk := sock.Recv(RECV);
      if chunk == [] {
        return None, |b|;
      }
      b := b + chunk;
    }
    var i := Find(b, CRLF, 0).value;
    return Some((b[..i], b[i + 2..])), |b|;
  }

  /** Reads until `buf` holds `n` octets; `held` is how much was buffered at most. */
  method Fill(sock: Socket, buf: bytes, n: int) returns (r: Option<bytes>, ghost held: nat)
    requires sock.Valid()
    modifies sock`pieces
    ensures sock.Valid() && (r, sock.pieces) == FillOn(old(sock.pieces), buf, n)
    ensures if r.None? then held < n else held == |r.value| >= n
    ensures held < n + RECV || held == |buf|
  {
    var b := buf;
    while |b| < n
      invariant sock.Valid()
      invariant FillOn(sock.pieces, b, n) == FillOn(old(sock.pieces), buf, n)
      invariant |b| < n + RECV || b == buf
      decreases n - |b|
    {
      var chunk := sock.Recv(RECV);
      if chunk == [] {
        return None, |b|;
      }
      b := b + chunk;
    }
    return Some(b), |b|;
  }

  /** A negative size finds a line end only from -3 on, and then counts from the end of the buffer. */
  lemma SliceSizes(b: bytes, size: int)
    requires size != 0 && |b| >= size + 2
    ensures size > 0 ==> Slice(b, size, size + 2) == b[size..size + 2]
                         && Slice(b, 0, size) == b[..size] && Slice(b, size + 2, |b|) == b[size + 2..]
    ensures size < 0 ==> (Slice(b, size, size + 2) == CRLF
                          <==> size <= -3 && |b| + size >= 0 && b[|b| + size..|b| + size + 2] == CRLF)
    ensures size <= -3 && |b| + size >= 0 ==>
              Slice(b, 0, size) == b[..|b| + size] && Slice(b, size + 2, |b|) == b[|b| + size + 2..]
    ensures size < 0 ==> |Slice(b, 0, size)| == if |b| + size >= 0 then |b| + size else 0
  {
  }

  /**
   * The rest of a round. `held` is the most that was buffered while waiting, `surge` what body and
   * buffer held together for a moment, after the one was extended and before the other was cut.
   */
  method TakeChunk(sock: Socket, buf: bytes, size: int, body: bytes)
    returns (round: Round, ghost held: nat, ghost surge: nat)
    requires sock.Valid() && size != 0 && !TooLarge(size, body)
    modifies sock`pieces
    ensures sock.Valid() && (round, sock.pieces) == TakeOn(old(sock.pieces), buf, size, body)
    ensures held < size + 2 + RECV || held == |buf|
    ensures if round.Next? then round.size == size && (size > 0 || size <= -3) else round.o.body == None
    ensures round.Next? && size > 0 ==> |round.body| <= MAX_BODY
    ensures round.Next? && size < 0 ==>
              |round.body| == |body| + |buf| + size && |round.body| <= MAX_BODY + |buf| && |buf| + size >= 0
    ensures |buf| < RECV && |body| <= MAX_BODY + RECV - 1 ==>
              surge <= 2 * MAX_BODY + RECV + 1 && (round.Next? ==> |round.buf| < RECV)
  {
    var full: Option<bytes>;
    full, held := Fill(sock, buf, size + 2);
    if full.None? {
      return Ended(Outcome(None, [size])), held, 0;
    }
    var b := full.value;
    SliceSizes(b, size);
    surge := |body| + |Slice(b, 0, size)| + |b|;
    if Slice(b, size, size + 2) != CRLF {
      return Ended(Outcome(None, [size])), held, surge;
    }
    return Next(size, body + Slice(b, 0, size), Slice(b, size + 2, |b|)), held, surge;
  }

  /** One turn of `_dechunk`'s loop, within its bounds. */
  method ReadChunk(sock: Socket, buf: bytes, body: bytes) returns (round: Round, ghost held: nat, ghost surge: nat)
    requires sock.Valid()
    modifies sock`pieces
    ensures sock.Valid() && (round, sock.pieces) == RoundOn(old(sock.pieces), buf, body)
    ensures round.Ended? && round.o.body.Some? ==> round.o.body.value == body
    ensures |buf| < RECV && |body| <= MAX_BODY + RECV - 1 ==>
              && |body| + held <= Larger(|body|, MAX_BODY) + MAX_HELD && surge <= 2 * MAX_BODY + RECV + 1
              && (round.Next? ==>
                    && |round.buf| < RECV && |round.body| <= MAX_BODY + RECV - 1
                    && (!Backward(round.size) ==> |round.body| <= Larger(|body|, MAX_BODY)))
  {
    hide SizeOf, Find, ReadUntilOn, TakeOn;
    var line: Option<(bytes, bytes)>;
    surge := 0;
    line, held := ReadSizeLine(sock, buf);
    if line.None? {
      return Ended(Outcome(None, [])), held, 0;
    }
    var size := SizeOf(line.value.0);
    if size.None? {
      return Ended(Outcome(None, [])), held, 0;
    }
    if size.value == 0 {
      return Ended(Outcome(Some(body), [0])), held, 0;
    }
    if TooLarge(size.value, body) {
      return Ended(Outcome(None, [size.value])), held, 0;
    }
    ghost var filled: nat;
    round, filled, surge := TakeChunk(sock, line.value.1, size.value, body);
    held := if held < filled then filled else held;
  }

  /** No size that was read can take over octets that are counted from the end of the buffer. */
  predicate Forward(sizes: seq<int>) {
    forall i :: 0 <= i < |sizes| ==> !Backward(sizes[i])
  }

  /** What holds of body, buffer and their peaks however the stream is made and cut. */
  predicate Bounded(body: bytes, buf: bytes, sizes: seq<int>, peak: nat, surge: nat) {
    && |buf| < RECV && |body| <= MAX_BODY + RECV - 1
    && peak <= MAX_BODY + RECV - 1 + MAX_HELD && surge <= 2 * MAX_BODY + RECV + 1
    && (Forward(sizes) ==> |body| <= MAX_BODY && peak <= MAX_BODY + MAX_HELD)
  }

  /** Sizes read before and after, with where the reading ends. */
  function Joined(sizes: seq<int>, run: (Outcome, seq<bytes>)): (Outcome, seq<bytes>) {
    (Outcome(run.0.body, sizes + run.0.sizes), run.1)
  }

  lemma JoinedMore(sizes: seq<int>, size: int, o: Outcome, last: seq<bytes>)
    ensures Joined(sizes, (o.After(size), last)) == Joined(sizes + [size], (o, last))
    ensures Forward(sizes + [size]) <==> Forward(sizes) && !Backward(size)
    ensures Forward(sizes + o.sizes) ==> Forward(sizes)
    ensures Joined([], (o, last)) == (o, last)
  {
    assert [] + o.sizes == o.sizes;
    assert sizes + ([size] + o.sizes) == sizes + [size] + o.sizes;
    assert forall i :: 0 <= i < |sizes| ==> (sizes + o.sizes)[i] == sizes[i] && (sizes + [size])[i] == sizes[i];
    assert (sizes + [size])[|sizes|] == size;
  }

  /**
   * `_dechunk`, for every stream and every segmentation. `peak` is the most that body and buffer
   * held together while waiting for input, `surge` the most they held at all. As long as no size
   * from -8190 to -3 is read, the body stays within its cap and the peak within cap and buffer; such
   * sizes add less than one `recv` to either.
   */
  method Dechunk(sock: Socket, rest: bytes)
    returns (r: Option<bytes>, ghost sizes: seq<int>, ghost peak: nat, ghost surge: nat)
    requires sock.Valid()
    modifies sock`pieces
    ensures sock.Valid()
    ensures (Outcome(r, sizes), sock.pieces) == DechunkOn(old(sock.pieces), rest, [], MAX_CHUNKS)
    ensures |rest| < RECV ==>
              && (r.Some? ==> |r.value| <= MAX_BODY + RECV - 1)
              && peak <= MAX_BODY + RECV - 1 + MAX_HELD && surge <= 2 * MAX_BODY + RECV + 1
    ensures |rest| < RECV && Forward(sizes) ==>
              (r.Some? ==> |r.value| <= MAX_BODY) && peak <= MAX_BODY + MAX_HELD
  {
    hide RoundOn, Forward;
    var body: bytes, buf := [], rest;
    sizes, peak, surge := [], 0, 0;
    ghost var start := DechunkOn(sock.pieces, buf, body, MAX_CHUNKS);
    JoinedMore([], 0, start.0, start.1);
    for k := 0 to MAX_CHUNKS
      invariant sock.Valid()
      invariant Joined(sizes, DechunkOn(sock.pieces, buf, body, MAX_CHUNKS - k)) == start
      invariant |rest| < RECV ==> Bounded(body, buf, sizes, peak, surge)
    {
      var round: Round;
      ghost var held, moment: nat;
      round, held, moment := ReadChunk(sock, buf, body);
      peak, surge := Larger(peak, |body| + held), Larger(surge, moment);
      match round
      case Ended(o) =>
        JoinedMore(sizes, 0, o, sock.pieces);
        r := o.body;
        sizes := sizes + o.sizes;
        return;
      case Next(size, body', buf') =>
        ghost var later := DechunkOn(sock.pieces, buf', body', MAX_CHUNKS - k - 1);
        JoinedMore(sizes, size, later.0, later.1);
        sizes := sizes + [size];
        body, buf := body', buf';
    }
    assert sizes + [] == sizes;
    r := None;
  }
}
