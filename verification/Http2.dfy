// The HTTP/2 client of orchestrator/httpclient.py: frames, control traffic and one response.
module Http2 {
  import opened Bytes
  import opened PyText
  import opened Wire
  import opened Hpack

  const DATA: byte := 0
  const HEADERS: byte := 1
  const RST_STREAM: byte := 3
  const SETTINGS: byte := 4
  const PING: byte := 6
  const GOAWAY: byte := 7
  const WINDOW_UPDATE: byte := 8

  const MAX_FRAME: nat := 0x10_0000

  /** The largest read the HTTP/2 reader asks for. */
  const RECV_FRAMES: nat := 0x1_0000

  const MAX_WAITS: nat := 64
  const MAX_ROUNDS: nat := 512

  datatype Frame = Frame(kind: byte, flags: byte, stream: nat, payload: bytes) {
    predicate EndStream() {
      flags % 2 == 1
    }

    /** The ACK flag of SETTINGS and PING is the same bit. */
    predicate Ack() {
      flags % 2 == 1
    }

    predicate EndHeaders() {
      flags / 4 % 2 == 1
    }

    /** What fits the frame header, and the reader's cap. */
    predicate Valid() {
      stream < 0x8000_0000 && |payload| <= MAX_FRAME
    }
  }

  // ----- bytes -------------------------------------------------------------------------

  /** `n.to_bytes(k, "big")`. */
  function ToBig(n: nat, k: nat): (r: bytes)
    ensures |r| == k
  {
    if k == 0 then [] else ToBig(n / 256, k - 1) + [n % 256]
  }

  /** `int.from_bytes(bs, "big")`. */
  function FromBig(bs: bytes): nat {
    if bs == [] then 0 else FromBig(bs[..|bs| - 1]) * 256 + bs[|bs| - 1]
  }

  function Power256(k: nat): nat {
    if k == 0 then 1 else Power256(k - 1) * 256
  }

  lemma {:induction false} BigRoundTrip(n: nat, k: nat)
    requires n < Power256(k)
    ensures FromBig(ToBig(n, k)) == n
  {
    if k > 0 {
      BigRoundTrip(n / 256, k - 1);
      assert ToBig(n, k)[..k - 1] == ToBig(n / 256, k - 1);
    }
  }

  function Print(f: Frame): bytes {
    ToBig(|f.payload|, 3) + [f.kind, f.flags] + ToBig(f.stream, 4) + f.payload
  }

  function PrintAll(fs: seq<Frame>): bytes {
    if fs == [] then [] else Print(fs[0]) + PrintAll(fs[1..])
  }

  lemma {:induction false} PrintAllAppend(a: seq<Frame>, b: seq<Frame>)
    ensures PrintAll(a + b) == PrintAll(a) + PrintAll(b)
    decreases |a|
  {
    if a == [] {
      assert a + b == b;
    } else {
      assert (a + b)[1..] == a[1..] + b;
      PrintAllAppend(a[1..], b);
    }
  }

  /** The first frame of a stream and the rest, or None for one cut short or too long. */
  function NextFrame(s: bytes): (r: Option<(Frame, bytes)>)
    ensures r.Some? ==> |r.value.1| < |s|
  {
    if |s| < 9 then None
    else
      var length := FromBig(s[..3]);
      if length > MAX_FRAME || |s| < 9 + length then None
      else Some((Frame(s[3], s[4], FromBig(s[5..9]) % 0x8000_0000, s[9..9 + length]), s[9 + length..]))
  }

  lemma NextOfPrinted(f: Frame, rest: bytes)
    requires f.Valid()
    ensures NextFrame(Print(f) + rest) == Some((f, rest))
  {
    var s := Print(f) + rest;
    var length, id := ToBig(|f.payload|, 3), ToBig(f.stream, 4);
    assert Power256(3) == 0x100_0000 && Power256(4) == 0x1_0000_0000;
    BigRoundTrip(|f.payload|, 3);
    BigRoundTrip(f.stream, 4);
    assert s == length + ([f.kind, f.flags] + (id + (f.payload + rest)));
    assert s[..3] == length && s[3] == f.kind && s[4] == f.flags && s[5..9] == id;
    assert s[9..] == f.payload + rest;
    assert s[9..9 + |f.payload|] == s[9..][..|f.payload|] == f.payload;
    assert s[9 + |f.payload|..] == s[9..][|f.payload|..] == rest;
  }

  /** Four octets as one number, the first counting most. */
  function Quad(a: nat, b: nat, c: nat, d: nat): nat {
    16777216 * a + 65536 * b + 256 * c + d
  }

  lemma BigOctets(bs: bytes)
    ensures |bs| == 3 ==> FromBig(bs) == Quad(0, bs[0], bs[1], bs[2])
    ensures |bs| == 4 ==> FromBig(bs) == Quad(bs[0], bs[1], bs[2], bs[3])
  {
    if |bs| == 3 || |bs| == 4 {
      var n := |bs|;
      var most, more := bs[..n - 1], bs[..n - 2];
      assert most[..n - 2] == more && more[..n - 3] == bs[..n - 3] && bs[..0] == [];
      assert n == 4 ==> bs[..1][..0] == [] && FromBig(bs[..1]) == bs[0];
      assert FromBig(more) == FromBig(bs[..n - 3]) * 256 + bs[n - 3];
      assert FromBig(most) == FromBig(more) * 256 + bs[n - 2];
    }
  }

  /**
   * The frame header of section 4.1 of RFC 9113, octet by octet: 24 bits of length, of which the reader
   * takes at most 2^20, the type, the flags, a bit that is ignored and 31 bits of stream.
   */
  lemma FrameRead(s: bytes)
    ensures var length := if |s| >= 9 then Quad(0, s[0], s[1], s[2]) else 0;
            if |s| >= 9 && length <= 1048576 && |s| >= 9 + length then
              && NextFrame(s).Some?
              && var (f, rest) := NextFrame(s).value;
                 && f.kind == s[3] && f.flags == s[4] && f.payload == s[9..9 + length] && rest == s[9 + length..]
                 && f.stream == Quad(s[5] % 128, s[6], s[7], s[8])
            else NextFrame(s) == None
  {
    hide FromBig;
    if |s| >= 9 {
      BigOctets(s[..3]);
      BigOctets(s[5..9]);
      HighBit(s[5], s[6], s[7], s[8]);
    }
  }

  lemma HighBit(a: byte, b: byte, c: byte, d: byte)
    ensures Quad(a, b, c, d) % 0x8000_0000 == Quad(a % 128, b, c, d)
  {
    assert a % 128 == if a < 128 then a else a - 128;
    assert Quad(a, b, c, d) == Quad(a % 128, b, c, d) + (if a < 128 then 0 else 0x8000_0000);
  }

  // ----- waiting for a frame --------------------------------------------------------------

  /** The acknowledgement a frame calls for. */
  function AckFor(f: Frame): seq<Frame> {
    if f.kind == SETTINGS && !f.Ack() then [Frame(SETTINGS, 1, 0, [])]
    else if f.kind == PING && !f.Ack() then [Frame(PING, 1, 0, f.payload)]
    else []
  }

  /** The awaited frame, or None for an error; what is left, and all frames read and sent. */
  datatype Wait = Wait(frame: Option<Frame>, rest: bytes, read: seq<Frame>, sent: seq<Frame>)

  function Await(s: bytes, kinds: set<byte>, waits: nat): Wait
    decreases waits
  {
    if waits == 0 then Wait(None, s, [], [])
    else
      match NextFrame(s)
      case None => Wait(None, s, [], [])
      case Some((f, rest)) =>
        if f.kind == GOAWAY then Wait(None, rest, [f], [])
        else if f.kind in kinds then Wait(Some(f), rest, [f], AckFor(f))
        else
          var w := Await(rest, kinds, waits - 1);
          Wait(w.frame, w.rest, [f] + w.read, AckFor(f) + w.sent)
  }

  lemma LogsJoin(a: seq<Frame>, b: seq<Frame>, c: seq<Frame>)
    ensures a + (b + c) == (a + b) + c
  {
  }

  lemma RoundsJoin(a: seq<Frame>, b: seq<Frame>, c: seq<Frame>, d: seq<Frame>)
    ensures a + (b + c + d) == a + b + c + d
  {
  }

  // ----- one response -----------------------------------------------------------------------

  const STATUS: bytes := Ascii(":status")

  datatype Answer = Answer(status: Option<nat>, headers: map<bytes, bytes>, body: bytes)

  /** A response being gathered, and the connection's decoder. */
  datatype Partial = Partial(answer: Answer, seen: bool, decoder: State)

  function TakeField(a: Answer, f: Field): Answer {
    if f.name == STATUS && f.value.Some? then
      a.(status := if Digital(f.value.value, 10) then Some(Worth(f.value.value, 10)) else None)
    else if f.name == [] || f.name[0] != 58 then a.(headers := a.headers[f.name := OrEmpty(f.value)])
    else a
  }

  function TakeFields(a: Answer, fields: seq<Field>): Answer
    decreases |fields|
  {
    if fields == [] then a else TakeFields(TakeField(a, fields[0]), fields[1..])
  }

  function Credit(stream: nat, n: nat): seq<Frame> {
    if n == 0 then []
    else [Frame(WINDOW_UPDATE, 0, 0, ToBig(n, 4)), Frame(WINDOW_UPDATE, 0, stream, ToBig(n, 4))]
  }

  /** What one awaited frame does to the response. */
  datatype Handled = Fatal(decoder: State) | Gathered(p: Partial, sent: seq<Frame>)

  function Handle(f: Frame, stream: nat, p: Partial): Handled {
    if f.stream != stream then Gathered(p, [])
    else if f.kind == RST_STREAM then Fatal(p.decoder)
    else if f.kind == HEADERS then
      if !f.EndHeaders() then Fatal(p.decoder)
      else
        var (fields, decoder) := DecodeFrom(f.payload, 0, p.decoder, []);
        if fields.None? then Fatal(decoder)
        else Gathered(Partial(TakeFields(p.answer, fields.value), true, decoder), [])
    else if f.kind == DATA then
      var body := p.answer.body + f.payload;
      if |body| > MAX_BODY then Fatal(p.decoder)
      else Gathered(p.(answer := p.answer.(body := body)), Credit(stream, |f.payload|))
    else Gathered(p, [])
  }

  /** The response, or None for an error; what is left, all frames read and sent, the decoder. */
  datatype Run = Run(answer: Option<Answer>, rest: bytes, read: seq<Frame>, sent: seq<Frame>, decoder: State)

  const RESPONSE_KINDS: set<byte> := {HEADERS, DATA, RST_STREAM}

  function Respond(s: bytes, stream: nat, rounds: nat, p: Partial): Run
    decreases rounds
  {
    if rounds == 0 then Run(None, s, [], [], p.decoder)
    else
      var w := Await(s, RESPONSE_KINDS, MAX_WAITS);
      match w.frame
      case None => Run(None, w.rest, w.read, w.sent, p.decoder)
      case Some(f) =>
        match Handle(f, stream, p)
        case Fatal(decoder) => Run(None, w.rest, w.read, w.sent, decoder)
        case Gathered(p', sent) =>
          if f.stream == stream && f.EndStream() && p'.seen then
            Run(Some(p'.answer), w.rest, w.read, w.sent + sent, p'.decoder)
          else
            var run := Respond(w.rest, stream, rounds - 1, p');
            run.(read := w.read + run.read, sent := w.sent + sent + run.sent)
  }

  // ----- the client ----------------------------------------------------------------------------

  class Client {
    const sock: Socket
    var buf: bytes
    const decoder: Decoder

    /** The frames sent, and what the socket had carried before the first of them. */
    ghost var log: seq<Frame>
    ghost const before: bytes

    /** The most that was ever buffered. */
    ghost var peak: nat

    constructor (s: Socket)
      requires s.Valid()
      ensures sock == s && buf == [] && log == [] && fresh(decoder)
      ensures Valid() && decoder.Abstract() == State(4096, [])
    {
      sock := s;
      buf := [];
      log := [];
      peak := 0;
      before := s.sent;
      decoder := new Decoder(4096);
    }

    /**
     * Everything on the wire is the frames of the log, in order; and never was as much buffered as
     * the largest frame and one `recv`.
     */
    ghost predicate Valid()
      reads this, sock, decoder
    {
      sock.Valid() && decoder.Valid() && sock.sent == before + PrintAll(log) && Capped()
    }

    ghost predicate Capped()
      reads this
    {
      |buf| <= peak < MAX_FRAME + RECV_FRAMES
    }

    /** What is buffered or still to come. */
    ghost function Stream(): bytes
      reads this, sock
    {
      buf + sock.Unread()
    }

    method Recv(n: nat) returns (r: Option<bytes>)
      requires sock.Valid() && Capped() && n <= MAX_FRAME
      modifies this`buf, this`peak, sock`pieces
      ensures sock.Valid() && Capped()
      ensures if |old(Stream())| < n then r == None
              else r == Some(old(Stream())[..n]) && Stream() == old(Stream())[n..]
    {
      ghost var s := Stream();
      while |buf| < n
        invariant sock.Valid() && Stream() == s
        invariant Capped()
        decreases n - |buf|
      {
        var chunk := sock.Recv(RECV_FRAMES);
        if chunk == [] {
          assert buf + [] == buf;
          return None;
        }
        ghost var had := buf;
        buf := buf + chunk;
        peak := if peak < |buf| then |buf| else peak;
        assert had + (chunk + sock.Unread()) == buf + sock.Unread();
      }
      assert s[..n] == buf[..n] && s[n..] == buf[n..] + sock.Unread();
      r, buf := Some(buf[..n]), buf[n..];
    }

    method ReadFrame() returns (r: Option<Frame>)
      requires sock.Valid() && Capped()
      modifies this`buf, this`peak, sock`pieces
      ensures sock.Valid() && Capped()
      ensures match NextFrame(old(Stream()))
              case None => r == None
              case Some((f, rest)) => r == Some(f) && Stream() == rest
    {
      ghost var s := Stream();
      var head := Recv(9);
      if head.None? {
        return None;
      }
      var h := head.value;
      assert h[..3] == s[..3] && h[5..9] == s[5..9];
      var length := FromBig(h[..3]);
      if length > MAX_FRAME {
        return None;
      }
      var payload := Recv(length);
      if payload.None? {
        return None;
      }
      assert s[9..][..length] == s[9..9 + length] && s[9..][length..] == s[9 + length..];
      return Some(Frame(h[3], h[4], FromBig(h[5..9]) % 0x8000_0000, payload.value));
    }

    method Send(f: Frame)
      requires Valid()
      modifies this`log, sock`sent
      ensures Valid() && log == old(log) + [f]
    {
      hide Print;
      sock.SendAll(Print(f));
      PrintAllAppend(log, [f]);
      assert [f][1..] == [];
      log := log + [f];
    }

    method Acknowledge(f: Frame)
      requires Valid()
      modifies this`log, sock`sent
      ensures Valid() && log == old(log) + AckFor(f)
    {
      if f.kind == SETTINGS && !f.Ack() {
        Send(Frame(SETTINGS, 1, 0, []));
      } else if f.kind == PING && !f.Ack() {
        Send(Frame(PING, 1, 0, f.payload));
      }
    }

    /** `_await_frame`: acknowledges control frames on the way. */
    method AwaitFrame(kinds: set<byte>) returns (r: Option<Frame>)
      requires Valid()
      modifies this`buf, this`peak, this`log, sock
      ensures Valid()
      ensures var w := Await(old(Stream()), kinds, MAX_WAITS);
              r == w.frame && log == old(log) + w.sent && (r.Some? ==> Stream() == w.rest)
    {
      hide NextFrame, AckFor, PrintAll;
      ghost var w := Await(Stream(), kinds, MAX_WAITS);
      for k := 0 to MAX_WAITS
        invariant Valid()
        invariant var now := Await(Stream(), kinds, MAX_WAITS - k);
                  w.frame == now.frame && w.rest == now.rest && log + now.sent == old(log) + w.sent
      {
        var next := ReadFrame();
        if next.None? {
          return None;
        }
        var f := next.value;
        if f.kind == GOAWAY {
          return None;
        }
        ghost var had := log;
        Acknowledge(f);
        if f.kind in kinds {
          return Some(f);
        }
        LogsJoin(had, AckFor(f), Await(Stream(), kinds, MAX_WAITS - k - 1).sent);
      }
      return None;
    }

    /** `_read_response` on a fresh request's stream. */
    method ReadResponse(stream: nat) returns (r: Option<Answer>)
      requires Valid()
      modifies this`buf, this`peak, this`log, sock, decoder
      ensures Valid()
      ensures var run := Respond(old(Stream()), stream, MAX_ROUNDS,
                                 Partial(Answer(None, map[], []), false, old(decoder.Abstract())));
              && r == run.answer && log == old(log) + run.sent && decoder.Abstract() == run.decoder
              && (r.Some? ==> Stream() == run.rest && |r.value.body| <= MAX_BODY)
    {
      hide Await, Handle, PrintAll;
      var p := Answer(None, map[], []);
      var seen := false;
      ghost var run := Respond(Stream(), stream, MAX_ROUNDS, Partial(p, seen, decoder.Abstract()));
      for k := 0 to MAX_ROUNDS
        invariant Valid() && |p.body| <= MAX_BODY
        invariant var now := Respond(Stream(), stream, MAX_ROUNDS - k, Partial(p, seen, decoder.Abstract()));
                  && run.answer == now.answer && run.rest == now.rest && run.decoder == now.decoder
                  && log + now.sent == old(log) + run.sent
      {
        ghost var before, had := Stream(), log;
        var frame := AwaitFrame(RESPONSE_KINDS);
        if frame.None? {
          return None;
        }
        var f := frame.value;
        var ok: bool;
        ghost var acks := Await(before, RESPONSE_KINDS, MAX_WAITS).sent;
        ghost var handled := Handle(f, stream, Partial(p, seen, decoder.Abstract()));
        ok, p, seen := HandleFrame(f, stream, p, seen);
        if !ok {
          return None;
        }
        if f.stream == stream && f.EndStream() && seen {
          return Some(p);
        }
        ghost var next := Respond(Stream(), stream, MAX_ROUNDS - k - 1, handled.p);
        RoundsJoin(had, acks, handled.sent, next.sent);
      }
      return None;
    }

    /** The body of `_read_response`'s loop, up to the test for the end of the stream. */
    method HandleFrame(f: Frame, stream: nat, p: Answer, seen: bool) returns (ok: bool, q: Answer, seen': bool)
      requires Valid() && |p.body| <= MAX_BODY
      modifies this`log, sock`sent, decoder
      ensures Valid() && |q.body| <= MAX_BODY
      ensures match Handle(f, stream, Partial(p, seen, old(decoder.Abstract())))
              case Fatal(dec) => !ok && decoder.Abstract() == dec && log == old(log)
              case Gathered(p', sent) =>
                ok && p' == Partial(q, seen', decoder.Abstract()) && log == old(log) + sent
    {
      hide PrintAll;
      ok, q, seen' := true, p, seen;
      if f.stream != stream {
        return;
      }
      if f.kind == RST_STREAM {
        ok := false;
      } else if f.kind == HEADERS {
        seen' := true;
        if !f.EndHeaders() {
          ok := false;
          return;
        }
        var fields := decoder.Decode(f.payload);
        if fields.None? {
          ok := false;
          return;
        }
        q := Gather(p, fields.value);
      } else if f.kind == DATA {
        if |p.body| + |f.payload| > MAX_BODY {
          ok := false;
          return;
        }
        q := p.(body := p.body + f.payload);
        if |f.payload| > 0 {
          Send(Frame(WINDOW_UPDATE, 0, 0, ToBig(|f.payload|, 4)));
          Send(Frame(WINDOW_UPDATE, 0, stream, ToBig(|f.payload|, 4)));
        }
      }
    }
  }

  method Gather(a: Answer, fields: seq<Field>) returns (r: Answer)
    ensures r == TakeFields(a, fields) && r.body == a.body
  {
    r := a;
    for i := 0 to |fields|
      invariant TakeFields(r, fields[i..]) == TakeFields(a, fields) && r.body == a.body
    {
      assert fields[i..][1..] == fields[i + 1..];
      r := TakeField(r, fields[i]);
    }
  }
}
