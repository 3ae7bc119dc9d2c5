// What RFC 9113 promises about a response read by the HTTP/2 client.
module Rfc9113 {
  import opened Bytes
  import opened PyText
  import opened Wire
  import opened Hpack
  import opened Http2

  // ----- control traffic and flow control, over every response read -----------------------

  /** SETTINGS (4) and PING (6) ask for an acknowledgement unless they are one (sections 6.5 and 6.7). */
  predicate Asks(f: Frame) {
    (f.kind == 4 || f.kind == 6) && f.flags % 2 == 0
  }

  /** The frames read that ask for an acknowledgement, in order. */
  function Asking(read: seq<Frame>): seq<Frame> {
    if read == [] then [] else (if Asks(read[0]) then [read[0]] else []) + Asking(read[1..])
  }

  /** An acknowledgement of settings is empty; that of a ping returns its payload. */
  predicate Acknowledges(ack: Frame, f: Frame) {
    ack.kind == f.kind && ack.flags == 1 && ack.stream == 0 && ack.payload == if f.kind == 6 then f.payload else []
  }

  /** One acknowledgement for each frame, in order, and no more. */
  predicate Matched(acks: seq<Frame>, asking: seq<Frame>) {
    |acks| == |asking| && forall i :: 0 <= i < |acks| ==> Acknowledges(acks[i], asking[i])
  }

  /** Everything sent but window updates (8). */
  function Acks(sent: seq<Frame>): seq<Frame> {
    if sent == [] then []
    else if sent[0].kind == 8 then Acks(sent[1..])
    else [sent[0]] + Acks(sent[1..])
  }

  /** The window credit sent for one stream, or for the connection (section 6.9). */
  function Credited(sent: seq<Frame>, stream: nat): nat {
    if sent == [] then 0
    else if sent[0].kind == 8 && sent[0].stream == stream then
      FromBig(sent[0].payload) + Credited(sent[1..], stream)
    else Credited(sent[1..], stream)
  }

  /** The DATA bytes kept for a stream, with `have` kept before: all until the cap would be passed. */
  function Kept(read: seq<Frame>, stream: nat, have: nat): nat {
    if read == [] then 0
    else if read[0].kind != 0 || read[0].stream != stream then Kept(read[1..], stream, have)
    else if have + |read[0].payload| > 0x10_0000 then 0
    else |read[0].payload| + Kept(read[1..], stream, have + |read[0].payload|)
  }

  /** A window update is four octets, without flags, and never for nothing (section 6.9). */
  predicate NoZeroCredit(sent: seq<Frame>) {
    forall i :: 0 <= i < |sent| && sent[i].kind == 8 ==>
      sent[i].flags == 0 && |sent[i].payload| == 4 && FromBig(sent[i].payload) > 0
  }

  lemma {:induction false} AcksAppend(a: seq<Frame>, b: seq<Frame>)
    ensures Acks(a + b) == Acks(a) + Acks(b)
    decreases |a|
  {
    if a == [] {
      assert a + b == b;
    } else {
      assert (a + b)[1..] == a[1..] + b;
      AcksAppend(a[1..], b);
    }
  }

  lemma {:induction false} CreditedAppend(a: seq<Frame>, b: seq<Frame>, stream: nat)
    ensures Credited(a + b, stream) == Credited(a, stream) + Credited(b, stream)
    decreases |a|
  {
    if a == [] {
      assert a + b == b;
    } else {
      assert (a + b)[1..] == a[1..] + b;
      CreditedAppend(a[1..], b, stream);
    }
  }

  lemma {:induction false} AskingAppend(a: seq<Frame>, b: seq<Frame>)
    ensures Asking(a + b) == Asking(a) + Asking(b)
    decreases |a|
  {
    hide Asks;
    if a == [] {
      assert a + b == b;
    } else {
      assert (a + b)[1..] == a[1..] + b;
      AskingAppend(a[1..], b);
    }
  }

  lemma MatchedAppend(a: seq<Frame>, b: seq<Frame>, x: seq<Frame>, y: seq<Frame>)
    requires Matched(a, x) && Matched(b, y)
    ensures Matched(a + b, x + y)
  {
    hide Acknowledges;
  }

  lemma OneMatched(f: Frame)
    ensures Matched(AckFor(f), Asking([f]))
    ensures forall i :: 0 <= i < |AckFor(f)| ==> AckFor(f)[i].kind == SETTINGS || AckFor(f)[i].kind == PING
  {
    assert [f][1..] == [];
  }

  lemma {:induction false} KeptAppend(a: seq<Frame>, b: seq<Frame>, stream: nat, have: nat)
    requires forall i :: 0 <= i < |a| ==> a[i].kind != DATA
    ensures Kept(a + b, stream, have) == Kept(b, stream, have)
    decreases |a|
  {
    if a == [] {
      assert a + b == b;
    } else {
      assert (a + b)[1..] == a[1..] + b;
      KeptAppend(a[1..], b, stream, have);
    }
  }

  lemma {:induction false} AwaitAcks(s: bytes, kinds: set<byte>, waits: nat)
    ensures var w := Await(s, kinds, waits);
            && Matched(w.sent, Asking(w.read))
            && forall i :: 0 <= i < |w.sent| ==> w.sent[i].kind == SETTINGS || w.sent[i].kind == PING
    decreases waits
  {
    hide Matched, Asking, AckFor, NextFrame;
    if waits > 0 && NextFrame(s).Some? {
      var (f, rest) := NextFrame(s).value;
      OneMatched(f);
      if f.kind == GOAWAY {
        NothingAsked(f);
      } else if f.kind !in kinds {
        AwaitAcks(rest, kinds, waits - 1);
        var w := Await(rest, kinds, waits - 1);
        AskingAppend([f], w.read);
        MatchedAppend(AckFor(f), w.sent, Asking([f]), Asking(w.read));
      }
    } else {
      NothingMatched();
    }
  }

  lemma NothingMatched()
    ensures Matched([], Asking([]))
  {
  }

  lemma {:induction false} AwaitStops(s: bytes, kinds: set<byte>, waits: nat)
    ensures var w := Await(s, kinds, waits);
            match w.frame
            case None => forall i :: 0 <= i < |w.read| ==> w.read[i].kind !in kinds || w.read[i].kind == GOAWAY
            case Some(f) =>
              && f.kind in kinds && |w.read| > 0 && w.read[|w.read| - 1] == f
              && forall i :: 0 <= i < |w.read| - 1 ==> w.read[i].kind !in kinds
    decreases waits
  {
    hide AckFor, NextFrame;
    if waits > 0 && NextFrame(s).Some? {
      var (f, rest) := NextFrame(s).value;
      if f.kind != GOAWAY && f.kind !in kinds {
        AwaitStops(rest, kinds, waits - 1);
      }
    }
  }

  /** Waiting sends the acknowledgements due and nothing else; only an awaited frame ends the wait. */
  lemma AwaitShape(s: bytes, kinds: set<byte>, waits: nat)
    ensures var w := Await(s, kinds, waits);
            && Matched(w.sent, Asking(w.read))
            && (forall i :: 0 <= i < |w.sent| ==> w.sent[i].kind == SETTINGS || w.sent[i].kind == PING)
            && (match w.frame
                case None => forall i :: 0 <= i < |w.read| ==> w.read[i].kind !in kinds || w.read[i].kind == GOAWAY
                case Some(f) =>
                  && f.kind in kinds && |w.read| > 0 && w.read[|w.read| - 1] == f
                  && forall i :: 0 <= i < |w.read| - 1 ==> w.read[i].kind !in kinds)
  {
    hide Await, Matched, Asking;
    AwaitAcks(s, kinds, waits);
    AwaitStops(s, kinds, waits);
  }

  lemma {:induction false} AwaitSmall(s: bytes, kinds: set<byte>, waits: nat)
    ensures var w := Await(s, kinds, waits); forall i :: 0 <= i < |w.read| ==> |w.read[i].payload| <= MAX_FRAME
    decreases waits
  {
    hide AckFor, NextFrame;
    if waits > 0 && NextFrame(s).Some? {
      var (f, rest) := NextFrame(s).value;
      FrameSmall(s);
      assert |f.payload| <= MAX_FRAME;
      AwaitSmall(rest, kinds, waits - 1);
      var w := Await(s, kinds, waits);
      assert w.read == [f] || w.read == [f] + Await(rest, kinds, waits - 1).read;
    }
  }

  lemma FrameSmall(s: bytes)
    ensures NextFrame(s).Some? ==> |NextFrame(s).value.0.payload| <= MAX_FRAME
  {
  }

  /** Some frames at the front of a stream, read one after the other. */
  predicate Reads(s: bytes, read: seq<Frame>, rest: bytes)
    decreases |read|
  {
    if read == [] then rest == s
    else
      && NextFrame(s).Some? && NextFrame(s).value.0 == read[0]
      && Reads(NextFrame(s).value.1, read[1..], rest)
  }

  lemma {:induction false} ReadsOn(s: bytes, a: seq<Frame>, mid: bytes, b: seq<Frame>, rest: bytes)
    requires Reads(s, a, mid) && Reads(mid, b, rest)
    ensures Reads(s, a + b, rest)
    decreases |a|
  {
    hide NextFrame;
    if a == [] {
      assert a + b == b;
    } else {
      assert (a + b)[1..] == a[1..] + b;
      ReadsOn(NextFrame(s).value.1, a[1..], mid, b, rest);
    }
  }

  /**
   * Waiting reads frames from the front of the stream: up to an awaited one, if no GOAWAY (7) comes
   * before it; and gives up only at a GOAWAY, after so many frames, or where the stream has no whole frame.
   */
  lemma {:induction false} AwaitReads(s: bytes, kinds: set<byte>, waits: nat)
    ensures var w := Await(s, kinds, waits);
            && Reads(s, w.read, w.rest) && |w.read| <= waits
            && match w.frame
               case Some(_) => forall i :: 0 <= i < |w.read| ==> w.read[i].kind != 7
               case None =>
                 (w.read != [] && w.read[|w.read| - 1].kind == 7) || |w.read| == waits || NextFrame(w.rest).None?
    decreases waits
  {
    hide NextFrame, AckFor;
    if waits > 0 && NextFrame(s).Some? {
      var (f, rest) := NextFrame(s).value;
      assert [f][1..] == [];
      if f.kind != GOAWAY && f.kind !in kinds {
        AwaitReads(rest, kinds, waits - 1);
        var w := Await(rest, kinds, waits - 1);
        assert ([f] + w.read)[1..] == w.read;
      }
    }
  }

  lemma NothingAsked(f: Frame)
    requires f.kind == GOAWAY
    ensures Matched([], Asking([f]))
  {
    assert [f][1..] == [];
  }

  lemma {:induction false} NoCreditInAcks(sent: seq<Frame>, stream: nat)
    requires forall i :: 0 <= i < |sent| ==> sent[i].kind != WINDOW_UPDATE
    ensures Acks(sent) == sent && Credited(sent, stream) == 0 && NoZeroCredit(sent)
    decreases |sent|
  {
    if sent != [] {
      NoCreditInAcks(sent[1..], stream);
    }
  }

  lemma CreditedOne(f: Frame, stream: nat)
    ensures Credited([f], stream) == if f.kind == WINDOW_UPDATE && f.stream == stream then FromBig(f.payload) else 0
    ensures f.kind == WINDOW_UPDATE ==> Acks([f]) == []
  {
    assert [f][1..] == [];
  }

  lemma CreditIsEqual(stream: nat, n: nat)
    requires 0 < stream && n <= MAX_FRAME
    ensures var sent := Credit(stream, n);
            && Acks(sent) == [] && NoZeroCredit(sent)
            && Credited(sent, 0) == n && Credited(sent, stream) == n
  {
    hide ToBig, FromBig;
    assert Power256(4) == 0x1_0000_0000;
    BigRoundTrip(n, 4);
    if n > 0 {
      var a := Frame(WINDOW_UPDATE, 0, 0, ToBig(n, 4));
      var b := Frame(WINDOW_UPDATE, 0, stream, ToBig(n, 4));
      CreditedOne(a, 0);
      CreditedOne(b, 0);
      CreditedOne(a, stream);
      CreditedOne(b, stream);
      CreditedAppend([a], [b], 0);
      CreditedAppend([a], [b], stream);
      AcksAppend([a], [b]);
      assert Credit(stream, n) == [a] + [b];
    }
  }

  /** One awaited frame: what is added to the body is what is kept and what is credited. */
  lemma HandleKeeps(f: Frame, stream: nat, p: Partial, later: seq<Frame>)
    requires |p.answer.body| <= MAX_BODY
    ensures var have := |p.answer.body|;
            match Handle(f, stream, p)
            case Fatal(_) => Kept([f], stream, have) == 0
            case Gathered(p', sent) =>
              var n := |p'.answer.body| - have;
              && 0 <= n <= |f.payload| && have + n <= MAX_BODY && sent == Credit(stream, n)
              && Kept([f] + later, stream, have) == n + Kept(later, stream, have + n)
  {
    hide DecodeFrom;
    assert [f][1..] == [] && ([f] + later)[1..] == later;
    if f.kind == HEADERS {
      var fields := DecodeFrom(f.payload, 0, p.decoder, []).0;
      if fields.Some? {
        FieldsKeepBody(p.answer, fields.value);
      }
    }
  }

  lemma {:induction false} FieldsKeepBody(a: Answer, fields: seq<Field>)
    ensures TakeFields(a, fields).body == a.body
    decreases |fields|
  {
    if fields != [] {
      FieldsKeepBody(TakeField(a, fields[0]), fields[1..]);
    }
  }

  /**
   * Over every response read, finished or failed: each SETTINGS and PING that asks for one gets
   * its acknowledgement, in order and nothing else does; the credit sent on the connection and on
   * the stream both equal the DATA bytes kept, which are the body; and no credit is zero.
   */
  lemma {:induction false} TrafficConserved(s: bytes, stream: nat, rounds: nat, p: Partial)
    requires 0 < stream && |p.answer.body| <= MAX_BODY
    ensures var run := Respond(s, stream, rounds, p);
            var have := |p.answer.body|;
            && Matched(Acks(run.sent), Asking(run.read))
            && Credited(run.sent, 0) == Credited(run.sent, stream) == Kept(run.read, stream, have)
            && NoZeroCredit(run.sent)
            && (run.answer.Some? ==> |run.answer.value.body| == have + Kept(run.read, stream, have))
    decreases rounds
  {
    hide Await, Handle, Credit, Kept, Acks, Asking, Matched, Credited, NoZeroCredit;
    var have := |p.answer.body|;
    NothingConserved(stream, have);
    if rounds > 0 {
      var w := Await(s, RESPONSE_KINDS, MAX_WAITS);
      AwaitShape(s, RESPONSE_KINDS, MAX_WAITS);
      AwaitSmall(s, RESPONSE_KINDS, MAX_WAITS);
      NoCreditInAcks(w.sent, 0);
      NoCreditInAcks(w.sent, stream);
      match w.frame
      case None => KeptNothing(w.read, stream, have);
      case Some(f) =>
        match Handle(f, stream, p)
        case Fatal(_) => ReadKept(w.read, f, [], stream, p);
        case Gathered(p', sent) =>
          var ends := f.stream == stream && f.EndStream() && p'.seen;
          var later := if ends then Run(Some(p'.answer), w.rest, [], [], p'.decoder)
                       else Respond(w.rest, stream, rounds - 1, p');
          ReadKept(w.read, f, later.read, stream, p);
          NothingConserved(stream, |p'.answer.body|);
          if !ends {
            TrafficConserved(w.rest, stream, rounds - 1, p');
          }
          RoundConserved(w.sent, sent, later.sent, stream, |p'.answer.body| - have);
          AskingAppend(w.read, later.read);
          MatchedAppend(w.sent, Acks(later.sent), Asking(w.read), Asking(later.read));
          assert w.sent + sent + [] == w.sent + sent && w.read + [] == w.read;
    }
  }

  /** The frames of one wait that ends in `f`: only `f` can add to the body. */
  lemma ReadKept(read: seq<Frame>, f: Frame, later: seq<Frame>, stream: nat, p: Partial)
    requires |p.answer.body| <= MAX_BODY && |read| > 0 && read[|read| - 1] == f
    requires forall i :: 0 <= i < |read| - 1 ==> read[i].kind !in RESPONSE_KINDS
    ensures var have := |p.answer.body|;
            match Handle(f, stream, p)
            case Fatal(_) => Kept(read, stream, have) == 0
            case Gathered(p', sent) =>
              var n := |p'.answer.body| - have;
              && 0 <= n <= |f.payload| && have + n <= MAX_BODY && sent == Credit(stream, n)
              && Kept(read + later, stream, have) == n + Kept(later, stream, have + n)
  {
    hide Handle, Kept, Credit;
    var init := read[..|read| - 1];
    var have := |p.answer.body|;
    assert read == init + [f] && read + later == init + ([f] + later);
    KeptAppend(init, [f], stream, have);
    KeptAppend(init, [f] + later, stream, have);
    HandleKeeps(f, stream, p, later);
  }

  lemma NothingConserved(stream: nat, have: nat)
    ensures Acks([]) == [] && Matched([], Asking([]))
    ensures Credited([], 0) == Credited([], stream) == Kept([], stream, have) == 0
    ensures NoZeroCredit([])
  {
  }

  lemma {:induction false} KeptNothing(read: seq<Frame>, stream: nat, have: nat)
    requires forall i :: 0 <= i < |read| ==> read[i].kind !in RESPONSE_KINDS || read[i].kind == GOAWAY
    ensures Kept(read, stream, have) == 0
  {
    KeptAppend(read, [], stream, have);
    assert read + [] == read;
  }

  lemma RoundConserved(acks: seq<Frame>, credit: seq<Frame>, later: seq<Frame>, stream: nat, n: nat)
    requires 0 < stream && n <= MAX_FRAME && credit == Credit(stream, n)
    requires Acks(acks) == acks && Credited(acks, 0) == 0 && Credited(acks, stream) == 0
    requires NoZeroCredit(acks) && NoZeroCredit(later)
    ensures var sent := acks + credit + later;
            && Acks(sent) == acks + Acks(later) && NoZeroCredit(sent)
            && Credited(sent, 0) == n + Credited(later, 0)
            && Credited(sent, stream) == n + Credited(later, stream)
  {
    hide Acks, Credited, Credit;
    CreditIsEqual(stream, n);
    AcksAppend(acks, credit);
    AcksAppend(acks + credit, later);
    CreditedAppend(acks, credit, 0);
    CreditedAppend(acks + credit, later, 0);
    CreditedAppend(acks, credit, stream);
    CreditedAppend(acks + credit, later, stream);
  }

  // ----- what the fields of a response say ------------------------------------------------------

  /** The text of a `:status` field whose value was read. */
  function StatusText(f: Field): Option<bytes> {
    if f.name == [58, 115, 116, 97, 116, 117, 115] then f.value else None
  }

  /** A field of the message, not of the protocol: its name does not start with a colon. */
  predicate Plain(f: Field) {
    f.name == [] || f.name[0] != 58
  }

  /** The number a status text stands for, if it is all digits. */
  predicate Numbered(text: bytes, status: Option<nat>) {
    if Decimals(text) then status.Some? && status.value == Decimal(text) else status.None?
  }

  predicate LastStatus(fields: seq<Field>, i: nat) {
    i < |fields| && StatusText(fields[i]).Some? && forall j :: i < j < |fields| ==> StatusText(fields[j]).None?
  }

  /** The last readable status counts. */
  ghost predicate StatusTold(start: Option<nat>, fields: seq<Field>, status: Option<nat>) {
    && ((forall i :: 0 <= i < |fields| ==> StatusText(fields[i]).None?) ==> status == start)
    && forall i: nat :: LastStatus(fields, i) ==> Numbered(StatusText(fields[i]).value, status)
  }

  /** The last field of its name. */
  predicate LastNamed(fields: seq<Field>, i: nat) {
    i < |fields| && Plain(fields[i]) && forall j :: i < j < |fields| ==> fields[j].name != fields[i].name
  }

  predicate Names(fields: seq<Field>, name: bytes) {
    exists i :: 0 <= i < |fields| && Plain(fields[i]) && fields[i].name == name
  }

  /** Exactly the message's names, each with the value of its last field, empty where that was not read. */
  ghost predicate HeadersTold(start: map<bytes, bytes>, fields: seq<Field>, headers: map<bytes, bytes>) {
    && (forall name :: name in headers <==> Names(fields, name) || name in start)
    && (forall i: nat :: LastNamed(fields, i) ==>
          && fields[i].name in headers
          && headers[fields[i].name] == if fields[i].value.Some? then fields[i].value.value else [])
    && (forall name :: name in start && !Names(fields, name) ==> name in headers && headers[name] == start[name])
  }

  ghost predicate Told(start: Answer, fields: seq<Field>, r: Answer) {
    StatusTold(start.status, fields, r.status) && HeadersTold(start.headers, fields, r.headers)
  }

  lemma StatusTaken(start: Answer, fields: seq<Field>, a: Answer, f: Field)
    requires StatusTold(start.status, fields, a.status)
    ensures StatusTold(start.status, fields + [f], TakeField(a, f).status)
  {
    hide TakeField, StatusText, Numbered;
    var all := fields + [f];
    assert all[|fields|] == f && forall i :: 0 <= i < |fields| ==> all[i] == fields[i];
    StatusStep(a, f);
    forall i: nat | LastStatus(all, i)
      ensures Numbered(StatusText(all[i]).value, TakeField(a, f).status)
    {
      if i < |fields| {
        assert StatusText(all[|fields|]).None? && LastStatus(fields, i);
      }
    }
  }

  lemma StatusStep(a: Answer, f: Field)
    ensures match StatusText(f)
            case Some(text) => Numbered(text, TakeField(a, f).status)
            case None => TakeField(a, f).status == a.status
  {
    hide Worth, Decimal, Digital, Decimals;
    assert STATUS == [58, 115, 116, 97, 116, 117, 115];
    if StatusText(f).Some? {
      DigitalIsDecimals(f.value.value);
      if Decimals(f.value.value) {
        PlainDecimals(f.value.value);
        WorthIsDecimal(f.value.value);
      }
    }
  }

  lemma PlainDecimals(s: bytes)
    requires Decimals(s)
    ensures forall i :: 0 <= i < |s| ==> 48 <= s[i] <= 57
  {
  }

  lemma HeadersTaken(start: Answer, fields: seq<Field>, a: Answer, f: Field)
    requires HeadersTold(start.headers, fields, a.headers)
    ensures HeadersTold(start.headers, fields + [f], TakeField(a, f).headers)
  {
    var all := fields + [f];
    var headers := TakeField(a, f).headers;
    assert STATUS[0] == 58;
    assert all[|fields|] == f && forall i :: 0 <= i < |fields| ==> all[i] == fields[i];
    forall name
      ensures Names(all, name) <==> Names(fields, name) || (Plain(f) && f.name == name)
    {
      if Names(fields, name) {
        var i :| 0 <= i < |fields| && Plain(fields[i]) && fields[i].name == name;
        assert all[i] == fields[i];
      }
    }
    forall i: nat | LastNamed(all, i)
      ensures all[i].name in headers
      ensures headers[all[i].name] == if all[i].value.Some? then all[i].value.value else []
    {
      if i < |fields| {
        assert LastNamed(fields, i) && all[|fields|].name != all[i].name;
      }
    }
  }

  /** What is made of the fields of a response. */
  lemma {:induction false} FieldsTold(a: Answer, fields: seq<Field>)
    ensures Told(a, fields, TakeFields(a, fields))
    decreases |fields|
  {
    hide TakeField, StatusTold, HeadersTold;
    if fields == [] {
      NothingTold(a);
    } else {
      var n := |fields| - 1;
      var init, f := fields[..n], fields[n];
      FieldsTold(a, init);
      assert fields == init + [f] && [f][1..] == [];
      TakeMore(a, init, [f]);
      StatusTaken(a, init, TakeFields(a, init), f);
      HeadersTaken(a, init, TakeFields(a, init), f);
    }
  }

  lemma NothingTold(a: Answer)
    ensures Told(a, [], a)
  {
  }

  // ----- reassembly ---------------------------------------------------------------------------

  /** Some frames the client does not wait for, then one it does, on whatever stream. */
  datatype Round = Round(control: seq<Frame>, frame: Frame)

  predicate Passing(f: Frame) {
    f.stream < 0x8000_0000 && |f.payload| <= 0x10_0000 && f.kind !in {0, 1, 3, 7}
  }

  predicate Legal(r: Round) {
    && |r.control| < 64 && (forall i :: 0 <= i < |r.control| ==> Passing(r.control[i]))
    && r.frame.Valid() && r.frame.kind in {0, 1, 3}
  }

  function WireOf(rounds: seq<Round>): bytes {
    if rounds == [] then [] else PrintAll(rounds[0].control) + (Print(rounds[0].frame) + WireOf(rounds[1..]))
  }

  /** The frames of one stream, in order. */
  function Own(rounds: seq<Round>, stream: nat): seq<Frame> {
    if rounds == [] then []
    else if rounds[0].frame.stream == stream then [rounds[0].frame] + Own(rounds[1..], stream)
    else Own(rounds[1..], stream)
  }

  /** The DATA (0) of some frames, in order. */
  function DataOf(own: seq<Frame>): bytes {
    if own == [] then [] else (if own[0].kind == 0 then own[0].payload else []) + DataOf(own[1..])
  }

  /** The fields their HEADERS (1) carry, and the decoder afterwards; None if a block is malformed. */
  function FieldsOf(own: seq<Frame>, decoder: State): Option<(seq<Field>, State)>
    decreases |own|
  {
    if own == [] then Some(([], decoder))
    else if own[0].kind != 1 then FieldsOf(own[1..], decoder)
    else
      match DecodeFrom(own[0].payload, 0, decoder, [])
      case (None, _) => None
      case (Some(fields), decoder') =>
        match FieldsOf(own[1..], decoder')
        case None => None
        case Some((rest, last)) => Some((fields + rest, last))
  }

  /** A stream that is not reset (3), has whole header blocks, and is ended by its last frame. */
  predicate Complete(own: seq<Frame>) {
    && own != [] && own[|own| - 1].flags % 2 == 1
    && (forall i :: 0 <= i < |own| - 1 ==> own[i].flags % 2 == 0)
    && (forall i :: 0 <= i < |own| ==> own[i].kind != 3 && (own[i].kind == 1 ==> own[i].flags / 4 % 2 == 1))
  }

  lemma {:induction false} AwaitPrinted(control: seq<Frame>, f: Frame, rest: bytes, waits: nat)
    requires Legal(Round(control, f)) && |control| < waits
    ensures var w := Await(PrintAll(control) + (Print(f) + rest), RESPONSE_KINDS, waits);
            w.frame == Some(f) && w.rest == rest
    decreases |control|
  {
    hide NextFrame, Print, AckFor;
    if control == [] {
      assert PrintAll(control) + (Print(f) + rest) == Print(f) + rest;
      NextOfPrinted(f, rest);
    } else {
      var tail := PrintAll(control[1..]) + (Print(f) + rest);
      assert PrintAll(control) + (Print(f) + rest) == Print(control[0]) + tail;
      assert Passing(control[0]);
      NextOfPrinted(control[0], tail);
      AwaitPrinted(control[1..], f, rest, waits - 1);
    }
  }

  lemma {:induction false} TakeMore(a: Answer, x: seq<Field>, y: seq<Field>)
    ensures TakeFields(TakeFields(a, x), y) == TakeFields(a, x + y)
    decreases |x|
  {
    hide TakeField;
    if x == [] {
      assert x + y == y;
    } else {
      assert (x + y)[1..] == x[1..] + y;
      TakeMore(TakeField(a, x[0]), x[1..], y);
    }
  }

  lemma {:induction false} TakeKeepsBody(a: Answer, fields: seq<Field>, body: bytes)
    ensures TakeFields(a.(body := body), fields) == TakeFields(a, fields).(body := body)
    decreases |fields|
  {
    if fields != [] {
      assert TakeField(a.(body := body), fields[0]) == TakeField(a, fields[0]).(body := body);
      TakeKeepsBody(TakeField(a, fields[0]), fields[1..], body);
    }
  }

  /** What is gathered from the frames of a stream. */
  function Gathered(p: Partial, own: seq<Frame>): Option<(Answer, State)> {
    match FieldsOf(own, p.decoder)
    case None => None
    case Some((fields, decoder)) =>
      Some((TakeFields(p.answer, fields).(body := p.answer.body + DataOf(own)), decoder))
  }

  /** One of the stream's own frames is handled, and the rest is gathered from where it left off. */
  lemma OwnHandled(f: Frame, p: Partial, own: seq<Frame>)
    requires f.kind in RESPONSE_KINDS && f.kind != RST_STREAM && (f.kind == HEADERS ==> f.EndHeaders())
    requires Gathered(p, [f] + own).Some? && |p.answer.body| + |DataOf([f] + own)| <= MAX_BODY
    ensures var h := Handle(f, f.stream, p);
            && h.Gathered? && h.p.seen == (p.seen || f.kind == HEADERS)
            && Gathered(h.p, own) == Gathered(p, [f] + own)
            && |h.p.answer.body| + |DataOf(own)| == |p.answer.body| + |DataOf([f] + own)|
  {
    hide DecodeFrom, TakeField;
    assert ([f] + own)[1..] == own;
    if f.kind == HEADERS {
      var (fields, decoder) := DecodeFrom(f.payload, 0, p.decoder, []);
      var rest := FieldsOf(own, decoder).value.0;
      TakeMore(p.answer, fields.value, rest);
      FieldsKeepBody(p.answer, fields.value);
      assert DataOf([f] + own) == DataOf(own);
    } else {
      var fields := FieldsOf(own, p.decoder).value.0;
      TakeKeepsBody(p.answer, fields, p.answer.body + f.payload);
      assert p.answer.body + f.payload + DataOf(own) == p.answer.body + DataOf([f] + own);
    }
  }

  /** What a reader that has gathered `p` may still expect of a stream. */
  ghost predicate Expected(own: seq<Frame>, p: Partial) {
    && Complete(own) && (p.seen || own[0].kind == 1)
    && FieldsOf(own, p.decoder).Some? && |p.answer.body| + |DataOf(own)| <= 0x10_0000
  }

  lemma OwnStep(f: Frame, rest: seq<Frame>, p: Partial)
    requires f.kind in RESPONSE_KINDS && Expected([f] + rest, p)
    ensures Gathered(p, [f] + rest).Some?
    ensures var h := Handle(f, f.stream, p);
            && h.Gathered? && h.p.seen
            && (rest == [] ==> f.EndStream() && Gathered(p, [f] + rest) == Some((h.p.answer, h.p.decoder)))
            && (rest != [] ==> !f.EndStream() && Expected(rest, h.p) && Gathered(p, [f] + rest) == Gathered(h.p, rest))
  {
    hide Handle, DataOf, FieldsOf;
    var own := [f] + rest;
    assert own[0] == f && forall i :: 0 <= i < |rest| ==> rest[i] == own[i + 1];
    OwnHandled(f, p, rest);
    NothingMore(Handle(f, f.stream, p).p);
  }

  lemma RoundWire(r: Round, later: seq<Round>, more: bytes)
    requires Legal(r)
    ensures var s := WireOf([r] + later) + more;
            var w := Await(s, RESPONSE_KINDS, MAX_WAITS);
            w.frame == Some(r.frame) && w.rest == WireOf(later) + more && r.frame.kind in RESPONSE_KINDS
  {
    hide Await, Print, PrintAll;
    var tail := WireOf(later) + more;
    assert ([r] + later)[1..] == later;
    assert WireOf([r] + later) + more == PrintAll(r.control) + (Print(r.frame) + tail);
    AwaitPrinted(r.control, r.frame, tail, MAX_WAITS);
  }

  /**
   * However a complete response is interleaved with control traffic and with frames of other
   * streams, within the reader's limits, it is read as what the stream's fields, as the decoder yields
   * them, say, and its DATA in order; exactly its bytes are consumed.
   */
  lemma ResponseReassembled(rounds: seq<Round>, stream: nat, p: Partial, limit: nat, more: bytes)
    requires 0 < |rounds| <= limit && (forall i :: 0 <= i < |rounds| ==> Legal(rounds[i]))
    requires Expected(Own(rounds, stream), p) && rounds[|rounds| - 1].frame.stream == stream
    ensures var own := Own(rounds, stream);
            var run := Respond(WireOf(rounds) + more, stream, limit, p);
            && run.answer.Some? && run.rest == more
            && Told(p.answer, FieldsOf(own, p.decoder).value.0, run.answer.value)
            && run.decoder == FieldsOf(own, p.decoder).value.1
            && run.answer.value.body == p.answer.body + DataOf(own)
  {
    hide Legal, WireOf, Own, Respond, FieldsOf, Complete, Told, DataOf, TakeFields;
    ResponseGathered(rounds, stream, p, limit, more);
    GatheredTold(p, Own(rounds, stream));
  }

  lemma GatheredTold(p: Partial, own: seq<Frame>)
    requires Gathered(p, own).Some?
    ensures var (answer, decoder) := Gathered(p, own).value;
            && FieldsOf(own, p.decoder).Some? && Told(p.answer, FieldsOf(own, p.decoder).value.0, answer)
            && decoder == FieldsOf(own, p.decoder).value.1 && answer.body == p.answer.body + DataOf(own)
  {
    hide FieldsOf, DataOf, TakeFields;
    FieldsTold(p.answer, FieldsOf(own, p.decoder).value.0);
  }

  lemma {:induction false} ResponseGathered(
      rounds: seq<Round>, stream: nat, p: Partial, limit: nat, more: bytes)
    requires 0 < |rounds| <= limit && (forall i :: 0 <= i < |rounds| ==> Legal(rounds[i]))
    requires Expected(Own(rounds, stream), p) && rounds[|rounds| - 1].frame.stream == stream
    ensures var run := Respond(WireOf(rounds) + more, stream, limit, p);
            && run.answer.Some? && Gathered(p, Own(rounds, stream)) == Some((run.answer.value, run.decoder))
            && run.rest == more
    decreases |rounds|
  {
    hide Await, Handle, Legal, WireOf, Gathered, Expected;
    var r, later := rounds[0], rounds[1..];
    var f := r.frame;
    assert rounds == [r] + later && Legal(r);
    RoundWire(r, later, more);
    if f.stream == stream {
      var rest := Own(later, stream);
      OwnStep(f, rest, p);
      if later == [] {
        NoWire(more);
      } else {
        OwnEnds(later, stream);
        ResponseGathered(later, stream, Handle(f, stream, p).p, limit - 1, more);
      }
    } else {
      OthersSkipped(f, stream, p);
      ResponseGathered(later, stream, p, limit - 1, more);
    }
  }

  lemma NoWire(more: bytes)
    ensures WireOf([]) + more == more
  {
  }

  lemma OthersSkipped(f: Frame, stream: nat, p: Partial)
    requires f.stream != stream
    ensures Handle(f, stream, p) == Handled.Gathered(p, [])
  {
  }

  lemma NothingMore(p: Partial)
    ensures Gathered(p, []) == Some((p.answer, p.decoder))
  {
    assert p.answer.body + DataOf([]) == p.answer.body;
  }

  lemma {:induction false} OwnEnds(rounds: seq<Round>, stream: nat)
    requires rounds != [] && rounds[|rounds| - 1].frame.stream == stream
    ensures Own(rounds, stream) != []
  {
    if |rounds| > 1 {
      OwnEnds(rounds[1..], stream);
    }
  }

  // ----- an answer is never more than that ---------------------------------------------------------

  /** The frames read that the stream's response is made of: DATA (0), HEADERS (1) and RST_STREAM (3). */
  function OwnRead(read: seq<Frame>, stream: nat): seq<Frame> {
    if read == [] then []
    else (if read[0].stream == stream && read[0].kind in {0, 1, 3} then [read[0]] else []) + OwnRead(read[1..], stream)
  }

  lemma {:induction false} OwnReadAppend(a: seq<Frame>, b: seq<Frame>, stream: nat)
    ensures OwnRead(a + b, stream) == OwnRead(a, stream) + OwnRead(b, stream)
    decreases |a|
  {
    if a == [] {
      assert a + b == b;
    } else {
      assert (a + b)[1..] == a[1..] + b;
      OwnReadAppend(a[1..], b, stream);
    }
  }

  lemma {:induction false} NothingOwn(read: seq<Frame>, stream: nat)
    requires forall i :: 0 <= i < |read| ==> read[i].kind !in {0, 1, 3}
    ensures OwnRead(read, stream) == []
  {
    if read != [] {
      NothingOwn(read[1..], stream);
    }
  }

  /** The last frame is the first to end the stream from the first HEADERS on. */
  predicate EndsLast(own: seq<Frame>, seen: bool) {
    own != []
    && var seen' := seen || own[0].kind == 1;
       if own[0].flags % 2 == 1 && seen' then |own| == 1 else EndsLast(own[1..], seen')
  }

  /** Not reset, and each header block in one frame. */
  predicate Whole(own: seq<Frame>) {
    forall i :: 0 <= i < |own| ==> own[i].kind != 3 && (own[i].kind == 1 ==> own[i].flags / 4 % 2 == 1)
  }

  /** One of the stream's own frames was handled, and the rest was gathered from where it left off. */
  lemma OwnGathers(f: Frame, p: Partial, own: seq<Frame>)
    requires f.kind in RESPONSE_KINDS && Handle(f, f.stream, p).Gathered?
    requires Gathered(Handle(f, f.stream, p).p, own).Some?
    ensures Gathered(p, [f] + own) == Gathered(Handle(f, f.stream, p).p, own)
    ensures f.kind != 3 && (f.kind == 1 ==> f.flags / 4 % 2 == 1)
    ensures Handle(f, f.stream, p).p.seen == (p.seen || f.kind == 1)
  {
    hide DecodeFrom, TakeField;
    assert ([f] + own)[1..] == own;
    if f.kind == HEADERS {
      var (fields, decoder) := DecodeFrom(f.payload, 0, p.decoder, []);
      var rest := FieldsOf(own, decoder).value.0;
      TakeMore(p.answer, fields.value, rest);
      FieldsKeepBody(p.answer, fields.value);
      assert DataOf([f] + own) == DataOf(own);
    } else {
      var fields := FieldsOf(own, p.decoder).value.0;
      TakeKeepsBody(p.answer, fields, p.answer.body + f.payload);
      assert p.answer.body + f.payload + DataOf(own) == p.answer.body + DataOf([f] + own);
    }
  }

  /** What one wait for a response reads: of the stream's own frames the last one at most. */
  lemma WaitOwn(s: bytes, stream: nat)
    ensures var w := Await(s, RESPONSE_KINDS, MAX_WAITS);
            && Reads(s, w.read, w.rest)
            && (w.frame.Some? ==>
                  && w.frame.value.kind in RESPONSE_KINDS
                  && OwnRead(w.read, stream) == if w.frame.value.stream == stream then [w.frame.value] else [])
  {
    hide Await;
    AwaitReads(s, RESPONSE_KINDS, MAX_WAITS);
    AwaitShape(s, RESPONSE_KINDS, MAX_WAITS);
    var w := Await(s, RESPONSE_KINDS, MAX_WAITS);
    if w.frame.Some? {
      var init, f := w.read[..|w.read| - 1], w.frame.value;
      assert w.read == init + [f] && [f][1..] == [];
      NothingOwn(init, stream);
      OwnReadAppend(init, [f], stream);
    }
  }

  /**
   * A response is answered only if its stream was not reset, its header blocks were whole and decoded,
   * and a frame after the first of them ended the stream; then the answer is what the fields say and the
   * DATA of the frames read, which are those at the front of the stream of octets.
   */
  lemma AnswerMeans(s: bytes, stream: nat, rounds: nat, p: Partial)
    requires Respond(s, stream, rounds, p).answer.Some?
    ensures var run := Respond(s, stream, rounds, p);
            var own := OwnRead(run.read, stream);
            && Reads(s, run.read, run.rest) && EndsLast(own, p.seen) && Whole(own)
            && FieldsOf(own, p.decoder).Some? && run.decoder == FieldsOf(own, p.decoder).value.1
            && Told(p.answer, FieldsOf(own, p.decoder).value.0, run.answer.value)
            && run.answer.value.body == p.answer.body + DataOf(own)
  {
    hide Respond, Reads, EndsLast, Whole, FieldsOf, Told, DataOf, TakeFields, OwnRead;
    AnswerGathered(s, stream, rounds, p);
    GatheredTold(p, OwnRead(Respond(s, stream, rounds, p).read, stream));
  }

  lemma {:induction false} AnswerGathered(s: bytes, stream: nat, rounds: nat, p: Partial)
    requires Respond(s, stream, rounds, p).answer.Some?
    ensures var run := Respond(s, stream, rounds, p);
            var own := OwnRead(run.read, stream);
            && Reads(s, run.read, run.rest) && EndsLast(own, p.seen) && Whole(own)
            && Gathered(p, own) == Some((run.answer.value, run.decoder))
    decreases rounds
  {
    hide Await, Handle, Gathered, OwnRead, Reads;
    var run := Respond(s, stream, rounds, p);
    var w := Await(s, RESPONSE_KINDS, MAX_WAITS);
    WaitOwn(s, stream);
    var f := w.frame.value;
    var p' := Handle(f, stream, p).p;
    if f.stream == stream && f.EndStream() && p'.seen {
      NothingMore(p');
      OwnGathers(f, p, []);
      assert [f] + [] == [f];
    } else {
      AnswerGathered(w.rest, stream, rounds - 1, p');
      var later := Respond(w.rest, stream, rounds - 1, p');
      var own := OwnRead(later.read, stream);
      ReadsOn(s, w.read, w.rest, later.read, later.rest);
      OwnReadAppend(w.read, later.read, stream);
      if f.stream == stream {
        OwnGathers(f, p, own);
        assert ([f] + own)[1..] == own && forall i :: 0 <= i < |own| ==> ([f] + own)[i + 1] == own[i];
      } else {
        OthersSkipped(f, stream, p);
        assert [] + own == own;
      }
    }
  }
}
