// A whole HTTP/2 connection: several responses of a peer that conforms to RFC 7541 and RFC 9113,
// read one after the other with one decoder (orchestrator/httpclient.py).
module Connections {
  import opened Bytes
  import opened Hpack
  import opened Rfc7541
  import opened Http2
  import opened Rfc9113

  /** A response on the wire, and the representations its header blocks are made of. */
  datatype Sending = Sending(stream: nat, rounds: seq<Round>, blocks: seq<seq<Rep>>)

  /** The header blocks that some frames carry, in order. */
  function BlocksOf(own: seq<Frame>): seq<bytes> {
    if own == [] then []
    else (if own[0].kind == 1 then [own[0].payload] else []) + BlocksOf(own[1..])
  }

  function Printed(blocks: seq<seq<Rep>>): seq<bytes> {
    if blocks == [] then [] else [Rfc7541.PrintAll(blocks[0])] + Printed(blocks[1..])
  }

  /** The erased fields of some blocks, one after the other. */
  function AllErased(fields: seq<seq<Entry>>): seq<Field> {
    if fields == [] then [] else ErasedAll(fields[0]) + AllErased(fields[1..])
  }

  predicate ShortBlocks(blocks: seq<seq<Rep>>) {
    forall b, i :: 0 <= b < |blocks| && 0 <= i < |blocks[b]| ==> ShortStrings(blocks[b][i])
  }

  lemma OneBlock(peer: Peer, st: State, reps: seq<Rep>, rest: seq<seq<Rep>>, limit: nat)
    requires Synced(peer, st) && limit <= MAX_TABLE_SIZE && ShortBlocks([reps] + rest)
    requires SendBlocks(peer, [reps] + rest, limit).Some?
    ensures SendBlock(peer, reps, limit).Some? && ShortBlocks(rest)
    ensures var (es, peer') := SendBlock(peer, reps, limit).value;
            var (fields, st') := DecodeFrom(Rfc7541.PrintAll(reps), 0, st, []);
            && fields == Some(ErasedAll(es)) && Synced(peer', st')
            && SendBlocks(peer', rest, limit).Some?
            && SendBlocks(peer, [reps] + rest, limit).value
               == ([es] + SendBlocks(peer', rest, limit).value.0, SendBlocks(peer', rest, limit).value.1)
  {
    hide SendBlock, ReceiveAll, DecodeFrom, Rfc7541.PrintAll, ShortStrings, SmallRep, Synced, ErasedAll;
    var all := [reps] + rest;
    assert all[0] == reps && all[1..] == rest;
    assert forall i :: 0 <= i < |reps| ==> ShortStrings(all[0][i]);
    forall b, i | 0 <= b < |rest| && 0 <= i < |rest[b]|
      ensures ShortStrings(rest[b][i])
    {
      assert rest[b] == all[b + 1];
    }
    BlockSynced(peer, st, reps, limit, []);
    HoldsWhole(Rfc7541.PrintAll(reps));
    DecodePrinted(st, reps, Rfc7541.PrintAll(reps), 0, []);
    var es := SendBlock(peer, reps, limit).value.0;
    assert [] + ErasedAll(es) == ErasedAll(es);
  }

  /** The fields read from a stream are the true ones, erased, and the tables stay in step. */
  lemma {:induction false} FieldsErased(own: seq<Frame>, peer: Peer, st: State, blocks: seq<seq<Rep>>, limit: nat)
    requires Synced(peer, st) && limit <= MAX_TABLE_SIZE && SendBlocks(peer, blocks, limit).Some?
    requires BlocksOf(own) == Printed(blocks) && ShortBlocks(blocks)
    ensures var (fields, peer') := SendBlocks(peer, blocks, limit).value;
            FieldsOf(own, st).Some? && FieldsOf(own, st).value.0 == AllErased(fields)
            && Synced(peer', FieldsOf(own, st).value.1)
    decreases |own|
  {
    hide SendBlock, DecodeFrom, Rfc7541.PrintAll, ShortBlocks, Synced, ErasedAll;
    if own != [] {
      if own[0].kind == 1 {
        assert blocks == [blocks[0]] + blocks[1..];
        assert BlocksOf(own)[1..] == BlocksOf(own[1..]) && Printed(blocks)[1..] == Printed(blocks[1..]);
        OneBlock(peer, st, blocks[0], blocks[1..], limit);
        FieldsErased(own[1..], SendBlock(peer, blocks[0], limit).value.1,
                     DecodeFrom(own[0].payload, 0, st, []).1, blocks[1..], limit);
      } else {
        FieldsErased(own[1..], peer, st, blocks, limit);
      }
    }
  }

  /** A complete response within the reader's limits, its header blocks from a conforming encoder. */
  ghost predicate Conforms(x: Sending, peer: Peer, limit: nat) {
    var own := Own(x.rounds, x.stream);
    && 0 < |x.rounds| <= 512 && (forall i :: 0 <= i < |x.rounds| ==> Rfc9113.Legal(x.rounds[i]))
    && x.rounds[|x.rounds| - 1].frame.stream == x.stream
    && Complete(own) && own[0].kind == 1 && |DataOf(own)| <= 0x10_0000
    && BlocksOf(own) == Printed(x.blocks) && ShortBlocks(x.blocks)
    && SendBlocks(peer, x.blocks, limit).Some?
  }

  /** All responses of a connection, with one encoder throughout. */
  ghost predicate AllConform(xs: seq<Sending>, peer: Peer, limit: nat)
    decreases |xs|
  {
    xs == [] || (Conforms(xs[0], peer, limit)
                 && AllConform(xs[1..], SendBlocks(peer, xs[0].blocks, limit).value.1, limit))
  }

  function WireOfAll(xs: seq<Sending>): bytes {
    if xs == [] then [] else WireOf(xs[0].rounds) + WireOfAll(xs[1..])
  }

  const NOTHING: Answer := Answer(None, map[], [])

  /** The answer is what the peer means by its response, as far as the client can know it. */
  ghost predicate Means(x: Sending, peer: Peer, limit: nat, answer: Answer)
    requires SendBlocks(peer, x.blocks, limit).Some?
  {
    && Told(NOTHING, AllErased(SendBlocks(peer, x.blocks, limit).value.0), answer)
    && answer.body == DataOf(Own(x.rounds, x.stream))
  }

  /** The client's reads, one for each request, and whether they give what the peer means. */
  ghost predicate AllRead(s: bytes, xs: seq<Sending>, peer: Peer, decoder: State, limit: nat)
    requires AllConform(xs, peer, limit)
    decreases |xs|
  {
    xs == [] ||
    var run := Respond(s, xs[0].stream, MAX_ROUNDS, Partial(NOTHING, false, decoder));
    && run.answer.Some? && Means(xs[0], peer, limit, run.answer.value)
    && AllRead(run.rest, xs[1..], SendBlocks(peer, xs[0].blocks, limit).value.1, run.decoder, limit)
  }

  lemma OneRead(x: Sending, peer: Peer, decoder: State, limit: nat, more: bytes)
    requires Conforms(x, peer, limit) && Synced(peer, decoder) && limit <= MAX_TABLE_SIZE
    ensures SendBlocks(peer, x.blocks, limit).Some?
    ensures var run := Respond(WireOf(x.rounds) + more, x.stream, MAX_ROUNDS, Partial(NOTHING, false, decoder));
            && run.answer.Some? && Means(x, peer, limit, run.answer.value) && run.rest == more
            && Synced(SendBlocks(peer, x.blocks, limit).value.1, run.decoder)
  {
    hide Respond, FieldsOf, SendBlocks, Synced, Told, AllErased, DataOf, Own, BlocksOf, WireOf, Rfc9113.Legal;
    var own := Own(x.rounds, x.stream);
    var p := Partial(NOTHING, false, decoder);
    FieldsErased(own, peer, decoder, x.blocks, limit);
    assert [] + DataOf(own) == DataOf(own);
    ResponseReassembled(x.rounds, x.stream, p, MAX_ROUNDS, more);
  }

  /**
   * Over several requests on one connection, however their responses are interleaved with control
   * traffic and other streams: each is read as the peer's true fields, with what was Huffman-coded
   * blanked out, and its DATA in order.
   */
  lemma {:induction false} ConnectionReassembled(
      xs: seq<Sending>, peer: Peer, decoder: State, limit: nat, more: bytes)
    requires AllConform(xs, peer, limit) && Synced(peer, decoder) && limit <= MAX_TABLE_SIZE
    ensures AllRead(WireOfAll(xs) + more, xs, peer, decoder, limit)
    decreases |xs|
  {
    hide Respond, Conforms, Synced, Means, WireOf;
    if xs != [] {
      var tail := WireOfAll(xs[1..]) + more;
      assert WireOfAll(xs) + more == WireOf(xs[0].rounds) + tail;
      OneRead(xs[0], peer, decoder, limit, tail);
      var run := Respond(WireOf(xs[0].rounds) + tail, xs[0].stream, MAX_ROUNDS, Partial(NOTHING, false, decoder));
      ConnectionReassembled(xs[1..], SendBlocks(peer, xs[0].blocks, limit).value.1, run.decoder, limit, more);
    }
  }

  /** In particular from the start of a connection, with the default table on both sides. */
  lemma FreshConnectionReassembled(xs: seq<Sending>, limit: nat, more: bytes)
    requires AllConform(xs, Peer(4096, []), limit) && limit <= MAX_TABLE_SIZE
    ensures AllRead(WireOfAll(xs) + more, xs, Peer(4096, []), State(4096, []), limit)
  {
    hide AllRead, AllConform;
    FreshInSync(4096);
    ConnectionReassembled(xs, Peer(4096, []), State(4096, []), limit, more);
  }
}
