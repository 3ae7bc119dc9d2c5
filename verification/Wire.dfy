// The socket readers of orchestrator/httpclient.py.
//
// A socket delivers a finite stream already cut into pieces; the cuts stand for whatever the
// network does, so a contract that mentions only the whole stream holds under every segmentation.
module Wire {
  import opened Bytes

  const MAX_BODY: nat := 0x10_0000
  const MAX_HEADER: nat := 0x1_0000

  /** The largest read the HTTP/1 readers ask for. */
  const RECV: nat := 8192

  /** No piece is empty: an empty read means the peer closed. */
  ghost predicate Cut(pieces: seq<bytes>) {
    forall i :: 0 <= i < |pieces| ==> pieces[i] != []
  }

  /** One `recv(n)`: at most one piece, at most `n` bytes of it. */
  function Deliver(pieces: seq<bytes>, n: nat): (bytes, seq<bytes>) {
    if pieces == [] then ([], [])
    else if |pieces[0]| <= n then (pieces[0], pieces[1..])
    else (pieces[0][..n], [pieces[0][n..]] + pieces[1..])
  }

  lemma {:induction false} DeliverKeeps(pieces: seq<bytes>, n: nat)
    requires Cut(pieces) && n > 0
    ensures var (chunk, rest) := Deliver(pieces, n);
            && Cut(rest) && |chunk| <= n && chunk + Concat(rest) == Concat(pieces)
            && (chunk == [] <==> Concat(pieces) == [])
  {
    if pieces != [] && |pieces[0]| > n {
      var first, tail, more := pieces[0][..n], pieces[0][n..], pieces[1..];
      ConcatCons(tail, more);
      assert pieces[0] == first + tail;
      assert first + (tail + Concat(more)) == first + tail + Concat(more);
    } else {
      assert pieces == [] || Concat(pieces) == pieces[0] + Concat(pieces[1..]);
    }
  }

  class Socket {
    var pieces: seq<bytes>
    var sent: bytes

    ghost predicate Valid()
      reads this
    {
      Cut(pieces)
    }

    /** What the peer has sent and nobody has read. */
    ghost function Unread(): bytes
      reads this
    {
      Concat(pieces)
    }

    method Recv(n: nat) returns (chunk: bytes)
      requires Valid() && n > 0
      modifies this`pieces
      ensures Valid() && (chunk, pieces) == Deliver(old(pieces), n)
      ensures chunk + Unread() == old(Unread()) && |chunk| <= n
      ensures chunk == [] <==> old(Unread()) == []
    {
      DeliverKeeps(pieces, n);
      if pieces == [] {
        return [];
      }
      if |pieces[0]| <= n {
        chunk, pieces := pieces[0], pieces[1..];
      } else {
        chunk, pieces := pieces[0][..n], [pieces[0][n..]] + pieces[1..];
      }
    }

    /** The peer sends more. */
    method Arrives(more: seq<bytes>)
      requires Valid() && Cut(more)
      modifies this`pieces
      ensures Valid() && Unread() == old(Unread()) + Concat(more)
    {
      ConcatBoth(pieces, more);
      pieces := pieces + more;
    }

    method SendAll(data: bytes)
      modifies this`sent
      ensures sent == old(sent) + data
    {
      sent := sent + data;
    }
  }

  // ----- reading up to a marker ----------------------------------------------------------

  /** `_read_until` on a cut stream: head and surplus, or None, and what is left of the pieces. */
  function ReadUntilOn(pieces: seq<bytes>, marker: bytes, limit: nat, buf: bytes)
    : (Option<(bytes, bytes)>, seq<bytes>)
    requires Cut(pieces)
    decreases |Concat(pieces)|
  {
    match Find(buf, marker, 0)
    case Some(i) => (Some((buf[..i], buf[i + |marker|..])), pieces)
    case None =>
      DeliverKeeps(pieces, RECV);
      var (chunk, rest) := Deliver(pieces, RECV);
      if |buf| > limit then (None, pieces)
      else if chunk == [] then (None, rest)
      else ReadUntilOn(rest, marker, limit, buf + chunk)
  }

  method ReadUntil(sock: Socket, marker: bytes, limit: nat) returns (r: Option<(bytes, bytes)>)
    requires sock.Valid()
    modifies sock`pieces
    ensures sock.Valid() && (r, sock.pieces) == ReadUntilOn(old(sock.pieces), marker, limit, [])
  {
    var buf: bytes := [];
    while Find(buf, marker, 0).None?
      invariant sock.Valid()
      invariant ReadUntilOn(sock.pieces, marker, limit, buf) == ReadUntilOn(old(sock.pieces), marker, limit, [])
      decreases limit + 1 - |buf|
    {
      if |buf| > limit {
        return None;
      }
      var chunk := sock.Recv(RECV);
      if chunk == [] {
        return None;
      }
      buf := buf + chunk;
    }
    var i := Find(buf, marker, 0).value;
    return Some((buf[..i], buf[i + |marker|..]));
  }

  /**
   * Whatever is read is the text before the first marker, and nothing of the rest is lost. Read or
   * refused, at most `limit` and one `recv` octets were ever buffered.
   */
  lemma {:induction false} ReadUntilSplits(pieces: seq<bytes>, marker: bytes, limit: nat, buf: bytes)
    requires Cut(pieces)
    ensures var (r, rest) := ReadUntilOn(pieces, marker, limit, buf);
            var stream := buf + Concat(pieces);
            && Cut(rest)
            && (r.Some? ==>
                  var (head, surplus) := r.value;
                  && Find(stream, marker, 0) == Some(|head|)
                  && stream == head + marker + (surplus + Concat(rest))
                  && (|buf| <= limit + RECV ==> |head| + |marker| + |surplus| <= limit + RECV))
            && (|buf| <= limit + RECV ==> |buf| + |Concat(pieces)| - |Concat(rest)| <= limit + RECV)
    decreases |Concat(pieces)|
  {
    var stream := buf + Concat(pieces);
    DeliverKeeps(pieces, RECV);
    match Find(buf, marker, 0)
    case Some(i) =>
      FindInPrefix(buf, Concat(pieces), marker);
      assert buf == buf[..i] + marker + buf[i + |marker|..];
    case None =>
      var (chunk, rest) := Deliver(pieces, RECV);
      if |buf| <= limit && chunk != [] {
        ReadUntilSplits(rest, marker, limit, buf + chunk);
        assert buf + chunk + Concat(rest) == stream;
      }
  }

  // ----- what segmentation decides --------------------------------------------------------------

  /** How much a reader that holds `held` octets may hold once it has the marker that ends at `end`. */
  predicate MayHold(end: nat, held: nat, now: nat, total: nat, limit: nat) {
    if end <= held then now == held
    else held <= limit && end <= now <= total && now <= limit + RECV && now < end + RECV
  }

  /** The reader may pass its limit before it has that marker. */
  predicate MayMiss(end: nat, held: nat, limit: nat) {
    held < end && (held > limit || end > limit + 1)
  }

  lemma {:induction false} ReadUntilCounts(pieces: seq<bytes>, marker: bytes, limit: nat, buf: bytes)
    requires Cut(pieces)
    ensures var r := ReadUntilOn(pieces, marker, limit, buf).0;
            var stream := buf + Concat(pieces);
            match Find(stream, marker, 0)
            case None => r == None
            case Some(i) =>
              var end := i + |marker|;
              if r.None? then MayMiss(end, |buf|, limit)
              else MayHold(end, |buf|, end + |r.value.1|, |stream|, limit) && end + |r.value.1| <= |stream|
    decreases |Concat(pieces)|
  {
    hide Find;
    var stream := buf + Concat(pieces);
    FindInPrefix(buf, Concat(pieces), marker);
    if Find(buf, marker, 0).None? {
      DeliverKeeps(pieces, RECV);
      var (chunk, rest) := Deliver(pieces, RECV);
      if chunk == [] {
        assert stream == buf;
      } else if |buf| <= limit {
        assert buf + chunk + Concat(rest) == stream;
        ReadUntilCounts(rest, marker, limit, buf + chunk);
      }
    }
  }

  /** Every segmentation ends in one of these ways. */
  lemma ReadUntilHolds(s: bytes, held: nat, pieces: seq<bytes>, marker: bytes, limit: nat)
    requires held <= |s| && Cut(pieces) && Concat(pieces) == s[held..]
    ensures var (r, rest) := ReadUntilOn(pieces, marker, limit, s[..held]);
            && Cut(rest)
            && match Find(s, marker, 0)
               case None => r == None
               case Some(i) =>
                 var end := i + |marker|;
                 if r.None? then MayMiss(end, held, limit)
                 else
                   var now := end + |r.value.1|;
                   && MayHold(end, held, now, |s|, limit) && now <= |s|
                   && r == Some((s[..i], s[end..now])) && Concat(rest) == s[now..]
  {
    hide ReadUntilOn, Find, MayHold, MayMiss;
    assert s[..held] + s[held..] == s;
    ReadUntilSplits(pieces, marker, limit, s[..held]);
    ReadUntilCounts(pieces, marker, limit, s[..held]);
    var (r, rest) := ReadUntilOn(pieces, marker, limit, s[..held]);
    if r.Some? {
      SplitOff(s, r.value.0, marker, r.value.1, Concat(rest));
    }
  }

  lemma SplitOff(s: bytes, head: bytes, marker: bytes, surplus: bytes, rest: bytes)
    requires s == head + marker + (surplus + rest)
    ensures var end := |head| + |marker|;
            head == s[..|head|] && surplus == s[end..end + |surplus|] && rest == s[end + |surplus|..]
  {
  }

  lemma HeldMarker(s: bytes, held: nat, marker: bytes)
    requires held <= |s| && Find(s[..held], marker, 0).Some? && Find(s, marker, 0) == Find(s[..held], marker, 0)
    ensures var i := Find(s, marker, 0).value;
            && i + |marker| <= held && s[..held][..i] == s[..i]
            && s[..held][i + |marker|..] == s[i + |marker|..held]
  {
  }

  lemma NotYetThere(s: bytes, held: nat, marker: bytes)
    requires held <= |s| && Find(s, marker, 0).Some? && held < Find(s, marker, 0).value + |marker|
    ensures Find(s[..held], marker, 0) == None
  {
    assert s[..held] + s[held..] == s;
    FindInPrefix(s[..held], s[held..], marker);
  }

  /** One more piece in front. */
  lemma OnePiece(s: bytes, held: nat, upTo: nat, q: seq<bytes>)
    requires held < upTo <= |s| && upTo - held <= RECV && Cut(q) && Concat(q) == s[upTo..]
    ensures var p := [s[held..upTo]] + q;
            Cut(p) && Concat(p) == s[held..] && Deliver(p, RECV) == (s[held..upTo], q)
    ensures s[..held] + s[held..upTo] == s[..upTo]
  {
    ConcatCons(s[held..upTo], q);
    assert s[held..upTo] + s[upTo..] == s[held..];
  }

  /** Each way of reading the marker is that of some segmentation. */
  lemma {:induction false} ReadUntilReaches(s: bytes, held: nat, now: nat, marker: bytes, limit: nat, q: seq<bytes>)
    returns (p: seq<bytes>)
    requires held <= |s| && now <= |s| && Find(s, marker, 0).Some?
    requires MayHold(Find(s, marker, 0).value + |marker|, held, now, |s|, limit)
    requires Cut(q) && Concat(q) == s[now..]
    ensures Cut(p) && Concat(p) == s[held..]
    ensures var i := Find(s, marker, 0).value;
            i + |marker| <= now
            && ReadUntilOn(p, marker, limit, s[..held]) == (Some((s[..i], s[i + |marker|..now])), q)
    decreases |s| - held
  {
    hide Find, Deliver;
    var end := Find(s, marker, 0).value + |marker|;
    if end <= held {
      p := q;
      NowThere(s, held, marker);
    } else {
      NotYetThere(s, held, marker);
      var more, upTo := q, now;
      if held + 1 < end && held < limit {
        upTo := held + 1;
        more := ReadUntilReaches(s, upTo, now, marker, limit, q);
      } else {
        NowThere(s, now, marker);
      }
      p := [s[held..upTo]] + more;
      OnePiece(s, held, upTo, more);
    }
  }

  lemma NowThere(s: bytes, held: nat, marker: bytes)
    requires held <= |s| && Find(s, marker, 0).Some? && Find(s, marker, 0).value + |marker| <= held
    ensures var i := Find(s, marker, 0).value;
            && Find(s[..held], marker, 0) == Some(i)
            && s[..held][..i] == s[..i] && s[..held][i + |marker|..] == s[i + |marker|..held]
  {
    assert s[..held] + s[held..] == s;
    FindInPrefix(s[..held], s[held..], marker);
    HeldMarker(s, held, marker);
  }

  /** A peer that sends one octet at a time. */
  function Singles(s: bytes): (r: seq<bytes>)
    ensures Cut(r) && Concat(r) == s
  {
    if s == [] then [] else
      assert s == s[..1] + s[1..];
      [s[..1]] + Singles(s[1..])
  }

  /** A marker that may be missed is missed by some segmentation. */
  lemma {:induction false} ReadUntilMisses(s: bytes, held: nat, marker: bytes, limit: nat) returns (p: seq<bytes>)
    requires held <= |s| && Find(s, marker, 0).Some?
    requires MayMiss(Find(s, marker, 0).value + |marker|, held, limit)
    ensures Cut(p) && Concat(p) == s[held..] && ReadUntilOn(p, marker, limit, s[..held]).0 == None
    decreases |s| - held
  {
    NotYetThere(s, held, marker);
    if held > limit {
      p := Singles(s[held..]);
    } else {
      var q := ReadUntilMisses(s, held + 1, marker, limit);
      p := [s[held..held + 1]] + q;
      OnePiece(s, held, held + 1, q);
    }
  }

  /**
   * A reader that already holds `held` octets gets a marker under every segmentation exactly when
   * it holds the marker, or is within its limit and the marker ends by `limit + 1`; and under some
   * segmentation exactly when it holds it, or is within its limit and it ends by `limit + 8192`.
   * In between the same octets are accepted or refused depending on how the network cuts them.
   */
  lemma SegmentationMatters(s: bytes, held: nat, marker: bytes, limit: nat)
    requires marker != [] && held <= |s| && Find(s, marker, 0).Some?
    ensures var end := Find(s, marker, 0).value + |marker|;
            && ((forall p :: Cut(p) && Concat(p) == s[held..] ==> ReadUntilOn(p, marker, limit, s[..held]).0.Some?)
                <==> end <= held || (held <= limit && end <= limit + 1))
            && ((exists p :: Cut(p) && Concat(p) == s[held..] && ReadUntilOn(p, marker, limit, s[..held]).0.Some?)
                <==> end <= held || (held <= limit && end <= limit + RECV))
  {
    hide ReadUntilOn, Concat;
    var end := Find(s, marker, 0).value + |marker|;
    forall p | Cut(p) && Concat(p) == s[held..]
      ensures ReadUntilOn(p, marker, limit, s[..held]).0.None? ==> MayMiss(end, held, limit)
      ensures ReadUntilOn(p, marker, limit, s[..held]).0.Some? ==> exists now :: MayHold(end, held, now, |s|, limit)
    {
      ReadUntilHolds(s, held, p, marker, limit);
    }
    if MayMiss(end, held, limit) {
      var p := ReadUntilMisses(s, held, marker, limit);
    }
    if end <= held || (held <= limit && end <= limit + RECV) {
      var now := if end <= held then held else end;
      var p := ReadUntilReaches(s, held, now, marker, limit, Singles(s[now..]));
    }
  }

  // ----- reading to the end, or a given number of bytes --------------------------------------

  /** `_read_all`: the whole stream if it fits the cap, whatever the cuts. */
  method ReadAll(sock: Socket, prefix: bytes) returns (r: Option<bytes>)
    requires sock.Valid()
    modifies sock`pieces
    ensures sock.Valid()
    ensures r == var all := prefix + old(sock.Unread()); if |all| <= MAX_BODY then Some(all) else None
    ensures r.Some? ==> sock.Unread() == []
    ensures |old(sock.Unread())| - |sock.Unread()| <= MAX_BODY + RECV
  {
    var buf := prefix;
    while true
      invariant sock.Valid() && buf + sock.Unread() == prefix + old(sock.Unread())
      invariant |buf| <= MAX_BODY + RECV || buf == prefix
      decreases MAX_BODY + 1 - |buf|
    {
      if |buf| > MAX_BODY {
        return None;
      }
      var chunk := sock.Recv(RECV);
      if chunk == [] {
        assert buf + [] == buf;
        return Some(buf);
      }
      ghost var before := buf;
      buf := buf + chunk;
      assert before + (chunk + sock.Unread()) == buf + sock.Unread();
    }
  }

  /** `_read_exact`: the first `n` bytes; a surplus that was already buffered is dropped. */
  method ReadExact(sock: Socket, n: nat, prefix: bytes) returns (r: Option<bytes>)
    requires sock.Valid()
    modifies sock`pieces
    ensures sock.Valid()
    ensures r == var all := prefix + old(sock.Unread()); if n <= MAX_BODY && n <= |all| then Some(all[..n]) else None
    ensures r.Some? && |prefix| <= n ==> r.value + sock.Unread() == prefix + old(sock.Unread())
    ensures |prefix| >= n ==> sock.pieces == old(sock.pieces)
    ensures |old(sock.Unread())| - |sock.Unread()| <= n
  {
    if n > MAX_BODY {
      return None;
    }
    var buf := prefix;
    while |buf| < n
      invariant sock.Valid() && buf + sock.Unread() == prefix + old(sock.Unread())
      invariant |buf| <= n || buf == prefix
      invariant |prefix| >= n ==> sock.pieces == old(sock.pieces) && buf == prefix
      decreases n - |buf|
    {
      var chunk := sock.Recv(if RECV <= n - |buf| then RECV else n - |buf|);
      if chunk == [] {
        return None;
      }
      ghost var before := buf;
      buf := buf + chunk;
      assert before + (chunk + sock.Unread()) == buf + sock.Unread();
    }
    assert buf[..n] == (buf + sock.Unread())[..n];
    return Some(buf[..n]);
  }
}
