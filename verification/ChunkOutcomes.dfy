// What a chunked body can come to, told from the octets alone: exactly the outcomes that some
// segmentation brings about.
module ChunkOutcomes {
  import opened Bytes
  import opened PyText
  import opened Wire
  import opened Chunks

  // ----- the outcomes, without segmentations -------------------------------------------------

  /** What may be held past a line that ends at `end`, once it has been read. */
  predicate LineLeaves(end: nat, held: nat, left: nat, total: nat) {
    end + left <= total && MayHold(end, held, end + left, total, MAX_HEADER)
  }

  /** What may be held past the first `n` octets, once they have been read. */
  predicate FillLeaves(n: nat, held: nat, left: nat, total: nat) {
    n + left <= total && if n <= held then n + left == held else left < RECV
  }

  /** The outcomes of reading `s` when its first `held` octets are in the buffer. */
  ghost predicate MayEnd(s: bytes, held: nat, body: bytes, chunks: nat, o: Outcome)
    requires held <= |s|
    decreases chunks, 0
  {
    if chunks == 0 then o == Outcome(None, [])
    else
      match Find(s, CRLF, 0)
      case None => o == Outcome(None, [])
      case Some(i) =>
        || (MayMiss(i + 2, held, MAX_HEADER) && o == Outcome(None, []))
        || MayPass(s, i + 2, held, SizeOf(s[..i]), body, chunks - 1, o)
  }

  /** The same if the size line that ends at `end` is read. */
  ghost predicate MayPass(
      s: bytes, end: nat, held: nat, size: Option<int>, body: bytes, chunks: nat, o: Outcome)
    requires held <= |s| && end <= |s|
    decreases chunks, 4
  {
    exists left: nat :: LineLeaves(end, held, left, |s|) && MaySize(s[end..], left, size, body, chunks, o)
  }

  /** The same after a size line: `u` is what follows it. */
  ghost predicate MaySize(u: bytes, held: nat, size: Option<int>, body: bytes, chunks: nat, o: Outcome)
    requires held <= |u|
    decreases chunks, 3
  {
    if size.None? then o == Outcome(None, [])
    else
      var z := size.value;
      if z == 0 then o == Outcome(Some(body), [0])
      else if TooLarge(z, body) then o == Outcome(None, [z])
      else if z > 0 then
        if Holds(u, z, CRLF) then MayFill(u, z, z + 2, held, body + u[..z], chunks, o) else o == Outcome(None, [z])
      else
        // Only what is in the buffer counts, from its end.
        var m := held + z;
        if z <= -3 && m >= 0 && u[m..m + 2] == CRLF then MayGoOn(u[m + 2..], -z - 2, z, body + u[..m], chunks, o)
        else o == Outcome(None, [z])
  }

  /** The same once a chunk that ends before `end` has been read. */
  ghost predicate MayFill(u: bytes, size: int, end: nat, held: nat, body: bytes, chunks: nat, o: Outcome)
    requires end <= |u|
    decreases chunks, 2
  {
    exists left: nat :: FillLeaves(end, held, left, |u|) && MayGoOn(u[end..], left, size, body, chunks, o)
  }

  ghost predicate MayGoOn(s: bytes, held: nat, size: int, body: bytes, chunks: nat, o: Outcome)
    requires held <= |s|
    decreases chunks, 1
  {
    o.sizes != [] && o.sizes[0] == size && MayEnd(s, held, body, chunks, Outcome(o.body, o.sizes[1..]))
  }

  // ----- filling the buffer ------------------------------------------------------------------------

  lemma {:induction false} FillHolds(u: bytes, held: nat, pieces: seq<bytes>, n: int)
    requires held <= |u| && Cut(pieces) && Concat(pieces) == u[held..]
    ensures var (r, rest) := FillOn(pieces, u[..held], n);
            && Cut(rest)
            && if n > |u| then r == None
               else
                 && r.Some? && |r.value| <= |u|
                 && (if n <= held then |r.value| == held else n <= |r.value| < n + RECV)
                 && r.value == u[..|r.value|] && Concat(rest) == u[|r.value|..]
    decreases |u| - held
  {
    if held < n {
      DeliverKeeps(pieces, RECV);
      var (chunk, rest) := Deliver(pieces, RECV);
      if chunk != [] {
        var held' := held + |chunk|;
        assert u[held..][..|chunk|] == chunk;
        assert u[..held] + chunk == u[..held'] && Concat(rest) == u[held'..];
        FillHolds(u, held', rest, n);
      } else {
        assert u[..held] == u;
      }
    }
  }

  lemma {:induction false} FillReaches(u: bytes, held: nat, left: nat, n: nat, q: seq<bytes>) returns (p: seq<bytes>)
    requires held <= |u| && FillLeaves(n, held, left, |u|) && Cut(q) && Concat(q) == u[n + left..]
    ensures Cut(p) && Concat(p) == u[held..] && FillOn(p, u[..held], n) == (Some(u[..n + left]), q)
    decreases |u| - held
  {
    hide Deliver;
    if n <= held {
      p := q;
    } else {
      var more, upTo := q, n + left;
      if held + 1 < n {
        upTo := held + 1;
        more := FillReaches(u, upTo, left, n, q);
      }
      p := [u[held..upTo]] + more;
      OnePiece(u, held, upTo, more);
    }
  }

  // ----- every segmentation brings about one of the outcomes -----------------------------------------

  lemma CutWhole(u: bytes, left: nat, size: nat, body: bytes)
    requires 0 < size && size + 2 + left <= |u| && Holds(u, size, CRLF)
    ensures CutOff(u[..size + 2 + left], size, body) == Next(size, body + u[..size], u[size + 2..][..left])
  {
    hide Slice;
    var b := u[..size + 2 + left];
    SliceSizes(b, size);
    assert b[size..size + 2] == u[size..size + 2] && b[..size] == u[..size];
    assert b[size + 2..] == u[size + 2..][..left];
  }

  /** A positive size: the octets that follow it, if a line end follows those. */
  lemma TakeForward(u: bytes, held: nat, size: int, body: bytes, pieces: seq<bytes>)
    requires held <= |u| && Cut(pieces) && Concat(pieces) == u[held..] && size > 0
    ensures var (round, rest) := TakeOn(pieces, u[..held], size, body);
            && Cut(rest)
            && if Holds(u, size, CRLF) then
                 && round.Next? && round.size == size && round.body == body + u[..size]
                 && FillLeaves(size + 2, held, |round.buf|, |u|)
                 && round.buf == u[size + 2..][..|round.buf|] && Concat(rest) == u[size + 2..][|round.buf|..]
               else round == Ended(Outcome(None, [size]))
  {
    hide Slice, FillOn;
    FillHolds(u, held, pieces, size + 2);
    var (r, rest) := FillOn(pieces, u[..held], size + 2);
    if r.Some? {
      var left := |r.value| - (size + 2);
      assert u[size + 2..][left..] == u[size + 2 + left..];
      if Holds(u, size, CRLF) {
        CutWhole(u, left, size, body);
      } else {
        SliceSizes(r.value, size);
        assert r.value[size..size + 2] == u[size..size + 2];
      }
    }
  }

  /** A negative size: what is in the buffer before its last so many octets, if a line end follows that. */
  lemma TakeBackward(u: bytes, held: nat, size: int, body: bytes, pieces: seq<bytes>)
    requires held <= |u| && Cut(pieces) && Concat(pieces) == u[held..] && size < 0
    ensures var (round, rest) := TakeOn(pieces, u[..held], size, body);
            if size <= -3 && held + size >= 0 && u[held + size..held + size + 2] == CRLF then
              var v := u[held + size + 2..];
              && round == Next(size, body + u[..held + size], v[..-size - 2])
              && rest == pieces && Concat(rest) == v[-size - 2..]
            else round == Ended(Outcome(None, [size]))
  {
    hide Slice;
    FillHolds(u, held, pieces, size + 2);
    var (r, rest) := FillOn(pieces, u[..held], size + 2);
    if r.Some? {
      SliceSizes(r.value, size);
      if size <= -3 && held + size >= 0 {
        FromEnd(u, held, held + size);
      }
    }
  }

  lemma FromEnd(u: bytes, held: nat, m: nat)
    requires m + 2 <= held <= |u|
    ensures u[..held][m..m + 2] == u[m..m + 2] && u[..held][..m] == u[..m]
    ensures u[..held][m + 2..] == u[m + 2..][..held - m - 2] && u[m + 2..][held - m - 2..] == u[held..]
  {
  }

  lemma SizesMay(u: bytes, held: nat, size: Option<int>, body: bytes, chunks: nat, pieces: seq<bytes>)
    requires held <= |u| && Cut(pieces) && Concat(pieces) == u[held..]
    ensures MaySize(u, held, size, body, chunks, FromRound(SizeOn(pieces, u[..held], size, body), chunks).0)
    decreases chunks, 1
  {
    hide TakeOn, MayEnd, DechunkOn;
    if size.Some? && size.value != 0 && !TooLarge(size.value, body) {
      var z := size.value;
      if z > 0 {
        TakeForward(u, held, z, body, pieces);
      } else {
        TakeBackward(u, held, z, body, pieces);
      }
      var (round, rest) := TakeOn(pieces, u[..held], z, body);
      if z > 0 && Holds(u, z, CRLF) {
        GoesOn(u[z + 2..], |round.buf|, z, round.body, chunks, rest);
        assert FillLeaves(z + 2, held, |round.buf|, |u|);
      } else if z <= -3 && held + z >= 0 && u[held + z..held + z + 2] == CRLF {
        GoesOn(u[held + z + 2..], -z - 2, z, round.body, chunks, rest);
      }
    }
  }

  lemma LineLeft(end: nat, held: nat, total: nat)
    ensures forall left: nat :: LineLeaves(end, held, left, total)
              <==> end + left <= total && MayHold(end, held, end + left, total, MAX_HEADER)
  {
  }

  lemma GoesOn(s: bytes, held: nat, size: int, body: bytes, chunks: nat, pieces: seq<bytes>)
    requires held <= |s| && Cut(pieces) && Concat(pieces) == s[held..]
    ensures MayGoOn(s, held, size, body, chunks, DechunkOn(pieces, s[..held], body, chunks).0.After(size))
    decreases chunks, 0, 1
  {
    hide DechunkOn, MayEnd;
    var o := DechunkOn(pieces, s[..held], body, chunks).0;
    assert o.After(size).sizes[1..] == o.sizes;
    RunsMay(s, held, body, chunks, pieces);
  }

  lemma NoLine(pieces: seq<bytes>, buf: bytes, body: bytes, chunks: nat)
    requires Cut(pieces) && chunks > 0
    ensures ReadUntilOn(pieces, CRLF, MAX_HEADER, buf).0.None? ==>
              DechunkOn(pieces, buf, body, chunks).0 == Outcome(None, [])
  {
  }

  lemma RunsMay(s: bytes, held: nat, body: bytes, chunks: nat, pieces: seq<bytes>)
    requires held <= |s| && Cut(pieces) && Concat(pieces) == s[held..]
    ensures MayEnd(s, held, body, chunks, DechunkOn(pieces, s[..held], body, chunks).0)
    decreases chunks, 0, 0
  {
    hide ReadUntilOn, SizeOn, MaySize, FromRound, Find, SizeOf, LineLeaves;
    if chunks > 0 {
      NoLine(pieces, s[..held], body, chunks);
      ReadUntilHolds(s, held, pieces, CRLF, MAX_HEADER);
      var (r, rest) := ReadUntilOn(pieces, CRLF, MAX_HEADER, s[..held]);
      if r.Some? {
        var i := Find(s, CRLF, 0).value;
        var left := |r.value.1|;
        var u := s[i + 2..];
        LineLeft(i + 2, held, |s|);
        assert s[i + 2..i + 2 + left] == u[..left] && s[i + 2 + left..] == u[left..];
        SizesMay(u, left, SizeOf(s[..i]), body, chunks - 1, rest);
      }
    }
  }

  // ----- each outcome is brought about by some segmentation ----------------------------------------

  lemma SizeReached(u: bytes, held: nat, size: Option<int>, body: bytes, chunks: nat, o: Outcome)
    returns (p: seq<bytes>)
    requires held <= |u| && MaySize(u, held, size, body, chunks, o)
    ensures Cut(p) && Concat(p) == u[held..]
    ensures FromRound(SizeOn(p, u[..held], size, body), chunks).0 == o
    decreases chunks, 2
  {
    hide MayEnd, DechunkOn, TakeOn, MayFill;
    p := Singles(u[held..]);
    if size.Some? && size.value != 0 && !TooLarge(size.value, body) {
      var z := size.value;
      if z > 0 && Holds(u, z, CRLF) {
        p := FillReached(u, held, z, body, chunks, o);
      } else if z > 0 {
        TakeForward(u, held, z, body, p);
      } else {
        TakeBackward(u, held, z, body, p);
        if z <= -3 && held + z >= 0 && u[held + z..held + z + 2] == CRLF {
          var m := held + z;
          p := GoOnReached(u[m + 2..], -z - 2, z, body + u[..m], chunks, o);
          assert u[m + 2..][-z - 2..] == u[held..];
          TakeBackward(u, held, z, body, p);
        }
      }
    }
  }

  lemma FillReached(u: bytes, held: nat, size: nat, body: bytes, chunks: nat, o: Outcome) returns (p: seq<bytes>)
    requires held <= |u| && 0 < size && !TooLarge(size, body) && Holds(u, size, CRLF)
    requires MayFill(u, size, size + 2, held, body + u[..size], chunks, o)
    ensures Cut(p) && Concat(p) == u[held..]
    ensures FromRound(SizeOn(p, u[..held], Some(size), body), chunks).0 == o
    decreases chunks, 1
  {
    hide DechunkOn, Slice, FillOn, Deliver, CutOff, MayGoOn;
    var left: nat :| FillLeaves(size + 2, held, left, |u|)
                     && MayGoOn(u[size + 2..], left, size, body + u[..size], chunks, o);
    var q := GoOnReached(u[size + 2..], left, size, body + u[..size], chunks, o);
    assert u[size + 2..][left..] == u[size + 2 + left..];
    p := FillReaches(u, held, left, size + 2, q);
    CutWhole(u, left, size, body);
  }

  lemma GoOnReached(s: bytes, held: nat, size: int, body: bytes, chunks: nat, o: Outcome) returns (p: seq<bytes>)
    requires held <= |s| && MayGoOn(s, held, size, body, chunks, o)
    ensures Cut(p) && Concat(p) == s[held..]
    ensures DechunkOn(p, s[..held], body, chunks).0.After(size) == o
    decreases chunks, 0, 1
  {
    hide DechunkOn, MayEnd;
    p := OutcomeReached(s, held, body, chunks, Outcome(o.body, o.sizes[1..]));
    assert [size] + o.sizes[1..] == o.sizes;
  }

  lemma OutcomeReached(s: bytes, held: nat, body: bytes, chunks: nat, o: Outcome) returns (p: seq<bytes>)
    requires held <= |s| && MayEnd(s, held, body, chunks, o)
    ensures Cut(p) && Concat(p) == s[held..] && DechunkOn(p, s[..held], body, chunks).0 == o
    decreases chunks, 0, 0
  {
    hide ReadUntilOn, SizeOn, MaySize, FromRound, Find, SizeOf, LineLeaves;
    p := Singles(s[held..]);
    if chunks > 0 {
      NoLine(p, s[..held], body, chunks);
      ReadUntilHolds(s, held, p, CRLF, MAX_HEADER);
      if Find(s, CRLF, 0).Some? {
        var i := Find(s, CRLF, 0).value;
        if MayMiss(i + 2, held, MAX_HEADER) && o == Outcome(None, []) {
          p := ReadUntilMisses(s, held, CRLF, MAX_HEADER);
          NoLine(p, s[..held], body, chunks);
        } else {
          LineLeft(i + 2, held, |s|);
          var left: nat :| LineLeaves(i + 2, held, left, |s|) && left <= |s| - (i + 2)
                           && MaySize(s[i + 2..], left, SizeOf(s[..i]), body, chunks - 1, o);
          var u := s[i + 2..];
          var q := SizeReached(u, left, SizeOf(s[..i]), body, chunks - 1, o);
          assert u[left..] == s[i + 2 + left..] && u[..left] == s[i + 2..i + 2 + left];
          p := ReadUntilReaches(s, held, i + 2 + left, CRLF, MAX_HEADER, q);
        }
      }
    }
  }

  /**
   * The outcomes of a chunked body are exactly those of its segmentations, whatever the stream:
   * malformed, hostile or good.
   */
  lemma OutcomesExact(s: bytes, held: nat, body: bytes, chunks: nat, o: Outcome)
    requires held <= |s|
    ensures MayEnd(s, held, body, chunks, o)
            <==> exists p :: Cut(p) && Concat(p) == s[held..] && DechunkOn(p, s[..held], body, chunks).0 == o
  {
    hide MayEnd, DechunkOn;
    if MayEnd(s, held, body, chunks, o) {
      var p := OutcomeReached(s, held, body, chunks, o);
    }
    forall p | Cut(p) && Concat(p) == s[held..]
      ensures MayEnd(s, held, body, chunks, DechunkOn(p, s[..held], body, chunks).0)
    {
      RunsMay(s, held, body, chunks, p);
    }
  }
}
