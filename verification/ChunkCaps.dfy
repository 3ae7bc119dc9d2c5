// The cap on a chunked body under hostile sizes: for any list of sizes, exactly the lengths of the
// bodies that a reader who starts with an empty buffer returns after reading it.
module ChunkCaps {
  import opened Bytes
  import opened Wire
  import opened Chunks
  import opened ChunkOutcomes
  import opened ChunkFates
  import opened SizeLines

  function Smaller(a: int, b: int): int {
    if a < b then a else b
  }

  /**
   * The lengths a body may have in the end, if it has from `lo` to `hi` octets before these sizes
   * are read: a range, or None if no reader gets through them. A positive size is taken over whole;
   * a size -n takes over whatever stands more than n octets before the end of the buffer, of which
   * less than one `recv` is held.
   */
  function Lengths(sizes: seq<int>, lo: nat, hi: nat): Option<(nat, nat)>
    requires lo <= hi
    decreases |sizes|
  {
    if sizes == [] then None
    else
      var z := sizes[0];
      if z == 0 then (if |sizes| == 1 then Some((lo, hi)) else None)
      else if lo + z > 1048576 then None
      else if z > 0 then Lengths(sizes[1..], lo + z, Smaller(hi + z, 1048576))
      else if -8191 <= z <= -3 then Lengths(sizes[1..], lo, Smaller(hi, 1048576 - z) + 8191 + z)
      else None
  }

  predicate Within(r: Option<(nat, nat)>, n: nat) {
    r.Some? && r.value.0 <= n <= r.value.1
  }

  // ----- no other lengths ---------------------------------------------------------------------

  lemma LengthIs(s: bytes, held: nat, body: bytes, chunks: nat, o: Outcome, lo: nat, hi: nat)
    requires held <= |s| && held < RECV && lo <= |body| <= hi
    requires MayEnd(s, held, body, chunks, o) && o.body.Some?
    ensures Within(Lengths(o.sizes, lo, hi), |o.body.value|) && |o.sizes| <= chunks
    decreases chunks, 0
  {
    hide MaySize, SizeOf, Find, Lengths;
    var i := Find(s, CRLF, 0).value;
    var left: nat :| LineLeaves(i + 2, held, left, |s|) && left <= |s| - (i + 2)
                     && MaySize(s[i + 2..], left, SizeOf(s[..i]), body, chunks - 1, o);
    LengthIsAfter(s[i + 2..], left, SizeOf(s[..i]), body, chunks - 1, o, lo, hi);
  }

  lemma LengthIsAfter(
      u: bytes, held: nat, size: Option<int>, body: bytes, chunks: nat, o: Outcome, lo: nat, hi: nat)
    requires held <= |u| && held < RECV && lo <= |body| <= hi
    requires MaySize(u, held, size, body, chunks, o) && o.body.Some?
    ensures Within(Lengths(o.sizes, lo, hi), |o.body.value|) && |o.sizes| <= chunks + 1
    decreases chunks, 1
  {
    hide MayEnd, MaySize, Lengths;
    LengthsUnfold(o.sizes, lo, hi);
    SizeIs(u, held, size, body, chunks, o);
    var z := size.value;
    if z > 0 {
      var s, left := DataTaken(u, held, z, body, chunks, o);
      LengthIs(s, left, body + u[..z], chunks, Outcome(o.body, o.sizes[1..]), lo + z, Smaller(hi + z, MAX_BODY));
    } else if z < 0 {
      var s, m := BackTaken(u, held, z, body, chunks, o);
      LengthIs(s, -z - 2, body + u[..m], chunks, Outcome(o.body, o.sizes[1..]),
               lo, Smaller(hi, MAX_BODY - z) + RECV - 1 + z);
    }
  }

  lemma LengthsUnfold(sizes: seq<int>, lo: nat, hi: nat)
    requires lo <= hi
    ensures sizes == [0] ==> Lengths(sizes, lo, hi) == Some((lo, hi))
    ensures sizes != [] && sizes[0] > 0 && lo + sizes[0] <= MAX_BODY ==>
              && lo + sizes[0] <= Smaller(hi + sizes[0], MAX_BODY)
              && Lengths(sizes, lo, hi) == Lengths(sizes[1..], lo + sizes[0], Smaller(hi + sizes[0], MAX_BODY))
    ensures sizes != [] && 1 - RECV <= sizes[0] <= -3 && lo + sizes[0] <= MAX_BODY ==>
              && lo <= Smaller(hi, MAX_BODY - sizes[0]) + RECV - 1 + sizes[0]
              && Lengths(sizes, lo, hi)
                 == Lengths(sizes[1..], lo, Smaller(hi, MAX_BODY - sizes[0]) + RECV - 1 + sizes[0])
  {
  }

  lemma DataTaken(u: bytes, held: nat, z: nat, body: bytes, chunks: nat, o: Outcome) returns (s: bytes, left: nat)
    requires held <= |u| && held < RECV && z > 0 && !TooLarge(z, body) && Holds(u, z, CRLF)
    requires MaySize(u, held, Some(z), body, chunks, o) && o.body.Some?
    ensures left <= |s| && left < RECV && o.sizes != []
    ensures MayEnd(s, left, body + u[..z], chunks, Outcome(o.body, o.sizes[1..]))
  {
    hide MayEnd;
    left :| FillLeaves(z + 2, held, left, |u|) && MayGoOn(u[z + 2..], left, z, body + u[..z], chunks, o);
    s := u[z + 2..];
  }

  lemma BackTaken(u: bytes, held: nat, z: int, body: bytes, chunks: nat, o: Outcome) returns (s: bytes, m: nat)
    requires held <= |u| && z <= -3 && held + z >= 0 && !TooLarge(z, body)
    requires MaySize(u, held, Some(z), body, chunks, o) && o.body.Some?
    ensures m == held + z <= |u| && -z - 2 <= |s| && o.sizes != []
    ensures MayEnd(s, -z - 2, body + u[..m], chunks, Outcome(o.body, o.sizes[1..]))
  {
    hide MayEnd;
    m := held + z;
    s := u[m + 2..];
  }

  // ----- each of these lengths ------------------------------------------------------------------

  /** Starting from more lengths ends in more. */
  lemma {:induction false} LengthsWiden(sizes: seq<int>, lo: nat, hi: nat, lo': nat, hi': nat)
    requires lo' <= lo <= hi <= hi'
    ensures forall n: nat :: Within(Lengths(sizes, lo, hi), n) ==> Within(Lengths(sizes, lo', hi'), n)
    decreases |sizes|
  {
    if sizes != [] {
      var z := sizes[0];
      if z > 0 && lo + z <= MAX_BODY {
        LengthsWiden(sizes[1..], lo + z, Smaller(hi + z, MAX_BODY), lo' + z, Smaller(hi' + z, MAX_BODY));
      } else if 1 - RECV <= z <= -3 && lo + z <= MAX_BODY {
        LengthsWiden(sizes[1..], lo, Smaller(hi, MAX_BODY - z) + RECV - 1 + z,
                     lo', Smaller(hi', MAX_BODY - z) + RECV - 1 + z);
      }
    }
  }

  /** A length in the end comes from one length at the start. */
  lemma {:induction false} LengthsFrom(sizes: seq<int>, lo: nat, hi: nat, n: nat) returns (l: nat)
    requires lo <= hi && Within(Lengths(sizes, lo, hi), n)
    ensures lo <= l <= hi && Within(Lengths(sizes, l, l), n)
    decreases |sizes|
  {
    var z := sizes[0];
    if z == 0 {
      l := n;
    } else if z > 0 {
      var later := LengthsFrom(sizes[1..], lo + z, Smaller(hi + z, MAX_BODY), n);
      l := later - z;
    } else {
      var gain := RECV - 1 + z;
      var later := LengthsFrom(sizes[1..], lo, Smaller(hi, MAX_BODY - z) + gain, n);
      l := if later - gain > lo then later - gain else lo;
      LengthsWiden(sizes[1..], later, later, l, l + gain);
    }
  }

  function Filler(n: nat): (r: bytes)
    ensures |r| == n
  {
    seq(n, _ => 88)
  }

  /** A size line of which some padding may be buffered already, and after which `left` octets are. */
  lemma LineMay(h: nat, z: int, u: bytes, left: nat, body: bytes, chunks: nat, o: Outcome)
    requires h < RECV && left < RECV && left <= |u| && chunks > 0 && z <= MAX_BODY && 0 - z <= MAX_BODY
    requires MaySize(u, left, Some(z), body, chunks - 1, o)
    ensures MayEnd(Padded(h, z) + CRLF + u, h, body, chunks, o)
  {
    hide MaySize, Find, SizeOf, Padded;
    PaddedReads(h, z);
    PaddedShort(h, z);
    PaddedLonger(h, z);
    LineFirst(Padded(h, z), u);
    assert LineLeaves(|Padded(h, z)| + 2, h, left, |Padded(h, z) + CRLF + u|);
  }

  lemma PaddedLonger(h: nat, z: int)
    ensures |Padded(h, z)| >= h
  {
  }

  lemma DataMay(data: bytes, s: bytes, body: bytes, chunks: nat, o: Outcome)
    requires data != [] && |body| + |data| <= MAX_BODY && MayEnd(s, 0, body + data, chunks, o)
    ensures MaySize(data + CRLF + s, 0, Some(|data|), body, chunks, o.After(|data|))
  {
    hide MayEnd;
    var u := data + CRLF + s;
    assert u[|data|..|data| + 2] == CRLF && u[..|data|] == data && u[|data| + 2..] == s;
    AfterGoesOn(s, 0, |data|, body + data, chunks, o);
    assert FillLeaves(|data| + 2, 0, 0, |u|);
  }

  /** With m + n octets in the buffer, the size -n takes over the first m of them. */
  lemma BackMay(data: bytes, n: nat, s: bytes, body: bytes, chunks: nat, o: Outcome)
    requires n >= 3 && n - 2 <= |s| && |body| - n <= MAX_BODY && MayEnd(s, n - 2, body + data, chunks, o)
    ensures |data| + n <= |data + CRLF + s|
    ensures MaySize(data + CRLF + s, |data| + n, Some(0 - n), body, chunks, o.After(0 - n))
  {
    hide MayEnd;
    var u := data + CRLF + s;
    assert u[|data|..|data| + 2] == CRLF && u[..|data|] == data && u[|data| + 2..] == s;
    AfterGoesOn(s, n - 2, 0 - n, body + data, chunks, o);
  }

  /** A stream whose first `h` octets are padding, and the run on it. */
  lemma {:induction false} LengthMade(sizes: seq<int>, h: nat, body: bytes, chunks: nat, n: nat)
    returns (s: bytes, o: Outcome)
    requires h < RECV && |sizes| <= chunks && Within(Lengths(sizes, |body|, |body|), n)
    ensures h <= |s| && MayEnd(s, h, body, chunks, o)
    ensures o.sizes == sizes && o.body.Some? && |o.body.value| == n
    decreases |sizes|
  {
    hide MayEnd, Padded;
    var z := sizes[0];
    PaddedLonger(h, z);
    assert sizes == [z] + sizes[1..];
    if z == 0 {
      o := Outcome(Some(body), [0]);
      s := Padded(h, 0) + CRLF + [];
      LineMay(h, 0, [], 0, body, chunks, o);
    } else if z > 0 {
      var tail, later := LengthMade(sizes[1..], 0, body + Filler(z), chunks - 1, n);
      o := later.After(z);
      DataMay(Filler(z), tail, body, chunks - 1, later);
      s := Padded(h, z) + CRLF + (Filler(z) + CRLF + tail);
      hide MaySize;
      LineMay(h, z, Filler(z) + CRLF + tail, 0, body, chunks, o);
    } else {
      var next := LengthsFrom(sizes[1..], |body|, |body| + RECV - 1 + z, n);
      var data := Filler(next - |body|);
      var tail, later := LengthMade(sizes[1..], -z - 2, body + data, chunks - 1, n);
      o := later.After(z);
      BackMay(data, -z, tail, body, chunks - 1, later);
      s := Padded(h, z) + CRLF + (data + CRLF + tail);
      hide MaySize;
      LineMay(h, z, data + CRLF + tail, |data| - z, body, chunks, o);
    }
  }

  // ----- the exact answer ---------------------------------------------------------------------------

  /** A reader that starts with an empty buffer returns `n` octets after reading these sizes. */
  ghost predicate Returned(sizes: seq<int>, n: nat) {
    exists s, o :: Brings(s, 0, [], MAX_CHUNKS, o) && o.sizes == sizes && o.body.Some? && |o.body.value| == n
  }

  /** For any list of sizes: which lengths of bodies some stream and some segmentation lead to. */
  lemma LengthsExact(sizes: seq<int>, n: nat)
    ensures Returned(sizes, n) <==> |sizes| <= 4096 && Within(Lengths(sizes, 0, 0), n)
  {
    hide MayEnd, Brings, Lengths;
    if Returned(sizes, n) {
      var s, o :| Brings(s, 0, [], MAX_CHUNKS, o) && o.sizes == sizes && o.body.Some? && |o.body.value| == n;
      BringsMay(s, 0, [], MAX_CHUNKS, o);
      LengthIs(s, 0, [], MAX_CHUNKS, o, 0, 0);
    }
    if |sizes| <= MAX_CHUNKS && Within(Lengths(sizes, 0, 0), n) {
      var s, o := LengthMade(sizes, 0, [], MAX_CHUNKS, n);
      BringsMay(s, 0, [], MAX_CHUNKS, o);
    }
  }

  /** The sizes can carry a body past its cap. */
  predicate CanOverrun(sizes: seq<int>) {
    |sizes| <= 4096 && Lengths(sizes, 0, 0).Some? && Lengths(sizes, 0, 0).value.1 > 1048576
  }

  lemma {:induction false} LengthsOrdered(sizes: seq<int>, lo: nat, hi: nat)
    requires lo <= hi
    ensures Lengths(sizes, lo, hi).Some? ==> Lengths(sizes, lo, hi).value.0 <= Lengths(sizes, lo, hi).value.1
    decreases |sizes|
  {
    if sizes != [] {
      var z := sizes[0];
      if z > 0 && lo + z <= MAX_BODY {
        LengthsOrdered(sizes[1..], lo + z, Smaller(hi + z, MAX_BODY));
      } else if 1 - RECV <= z <= -3 && lo + z <= MAX_BODY {
        LengthsOrdered(sizes[1..], lo, Smaller(hi, MAX_BODY - z) + RECV - 1 + z);
      }
    }
  }

  /** The cap on a chunked body is broken by exactly these lists of sizes. */
  lemma OverrunExactly(sizes: seq<int>)
    ensures (exists n: nat :: n > 1048576 && Returned(sizes, n)) <==> CanOverrun(sizes)
  {
    hide Returned, Lengths;
    LengthsOrdered(sizes, 0, 0);
    forall n: nat
      ensures Returned(sizes, n) <==> |sizes| <= MAX_CHUNKS && Within(Lengths(sizes, 0, 0), n)
    {
      LengthsExact(sizes, n);
    }
    if CanOverrun(sizes) {
      assert Within(Lengths(sizes, 0, 0), Lengths(sizes, 0, 0).value.1);
    }
  }

  /** The largest body there is: less than one `recv` over the cap, but no less than that. */
  lemma CapIsTight()
    ensures Returned([1048576, -4096, -3, 0], 1048576 + 8191)
    ensures forall sizes, n: nat :: Returned(sizes, n) ==> n <= 1048576 + 8191
  {
    hide Returned;
    var sizes: seq<int> := [MAX_BODY as int, -4096, -3, 0];
    var range := Some((MAX_BODY, MAX_BODY + RECV - 1));
    assert Lengths([0], MAX_BODY, MAX_BODY + RECV - 1) == range;
    assert [-3, 0][1..] == [0];
    assert Lengths([-3, 0], MAX_BODY, MAX_BODY + RECV - 1 - 4096) == range;
    assert [-4096, -3, 0][1..] == [-3, 0];
    assert Lengths([-4096, -3, 0], MAX_BODY, MAX_BODY) == range;
    assert sizes[1..] == [-4096, -3, 0];
    LengthsExact(sizes, MAX_BODY + RECV - 1);
    forall zs, n: nat | Returned(zs, n)
      ensures n <= MAX_BODY + RECV - 1
    {
      LengthsExact(zs, n);
      LengthsCapped(zs, 0, 0);
    }
  }

  lemma {:induction false} LengthsCapped(sizes: seq<int>, lo: nat, hi: nat)
    requires lo <= hi <= MAX_BODY + RECV - 1
    ensures Lengths(sizes, lo, hi).Some? ==> Lengths(sizes, lo, hi).value.1 <= MAX_BODY + RECV - 1
    decreases |sizes|
  {
    if sizes != [] {
      var z := sizes[0];
      if z > 0 && lo + z <= MAX_BODY {
        LengthsCapped(sizes[1..], lo + z, Smaller(hi + z, MAX_BODY));
      } else if 1 - RECV <= z <= -3 && lo + z <= MAX_BODY {
        LengthsCapped(sizes[1..], lo, Smaller(hi, MAX_BODY - z) + RECV - 1 + z);
      }
    }
  }
}
