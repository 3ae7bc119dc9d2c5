// When segmentation matters to a chunked body: from the octets, which results the cuts can bring about.
module ChunkFates {
  import opened Bytes
  import opened PyText
  import opened Wire
  import opened Chunks
  import opened ChunkOutcomes
  import opened SizeLines

  // ----- which results there are -----------------------------------------------------------------

  /** How many octets of a stream may be buffered: one number, or anything from none to less than a `recv`. */
  datatype Held = Held(lo: nat, hi: nat)
  {
    predicate Sound(total: nat) {
      lo <= hi <= total && (lo == hi || (lo == 0 && hi < RECV))
    }

    predicate Has(n: nat) {
      lo <= n <= hi
    }

    /** Some segmentation lets a line that ends at `end` be read. */
    predicate Reads(end: nat) {
      end <= lo || (lo <= MAX_HEADER && end <= MAX_HEADER + RECV)
    }

    /** What may be held of the `total` octets past a line that ends at `end`. */
    function PastLine(end: nat, total: nat): Held
      requires Reads(end)
    {
      if end <= lo then Held(lo - end, lo - end) else Held(0, Least(RECV - 1, MAX_HEADER + RECV - end, total))
    }

    /** What may be held of the `total` octets past the first `n`, once those have been read. */
    function PastData(n: nat, total: nat): Held {
      if n <= lo then Held(lo - n, lo - n) else Held(0, Least(RECV - 1, total, total))
    }
  }

  function Least(a: nat, b: nat, c: nat): nat {
    if a <= b && a <= c then a else if b <= c then b else c
  }

  /** The size counts back from the end of what is held to a line end. */
  predicate Takes(u: bytes, held: nat, size: int)
    requires held <= |u|
  {
    size <= -3 && held + size >= 0 && u[held + size..held + size + 2] == CRLF
  }

  /**
   * Whether reading `s` may come to the body, or the error, `r`. The octets leave a choice only
   * where a size counts back from the end of what is held and that is not one number.
   */
  predicate MayYield(s: bytes, h: Held, body: bytes, chunks: nat, r: Option<bytes>)
    requires h.Sound(|s|)
    decreases chunks, 0
  {
    if chunks == 0 then r == None
    else
      match Find(s, CRLF, 0)
      case None => r == None
      case Some(i) =>
        || (MayMiss(i + 2, h.lo, MAX_HEADER) && r == None)
        || (h.Reads(i + 2)
            && MayYieldSize(s[i + 2..], h.PastLine(i + 2, |s| - i - 2), SizeOf(s[..i]), body, chunks - 1, r))
  }

  predicate MayYieldSize(u: bytes, h: Held, size: Option<int>, body: bytes, chunks: nat, r: Option<bytes>)
    requires h.Sound(|u|)
    decreases chunks, 2
  {
    if size.None? then r == None
    else
      var z := size.value;
      if z == 0 then r == Some(body)
      else if TooLarge(z, body) then r == None
      else if z > 0 then
        if Holds(u, z, CRLF)
        then MayYield(u[z + 2..], h.PastData(z + 2, |u| - z - 2), body + u[..z], chunks, r) else r == None
      else exists left: nat :: h.lo <= left <= h.hi && MayYieldBack(u, left, z, body, chunks, r)
  }

  predicate MayYieldBack(u: bytes, held: nat, size: int, body: bytes, chunks: nat, r: Option<bytes>)
    requires held <= |u|
    decreases chunks, 1
  {
    if !Takes(u, held, size) then r == None
    else MayYield(u[held + size + 2..], Held(-size - 2, -size - 2), body + u[..held + size], chunks, r)
  }

  // ----- no other results --------------------------------------------------------------------------

  lemma PastLineHas(h: Held, held: nat, end: nat, left: nat, total: nat)
    requires h.Sound(total) && h.Has(held) && end > 0 && LineLeaves(end, held, left, total)
    ensures h.Reads(end) && h.PastLine(end, total - end).Sound(total - end) && h.PastLine(end, total - end).Has(left)
  {
  }

  lemma YieldBinds(s: bytes, h: Held, held: nat, body: bytes, chunks: nat, o: Outcome)
    requires h.Sound(|s|) && h.Has(held) && MayEnd(s, held, body, chunks, o)
    ensures MayYield(s, h, body, chunks, o.body)
    decreases chunks, 0
  {
    hide MaySize, MayYieldSize, SizeOf, Find, Held.PastLine, Held.Reads;
    if chunks > 0 && Find(s, CRLF, 0).Some? {
      var i := Find(s, CRLF, 0).value;
      if !(MayMiss(i + 2, held, MAX_HEADER) && o == Outcome(None, [])) {
        var left: nat :| LineLeaves(i + 2, held, left, |s|) && left <= |s| - (i + 2)
                         && MaySize(s[i + 2..], left, SizeOf(s[..i]), body, chunks - 1, o);
        PastLineHas(h, held, i + 2, left, |s|);
        YieldBindsSize(s[i + 2..], h.PastLine(i + 2, |s| - i - 2), left, SizeOf(s[..i]), body, chunks - 1, o);
      }
    }
  }

  lemma YieldBindsSize(u: bytes, h: Held, held: nat, size: Option<int>, body: bytes, chunks: nat, o: Outcome)
    requires h.Sound(|u|) && h.Has(held) && MaySize(u, held, size, body, chunks, o)
    ensures MayYieldSize(u, h, size, body, chunks, o.body)
    decreases chunks, 1
  {
    hide MayEnd, MayYield;
    if size.Some? && size.value != 0 && !TooLarge(size.value, body) {
      var z := size.value;
      if z > 0 && Holds(u, z, CRLF) {
        var left: nat :| FillLeaves(z + 2, held, left, |u|) && MayGoOn(u[z + 2..], left, z, body + u[..z], chunks, o);
        YieldBinds(u[z + 2..], h.PastData(z + 2, |u| - z - 2), left, body + u[..z], chunks,
                   Outcome(o.body, o.sizes[1..]));
      } else if z < 0 {
        if Takes(u, held, z) {
          YieldBinds(u[held + z + 2..], Held(-z - 2, -z - 2), -z - 2, body + u[..held + z], chunks,
                     Outcome(o.body, o.sizes[1..]));
        }
        assert MayYieldBack(u, held, z, body, chunks, o.body);
      }
    }
  }

  // ----- each of these results -----------------------------------------------------------------------

  lemma AfterGoesOn(s: bytes, held: nat, size: int, body: bytes, chunks: nat, o: Outcome)
    requires held <= |s| && MayEnd(s, held, body, chunks, o)
    ensures MayGoOn(s, held, size, body, chunks, o.After(size))
  {
    hide MayEnd;
    assert o.After(size).sizes[1..] == o.sizes;
  }

  lemma PastLineSound(h: Held, end: nat, total: nat)
    requires h.Sound(total) && end <= total && h.Reads(end)
    ensures h.PastLine(end, total - end).Sound(total - end)
  {
  }

  lemma LineLeavesAny(h: Held, end: nat, left: nat, total: nat)
    requires h.Sound(total) && 0 < end <= total && h.Reads(end) && h.PastLine(end, total - end).Has(left)
    ensures LineLeaves(end, h.lo, left, total)
  {
  }

  lemma YieldComes(s: bytes, h: Held, body: bytes, chunks: nat, r: Option<bytes>) returns (o: Outcome)
    requires h.Sound(|s|) && MayYield(s, h, body, chunks, r)
    ensures MayEnd(s, h.lo, body, chunks, o) && o.body == r
    decreases chunks, 0
  {
    hide MaySize, MayYieldSize, SizeOf, Find, Held.PastLine, Held.Reads;
    o := Outcome(None, []);
    if chunks > 0 && Find(s, CRLF, 0).Some? {
      var i := Find(s, CRLF, 0).value;
      if !(MayMiss(i + 2, h.lo, MAX_HEADER) && r == None) {
        var left: nat;
        PastLineSound(h, i + 2, |s|);
        left, o := YieldComesSize(s[i + 2..], h.PastLine(i + 2, |s| - i - 2), SizeOf(s[..i]), body, chunks - 1, r);
        LineLeavesAny(h, i + 2, left, |s|);
      }
    }
  }

  lemma YieldComesSize(u: bytes, h: Held, size: Option<int>, body: bytes, chunks: nat, r: Option<bytes>)
    returns (left: nat, o: Outcome)
    requires h.Sound(|u|) && MayYieldSize(u, h, size, body, chunks, r)
    ensures h.Has(left) && MaySize(u, left, size, body, chunks, o) && o.body == r
    decreases chunks, 1
  {
    hide MayEnd, MayYield;
    left, o := h.lo, Outcome(r, if size.None? then [] else [size.value]);
    if size.Some? && size.value != 0 && !TooLarge(size.value, body) {
      var z := size.value;
      if z > 0 && Holds(u, z, CRLF) {
        var past := h.PastData(z + 2, |u| - z - 2);
        var later := YieldComes(u[z + 2..], past, body + u[..z], chunks, r);
        o := later.After(z);
        AfterGoesOn(u[z + 2..], past.lo, z, body + u[..z], chunks, later);
        assert FillLeaves(z + 2, left, past.lo, |u|);
      } else if z < 0 {
        left :| h.lo <= left <= h.hi && MayYieldBack(u, left, z, body, chunks, r);
        if Takes(u, left, z) {
          var later := YieldComes(u[left + z + 2..], Held(-z - 2, -z - 2), body + u[..left + z], chunks, r);
          o := later.After(z);
          AfterGoesOn(u[left + z + 2..], -z - 2, z, body + u[..left + z], chunks, later);
        }
      }
    }
  }

  /** The run of `_dechunk` on some segmentation of `s` whose first `held` octets are buffered. */
  ghost predicate Brings(s: bytes, held: nat, body: bytes, chunks: nat, o: Outcome)
    requires held <= |s|
  {
    exists p :: Cut(p) && Concat(p) == s[held..] && DechunkOn(p, s[..held], body, chunks).0 == o
  }

  lemma BringsMay(s: bytes, held: nat, body: bytes, chunks: nat, o: Outcome)
    requires held <= |s|
    ensures MayEnd(s, held, body, chunks, o) <==> Brings(s, held, body, chunks, o)
  {
    hide MayEnd, DechunkOn;
    OutcomesExact(s, held, body, chunks, o);
  }

  /** The results told from the octets are exactly those of the segmentations. */
  lemma YieldsExact(s: bytes, held: nat, body: bytes, chunks: nat, r: Option<bytes>)
    requires held <= |s|
    ensures MayYield(s, Held(held, held), body, chunks, r)
            <==> exists o :: Brings(s, held, body, chunks, o) && o.body == r
  {
    hide MayEnd, MayYield, Brings;
    if MayYield(s, Held(held, held), body, chunks, r) {
      var o := YieldComes(s, Held(held, held), body, chunks, r);
      BringsMay(s, held, body, chunks, o);
    }
    forall o | Brings(s, held, body, chunks, o)
      ensures MayYield(s, Held(held, held), body, chunks, o.body)
    {
      BringsMay(s, held, body, chunks, o);
      YieldBinds(s, Held(held, held), held, body, chunks, o);
    }
  }

  // ----- every, some, no segmentation -----------------------------------------------------------------

  /** Where two bodies are possible, so is an error: a reader that waits for no more than it needs. */
  lemma TwoBodiesFail(s: bytes, h: Held, body: bytes, chunks: nat, a: bytes, b: bytes)
    requires h.Sound(|s|) && a != b
    requires MayYield(s, h, body, chunks, Some(a)) && MayYield(s, h, body, chunks, Some(b))
    ensures MayYield(s, h, body, chunks, None)
    decreases chunks, 0
  {
    hide MayYieldSize, SizeOf, Find, Held.PastLine, Held.Reads;
    var i := Find(s, CRLF, 0).value;
    PastLineSound(h, i + 2, |s|);
    TwoBodiesFailSize(s[i + 2..], h.PastLine(i + 2, |s| - i - 2), SizeOf(s[..i]), body, chunks - 1, a, b);
  }

  lemma TwoBodiesFailSize(u: bytes, h: Held, size: Option<int>, body: bytes, chunks: nat, a: bytes, b: bytes)
    requires h.Sound(|u|) && a != b
    requires MayYieldSize(u, h, size, body, chunks, Some(a)) && MayYieldSize(u, h, size, body, chunks, Some(b))
    ensures MayYieldSize(u, h, size, body, chunks, None)
    decreases chunks, 1
  {
    hide MayYield, Held.PastData;
    var z := size.value;
    if z > 0 {
      PastDataSound(h, z + 2, |u|);
      TwoBodiesFail(u[z + 2..], h.PastData(z + 2, |u| - z - 2), body + u[..z], chunks, a, b);
    } else if h.lo == h.hi {
      assert MayYieldBack(u, h.lo, z, body, chunks, Some(a));
      assert MayYieldBack(u, h.lo, z, body, chunks, Some(b));
      var m := h.lo + z;
      TwoBodiesFail(u[m + 2..], Held(-z - 2, -z - 2), body + u[..m], chunks, a, b);
      assert MayYieldBack(u, h.lo, z, body, chunks, None);
    } else {
      assert MayYieldBack(u, 0, z, body, chunks, None);
    }
  }

  lemma PastDataSound(h: Held, n: nat, total: nat)
    requires h.Sound(total) && n <= total
    ensures h.PastData(n, total - n).Sound(total - n)
  {
  }

  lemma SomeResult(s: bytes, held: nat, body: bytes, chunks: nat) returns (r: Option<bytes>)
    requires held <= |s|
    ensures MayYield(s, Held(held, held), body, chunks, r)
  {
    var p := Singles(s[held..]);
    var o := DechunkOn(p, s[..held], body, chunks).0;
    RunsMay(s, held, body, chunks, p);
    YieldBinds(s, Held(held, held), held, body, chunks, o);
    r := o.body;
  }

  /** What the octets settle: an error, this body, or that the cuts decide. */
  datatype Fate = Never | Always(body: bytes) | Depends

  ghost predicate Fated(s: bytes, held: nat, body: bytes, chunks: nat, fate: Fate)
    requires held <= |s|
  {
    var h := Held(held, held);
    match fate
    case Never => forall b :: !MayYield(s, h, body, chunks, Some(b))
    case Always(b) => MayYield(s, h, body, chunks, Some(b)) && !MayYield(s, h, body, chunks, None)
    case Depends => MayYield(s, h, body, chunks, None) && exists b :: MayYield(s, h, body, chunks, Some(b))
  }

  /** What that means for the segmentations. */
  ghost predicate Holding(s: bytes, held: nat, body: bytes, chunks: nat, fate: Fate)
    requires held <= |s|
  {
    match fate
    case Never => forall o :: Brings(s, held, body, chunks, o) ==> o.body == None
    case Always(b) => forall o :: Brings(s, held, body, chunks, o) ==> o.body == Some(b)
    case Depends =>
      && (exists o :: Brings(s, held, body, chunks, o) && o.body == None)
      && (exists o :: Brings(s, held, body, chunks, o) && o.body.Some?)
  }

  /**
   * For every stream and whatever is buffered of it: the octets settle whether no segmentation
   * yields a body, every one yields this body, or some yield a body and some an error. A stream is
   * never open between two bodies alone.
   */
  lemma FateExact(s: bytes, held: nat, body: bytes, chunks: nat)
    requires held <= |s|
    ensures exists fate :: Fated(s, held, body, chunks, fate)
    ensures forall fate :: Fated(s, held, body, chunks, fate) ==> Holding(s, held, body, chunks, fate)
  {
    hide MayYield, Brings;
    var h := Held(held, held);
    forall r
      ensures MayYield(s, h, body, chunks, r) <==> exists o :: Brings(s, held, body, chunks, o) && o.body == r
    {
      YieldsExact(s, held, body, chunks, r);
    }
    var r := SomeResult(s, held, body, chunks);
    forall a, b | MayYield(s, h, body, chunks, Some(a)) && MayYield(s, h, body, chunks, Some(b)) && a != b
      ensures MayYield(s, h, body, chunks, None)
    {
      TwoBodiesFail(s, h, body, chunks, a, b);
    }
    if r.Some? {
      assert Fated(s, held, body, chunks, if MayYield(s, h, body, chunks, None) then Depends else Always(r.value));
    } else {
      assert Fated(s, held, body, chunks, Depends) || Fated(s, held, body, chunks, Never);
    }
  }

  // ----- when there is only one body ------------------------------------------------------------------

  lemma SizeIs(u: bytes, held: nat, size: Option<int>, body: bytes, chunks: nat, o: Outcome)
    requires held <= |u| && MaySize(u, held, size, body, chunks, o) && o.body.Some?
    ensures o.sizes != [] && size == Some(o.sizes[0]) && (size.value == 0 || !TooLarge(size.value, body))
    ensures size == Some(0) ==> o == Outcome(Some(body), [0])
    ensures size.value > 0 ==> Holds(u, size.value, CRLF)
    ensures size.value < 0 ==> size.value <= -3 && held + size.value >= 0
  {
    hide MayEnd;
    if size.Some? && size.value > 0 && !TooLarge(size.value, body) && Holds(u, size.value, CRLF) {
      var z := size.value;
      var left: nat :| FillLeaves(z + 2, held, left, |u|) && MayGoOn(u[z + 2..], left, z, body + u[..z], chunks, o);
    }
  }

  /** No size below zero was read. */
  predicate Unsigned(sizes: seq<int>) {
    forall i :: 0 <= i < |sizes| ==> sizes[i] >= 0
  }

  /** All segmentations that yield a body yield one and the same, unless each of them reads a negative size. */
  lemma OneBody(s: bytes, h1: nat, h2: nat, body: bytes, chunks: nat, o1: Outcome, o2: Outcome)
    requires h1 <= |s| && MayEnd(s, h1, body, chunks, o1) && o1.body.Some? && Unsigned(o1.sizes)
    requires h2 <= |s| && MayEnd(s, h2, body, chunks, o2) && o2.body.Some?
    ensures o1 == o2
    decreases chunks, 0
  {
    hide MaySize, SizeOf, Find;
    var i := Find(s, CRLF, 0).value;
    var u, size := s[i + 2..], SizeOf(s[..i]);
    var left1: nat :| LineLeaves(i + 2, h1, left1, |s|) && left1 <= |u|
                      && MaySize(u, left1, size, body, chunks - 1, o1);
    var left2: nat :| LineLeaves(i + 2, h2, left2, |s|) && left2 <= |u|
                      && MaySize(u, left2, size, body, chunks - 1, o2);
    OneBodySize(u, left1, left2, size, body, chunks - 1, o1, o2);
  }

  lemma OneBodySize(
      u: bytes, h1: nat, h2: nat, size: Option<int>, body: bytes, chunks: nat, o1: Outcome, o2: Outcome)
    requires h1 <= |u| && MaySize(u, h1, size, body, chunks, o1) && o1.body.Some? && Unsigned(o1.sizes)
    requires h2 <= |u| && MaySize(u, h2, size, body, chunks, o2) && o2.body.Some?
    ensures o1 == o2
    decreases chunks, 1
  {
    hide MayEnd;
    SizeIs(u, h1, size, body, chunks, o1);
    SizeIs(u, h2, size, body, chunks, o2);
    var z := size.value;
    if z > 0 {
      var left1: nat :| FillLeaves(z + 2, h1, left1, |u|) && MayGoOn(u[z + 2..], left1, z, body + u[..z], chunks, o1);
      var left2: nat :| FillLeaves(z + 2, h2, left2, |u|) && MayGoOn(u[z + 2..], left2, z, body + u[..z], chunks, o2);
      OneBody(u[z + 2..], left1, left2, body + u[..z], chunks,
              Outcome(o1.body, o1.sizes[1..]), Outcome(o2.body, o2.sizes[1..]));
      assert o1.sizes == [z] + o1.sizes[1..] && o2.sizes == [z] + o2.sizes[1..];
    }
  }

  // ----- one stream, two results -----------------------------------------------------------------------

  lemma OnePieceMore(buf: bytes, piece: bytes, more: seq<bytes>, line: bytes, surplus: bytes)
    requires OneLine(buf) && |buf| <= MAX_HEADER && 0 < |piece| <= RECV && Cut(more)
    requires OneLine(line) && buf + piece == line + CRLF + surplus
    ensures ReadUntilOn([piece] + more, CRLF, MAX_HEADER, buf) == (Some((line, surplus)), more)
  {
    hide Find;
    NoneInLine(buf);
    LineFirst(line, surplus);
    assert Deliver([piece] + more, RECV) == (piece, more);
    DeliverKeeps([piece] + more, RECV);
  }

  lemma MinusThree(pieces: seq<bytes>, buf: bytes, body: bytes)
    requires Cut(pieces) && |buf| >= 3
    ensures SizeOf([45, 51]) == Some(-3) && OneLine([45, 51])
    ensures var m := |buf| - 3;
            TakeOn(pieces, buf, -3, body)
            == (if buf[m..m + 2] == CRLF then Next(-3, body + buf[..m], buf[m + 2..])
                else Ended(Outcome(None, [-3])), pieces)
  {
    hide Slice;
    assert Worth([51][..0], 16) == 0 && DigitOf(51) == 3;
    NegativeReads([51]);
    assert [45] + [51] == [45, 51];
    SliceSizes(buf, -3);
  }

  /**
   * One stream, two segmentations, two results: `-3`, an empty line and `0`, all in one piece, is
   * an error; cut before the last line end it is an empty body.
   */
  lemma TwoCuts()
    ensures var s := [45, 51] + CRLF + CRLF + [48] + CRLF;
            && DechunkOn([s], [], [], MAX_CHUNKS).0 == Outcome(None, [-3])
            && DechunkOn([s[..7], s[7..]], [], [], MAX_CHUNKS).0 == Outcome(Some([]), [-3, 0])
  {
    hide ReadUntilOn, TakeOn, SizeOf;
    var s: bytes := [45, 51] + CRLF + CRLF + [48] + CRLF;
    var late: bytes, early: bytes := [13, 10, 48, 13, 10], [13, 10, 48];
    assert s == [45, 51] + CRLF + late && s[..7] == [45, 51] + CRLF + early && s[7..] == CRLF;
    MinusThree([], late, []);
    assert late[2..4][0] == 48;
    OnePieceMore([], s, [], [45, 51], late);
    assert [s] + [] == [s];
    MinusThree([CRLF], early, []);
    OnePieceMore([], s[..7], [CRLF], [45, 51], early);
    assert [s[..7]] + [CRLF] == [s[..7], s[7..]];
    assert early[2..] == [48] && early[..0] == [] && [] + early[..0] == [];
    ZeroEnds();
    assert [-3] + [0] == [-3, 0];
  }

  lemma ZeroEnds()
    ensures DechunkOn([CRLF], [48], [], MAX_CHUNKS - 1).0 == Outcome(Some([]), [0])
  {
    hide ReadUntilOn, TakeOn, SizeOf;
    assert DigitOf(48) == 0 && [48][..0] == [] && Worth([48], 16) == 0;
    SizeReads([48]);
    assert [48] + CRLF == [48] + CRLF + [];
    OnePieceMore([48], CRLF, [], [48], []);
    assert [CRLF] + [] == [CRLF];
  }
}
