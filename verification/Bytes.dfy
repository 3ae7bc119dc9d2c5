// Byte strings and the few Python `bytes` operations the referee uses.
module Bytes {

  type byte = b: int | 0 <= b < 256
  type bytes = seq<byte>

  datatype Option<+T> = None | Some(value: T)

  /** The bytes of an ASCII literal. */
  function Ascii(s: string): (r: bytes)
    ensures |r| == |s| && forall i :: 0 <= i < |s| ==> r[i] == s[i] as int % 256
  {
    seq(|s|, i requires 0 <= i < |s| => (s[i] as int) % 256)
  }

  function Pow2(n: nat): (r: nat)
    ensures r > 0
  {
    if n == 0 then 1 else 2 * Pow2(n - 1)
  }

  lemma {:induction false} Pow2Add(m: nat, n: nat)
    ensures Pow2(m + n) == Pow2(m) * Pow2(n)
  {
    if m > 0 {
      Pow2Add(m - 1, n);
    }
  }

  /** `part` stands in `buf` at `pos`. */
  predicate Holds(buf: bytes, pos: nat, part: bytes) {
    pos + |part| <= |buf| && buf[pos..pos + |part|] == part
  }

  lemma HoldsBoth(buf: bytes, pos: nat, a: bytes, b: bytes)
    requires Holds(buf, pos, a + b)
    ensures Holds(buf, pos, a) && Holds(buf, pos + |a|, b)
  {
    var whole := buf[pos..pos + |a| + |b|];
    assert buf[pos..pos + |a|] == whole[..|a|] == a;
    assert buf[pos + |a|..pos + |a| + |b|] == whole[|a|..] == b;
  }

  lemma HoldsFirst(buf: bytes, pos: nat, part: bytes)
    requires Holds(buf, pos, part) && part != []
    ensures buf[pos] == part[0] && Holds(buf, pos + 1, part[1..])
  {
    assert part == part[..1] + part[1..];
    HoldsBoth(buf, pos, part[..1], part[1..]);
    assert buf[pos..pos + |part|][0] == buf[pos];
  }

  function LowerByte(b: byte): byte {
    if 65 <= b <= 90 then b + 32 else b
  }

  /** ASCII lower-casing. */
  function Lower(s: bytes): (r: bytes)
    ensures |r| == |s|
  {
    seq(|s|, i requires 0 <= i < |s| => LowerByte(s[i]))
  }

  /** The parts, one after the other. */
  function Concat(parts: seq<bytes>): bytes {
    if parts == [] then [] else parts[0] + Concat(parts[1..])
  }

  lemma ConcatCons(part: bytes, parts: seq<bytes>)
    ensures Concat([part] + parts) == part + Concat(parts)
  {
    assert ([part] + parts)[1..] == parts;
  }

  lemma {:induction false} ConcatBoth(a: seq<bytes>, b: seq<bytes>)
    ensures Concat(a + b) == Concat(a) + Concat(b)
  {
    if a == [] {
      assert a + b == b;
    } else {
      ConcatBoth(a[1..], b);
      assert (a + b)[1..] == a[1..] + b;
      assert a[0] + (Concat(a[1..]) + Concat(b)) == Concat(a) + Concat(b);
    }
  }

  /** The first place at or after `from` where `part` stands in `buf`. */
  function Find(buf: bytes, part: bytes, from: nat): (r: Option<nat>)
    ensures r.Some? ==> r.value >= from && Holds(buf, r.value, part)
    ensures r.Some? ==> forall j :: from <= j < r.value ==> !Holds(buf, j, part)
    ensures r.None? ==> forall j :: from <= j ==> !Holds(buf, j, part)
    decreases |buf| - from
  {
    if from + |part| > |buf| then None
    else if Holds(buf, from, part) then Some(from)
    else if from == |buf| then None
    else Find(buf, part, from + 1)
  }

  lemma FindIs(buf: bytes, part: bytes, from: nat, at: nat)
    requires from <= at && Holds(buf, at, part)
    requires forall j :: from <= j < at ==> !Holds(buf, j, part)
    ensures Find(buf, part, from) == Some(at)
  {
    var r := Find(buf, part, from);
    assert r.Some? && !(r.value < at) && !(at < r.value);
  }

  /** More input does not move the first occurrence. */
  lemma FindInPrefix(buf: bytes, more: bytes, part: bytes)
    ensures Find(buf, part, 0).Some? ==> Find(buf + more, part, 0) == Find(buf, part, 0)
    ensures Find(buf + more, part, 0).Some? && Find(buf + more, part, 0).value + |part| <= |buf|
            ==> Find(buf, part, 0) == Find(buf + more, part, 0)
  {
    forall j: nat | j + |part| <= |buf|
      ensures Holds(buf + more, j, part) == Holds(buf, j, part)
    {
      assert (buf + more)[j..j + |part|] == buf[j..j + |part|];
    }
    var inner, outer := Find(buf, part, 0), Find(buf + more, part, 0);
    if inner.Some? {
      FindIs(buf + more, part, 0, inner.value);
    }
  }

  const CR: byte := 13
  const LF: byte := 10
  const CRLF: bytes := [13, 10]
}
