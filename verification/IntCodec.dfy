// The HPACK prefix-integer codec of orchestrator/hpack.py (section 5.1 of RFC 7541).
module IntCodec {
  import opened Bytes

  /** One past the largest number five continuation bytes can carry: 2^35. */
  const TAIL_LIMIT: nat := 0x8_0000_0000

  /** The outcome of reading an integer: its value and the position after it. */
  datatype IntRead = IntErr | IntOk(value: nat, pos: nat)

  /** `(1 << p) - 1`: the largest value of a `p`-bit prefix, and the mask that selects it. */
  function PrefixLimit(p: nat): (r: nat)
    requires 1 <= p <= 8
  {
    match p
    case 1 => 1
    case 2 => 3
    case 3 => 7
    case 4 => 15
    case 5 => 31
    case 6 => 63
    case 7 => 127
    case 8 => 255
  }

  /** `b & PrefixLimit(p)`: the low `p` bits of a byte. */
  function LowBits(b: byte, p: nat): (r: nat)
    requires 1 <= p <= 8
    ensures r <= PrefixLimit(p)
  {
    match p
    case 1 => b % 2
    case 2 => b % 4
    case 3 => b % 8
    case 4 => b % 16
    case 5 => b % 32
    case 6 => b % 64
    case 7 => b % 128
    case 8 => b
  }

  lemma {:induction false} OneMultipleMore(unit: nat, a: nat, b: nat)
    requires a < b
    ensures unit * a + unit <= unit * b
    decreases b - a
  {
    assert unit * (a + 1) == unit * a + unit;
    if a + 1 < b {
      OneMultipleMore(unit, a + 1, b);
    }
  }

  /** Adding a number below `unit` to a multiple of it. */
  lemma AddBelow(flags: nat, v: nat, unit: nat)
    requires unit > 0 && flags % unit == 0 && v < unit
    ensures (flags + v) / unit == flags / unit && (flags + v) % unit == v
  {
    var q, d := flags / unit, (flags + v) / unit;
    assert flags + v == unit * q + v == unit * d + (flags + v) % unit;
    if d < q {
      OneMultipleMore(unit, d, q);
    } else if q < d {
      OneMultipleMore(unit, q, d);
    }
  }

  /** `flags | v` where the low `p` bits of `flags` are clear: a sum, with `v` in those bits. */
  lemma FlagsFit(flags: byte, v: nat, p: nat)
    requires 1 <= p <= 8 && LowBits(flags, p) == 0 && v <= PrefixLimit(p)
    ensures flags + v < 256 && LowBits(flags + v, p) == v
  {
    var unit := PrefixLimit(p) + 1;
    AddBelow(flags, v, unit);
  }

  /** The continuation bytes of `v`: base 128, least significant digit first. */
  function Tail(v: nat): (r: bytes)
    ensures |r| > 0
  {
    if v < 128 then [v] else [v % 128 + 128] + Tail(v / 128)
  }

  /** `v` with a `p`-bit prefix, the other bits of the first byte being `flags`. */
  function IntBytes(v: nat, p: nat, flags: byte): (r: bytes)
    requires 1 <= p <= 8 && LowBits(flags, p) == 0
    ensures |r| > 0
  {
    var limit := PrefixLimit(p);
    FlagsFit(flags, if v < limit then v else limit, p);
    if v < limit then [flags + v] else [flags + limit] + Tail(v - limit)
  }

  method IntEncode(value: nat, p: nat, flags: byte) returns (out: bytes)
    requires 1 <= p <= 8 && LowBits(flags, p) == 0
    ensures out == IntBytes(value, p, flags)
  {
    var limit := PrefixLimit(p);
    FlagsFit(flags, if value < limit then value else limit, p);
    if value < limit {
      return [flags + value];
    }
    out := [flags + limit];
    var v: nat := value - limit;
    while v >= 128
      invariant out + Tail(v) == IntBytes(value, p, flags)
    {
      assert out + Tail(v) == out + [v % 128 + 128] + Tail(v / 128);
      out := out + [v % 128 + 128];
      v := v / 128;
    }
    out := out + [v];
  }

  /** Continuation bytes read from `pos` on, `value` being what was read before. */
  function ParseTail(buf: bytes, pos: nat, value: nat, shift: nat): (r: IntRead)
    ensures r.IntOk? ==> pos < r.pos <= |buf|
    decreases |buf| - pos
  {
    if pos >= |buf| then IntErr
    else
      var value' := value + (buf[pos] % 128) * Pow2(shift);
      if buf[pos] < 128 then IntOk(value', pos + 1)
      else if shift + 7 > 28 then IntErr
      else ParseTail(buf, pos + 1, value', shift + 7)
  }

  /** The integer with a `p`-bit prefix at `pos`; reading past the end is an error. */
  function ParseInt(buf: bytes, pos: nat, p: nat): (r: IntRead)
    requires 1 <= p <= 8
    ensures r.IntOk? ==> pos < r.pos <= |buf|
  {
    if pos >= |buf| then IntErr
    else
      var limit := PrefixLimit(p);
      var value := LowBits(buf[pos], p);
      if value < limit then IntOk(value, pos + 1) else ParseTail(buf, pos + 1, value, 0)
  }

  method IntDecode(buf: bytes, pos: nat, p: nat) returns (r: IntRead)
    requires 1 <= p <= 8
    ensures r == ParseInt(buf, pos, p)
  {
    if pos >= |buf| {
      return IntErr;
    }
    var limit := PrefixLimit(p);
    var value: nat := LowBits(buf[pos], p);
    if value < limit {
      return IntOk(value, pos + 1);
    }
    var i: nat, shift: nat := pos + 1, 0;
    while true
      invariant ParseInt(buf, pos, p) == ParseTail(buf, i, value, shift)
      invariant i <= |buf|
      decreases |buf| - i
    {
      if i >= |buf| {
        return IntErr;
      }
      var b := buf[i];
      i := i + 1;
      value := value + (b % 128) * Pow2(shift);
      shift := shift + 7;
      if b < 128 {
        return IntOk(value, i);
      }
      if shift > 28 {
        return IntErr;
      }
    }
  }

  // ----- what a decoded integer is worth ---------------------------------------

  /** The number written by continuation bytes, whatever their number. */
  function TailValue(bs: bytes): nat {
    if bs == [] then 0 else bs[0] % 128 + 128 * TailValue(bs[1..])
  }

  /** All bytes but the last announce another one. */
  predicate TailShaped(bs: bytes) {
    |bs| > 0 && bs[|bs| - 1] < 128 && forall i :: 0 <= i < |bs| - 1 ==> bs[i] >= 128
  }

  lemma Pow2Seven(shift: nat)
    ensures Pow2(shift + 7) == 128 * Pow2(shift)
  {
    Pow2Add(7, shift);
    assert Pow2(7) == 128;
  }

  /** Two base-128 digits in front of the same weight. */
  lemma Scale(low: nat, high: nat, unit: nat)
    ensures low * unit + high * (128 * unit) == (low + 128 * high) * unit
  {
  }

  /** At most five continuation bytes are read, and all but the last have the top bit set. */
  lemma {:induction false} ParseTailShape(buf: bytes, pos: nat, value: nat, shift: nat)
    requires shift % 7 == 0 && shift <= 28
    requires ParseTail(buf, pos, value, shift).IntOk?
    ensures var r := ParseTail(buf, pos, value, shift);
            TailShaped(buf[pos..r.pos]) && 7 * (r.pos - pos) <= 35 - shift
    decreases |buf| - pos
  {
    if buf[pos] >= 128 {
      ParseTailShape(buf, pos + 1, value + (buf[pos] % 128) * Pow2(shift), shift + 7);
    }
  }

  /** A run of continuation bytes adds its base-128 value, weighted. */
  lemma {:induction false} ParseTailValue(buf: bytes, pos: nat, value: nat, shift: nat, unit: nat)
    requires unit == Pow2(shift) && ParseTail(buf, pos, value, shift).IntOk?
    ensures var r := ParseTail(buf, pos, value, shift);
            r.value == value + TailValue(buf[pos..r.pos]) * unit
    decreases |buf| - pos
  {
    var r := ParseTail(buf, pos, value, shift);
    var run := buf[pos..r.pos];
    var digit := buf[pos] % 128;
    if buf[pos] < 128 {
      assert run == [buf[pos]] && run[1..] == [];
    } else {
      assert Pow2(shift + 7) == 128 * unit by { Pow2Seven(shift); }
      ParseTailValue(buf, pos + 1, value + digit * unit, shift + 7, 128 * unit);
      var rest := buf[pos + 1..r.pos];
      assert run == [buf[pos]] + rest && run[1..] == rest;
      Scale(digit, TailValue(rest), unit);
    }
  }

  /** 128^k. */
  function Capacity(k: nat): (r: nat) {
    if k == 0 then 1 else 128 * Capacity(k - 1)
  }

  lemma {:induction false} TailValueBound(bs: bytes, k: nat)
    requires |bs| <= k
    ensures TailValue(bs) < Capacity(k)
  {
    if k > 0 {
      TailValueBound(if bs == [] then [] else bs[1..], k - 1);
    }
  }

  /** Every successful read is worth what section 5.1 says, is bounded, and takes at most 6 bytes. */
  lemma ParseIntValue(buf: bytes, pos: nat, p: nat)
    requires 1 <= p <= 8 && ParseInt(buf, pos, p).IntOk?
    ensures var r := ParseInt(buf, pos, p);
            var limit := PrefixLimit(p);
            var prefix := LowBits(buf[pos], p);
            && pos < r.pos <= pos + 6
            && r.value < limit + TAIL_LIMIT
            && (prefix < limit ==> r == IntOk(prefix, pos + 1))
            && (prefix == limit ==> TailShaped(buf[pos + 1..r.pos])
                                    && r.value == limit + TailValue(buf[pos + 1..r.pos]))
  {
    var limit := PrefixLimit(p);
    if LowBits(buf[pos], p) >= limit {
      var r := ParseInt(buf, pos, p);
      ParseTailShape(buf, pos + 1, limit, 0);
      ParseTailValue(buf, pos + 1, limit, 0, 1);
      TailValueBound(buf[pos + 1..r.pos], 5);
    }
  }

  // ----- round trip -------------------------------------------------------------

  /** The encoder's continuation bytes are well shaped and worth `v`. */
  lemma {:induction false} TailIsWorth(v: nat)
    ensures TailShaped(Tail(v)) && TailValue(Tail(v)) == v
    decreases v
  {
    if v >= 128 {
      var rest := Tail(v / 128);
      TailIsWorth(v / 128);
      assert Tail(v) == [v % 128 + 128] + rest && Tail(v)[1..] == rest;
    }
  }

  /** They are `k` or fewer exactly when `k` bytes can hold `v`. */
  lemma {:induction false} TailLength(v: nat, k: nat)
    ensures |Tail(v)| <= k + 1 <==> v < Capacity(k + 1)
    decreases v
  {
    if v >= 128 && k > 0 {
      TailLength(v / 128, k - 1);
    } else {
      assert Capacity(k) >= 1 by { TailValueBound([], k); }
    }
  }

  /** Well shaped continuation bytes are read to their end when there is room for them all. */
  lemma {:induction false} ParseTailExtent(run: bytes, buf: bytes, pos: nat, value: nat, shift: nat)
    requires shift % 7 == 0 && shift <= 28 && TailShaped(run) && Holds(buf, pos, run)
    ensures var r := ParseTail(buf, pos, value, shift);
            if 7 * |run| <= 35 - shift then r.IntOk? && r.pos == pos + |run| else r.IntErr?
    decreases |run|
  {
    HoldsFirst(buf, pos, run);
    if |run| > 1 && shift < 28 {
      ParseTailExtent(run[1..], buf, pos + 1, value + (buf[pos] % 128) * Pow2(shift), shift + 7);
    }
  }

  /**
   * Decoding an encoded integer, wherever it stands, gives it back and consumes exactly its bytes
   * when it is below 2^p - 1 + 2^35, and fails otherwise.
   */
  lemma IntRoundTrip(v: nat, p: nat, flags: byte, buf: bytes, pos: nat)
    requires 1 <= p <= 8 && LowBits(flags, p) == 0 && Holds(buf, pos, IntBytes(v, p, flags))
    ensures ParseInt(buf, pos, p)
            == if v < PrefixLimit(p) + TAIL_LIMIT then IntOk(v, pos + |IntBytes(v, p, flags)|) else IntErr
  {
    var limit := PrefixLimit(p);
    var code := IntBytes(v, p, flags);
    HoldsFirst(buf, pos, code);
    FirstByte(v, p, flags);
    if v >= limit {
      assert code[1..] == Tail(v - limit);
      TailRoundTrip(v - limit, buf, pos + 1, limit);
    }
  }

  lemma FirstByte(v: nat, p: nat, flags: byte)
    requires 1 <= p <= 8 && LowBits(flags, p) == 0
    ensures var first := IntBytes(v, p, flags)[0];
            var limit := PrefixLimit(p);
            first == flags + LowBits(first, p) && LowBits(first, p) == if v < limit then v else limit
  {
    FlagsFit(flags, if v < PrefixLimit(p) then v else PrefixLimit(p), p);
  }

  lemma TailRoundTrip(v: nat, buf: bytes, pos: nat, value: nat)
    requires Holds(buf, pos, Tail(v))
    ensures ParseTail(buf, pos, value, 0)
            == if v < TAIL_LIMIT then IntOk(value + v, pos + |Tail(v)|) else IntErr
  {
    TailIsWorth(v);
    TailLength(v, 4);
    assert Capacity(5) == TAIL_LIMIT;
    ParseTailExtent(Tail(v), buf, pos, value, 0);
    if |Tail(v)| <= 5 {
      ParseTailValue(buf, pos, value, 0, 1);
    }
  }
}
