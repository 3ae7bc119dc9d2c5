// The HPACK codec of orchestrator/hpack.py.
//
// Text is kept as the octets on the wire; a string the peer Huffman-coded is read as None.
module Hpack {
  import opened Bytes
  import opened IntCodec

  /** The peer cannot make the decoder keep a larger table. */
  const MAX_TABLE_SIZE: nat := 0x1_0000

  /** A header field as the decoder reports it; a value it cannot read is None. */
  datatype Field = Field(name: bytes, value: Option<bytes>)

  /** A header the encoder is given. */
  datatype Header = Header(name: bytes, value: bytes)

  /** The static table: what only requests and responses have, and the other names in three parts. */
  const STATIC: seq<(string, string)> := PSEUDO + A_TO_C + D_TO_L + M_TO_W

  const PSEUDO: seq<(string, string)> := [
    (":authority", ""),
    (":method", "GET"),
    (":method", "POST"),
    (":path", "/"),
    (":path", "/index.html"),
    (":scheme", "http"),
    (":scheme", "https"),
    (":status", "200"),
    (":status", "204"),
    (":status", "206"),
    (":status", "304"),
    (":status", "400"),
    (":status", "404"),
    (":status", "500")
  ]

  const A_TO_C: seq<(string, string)> := [
    ("accept-charset", ""),
    ("accept-encoding", "gzip, deflate"),
    ("accept-language", ""),
    ("accept-ranges", ""),
    ("accept", ""),
    ("access-control-allow-origin", ""),
    ("age", ""),
    ("allow", ""),
    ("authorization", ""),
    ("cache-control", ""),
    ("content-disposition", ""),
    ("content-encoding", ""),
    ("content-language", ""),
    ("content-length", ""),
    ("content-location", ""),
    ("content-range", ""),
    ("content-type", ""),
    ("cookie", "")
  ]

  const D_TO_L: seq<(string, string)> := [
    ("date", ""),
    ("etag", ""),
    ("expect", ""),
    ("expires", ""),
    ("from", ""),
    ("host", ""),
    ("if-match", ""),
    ("if-modified-since", ""),
    ("if-none-match", ""),
    ("if-range", ""),
    ("if-unmodified-since", ""),
    ("last-modified", ""),
    ("link", ""),
    ("location", "")
  ]

  const M_TO_W: seq<(string, string)> := [
    ("max-forwards", ""),
    ("proxy-authenticate", ""),
    ("proxy-authorization", ""),
    ("range", ""),
    ("referer", ""),
    ("refresh", ""),
    ("retry-after", ""),
    ("server", ""),
    ("set-cookie", ""),
    ("strict-transport-security", ""),
    ("transfer-encoding", ""),
    ("user-agent", ""),
    ("vary", ""),
    ("via", ""),
    ("www-authenticate", "")
  ]

  /** The static table entry at a wire index, counting from 1. */
  function StaticAt(index: nat): Field
    requires 1 <= index <= |STATIC|
  {
    Field(Ascii(STATIC[index - 1].0), Some(Ascii(STATIC[index - 1].1)))
  }

  // ----- tables ----------------------------------------------------------------

  /** The size of an entry, as the decoder counts it: an unreadable value counts for nothing. */
  function SizeOf(f: Field): nat {
    |f.name| + (if f.value.Some? then |f.value.value| else 0) + 32
  }

  function Total<T>(table: seq<T>, size: T -> nat): nat {
    if table == [] then 0 else Total(table[..|table| - 1], size) + size(table[|table| - 1])
  }

  /** `table` after evicting from its end until it is empty or no larger than `max`. */
  function Evict<T>(table: seq<T>, size: T -> nat, max: nat): seq<T> {
    if table == [] || Total(table, size) <= max then table
    else Evict(table[..|table| - 1], size, max)
  }

  /** Eviction keeps the longest run of newest entries that fits. */
  lemma {:induction false} EvictIsLongest<T>(table: seq<T>, size: T -> nat, max: nat)
    ensures var kept := Evict(table, size, max);
            && kept <= table && Total(kept, size) <= max
            && forall n :: |kept| < n <= |table| ==> Total(table[..n], size) > max
    decreases |table|
  {
    if table != [] && Total(table, size) > max {
      var shorter := table[..|table| - 1];
      EvictIsLongest(shorter, size, max);
      var kept := Evict(table, size, max);
      forall n | |kept| < n <= |table|
        ensures Total(table[..n], size) > max
      {
        assert table[..n] == if n == |table| then table else shorter[..n];
      }
    }
  }

  /** What the decoder remembers between header blocks, newest entry first. */
  datatype State = State(maxSize: nat, table: seq<Field>) {
    predicate Valid() {
      Total(table, SizeOf) <= maxSize <= MAX_TABLE_SIZE
    }

    function Add(f: Field): State {
      this.(table := Evict([f] + table, SizeOf, maxSize))
    }

    function Resize(requested: nat): State {
      var size := if requested < MAX_TABLE_SIZE then requested else MAX_TABLE_SIZE;
      State(size, Evict(table, SizeOf, size))
    }

    /** The entry at a wire index: the static table, then the dynamic one. */
    function At(index: nat): Option<Field> {
      if index == 0 then None
      else if index <= |STATIC| then Some(StaticAt(index))
      else if index - |STATIC| - 1 < |table| then Some(table[index - |STATIC| - 1])
      else None
    }
  }

  // ----- reading one representation ----------------------------------------------

  datatype StrRead = StrErr | StrOk(text: Option<bytes>, pos: nat)

  function ParseStr(buf: bytes, pos: nat): (r: StrRead)
    ensures r.StrOk? ==> pos < r.pos <= |buf|
  {
    match ParseInt(buf, pos, 7)
    case IntErr => StrErr
    case IntOk(length, start) =>
      if start + length > |buf| then StrErr
      else if buf[pos] >= 128 then StrOk(None, start + length)
      else StrOk(Some(buf[start..start + length]), start + length)
  }

  datatype LiteralRead = LiteralErr | LiteralOk(field: Field, pos: nat)

  function OrEmpty(text: Option<bytes>): bytes {
    if text.Some? then text.value else []
  }

  /** A literal field whose name index has a `p`-bit prefix. */
  function ParseLiteral(buf: bytes, pos: nat, p: nat, st: State): (r: LiteralRead)
    requires 1 <= p <= 8
    ensures r.LiteralOk? ==> pos < r.pos <= |buf|
  {
    match ParseInt(buf, pos, p)
    case IntErr => LiteralErr
    case IntOk(index, pos1) =>
      if index > 0 then
        if st.At(index).None? then LiteralErr else
        match ParseStr(buf, pos1)
        case StrErr => LiteralErr
        case StrOk(value, pos2) => LiteralOk(Field(st.At(index).value.name, value), pos2)
      else
        match ParseStr(buf, pos1)
        case StrErr => LiteralErr
        case StrOk(name, pos2) =>
          match ParseStr(buf, pos2)
          case StrErr => LiteralErr
          case StrOk(value, pos3) => LiteralOk(Field(OrEmpty(name), value), pos3)
  }

  /** One representation: the field it yields, if any, the next position and the new state. */
  datatype Read = Bad | Good(field: Option<Field>, pos: nat, st: State)

  function ReadOne(block: bytes, pos: nat, st: State): (r: Read)
    requires pos < |block|
    ensures r.Good? ==> pos < r.pos <= |block|
  {
    var b := block[pos];
    if b >= 128 then
      match ParseInt(block, pos, 7)
      case IntErr => Bad
      case IntOk(index, pos') =>
        if st.At(index).None? then Bad else Good(st.At(index), pos', st)
    else if b >= 64 then
      match ParseLiteral(block, pos, 6, st)
      case LiteralErr => Bad
      case LiteralOk(f, pos') => Good(Some(f), pos', st.Add(f))
    else if b >= 32 then
      match ParseInt(block, pos, 5)
      case IntErr => Bad
      case IntOk(requested, pos') => Good(None, pos', st.Resize(requested))
    else
      match ParseLiteral(block, pos, 4, st)
      case LiteralErr => Bad
      case LiteralOk(f, pos') => Good(Some(f), pos', st)
  }

  function Append(out: seq<Field>, f: Option<Field>): seq<Field> {
    if f.Some? then out + [f.value] else out
  }

  /** The rest of a block: the fields, or None if it is malformed, and the state left behind. */
  function DecodeFrom(block: bytes, pos: nat, st: State, out: seq<Field>): (Option<seq<Field>>, State)
    requires pos <= |block|
    decreases |block| - pos
  {
    if pos == |block| then (Some(out), st)
    else
      match ReadOne(block, pos, st)
      case Bad => (None, st)
      case Good(f, pos', st') => DecodeFrom(block, pos', st', Append(out, f))
  }

  // ----- the decoder ---------------------------------------------------------------

  method StrDecode(buf: bytes, pos: nat) returns (r: StrRead)
    ensures r == ParseStr(buf, pos)
  {
    if pos >= |buf| {
      return StrErr;
    }
    var huffman := buf[pos] >= 128;
    var n := IntDecode(buf, pos, 7);
    if n.IntErr? || n.pos + n.value > |buf| {
      return StrErr;
    }
    var raw := buf[n.pos..n.pos + n.value];
    return if huffman then StrOk(None, n.pos + n.value) else StrOk(Some(raw), n.pos + n.value);
  }

  /** One decoder per connection: the dynamic table is connection state. */
  class Decoder {
    var maxSize: nat
    var table: seq<Field>

    ghost function Abstract(): State
      reads this
    {
      State(maxSize, table)
    }

    ghost predicate Valid()
      reads this
    {
      Abstract().Valid()
    }

    constructor (max: nat)
      ensures Valid() && table == [] && maxSize == if max < MAX_TABLE_SIZE then max else MAX_TABLE_SIZE
    {
      maxSize := if max < MAX_TABLE_SIZE then max else MAX_TABLE_SIZE;
      table := [];
    }

    method Lookup(index: nat) returns (r: Option<Field>)
      ensures r == Abstract().At(index)
    {
      if index == 0 {
        return None;
      }
      if index <= |STATIC| {
        return Some(StaticAt(index));
      }
      var offset := index - |STATIC| - 1;
      if offset >= |table| {
        return None;
      }
      return Some(table[offset]);
    }

    /** Drops the oldest entries until the table fits. */
    method Shrink()
      modifies this`table
      ensures table == Evict(old(table), SizeOf, maxSize)
      ensures Total(table, SizeOf) <= maxSize
    {
      EvictIsLongest(table, SizeOf, maxSize);
      var size := Total(table, SizeOf);
      while size > maxSize && table != []
        invariant size == Total(table, SizeOf)
        invariant Evict(table, SizeOf, maxSize) == Evict(old(table), SizeOf, maxSize)
        decreases |table|
      {
        var last := table[|table| - 1];
        table := table[..|table| - 1];
        size := size - SizeOf(last);
      }
    }

    method Insert(name: bytes, value: Option<bytes>)
      modifies this`table
      ensures Abstract() == old(Abstract()).Add(Field(name, value))
      ensures Total(table, SizeOf) <= maxSize
    {
      table := [Field(name, value)] + table;
      Shrink();
    }

    /**
     * Decodes one header block. A failure keeps what the block did before it: the table and its
     * limit always come out as `DecodeFrom` says, and within bounds.
     */
    method Decode(block: bytes) returns (r: Option<seq<Field>>)
      requires Valid()
      modifies this
      ensures Valid()
      ensures (r, Abstract()) == DecodeFrom(block, 0, old(Abstract()), [])
    {
      var out: seq<Field> := [];
      var pos: nat := 0;
      while pos < |block|
        invariant pos <= |block| && Valid()
        invariant DecodeFrom(block, pos, Abstract(), out) == DecodeFrom(block, 0, old(Abstract()), [])
        decreases |block| - pos
      {
        var b := block[pos];
        ghost var st := Abstract();
        ghost var read := ReadOne(block, pos, st);
        if b >= 128 {
          var index := IntDecode(block, pos, 7);
          if index.IntErr? {
            return None;
          }
          var f := Lookup(index.value);
          if f.None? {
            return None;
          }
          pos := index.pos;
          out := out + [f.value];
        } else if b >= 64 {
          var f := DecodeLiteral(block, pos, 6);
          if f.LiteralErr? {
            return None;
          }
          pos := f.pos;
          Insert(f.field.name, f.field.value);
          out := out + [f.field];
        } else if b >= 32 {
          var requested := IntDecode(block, pos, 5);
          if requested.IntErr? {
            return None;
          }
          pos := requested.pos;
          maxSize := if requested.value < MAX_TABLE_SIZE then requested.value else MAX_TABLE_SIZE;
          Shrink();
        } else {
          var f := DecodeLiteral(block, pos, 4);
          if f.LiteralErr? {
            return None;
          }
          pos := f.pos;
          out := out + [f.field];
        }
        assert read == Good(read.field, pos, Abstract());
      }
      return Some(out);
    }

    /** The name, by index or spelled out, and the value of a literal field. */
    method DecodeLiteral(block: bytes, pos: nat, p: nat) returns (r: LiteralRead)
      requires 1 <= p <= 8
      ensures r == ParseLiteral(block, pos, p, Abstract())
    {
      var index := IntDecode(block, pos, p);
      if index.IntErr? {
        return LiteralErr;
      }
      var name: bytes;
      var next: nat := index.pos;
      if index.value > 0 {
        var entry := Lookup(index.value);
        if entry.None? {
          return LiteralErr;
        }
        name := entry.value.name;
      } else {
        var text := StrDecode(block, next);
        if text.StrErr? {
          return LiteralErr;
        }
        name, next := OrEmpty(text.text), text.pos;
      }
      var value := StrDecode(block, next);
      if value.StrErr? {
        return LiteralErr;
      }
      return LiteralOk(Field(name, value.text), value.pos);
    }
  }

  // ----- the encoder ------------------------------------------------------------------

  /** NAME_INDEX over the first `n` static entries: the first with this name, or 0. */
  function NameIndex(name: bytes, n: nat): (r: nat)
    requires n <= |STATIC|
    ensures r == 0 || (1 <= r <= n && StaticAt(r).name == name)
    ensures forall k :: 1 <= k <= n && (r == 0 || k < r) ==> StaticAt(k).name != name
  {
    if n == 0 then 0
    else
      var earlier := NameIndex(name, n - 1);
      if earlier > 0 then earlier else if StaticAt(n).name == name then n else 0
  }

  function StrBytes(text: bytes): bytes {
    IntBytes(|text|, 7, 0) + text
  }

  /** A literal without indexing, its name by static index where there is one. */
  function HeaderBytes(h: Header): bytes {
    var name := Lower(h.name);
    var index := NameIndex(name, |STATIC|);
    (if index > 0 then IntBytes(index, 4, 0) else [0] + StrBytes(name)) + StrBytes(h.value)
  }

  function HeadersBytes(headers: seq<Header>): bytes {
    if headers == [] then []
    else HeadersBytes(headers[..|headers| - 1]) + HeaderBytes(headers[|headers| - 1])
  }

  method StrEncode(text: bytes) returns (out: bytes)
    ensures out == StrBytes(text)
  {
    var length := IntEncode(|text|, 7, 0);
    out := length + text;
  }

  method HeaderEncode(h: Header) returns (out: bytes)
    ensures out == HeaderBytes(h)
  {
    var name := Lower(h.name);
    var idx := NameIndex(name, |STATIC|);
    if idx > 0 {
      out := IntEncode(idx, 4, 0);
    } else {
      out := StrEncode(name);
      out := [0] + out;
    }
    var value := StrEncode(h.value);
    out := out + value;
  }

  method Encode(headers: seq<Header>) returns (out: bytes)
    ensures out == HeadersBytes(headers)
  {
    out := [];
    for i := 0 to |headers|
      invariant out == HeadersBytes(headers[..i])
    {
      var field := HeaderEncode(headers[i]);
      assert headers[..i + 1][..i] == headers[..i];
      out := out + field;
    }
    assert headers[..|headers|] == headers;
  }
}
