// The peer's side of HPACK, after RFC 7541, and the claim of orchestrator/hpack.py:8-10 that the
// decoder's indices stay in sync although it never reads Huffman-coded strings.
module Rfc7541 {
  import opened Bytes
  import opened IntCodec
  import opened Hpack

  // ----- what a peer may send -----------------------------------------------------

  /** A string on the wire: its octets, and the text they stand for (section 5.2). */
  datatype Str = Plain(text: bytes) | Huffman(octets: bytes, text: bytes) {
    function Octets(): bytes {
      if Plain? then text else octets
    }

    /** What the decoder makes of it. */
    function Seen(): Option<bytes> {
      if Plain? then Some(text) else None
    }
  }

  datatype Name = ByIndex(index: nat) | Spelled(s: Str)

  /** The representations of section 6. */
  datatype Rep =
    | Indexed(index: nat)
    | Indexing(name: Name, value: Str)
    | NotIndexing(never: bool, name: Name, value: Str)
    | TableSize(size: nat)

  /** An entry of the peer's table: the true texts, and which of them went out Huffman-coded. */
  datatype Entry = Entry(name: bytes, value: bytes, nameHidden: bool, valueHidden: bool) {
    /** Section 4.1: the size counts the texts without Huffman coding. */
    function Size(): nat {
      |name| + |value| + 32
    }

    /** The entry with whatever was Huffman-coded blanked out, as the decoder stores it. */
    function Erased(): Field {
      Field(if nameHidden then [] else name, if valueHidden then None else Some(value))
    }
  }

  function EntrySize(e: Entry): nat {
    e.Size()
  }

  /** Section 4.4: evict until the new entry fits, then add it; one too large empties the table. */
  function Insert<T>(table: seq<T>, e: T, size: T -> nat, max: nat): seq<T> {
    if size(e) <= max then [e] + Evict(table, size, max - size(e)) else []
  }

  datatype Peer = Peer(maxSize: nat, table: seq<Entry>) {
    /** Section 2.3.3: the static table, then the dynamic one. */
    function At(index: nat): Option<Entry> {
      if index == 0 then None
      else if index <= |STATIC| then
        Some(Entry(StaticAt(index).name, OrEmpty(StaticAt(index).value), false, false))
      else if index - |STATIC| - 1 < |table| then Some(table[index - |STATIC| - 1])
      else None
    }
  }

  /** The peer's view of one representation: the field it means, and the table afterwards. */
  datatype Sent = Illegal | Legal(entry: Option<Entry>, peer: Peer)

  function NameOf(peer: Peer, name: Name): Option<(bytes, bool)> {
    match name
    case ByIndex(i) => if peer.At(i).None? then None else Some((peer.At(i).value.name, peer.At(i).value.nameHidden))
    case Spelled(s) => Some((s.text, s.Huffman?))
  }

  /** A conforming encoder's step, with table sizes up to `limit`. */
  function Send(peer: Peer, rep: Rep, limit: nat): Sent {
    match rep
    case Indexed(i) =>
      if peer.At(i).None? then Illegal else Legal(peer.At(i), peer)
    case Indexing(name, value) =>
      (match NameOf(peer, name)
       case None => Illegal
       case Some((text, hidden)) =>
         var e := Entry(text, value.text, hidden, value.Huffman?);
         Legal(Some(e), peer.(table := Insert(peer.table, e, EntrySize, peer.maxSize))))
    case NotIndexing(_, name, value) =>
      (match NameOf(peer, name)
       case None => Illegal
       case Some((text, hidden)) => Legal(Some(Entry(text, value.text, hidden, value.Huffman?)), peer))
    case TableSize(n) =>
      if n > limit then Illegal else Legal(None, Peer(n, Evict(peer.table, EntrySize, n)))
  }

  /** A whole block: the fields it means and the table afterwards, or None where it does not conform. */
  function SendBlock(peer: Peer, reps: seq<Rep>, limit: nat): Option<(seq<Entry>, Peer)>
    decreases |reps|
  {
    if reps == [] then Some(([], peer))
    else
      match Send(peer, reps[0], limit)
      case Illegal => None
      case Legal(e, peer') =>
        match SendBlock(peer', reps[1..], limit)
        case None => None
        case Some((es, last)) => Some(((if e.Some? then [e.value] else []) + es, last))
  }

  // ----- the wire format of section 6 ---------------------------------------------------

  function PrintStr(s: Str): bytes {
    IntBytes(|s.Octets()|, 7, if s.Huffman? then 128 else 0) + s.Octets()
  }

  function PrintLiteral(name: Name, value: Str, p: nat, flags: byte): bytes
    requires 1 <= p <= 8 && LowBits(flags, p) == 0
  {
    (match name
     case ByIndex(i) => IntBytes(i, p, flags)
     case Spelled(s) => IntBytes(0, p, flags) + PrintStr(s))
    + PrintStr(value)
  }

  function Print(rep: Rep): (r: bytes)
    ensures r != []
  {
    match rep
    case Indexed(i) => IntBytes(i, 7, 128)
    case Indexing(name, value) => PrintLiteral(name, value, 6, 64)
    case NotIndexing(never, name, value) => PrintLiteral(name, value, 4, if never then 16 else 0)
    case TableSize(n) => IntBytes(n, 5, 32)
  }

  function PrintAll(reps: seq<Rep>): bytes {
    if reps == [] then [] else Print(reps[0]) + PrintAll(reps[1..])
  }

  /** String lengths the integer codec can carry. */
  predicate Short(s: Str) {
    |s.Octets()| < 127 + TAIL_LIMIT
  }

  // ----- reading a printed representation back ---------------------------------------

  lemma ParseStrPrinted(s: Str, buf: bytes, pos: nat)
    requires Short(s) && Holds(buf, pos, PrintStr(s))
    ensures ParseStr(buf, pos) == StrOk(s.Seen(), pos + |PrintStr(s)|)
  {
    var flags := if s.Huffman? then 128 else 0;
    var length := IntBytes(|s.Octets()|, 7, flags);
    HoldsBoth(buf, pos, length, s.Octets());
    HoldsFirst(buf, pos, length);
    IntRoundTrip(|s.Octets()|, 7, flags, buf, pos);
    FirstByte(|s.Octets()|, 7, flags);
  }

  /** The field a literal means to the decoder. */
  function LiteralSeen(st: State, name: Name, value: Str): Option<Field> {
    match name
    case ByIndex(i) => if st.At(i).None? then None else Some(Field(st.At(i).value.name, value.Seen()))
    case Spelled(s) => Some(Field(OrEmpty(s.Seen()), value.Seen()))
  }

  predicate SmallName(name: Name) {
    match name
    case ByIndex(i) => 0 < i < TAIL_LIMIT
    case Spelled(s) => Short(s)
  }

  lemma ParseLiteralPrinted(st: State, name: Name, value: Str, p: nat, flags: byte, buf: bytes, pos: nat)
    requires 1 <= p <= 8 && LowBits(flags, p) == 0 && SmallName(name) && Short(value)
    requires Holds(buf, pos, PrintLiteral(name, value, p, flags))
    ensures ParseLiteral(buf, pos, p, st)
            == match LiteralSeen(st, name, value)
               case None => LiteralErr
               case Some(f) => LiteralOk(f, pos + |PrintLiteral(name, value, p, flags)|)
  {
    hide StaticAt, ParseStr, ParseInt, PrintStr, IntBytes;
    var index := IntBytes(if name.ByIndex? then name.index else 0, p, flags);
    var head := if name.ByIndex? then index else index + PrintStr(name.s);
    HoldsBoth(buf, pos, head, PrintStr(value));
    ParseStrPrinted(value, buf, pos + |head|);
    if name.Spelled? {
      HoldsBoth(buf, pos, index, PrintStr(name.s));
      ParseStrPrinted(name.s, buf, pos + |index|);
    }
    IntRoundTrip(if name.ByIndex? then name.index else 0, p, flags, buf, pos);
  }

  /** The decoder's step on a representation rather than on its bytes. */
  datatype Received = Rejected | Accepted(field: Option<Field>, st: State)

  function Receive(st: State, rep: Rep): Received {
    match rep
    case Indexed(i) => if st.At(i).None? then Rejected else Accepted(st.At(i), st)
    case Indexing(name, value) =>
      (match LiteralSeen(st, name, value)
       case None => Rejected
       case Some(f) => Accepted(Some(f), st.Add(f)))
    case NotIndexing(_, name, value) =>
      (match LiteralSeen(st, name, value)
       case None => Rejected
       case Some(f) => Accepted(Some(f), st))
    case TableSize(n) => Accepted(None, st.Resize(n))
  }

  /** Numbers and string lengths the integer codec can carry. */
  predicate SmallRep(rep: Rep) {
    match rep
    case Indexed(i) => i < TAIL_LIMIT
    case Indexing(name, value) => SmallName(name) && Short(value)
    case NotIndexing(_, name, value) => SmallName(name) && Short(value)
    case TableSize(n) => n < TAIL_LIMIT
  }

  lemma ReadPrinted(st: State, rep: Rep, buf: bytes, pos: nat)
    requires SmallRep(rep) && Holds(buf, pos, Print(rep))
    ensures ReadOne(buf, pos, st)
            == match Receive(st, rep)
               case Rejected => Bad
               case Accepted(f, st') => Good(f, pos + |Print(rep)|, st')
  {
    HoldsFirst(buf, pos, Print(rep));
    match rep
    case Indexed(i) =>
      IntRoundTrip(i, 7, 128, buf, pos);
      FirstByte(i, 7, 128);
    case Indexing(name, value) =>
      ParseLiteralPrinted(st, name, value, 6, 64, buf, pos);
      FirstByte(if name.ByIndex? then name.index else 0, 6, 64);
    case NotIndexing(never, name, value) =>
      var flags := if never then 16 else 0;
      ParseLiteralPrinted(st, name, value, 4, flags, buf, pos);
      FirstByte(if name.ByIndex? then name.index else 0, 4, flags);
    case TableSize(n) =>
      IntRoundTrip(n, 5, 32, buf, pos);
      FirstByte(n, 5, 32);
  }

  /** The decoder's run over a list of representations. */
  function ReceiveAll(st: State, reps: seq<Rep>, out: seq<Field>): (Option<seq<Field>>, State)
    decreases |reps|
  {
    if reps == [] then (Some(out), st)
    else
      match Receive(st, reps[0])
      case Rejected => (None, st)
      case Accepted(f, st') => ReceiveAll(st', reps[1..], Append(out, f))
  }

  lemma {:induction false} DecodePrinted(st: State, reps: seq<Rep>, buf: bytes, pos: nat, out: seq<Field>)
    requires forall i :: 0 <= i < |reps| ==> SmallRep(reps[i])
    requires Holds(buf, pos, PrintAll(reps)) && pos + |PrintAll(reps)| == |buf|
    ensures DecodeFrom(buf, pos, st, out) == ReceiveAll(st, reps, out)
    decreases |reps|
  {
    hide ReadOne, Receive, Print;
    if reps != [] {
      var first, rest := Print(reps[0]), PrintAll(reps[1..]);
      HoldsBoth(buf, pos, first, rest);
      ReadPrinted(st, reps[0], buf, pos);
      match Receive(st, reps[0])
      case Rejected =>
      case Accepted(f, st') => DecodePrinted(st', reps[1..], buf, pos + |first|, Append(out, f));
    }
  }

  // ----- insertion: the code's order against the RFC's ---------------------------------

  lemma {:induction false} TotalCons<T>(e: T, table: seq<T>, size: T -> nat)
    ensures Total([e] + table, size) == size(e) + Total(table, size)
  {
    var whole := [e] + table;
    if table == [] {
      assert whole[..0] == [] && Total(whole[..0], size) == 0;
    } else {
      var init := table[..|table| - 1];
      assert whole[..|whole| - 1] == [e] + init;
      TotalCons(e, init, size);
    }
  }

  /** Adding first and evicting afterwards leaves the table section 4.4 asks for. */
  lemma {:induction false} InsertRefinesRfc<T>(table: seq<T>, e: T, size: T -> nat, max: nat)
    ensures Evict([e] + table, size, max) == Insert(table, e, size, max)
    decreases |table|
  {
    var whole := [e] + table;
    TotalCons(e, table, size);
    if table == [] {
      assert whole == [e];
      assert whole[..0] == [];
    } else {
      var init := table[..|table| - 1];
      assert whole[..|whole| - 1] == [e] + init;
      InsertRefinesRfc(init, e, size, max);
    }
  }

  /** Entries cost at least 32, so a table within its limit has at most limit / 32 of them. */
  lemma {:induction false} EntriesBounded<T>(table: seq<T>, size: T -> nat)
    requires forall e :: size(e) >= 32
    ensures 32 * |table| <= Total(table, size)
  {
    if table != [] {
      EntriesBounded(table[..|table| - 1], size);
    }
  }

  /** Whatever the block, and however far it was read, the decoder's table stays within bounds. */
  lemma {:induction false} TableBounded(block: bytes, pos: nat, st: State, out: seq<Field>)
    requires pos <= |block| && st.Valid()
    ensures var last := DecodeFrom(block, pos, st, out).1;
            last.Valid() && |last.table| <= 2048
    decreases |block| - pos
  {
    EntriesBounded(st.table, SizeOf);
    if pos < |block| {
      match ReadOne(block, pos, st)
      case Bad =>
      case Good(f, pos', st') =>
        ReadKeepsValid(block, pos, st);
        TableBounded(block, pos', st', Append(out, f));
    }
  }

  lemma ReadKeepsValid(block: bytes, pos: nat, st: State)
    requires pos < |block| && st.Valid() && ReadOne(block, pos, st).Good?
    ensures ReadOne(block, pos, st).st.Valid()
  {
    hide StaticAt, ParseInt;
    var literal, size := ParseLiteral(block, pos, 6, st), ParseInt(block, pos, 5);
    if literal.LiteralOk? {
      EvictIsLongest([literal.field] + st.table, SizeOf, st.maxSize);
    }
    if size.IntOk? {
      EvictIsLongest(st.table, SizeOf, st.Resize(size.value).maxSize);
    }
  }

  // ----- the two tables in step ----------------------------------------------------------

  /** The peer's table, erased, is a prefix of the decoder's. */
  predicate Mirrors(theirs: seq<Entry>, ours: seq<Field>) {
    |theirs| <= |ours| && forall i :: 0 <= i < |theirs| ==> ours[i] == theirs[i].Erased()
  }

  ghost predicate Synced(peer: Peer, st: State) {
    && peer.maxSize == st.maxSize <= MAX_TABLE_SIZE
    && Total(peer.table, EntrySize) <= peer.maxSize
    && Mirrors(peer.table, st.table)
  }

  /** The decoder never counts more than the peer does. */
  lemma {:induction false} TotalErased(theirs: seq<Entry>, ours: seq<Field>, n: nat)
    requires Mirrors(theirs, ours) && n <= |theirs|
    ensures Total(ours[..n], SizeOf) <= Total(theirs[..n], EntrySize)
  {
    if n > 0 {
      assert ours[..n][..n - 1] == ours[..n - 1] && theirs[..n][..n - 1] == theirs[..n - 1];
      TotalErased(theirs, ours, n - 1);
    }
  }

  /** Evicting by the peer's sizes and by the decoder's keeps the erased prefix. */
  lemma EvictMirrors(theirs: seq<Entry>, ours: seq<Field>, max: nat)
    requires Mirrors(theirs, ours)
    ensures Mirrors(Evict(theirs, EntrySize, max), Evict(ours, SizeOf, max))
    ensures Total(Evict(theirs, EntrySize, max), EntrySize) <= max
  {
    EvictIsLongest(theirs, EntrySize, max);
    EvictIsLongest(ours, SizeOf, max);
    var n := |Evict(theirs, EntrySize, max)|;
    TotalErased(theirs, ours, n);
    assert theirs[..n] == Evict(theirs, EntrySize, max);
  }

  lemma AtSynced(peer: Peer, st: State, index: nat)
    requires Synced(peer, st) && peer.At(index).Some?
    ensures st.At(index) == Some(peer.At(index).value.Erased())
    ensures 0 < index < TAIL_LIMIT
  {
    EntriesBounded(peer.table, EntrySize);
  }

  function SeenOf(e: Option<Entry>): Option<Field> {
    if e.Some? then Some(e.value.Erased()) else None
  }

  predicate ShortStrings(rep: Rep) {
    match rep
    case Indexing(name, value) => Short(value) && (name.Spelled? ==> Short(name.s))
    case NotIndexing(_, name, value) => Short(value) && (name.Spelled? ==> Short(name.s))
    case _ => true
  }

  lemma LiteralSynced(peer: Peer, st: State, name: Name, value: Str)
    requires Synced(peer, st) && NameOf(peer, name).Some?
    ensures var (text, hidden) := NameOf(peer, name).value;
            LiteralSeen(st, name, value) == Some(Entry(text, value.text, hidden, value.Huffman?).Erased())
    ensures name.ByIndex? ==> 0 < name.index < TAIL_LIMIT
  {
    hide StaticAt;
    if name.ByIndex? {
      AtSynced(peer, st, name.index);
    }
  }

  /** A legal step of the peer is accepted, yields the erased field, and keeps the tables in step. */
  lemma StepSynced(peer: Peer, st: State, rep: Rep, limit: nat)
    requires Synced(peer, st) && limit <= MAX_TABLE_SIZE && Send(peer, rep, limit).Legal?
    ensures var sent := Send(peer, rep, limit);
            var got := Receive(st, rep);
            got.Accepted? && got.field == SeenOf(sent.entry) && Synced(sent.peer, got.st)
    ensures ShortStrings(rep) ==> SmallRep(rep)
  {
    hide StaticAt;
    match rep
    case Indexed(i) => AtSynced(peer, st, i);
    case Indexing(name, value) =>
      LiteralSynced(peer, st, name, value);
      var e := Send(peer, rep, limit).entry.value;
      InsertRefinesRfc(peer.table, e, EntrySize, peer.maxSize);
      EvictMirrors([e] + peer.table, [e.Erased()] + st.table, st.maxSize);
    case NotIndexing(_, name, value) => LiteralSynced(peer, st, name, value);
    case TableSize(n) => EvictMirrors(peer.table, st.table, n);
  }

  function ErasedAll(es: seq<Entry>): seq<Field> {
    seq(|es|, i requires 0 <= i < |es| => es[i].Erased())
  }

  lemma ErasedJoin(out: seq<Field>, e: Option<Entry>, es: seq<Entry>)
    ensures Append(out, SeenOf(e)) + ErasedAll(es)
            == out + ErasedAll((if e.Some? then [e.value] else []) + es)
  {
  }

  lemma ErasedNothing(out: seq<Field>)
    ensures out + ErasedAll([]) == out
  {
  }

  lemma {:induction false} BlockSynced(peer: Peer, st: State, reps: seq<Rep>, limit: nat, out: seq<Field>)
    requires Synced(peer, st) && limit <= MAX_TABLE_SIZE && SendBlock(peer, reps, limit).Some?
    requires forall i :: 0 <= i < |reps| ==> ShortStrings(reps[i])
    ensures var (es, peer') := SendBlock(peer, reps, limit).value;
            var (fields, st') := ReceiveAll(st, reps, out);
            fields == Some(out + ErasedAll(es)) && Synced(peer', st')
    ensures forall i :: 0 <= i < |reps| ==> SmallRep(reps[i])
    decreases |reps|
  {
    hide Send, Receive, SmallRep, ShortStrings, ErasedAll, Append, Synced, SeenOf;
    ErasedNothing(out);
    if reps == [] {
    } else {
      StepSynced(peer, st, reps[0], limit);
      var sent, got := Send(peer, reps[0], limit), Receive(st, reps[0]);
      BlockSynced(sent.peer, got.st, reps[1..], limit, Append(out, got.field));
      ErasedJoin(out, sent.entry, SendBlock(sent.peer, reps[1..], limit).value.0);
      forall i | 0 <= i < |reps| ensures SmallRep(reps[i]) {
        assert i > 0 ==> reps[i] == reps[1..][i - 1];
      }
    }
  }

  // ----- whole connections ------------------------------------------------------------------

  /** The peer's blocks one after the other; None where one does not conform. */
  function SendBlocks(peer: Peer, blocks: seq<seq<Rep>>, limit: nat): Option<(seq<seq<Entry>>, Peer)>
    decreases |blocks|
  {
    if blocks == [] then Some(([], peer))
    else
      match SendBlock(peer, blocks[0], limit)
      case None => None
      case Some((es, peer')) =>
        match SendBlocks(peer', blocks[1..], limit)
        case None => None
        case Some((rest, last)) => Some(([es] + rest, last))
  }

  /** The decoder's results on their bytes, and the table it ends with. */
  function DecodeBlocks(st: State, blocks: seq<seq<Rep>>): (seq<Option<seq<Field>>>, State)
    decreases |blocks|
  {
    if blocks == [] then ([], st)
    else
      var (fields, st') := DecodeFrom(PrintAll(blocks[0]), 0, st, []);
      var (rest, last) := DecodeBlocks(st', blocks[1..]);
      ([fields] + rest, last)
  }

  /**
   * For every sequence of header blocks from a conforming encoder, Huffman-coded or not, every
   * block decodes to the erased true fields and the erased true table stays a prefix of the
   * decoder's, although the two evict at different times.
   */
  lemma {:induction false} IndicesStayInSync(peer: Peer, st: State, blocks: seq<seq<Rep>>, limit: nat)
    requires Synced(peer, st) && limit <= MAX_TABLE_SIZE && SendBlocks(peer, blocks, limit).Some?
    requires forall b, i :: 0 <= b < |blocks| && 0 <= i < |blocks[b]| ==> ShortStrings(blocks[b][i])
    ensures var (fields, peer') := SendBlocks(peer, blocks, limit).value;
            var (got, st') := DecodeBlocks(st, blocks);
            && |got| == |fields|
            && (forall k :: 0 <= k < |got| ==> got[k] == Some(ErasedAll(fields[k])))
            && Synced(peer', st')
    decreases |blocks|
  {
    hide SendBlock, ReceiveAll, DecodeFrom, PrintAll, ShortStrings, SmallRep, Synced;
    if blocks != [] {
      var reps := blocks[0];
      var (es, peer') := SendBlock(peer, reps, limit).value;
      BlockSynced(peer, st, reps, limit, []);
      HoldsWhole(PrintAll(reps));
      DecodePrinted(st, reps, PrintAll(reps), 0, []);
      assert [] + ErasedAll(es) == ErasedAll(es);
      var (_, st') := DecodeFrom(PrintAll(reps), 0, st, []);
      forall b, i | 0 <= b < |blocks[1..]| && 0 <= i < |blocks[1..][b]|
        ensures ShortStrings(blocks[1..][b][i])
      {
        assert blocks[1..][b] == blocks[b + 1];
      }
      IndicesStayInSync(peer', st', blocks[1..], limit);
    }
  }

  /** A fresh connection is in step, whatever table size both ends start from. */
  lemma FreshInSync(max: nat)
    requires max <= MAX_TABLE_SIZE
    ensures Synced(Peer(max, []), State(max, [])) && State(max, []).Valid()
  {
  }

  /**
   * So over a whole connection, from fresh tables of the same size on, every block of a conforming
   * peer is read as its erased fields.
   */
  lemma ConnectionStaysInSync(max: nat, blocks: seq<seq<Rep>>, limit: nat)
    requires max <= MAX_TABLE_SIZE && limit <= MAX_TABLE_SIZE && SendBlocks(Peer(max, []), blocks, limit).Some?
    requires forall b, i :: 0 <= b < |blocks| && 0 <= i < |blocks[b]| ==> ShortStrings(blocks[b][i])
    ensures var fields := SendBlocks(Peer(max, []), blocks, limit).value.0;
            DecodeBlocks(State(max, []), blocks).0
            == seq(|fields|, k requires 0 <= k < |fields| => Some(ErasedAll(fields[k])))
  {
    hide SendBlocks, DecodeBlocks, ErasedAll, Synced;
    FreshInSync(max);
    IndicesStayInSync(Peer(max, []), State(max, []), blocks, limit);
  }

  lemma HoldsWhole(buf: bytes)
    ensures Holds(buf, 0, buf)
  {
  }

  // ----- the static table ----------------------------------------------------------------------

  /** A status of three digits. */
  function StatusDigits(n: nat): bytes
    requires 100 <= n < 1000
  {
    [48 + n / 100, 48 + n / 10 % 10, 48 + n % 10]
  }

  /** The seven statuses of appendix A, as numbers. */
  lemma StaticStatuses(i: nat)
    requires 8 <= i <= 14
    ensures var n := [200, 204, 206, 304, 400, 404, 500][i - 8];
            StaticAt(i) == Field([58, 115, 116, 97, 116, 117, 115], Some(StatusDigits(n)))
  {
    var (name, value) := STATIC[i - 1];
    var n := [200, 204, 206, 304, 400, 404, 500][i - 8];
    assert name == ":status" && Ascii(":status") == [58, 115, 116, 97, 116, 117, 115];
    assert |value| == 3 && value[0] as int == 48 + n / 100;
    assert value[1] as int == 48 + n / 10 % 10 && value[2] as int == 48 + n % 10;
    assert Ascii(value) == StatusDigits(n);
  }

  /** The entry of a static index is this one. */
  predicate Stands(i: nat, name: string, value: string) {
    1 <= i <= 61 && i <= |STATIC| && STATIC[i - 1].0 == name && STATIC[i - 1].1 == value
  }

  /** Section 2.3.3: index 0 and those past both tables mean nothing; the dynamic table starts at 62. */
  lemma IndexExact(st: State, i: nat)
    ensures st.At(i) == None <==> i == 0 || i > 61 + |st.table|
    ensures 62 <= i <= 61 + |st.table| ==> st.At(i) == Some(st.table[i - 62])
    ensures 1 <= i <= 61 ==> st.At(i) == Some(StaticAt(i))
  {
    hide StaticAt;
    StaticOfExamples();
  }

  /** The entries that the worked examples of appendix C refer to. */
  lemma StaticOfExamples()
    ensures |STATIC| == 61
    ensures Stands(1, ":authority", "") && Stands(2, ":method", "GET") && Stands(4, ":path", "/")
    ensures Stands(5, ":path", "/index.html") && Stands(6, ":scheme", "http") && Stands(7, ":scheme", "https")
    ensures Stands(24, "cache-control", "") && Stands(26, "content-encoding", "") && Stands(33, "date", "")
    ensures Stands(46, "location", "") && Stands(55, "set-cookie", "")
  {
  }

  // ----- the referee's own blocks ---------------------------------------------------------------

  /** The representation the encoder picks for a header. */
  function RepOf(h: Header): Rep {
    var name := Lower(h.name);
    var index := NameIndex(name, |STATIC|);
    NotIndexing(false, if index > 0 then ByIndex(index) else Spelled(Plain(name)), Plain(h.value))
  }

  function RepsOf(headers: seq<Header>): seq<Rep> {
    seq(|headers|, i requires 0 <= i < |headers| => RepOf(headers[i]))
  }

  /** A name with its ASCII capitals made small. */
  function Uncapped(name: bytes): bytes {
    if name == [] then [] else [if 65 <= name[0] <= 90 then name[0] + 32 else name[0]] + Uncapped(name[1..])
  }

  lemma {:induction false} UncappedIsLower(name: bytes)
    ensures Lower(name) == Uncapped(name)
  {
    if name == [] {
      assert Lower(name) == [];
    } else {
      UncappedIsLower(name[1..]);
      assert Lower(name) == Lower(name)[..1] + Lower(name[1..]);
    }
  }

  /** Headers as the decoder reports them: names in lower case. */
  function Lowered(headers: seq<Header>): seq<Field> {
    seq(|headers|, i requires 0 <= i < |headers| => Field(Uncapped(headers[i].name), Some(headers[i].value)))
  }

  lemma {:induction false} PrintAllSnoc(reps: seq<Rep>, rep: Rep)
    ensures PrintAll(reps + [rep]) == PrintAll(reps) + Print(rep)
    decreases |reps|
  {
    hide Print;
    if reps == [] {
      assert [rep][1..] == [] && [] + [rep] == [rep];
    } else {
      assert (reps + [rep])[1..] == reps[1..] + [rep];
      PrintAllSnoc(reps[1..], rep);
    }
  }

  lemma {:induction false} EncodePrints(headers: seq<Header>)
    ensures HeadersBytes(headers) == PrintAll(RepsOf(headers))
  {
    hide HeaderBytes, Print, RepOf;
    if headers != [] {
      var init, last := headers[..|headers| - 1], headers[|headers| - 1];
      EncodePrints(init);
      assert RepsOf(headers) == RepsOf(init) + [RepOf(last)];
      PrintAllSnoc(RepsOf(init), RepOf(last));
      HeaderPrints(last);
    }
  }

  lemma HeaderPrints(h: Header)
    ensures HeaderBytes(h) == Print(RepOf(h))
  {
    hide StaticAt;
    assert IntBytes(0, 4, 0) == [0];
  }

  lemma RepOfReceived(st: State, h: Header)
    requires |h.name| < 127 + TAIL_LIMIT && |h.value| < 127 + TAIL_LIMIT
    ensures Receive(st, RepOf(h)) == Accepted(Some(Field(Uncapped(h.name), Some(h.value))), st)
    ensures SmallRep(RepOf(h))
  {
    UncappedIsLower(h.name);
  }

  lemma {:induction false} ReceiveLowered(st: State, headers: seq<Header>, out: seq<Field>)
    requires forall i :: 0 <= i < |headers| ==>
               |headers[i].name| < 127 + TAIL_LIMIT && |headers[i].value| < 127 + TAIL_LIMIT
    ensures ReceiveAll(st, RepsOf(headers), out) == (Some(out + Lowered(headers)), st)
    ensures forall i :: 0 <= i < |headers| ==> SmallRep(RepsOf(headers)[i])
    decreases |headers|
  {
    hide Receive, RepOf, SmallRep;
    if headers == [] {
      assert out + Lowered(headers) == out;
    } else {
      var f := Field(Uncapped(headers[0].name), Some(headers[0].value));
      RepOfReceived(st, headers[0]);
      assert RepsOf(headers)[1..] == RepsOf(headers[1..]);
      ReceiveLowered(st, headers[1..], out + [f]);
      assert out + [f] + Lowered(headers[1..]) == out + Lowered(headers);
      forall i | 0 <= i < |headers| ensures SmallRep(RepsOf(headers)[i]) {
        assert i > 0 ==> RepsOf(headers)[i] == RepsOf(headers[1..])[i - 1];
      }
    }
  }

  /**
   * Decoding an encoded header list gives it back with lower-cased names, reads the whole block,
   * and leaves the decoder as it was, whatever its table holds.
   */
  lemma HeadersRoundTrip(st: State, headers: seq<Header>)
    requires forall i :: 0 <= i < |headers| ==>
               |headers[i].name| < 127 + TAIL_LIMIT && |headers[i].value| < 127 + TAIL_LIMIT
    ensures DecodeFrom(HeadersBytes(headers), 0, st, []) == (Some(Lowered(headers)), st)
  {
    hide ReceiveAll, DecodeFrom, PrintAll, HeadersBytes, SmallRep;
    var block := HeadersBytes(headers);
    EncodePrints(headers);
    ReceiveLowered(st, headers, []);
    HoldsWhole(block);
    DecodePrinted(st, RepsOf(headers), block, 0, []);
    assert [] + Lowered(headers) == Lowered(headers);
  }
}
