# Verification of the CTF referee

This project models the three parts of the referee in which a mistake would decide a game, and
proves what they promise.

**The wire readers** (`Wire`, `Chunks`, `Http1`, `Http2`, with `PyText` for Python's byte-string operations
and `SizeLines` for the size lines of chunks).
A socket is a stream of octets together with an arbitrary cut of it into the pieces that successive
`recv` calls see. The readers of `orchestrator/httpclient.py` are methods over that socket, each proved
against a function of the pieces or of the uncut stream. For chunked bodies and whole replies
`ChunkOutcomes` and `Http1` then say, from the octets alone, exactly which results some segmentation
brings about; `ChunkFates` sorts all streams into those that every, some or no segmentation gets a body
from, and `ChunkCaps` gives the exact lengths of the bodies that any list of sizes can lead to. `Grammars`
describes the texts that the parsers take (numbers, status lines, header lines, framings) and proves that
they take exactly those. `Rfc9112` and `Rfc9113` hold the printers (status line, fields, the three body
framings; frames interleaved with control traffic) and prove that what a conforming peer prints is what is
read, and that an HTTP/2 answer is never anything else;
`Persistence` is about several HTTP/1.1 responses on one connection, and `Connections` puts RFC 7541 and
RFC 9113 together over a whole HTTP/2 connection.

**The HPACK codec** (`IntCodec`, `Hpack`). `Decoder` is a class with a table that it changes in place.
`Rfc7541` is an independent model of a conforming encoder: it Huffman-codes what it likes, keeps the true
table of RFC 7541 and evicts by true sizes. The decoder never decodes Huffman strings, so it under-counts
sizes and evicts later; the main theorem is that every index the peer may use still means the same entry.

**The referee's ledger** (`Ledgers`, `Rounds` and the modules above them). `Ledgers` has the tables as a
value and each operation as a function on it. `Rounds` is a state machine whose steps are what the two
processes and the operator's tool do to the tables: advance, settle, launch the workers, one probe of one
worker, a worker that dies, one that writes after its tick has given up on it, finish (expire), restart,
submit, review, deploy, change a status, freeze, new round. Steps interleave freely, and a new round can
begin anywhere. `FlagWindow`, `UptimeRows`, `Settlements`, `Steals`, `Scores` and `Accounting` prove
invariants of runs, `Season` states the main ones from a fresh round on, and `Resets` says what a reset in
the middle of a tick can leave behind. `Verdicts` states the outcome of every submission and of every probe
by the rungs, classes and ticks themselves. A run also carries its history (which
slot each token was planted for, the first theft of each flag, when deployments happened), so that the
theorems compare the tables with what happened rather than with themselves.

The imperative side is `Stores.Store` (tables as fields, scoreboard recount and rendering as loops),
`TickLoop` (the loops of `orchestrator/tick.py`), `SubmitApi.Referee`, `Limiter.Window` and
`Deployments.DeployLog`. Every such method is proved against the ledger functions, and the tick loop, the
submission handler and the deployment are proved to be runs of the state machine, so that what holds of
all runs holds of them.

## What came out

- The claim in the HPACK module's comment that indices stay in sync is true for peers whose table limit is
  at most 65536 (`Rfc7541.IndicesStayInSync`).
- A header section is read under every segmentation exactly when its blank line ends by `limit + 1`, and
  under some segmentation exactly when it ends by `limit + 8192`. In between the network decides
  (`Wire.SegmentationMatters`, which also says it for the size lines of chunks, where something is
  buffered already).
- Chunk sizes that Python's `int` reads as -3 or less are taken from the end of whatever happens to be
  buffered. One stream can then be an error in one piece and an empty body in two
  (`ChunkFates.TwoCuts`). Sizes of -1 and -2 are always refused.
- Whenever a stream can lead to two different bodies, some segmentation of it is an error, and each of the
  bodies needs a negative size (`ChunkFates.FateExact`, `ChunkFates.OneBody`).
- Such sizes also break the cap on bodies. `ChunkCaps.Lengths` computes the range of lengths that a list of
  sizes can lead to; exactly the lists whose range ends above MAX_BODY can break the cap
  (`ChunkCaps.OverrunExactly`). The largest body there is has MAX_BODY + 8191 octets
  (`ChunkCaps.CapIsTight`), and without a size from -8190 to -3 the cap holds for every stream and every
  segmentation (`Chunks.Dechunk`).
- Waiting for input, body and buffer together stay within MAX_BODY + MAX_HEADER + 8192 unless such a size
  was read, and 8191 octets more if it was. For a moment, between extending the body and cutting the
  buffer, they hold the chunk twice: never more than 2 * MAX_BODY + 8193 octets.
- `_dechunk` stops at the zero chunk and drops what it holds. If the empty line that closes a chunked
  response arrives later than the zero chunk, it stays on the connection and the next response is refused,
  whatever it is. That is so for every chunked response: some cut spoils the next one and some does not
  (`Persistence.NextIsReadIff`, `Persistence.NetworkDecides`), so the second request of the HTTP/1.1 probe
  succeeds or fails by the network's choice. Responses sent by their length never do this
  (`Persistence.Converse`).
- A malformed header block makes the HPACK decoder raise an error that neither the HTTP/2 client nor the
  prober catches. The player's worker dies; `run_tick` logs it and goes on. That player has no row for
  this rung and any later one in the tick, and a raise after the plant leaves a flag without a row. All
  invariants hold of such runs too, and other players lose nothing (`TickLoop.RunTick`).
- A flag is accepted in exactly the ticks t .. t + K - 1 but *stored* until an expiry at t + K or later.
  Settling tick T after T's own expiry is right only because of that (`FlagWindow.SettlementExact`).
- Over whole runs an ok row pays the bonus exactly if its tick was settled and by the history nothing of its
  rung was first stolen in that tick. A tick is never settled exactly if the loop crashes after it has
  begun the next tick and before it has settled (`Season.RowsPaidByHistory`).
- The comment that calls the SLA flag "K-old" is off by one: the flag asked for is the one planted K - 1
  ticks earlier, the oldest that is still live.
- `submit` checks the whole write-up but stores its first 4000 characters. The stored one is non-blank
  exactly when those are; the HTTP handler's own limit of 4000 is what guarantees it
  (`Steals.StoredWriteup`, `Steals.BlankWriteupStored`).
- The flag pattern also admits one trailing newline.
- Scores never drift, captures and losses balance and the submissions ledger only grows whenever a reset
  happens, and even if workers go on writing after their tick has given up on them
  (`Season.ScoresNeverDrift`, `Season.StealsAlwaysBalance`, `Steals.LedgerOnlyGrows`).
- Flags and rows are less robust. A reset in the middle of a tick is harmless exactly when no rung is left
  to be probed: only then must the tick end with the tables of a fresh round. Otherwise it can leave a row of a tick that the new round has
  not come to, and, exactly when one of the rungs left carries flags, a flag that is accepted before its
  time (`Resets.ResetCleanIff`, `Resets.StrayFlagIff`); a flag of tick t then lives t ticks more than K
  (`Resets.StaleFlagOutlives`).

## Assumptions

- Weights, prices, bonus, K and the roster do not change during a run. Names on the roster are distinct
  and non-empty, which `orchestrator/config.py:171-176` checks. Theorems that need K >= 1 or natural
  weights say so.
- New tokens never repeat. Each submission runs whole, although its duplicate check and its insert are
  separate statements in the source. A crash of the tick loop at any point is the step Restart. The
  last step of a deployment and a reset are single steps.
- What is proved of flags, uptime rows and settlement over runs (`FlagWindow`, `UptimeRows`, `Settlements`)
  is for runs that start new rounds between ticks and in which workers finish or die before the expiry of
  their tick; the theorems say so by `Undisturbed`. What is proved of submissions and scores is for all runs.
- One probe (plant, fetch, record) is one step, which commutes with what submissions read.
- Python texts are sequences of octets: bytes decoded as Latin-1 are exact, UTF-8 is left out.
- `probes.py` is an oracle: a function from slots to what the service did, or to an exception. Clocks are parameters.

## Model

| member | source | states |
|---|---|---|
| IntCodec.IntEncode | orchestrator/hpack.py:43-53 | the loop appends exactly the octets of the integer representation |
| IntCodec.IntDecode | orchestrator/hpack.py:56-73 | the loop computes the parse of the integer at the position, with truncated, missing and overlong input as one failure |
| IntCodec.ParseIntValue | orchestrator/hpack.py:56-73 | a successful read is worth what section 5.1 of RFC 7541 says, is below 2^p - 1 + 2^35 and takes at most six octets |
| IntCodec.IntRoundTrip | orchestrator/hpack.py:43-73 | an encoded integer, wherever it stands, decodes to itself and exactly its octets are consumed if it is below 2^p - 1 + 2^35, and is refused otherwise |
| Hpack.StrDecode | orchestrator/hpack.py:81-90 | reads a string literal; a Huffman-coded one has no text but is skipped at its length |
| Hpack.Decoder.Lookup | orchestrator/hpack.py:116-124 | static then dynamic entries by index; 0 and indices past the table fail |
| Hpack.Decoder.Shrink | orchestrator/hpack.py:168-172 | popping from the end leaves the longest prefix of the table that fits |
| Hpack.Decoder.Insert | orchestrator/hpack.py:126-132 | insert at the front, then evict, keeping the size bound |
| Hpack.Decoder.Decode | orchestrator/hpack.py:134-166 | the loop decodes the block and updates the table as the specification function does, also on a block that fails half way, and always ends |
| Hpack.EvictIsLongest | orchestrator/hpack.py:126-132 | what eviction leaves is the longest prefix whose entry sizes fit the limit |
| Hpack.Encode | orchestrator/hpack.py:93-103 | the loop produces the printed fields in order, with the smallest static index of a known name |
| Rfc7541.InsertRefinesRfc | orchestrator/hpack.py:126-132 | inserting and then evicting gives the table of section 4.4 of RFC 7541, which evicts first; an oversized entry empties it |
| Rfc7541.EntriesBounded | orchestrator/hpack.py:126-132 | entries of 32 octets and more: as many as the total size over 32 at most |
| Rfc7541.TableBounded | orchestrator/hpack.py:134-172 | after any block, even a failing one, sizes sum to at most max_size <= 65536 and there are at most 2048 entries |
| Rfc7541.DecodePrinted | orchestrator/hpack.py:134-166 | decoding the printed representations is receiving them one by one |
| Rfc7541.AtSynced | orchestrator/hpack.py:116-124 | any index valid for the peer gives the peer's entry with Huffman-coded parts erased |
| Rfc7541.StepSynced | orchestrator/hpack.py:137-165 | one representation of a conforming peer keeps the two tables in step and yields the erased true field |
| Rfc7541.IndicesStayInSync | orchestrator/hpack.py:8-10 | for every sequence of header blocks of a conforming peer, Huffman-coded or not, each decodes to the erased true fields and the erased true table stays a prefix of the decoder's |
| Rfc7541.ConnectionStaysInSync | orchestrator/hpack.py:8-10 | the same from fresh tables of equal size on, over a whole connection |
| Rfc7541.HeadersRoundTrip | orchestrator/hpack.py:93-103 | decoding an encoded header list in any state of the decoder gives it back with names in lower case, consumes the block and changes neither table nor limit |
| Rfc7541.IndexExact | orchestrator/hpack.py:116-124 | index 0 and indices past both tables fail; the dynamic table starts at 62 |
| Rfc7541.StaticStatuses | orchestrator/hpack.py:17-18 | the static entries 8 to 14 are the seven statuses, as numbers |
| Rfc7541.StaticOfExamples | orchestrator/hpack.py:14-33 | the static entries that the examples of appendix C of RFC 7541 refer to, and how many there are |
| PyText.IntReadsDigits | orchestrator/httpclient.py:168-173 | Python's int reads a plain run of digits, decimal or hexadecimal, as its value |
| PyText.LinesOfJoin | orchestrator/httpclient.py:142-154 | splitting joined lines gives the lines back |
| Grammars.StripExact | orchestrator/httpclient.py:150-152 | stripping removes exactly the white space around a text |
| Grammars.IntExact | orchestrator/httpclient.py:168-173 | exactly the texts Python's int reads in base 10 and 16, white space, signs, prefixes and underscores included, each as its number |
| Grammars.IntLatin1Exact | orchestrator/httpclient.py:310-313 | the same for header values, with the spaces of Latin-1 |
| Wire.ReadUntil | orchestrator/httpclient.py:95-107 | the loop computes the head and surplus that the pieces determine |
| Wire.ReadUntilSplits | orchestrator/httpclient.py:95-107 | what is read is the text before the first marker and nothing of the rest is lost; read or refused, at most limit + 8192 octets were buffered |
| Wire.ReadUntilHolds | orchestrator/httpclient.py:95-107 | how every segmentation ends: the same head, and how much may be buffered past the marker |
| Wire.SegmentationMatters | orchestrator/httpclient.py:95-107 | exactly when every and when some segmentation lets the marker be read, with any amount already buffered |
| Wire.ReadAll | orchestrator/httpclient.py:110-123 | the whole stream if it is at most MAX_BODY, else an error, after at most MAX_BODY + 8192 octets |
| Wire.ReadExact | orchestrator/httpclient.py:126-139 | the first n octets or an error, never reading past them |
| Http1.ParseHeaders | orchestrator/httpclient.py:142-153 | the loop computes the header map, refusing folded and malformed lines, later fields winning |
| Grammars.StatusExact | orchestrator/httpclient.py:267-276 | exactly the status lines of the client's own version with a decimal code are accepted, as that code |
| Grammars.LineExact | orchestrator/httpclient.py:142-153 | exactly which header lines are accepted, as which name in lower case and which trimmed value |
| Grammars.BlockExact | orchestrator/httpclient.py:142-153 | exactly which header blocks are accepted, and the headers they say, line by line |
| Grammars.FramingExact | orchestrator/httpclient.py:300-326 | from the fields in whatever case: chunked in 1.1 only, else a length up to 2^20, else up to the close in 1.0 only, everything else refused |
| Grammars.BodiesExact | orchestrator/httpclient.py:300-326 | behind any well-formed head, exactly which octets that follow are the body and which bodies are refused, if it is not chunked |
| Grammars.LongHeadRefused | orchestrator/httpclient.py:95-107 | a head that ends past 65536 octets and one read is refused under every cut |
| Chunks.ReadSizeLine | orchestrator/httpclient.py:160-167 | the size line that the pieces determine, with what was held at most |
| Chunks.TakeChunk | orchestrator/httpclient.py:180-190 | a chunk of any size, negative ones included, by Python's slices, with what body and buffer held at most |
| Chunks.ReadChunk | orchestrator/httpclient.py:159-190 | one round as the pieces determine it; body, buffer and their peaks stay bounded for every size |
| Chunks.Dechunk | orchestrator/httpclient.py:156-191 | for every stream and segmentation: the run of the pieces, a body of at most MAX_BODY + 8191 octets, peaks while waiting and in between; within MAX_BODY, and the peak within MAX_BODY + MAX_HEADER + 8192, if no size from -8190 to -3 was read |
| ChunkOutcomes.OutcomesExact | orchestrator/httpclient.py:156-191 | the outcomes told from the octets are exactly those of some segmentation, for every stream |
| ChunkFates.YieldsExact | orchestrator/httpclient.py:156-191 | for every stream and whatever is buffered of it, a walk over the octets with one interval tells exactly which bodies, and whether an error, some segmentation leads to |
| ChunkFates.FateExact | orchestrator/httpclient.py:156-191 | every stream is one that no segmentation gets a body from, one that every segmentation gets this body from, or one that some get a body and some an error from; the octets say which |
| ChunkFates.OneBody | orchestrator/httpclient.py:156-191 | where a body is got without a negative size, every segmentation that gets a body gets that one |
| ChunkCaps.LengthsExact | orchestrator/httpclient.py:159-190 | for any list of sizes, exactly the lengths of the bodies that are returned after reading it from an empty buffer |
| ChunkCaps.OverrunExactly | orchestrator/httpclient.py:176-190 | the cap on a body is broken by exactly the lists of sizes whose range of lengths ends above it |
| ChunkCaps.CapIsTight | orchestrator/httpclient.py:176-190 | no body has more than MAX_BODY + 8191 octets, and one has as many |
| ChunkFates.TwoCuts | orchestrator/httpclient.py:171-190 | one stream with the size -3, two segmentations, two results |
| Http1.Client.ReadBody | orchestrator/httpclient.py:300-326 | the framing the headers call for, applied to stream and pieces; the body is within MAX_BODY unless a size from -8190 to -3 was read, and never more than 8191 octets over it; what is left on the connection |
| Http1.Client.Request | orchestrator/httpclient.py:242-298 | exactly the reply of the pieces, which is the settled one if the stream settles it; the caps on the body for every stream; the connection is dropped exactly by a reply that closes it, and otherwise keeps what nobody read |
| Http1.ReplyExact | orchestrator/httpclient.py:242-326 | a stream is refused or answered exactly when every segmentation ends so, and undecided exactly when two end differently |
| Rfc9112.SameInAnyCase | orchestrator/httpclient.py:152 | fields whose names differ only in the case of letters mean the same headers |
| Rfc9112.FoundInAnyCase | orchestrator/httpclient.py:282-283 | a header is found under its lower-case name in whatever case it was written, with its last value |
| Rfc9112.HeadParses | orchestrator/httpclient.py:267-280 | a printed head parses to its status and header map |
| Rfc9112.PiecesRead | orchestrator/httpclient.py:156-191 | printed chunks, with extensions, are read as their data in order under every segmentation |
| Rfc9112.BodyReads | orchestrator/httpclient.py:300-326 | a body printed by length, in chunks or up to the close reads back as itself |
| Rfc9112.ResponseRoundTrip | orchestrator/httpclient.py:242-326 | a response printed by sections 6.3 and 7.1 of RFC 9112, names and words in any case, is answered as exactly its status, headers and body under every segmentation |
| Persistence.Converse | orchestrator/probes.py:43-55 | any number of responses sent by their length, each in its turn on one HTTP/1.1 connection, are all read back however each is cut |
| Persistence.NextIsReadIff | orchestrator/httpclient.py:156-191 | after a chunked response the next one is read exactly if nothing of the line that closes the chunks is left on the connection, and refused otherwise, under every cut of both |
| Persistence.NetworkDecides | orchestrator/httpclient.py:174-175 | every chunked response has a cut that leaves nothing and a cut that leaves that line |
| Http2.NextOfPrinted | orchestrator/httpclient.py:365-390 | a printed frame is the next frame of the stream, and what follows it remains |
| Http2.FrameRead | orchestrator/httpclient.py:383-390 | the frame header octet by octet: which streams start with a frame the reader takes, and its parts |
| Http2.Client.Recv | orchestrator/httpclient.py:370-381 | the next n octets of buffer and stream, or an error; never was as much buffered as the largest frame and 65536 octets |
| Http2.Client.ReadFrame | orchestrator/httpclient.py:383-390 | the next frame of the stream, the reserved bit dropped and long frames refused |
| Http2.Client.AwaitFrame | orchestrator/httpclient.py:392-404 | the first frame of the wanted kinds within 64, with the acknowledgements sent on the way |
| Http2.Client.HandleFrame | orchestrator/httpclient.py:441-462 | what one frame adds to the response, to the decoder and to the wire |
| Http2.Client.ReadResponse | orchestrator/httpclient.py:435-465 | the run over at most 512 frames that the stream determines, with everything that was sent |
| Rfc9113.AwaitShape | orchestrator/httpclient.py:392-404 | each SETTINGS and PING without the ACK flag gets one acknowledgement in order, empty or with the ping's payload, and nothing else is sent |
| Rfc9113.AwaitReads | orchestrator/httpclient.py:392-404 | what is read are the frames at the front of the stream; the wait ends well only before any GOAWAY, and gives up only at one, after so many frames or for want of a whole frame |
| Rfc9113.FieldsTold | orchestrator/httpclient.py:451-455 | over all lists of fields: the status is the number of the last readable `:status`, and the headers are the names without a colon in front, each with its last value |
| Rfc9113.TrafficConserved | orchestrator/httpclient.py:392-465 | over every response read, finished or not: one acknowledgement in order for each SETTINGS and PING that asks, and credit on connection and stream each equal to the DATA octets kept, never zero |
| Rfc9113.ResponseReassembled | orchestrator/httpclient.py:435-465 | for any interleaving with control frames and other streams within the limits, the status and headers that the stream's fields say, as the decoder yields them, and its DATA in order, consuming exactly the response |
| Rfc9113.AnswerMeans | orchestrator/httpclient.py:435-465 | over all streams of octets: an answer is given only for a stream not reset, with whole header blocks, up to the first end after a header block, and is then what its fields and DATA say |
| Connections.ConnectionReassembled | orchestrator/httpclient.py:392-465 | over several requests on one connection, a peer conforming to RFC 7541 and RFC 9113 is read as its true fields, erased where Huffman-coded, and its DATA, response by response |
| Manifests.Protocols | orchestrator/validate.py:114-120 | the scored rungs of a manifest |
| Manifests.ValidateExactly | orchestrator/validate.py:22-107 | exactly which manifests are accepted, rule by rule, and what is kept of their keys |
| Manifests.ValidatedIsProbeable | orchestrator/validate.py:22-120 | a manifest that passes has distinct rungs in ladder order, exactly the declared ones, each with its transport and a port in 1..65535 |
| Limiter.DropStale | orchestrator/submit.py:54-55 | popping stale times from the front of an ordered queue leaves exactly the recent ones |
| Limiter.Window.RateLimited | orchestrator/submit.py:51-59 | refused exactly when 30 admissions lie in the last 60 s; the queue is always the admission history cut to that window |
| Limiter.NoBusyMinute | orchestrator/submit.py:51-59 | no closed 60 s interval ever holds more than 30 admissions |
| SubmitApi.Judge | orchestrator/submit.py:74-111 | every verdict in the source's order of checks, with the row it records and the theft it notes |
| Verdicts.VerdictExact | orchestrator/submit.py:74-111 | every verdict by its own conditions in order, with its row: the class and price of the rung, pending for rce and for transport on HTTP, and nothing changed where a write-up is missing |
| SubmitApi.ShapedExactly | orchestrator/submit.py:33 | flags are FLAG_ and 32 letters and digits, with at most a line feed behind |
| SubmitApi.ClassesExactly | orchestrator/submit.py:34 | the three classes by name, and no other |
| SubmitApi.ClaimExactly | orchestrator/submit.py:71-72 | which claims are made of which texts; a missing or empty one is none |
| SubmitApi.Referee.Submit | orchestrator/submit.py:61-120 | a bad token costs nothing, then the rate, then the form; only a request that passes all reaches the ledger, as one step of the state machine, and only admissions are remembered |
| Stores.Store.PlantFlag | orchestrator/state.py:239-244 | the new row, expiring at tick + lifetime |
| Stores.Store.FlagForSla | orchestrator/state.py:246-251 | some flag of the slot exactly when there is one |
| Stores.Store.ExpireFlags | orchestrator/state.py:253-255 | deletes exactly the expired rows and counts them |
| Stores.Store.FindLiveFlag | orchestrator/state.py:257-260 | the row of a token that has not expired |
| Stores.Store.NoteTheft | orchestrator/state.py:262-266 | writes thief and tick once |
| Stores.Store.StolenThisTick | orchestrator/state.py:268-272 | exactly the rungs of the player with a flag stolen in that tick |
| Stores.Store.WriteUptime | orchestrator/state.py:275-281 | one row per tick, player and rung, overwritten |
| Stores.Store.Totals | orchestrator/state.py:283-314 | every player's points, captures, losses and pending claims, recounted from the ledgers |
| Stores.Store.GridTick | orchestrator/state.py:325-328 | the latest tick with rows up to the given one, or the given one |
| Stores.Store.RenderBoard | orchestrator/state.py:317-365 | the board of all players that are not disabled, at that grid tick, with revision and time |
| Stores.Store.ReviewClaim | bin/ctfctl:239-268 | only a pending row changes; approval pays the claimed class |
| Stores.Store.ResetRound | bin/ctfctl:413-431 | flags, uptime and submissions gone, tick 0, unfrozen, grace cleared, players kept |
| Stores.Store.Freeze | bin/ctfctl:288-295 | the frozen bit and nothing else |
| Rounds.FreezeHolds | bin/ctfctl:288-295 | while frozen no tick begins; nothing else changes |
| TickLoop.ScoreProtocol | orchestrator/tick.py:51-94 | health, plant, SLA check, grace and points of one rung, as the probe step of the state machine; a raise leaves at most the planted flag |
| Verdicts.ProbeExact | orchestrator/tick.py:51-94 | what a probe leaves in any state: the flag stored, the flag asked for, and the row with its points |
| Verdicts.UpExactly | orchestrator/tick.py:51-94 | a rung is up without grace exactly if the service was healthy and, where flags are planted, took its flag and gave back that of K - 1 ticks before if it is stored |
| TickLoop.ScorePlayer | orchestrator/tick.py:36-98 | a run over the declared rungs, one row each, up to the first that raises |
| TickLoop.ScoredMeans | orchestrator/tick.py:51-94 | a rung gets its row exactly when neither it nor any rung before it raises |
| TickLoop.ApplyDefenseBonus | orchestrator/tick.py:102-129 | the nested loops re-price as the settlement function does |
| TickLoop.RunTick | orchestrator/tick.py:132-149 | every active player gets rows for exactly the rungs its worker gets through, whatever other workers do |
| TickLoop.Tick | orchestrator/tick.py:181-195 | frozen, it only renders; otherwise advance, settle, score, expire and render are one run of the state machine from idle to idle that adds rows for exactly the rungs got through |
| Bonus.SettlePays | orchestrator/tick.py:102-129 | each ok row of an active player gets weight plus bonus exactly when no flag of that player and rung was stolen in the tick; nothing else changes |
| Bonus.SettleIdempotent | orchestrator/tick.py:111-112 | settling again changes nothing |
| FlagWindow.FlagsKept | orchestrator/state.py:239-272 | every step but a reset in a tick and a late write keeps the invariant that ties the flags table to what was planted, stolen and expired |
| FlagWindow.FlagsAlways | orchestrator/tick.py:181-195 | so it holds in every state of every undisturbed run |
| FlagWindow.FlagLifetime | orchestrator/state.py:253-260 | a planted flag is accepted in exactly ticks t .. t + K - 1 and stored exactly until an expiry at t + K |
| FlagWindow.FlagsAfterExpiry | orchestrator/tick.py:192 | after the expiry of T only flags of T - K + 1 .. T remain, one per slot at most |
| FlagWindow.OneFlagPerSlot | orchestrator/state.py:246-251 | the SLA query has at most one answer, and fails only if nothing was planted or it expired |
| FlagWindow.TheftsStillStored | orchestrator/tick.py:106-109 | when T is settled every flag first stolen in T is still stored, so the table tells exactly what was first stolen then |
| FlagWindow.SettlementExact | orchestrator/tick.py:102-129 | in every state an undisturbed run reaches, settling pays the bonus exactly to the rungs from which nothing was first stolen in that tick, by the history |
| Resets.ResetKeeps | bin/ctfctl:422-426 | what a reset keeps of players and tokens, and what it empties, wherever the loop stands |
| Resets.ResetCleanIff | bin/ctfctl:422-426 | the tick under way must end in the tables of a fresh round, and cannot leave a row of a tick to come, exactly when no rung is still to be probed |
| Resets.StrayFlagIff | bin/ctfctl:422-426 | it can leave a flag that is accepted before its tick exactly when a rung that carries flags is still to be probed |
| Resets.StaleFlagOutlives | bin/ctfctl:422-426 | what a worker of tick t plants by its next probe after a reset outlives K by t ticks |
| UptimeRows.RowInvKept | orchestrator/tick.py:48-94 | every such step keeps the invariant of uptime rows, grace and workers |
| UptimeRows.RowsAlways | orchestrator/tick.py:181-195 | so it holds in every state of every undisturbed run |
| UptimeRows.SlaFindsFlag | orchestrator/tick.py:78-88 | a carrying rung that was up without grace K - 1 ticks before has its flag found by the SLA check |
| UptimeRows.UpMeansFlagReturned | orchestrator/tick.py:78-94 | such a rung is up without grace only if the service gave that flag back |
| UptimeRows.GraceCovers | orchestrator/deploy.py:353-354 | rows in the grace of a deployment, from the tick after it on, are never down |
| UptimeRows.GracedTicksBounded | orchestrator/deploy.py:353-354 | n deployments buy at most n times grace + 1 graced ticks |
| Settlements.PaidAlways | orchestrator/tick.py:102-129 | in every state of every undisturbed run an ok row pays its weight, plus the bonus exactly if its tick was settled and the history has no first theft of its rung in that tick; every tick that is over was either settled or left out by a crash of the loop |
| Steals.TraceableKept | orchestrator/state.py:239-266 | every step, resets in a tick and late writes included, keeps flag rows true to what was planted and first stolen in this round |
| Steals.AcceptedIff | orchestrator/submit.py:74-111 | in every state an undisturbed run reaches, a submission is accepted exactly when the flag was planted fewer than K ticks ago into another player's declared rung, was not yet scored by this player, and a higher claim comes with a write-up |
| Steals.StealsKept | orchestrator/submit.py:93-111 | every step keeps accepted rows unique per thief and flag, of a known theft, never of an own flag, priced at the floor or at the approved class |
| Steals.StealsAlways | orchestrator/submit.py:61-120 | so it holds in every state of every run, whenever its resets and late writes happen |
| Steals.ReviewSettles | bin/ctfctl:239-268 | a review settles a pending row at the approved or the floor price and changes no other row |
| Steals.LedgerOnlyGrows | orchestrator/submit.py:122-131 | within a round no row is lost or re-attributed, a claim is settled at most once, and the first thief stays |
| Steals.StoredThiefIsFirst | orchestrator/state.py:262-266 | a stored flag names the first player it was accepted from |
| Steals.StoredWriteup | orchestrator/submit.py:100-111 | the write-up stored for a claim is non-blank exactly when something is written among its first 4000 characters |
| Steals.BlankWriteupStored | orchestrator/submit.py:122-129 | an input for which it does not |
| Scores.RungsGained | orchestrator/tick.py:122-129 | settling a player's rungs changes its uptime by the sum of the price changes |
| Scores.StepScored | orchestrator/state.py:283-314 | each step changes the recount by exactly what the rules say it is worth |
| Scores.NeverDrifts | orchestrator/state.py:283-314 | from any state with the invariants of flag rows and steals, the recount is the running total after every run, resets in a tick and late writes included |
| Accounting.StealsBalance | orchestrator/state.py:295-309 | captures sum to the accepted rows, losses to the distinct stolen flags, and captures are at most N - 1 times losses |
| Accounting.UptimeBounded | orchestrator/tick.py:92-94 | after T ticks a player's uptime is at most T times the weights and bonuses of the six rungs |
| Accounting.EveryRound | orchestrator/tick.py:181-195 | the invariants of steals and owners hold in every state a fresh round can reach, those of flags and rows in every state an undisturbed run can reach |
| Season.ScoresNeverDrift | orchestrator/state.py:8-10 | from a fresh round on, the recount equals the total kept up step by step, over every run |
| Season.StealsAlwaysBalance | orchestrator/state.py:295-309 | the balance of captures and losses after every run |
| Season.FlagsLiveExactlyKTicks | orchestrator/state.py:257-260 | the flag window after every undisturbed run |
| Season.SubmissionsScoreByTheRules | orchestrator/submit.py:74-111 | the acceptance rule after every undisturbed run |
| Season.RowsPaidByHistory | orchestrator/tick.py:102-129 | the price of every row after every undisturbed run, and which ticks were never settled |
| Season.UptimeNeverExceeds | orchestrator/tick.py:92-94 | what a row may pay and what rows may add up to, after every undisturbed run |
| Boards.TotalsName | orchestrator/state.py:283-314 | exactly who has a score, and that everyone else's would be nothing |
| Boards.BoardShows | orchestrator/state.py:317-365 | who is on the board, what each light means, and the totals, revision and grace of a panel |
| Boards.OneGridTick | orchestrator/state.py:325-328 | the grid tick is determined by the rows |
| Boards.GridShowsLatest | orchestrator/state.py:321-328 | in every state an undisturbed run reaches, the grid at the current tick shows the latest results there are |
| Boards.TokensDoNotShow | orchestrator/state.py:317-365 | under any renaming that keeps tokens apart the board is the same |
| Deployments.DeployLog.LastDeployTime | orchestrator/state.py:221-226 | the latest successful deployment of the player, or the epoch |
| Deployments.LastAfter | orchestrator/state.py:221-226 | failed attempts and other players' deployments do not count, a success does |
| Deployments.Release | orchestrator/deploy.py:330-358 | a release needs a valid manifest in the player's own name, a build and a healthy machine; status, manifest and grace end up as recorded, by a run of the state machine |
| Deployments.LiveExactly | orchestrator/deploy.py:332-349 | exactly which attempts go live, with which manifest and revision |
| Deployments.DeployLog.Deploy | orchestrator/deploy.py:320-358 | refused exactly when it is not forced and too soon, and then nothing changes; otherwise carried through and logged |
| Deployments.UnforcedTakeTime | orchestrator/deploy.py:323-328 | whatever comes between, n unforced successes of a player take at least n - 1 intervals |

## Left out

- Huffman decoding: the decoder does not do it either; CONTINUATION, padded and prioritised frames and
  header blocks on other streams are not part of what the peers here may send.
- UTF-8 and Unicode: decoding with replacement, lower-casing beyond ASCII in header names of the HPACK
  encoder, Unicode digits in `int`, and Python's limit on the digits of an integer.
- Trailer fields after the last chunk: `_dechunk` does not read them, and of the next response on the
  connection something is said only if there are none.
- Timeouts, budgets and socket errors, which end a read with an error at a moment the clock picks.
- HTTP/0.9, the connection set-up of HTTP/2 and the printing of requests.
- SQLite, WAL mode, threads and durability: tables are values and each statement is atomic. Row ids of
  submissions are positions in the ledger.
- Overlapping submissions, as said under the assumptions.
- What a worker that outlives its tick can do to flag windows, uptime rows and settlement; for submissions
  and scores it is part of every run.
- `sync_roster`, `deployed_at`, events, and the texts of replies; the board's JSON file.
- What git, the build sandbox, disk packing, the virtual machine and the health check do: inputs of
  `Deployments.Release`.
- Constant-time comparison of submit tokens: equality.
- TickLoop.RunTick: scores the players one after the other, where the source uses a pool; the state machine
  that the invariants are proved of interleaves their probes, and submissions with them, in every order.
- Deployments.DeployLog.Deploy: one deployment of a player at a time; two at once could both pass the check.
- Backup and restore, the command line, the leaderboard page, address derivation and network scripts.
