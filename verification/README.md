# Proofs about the benchmarks' parsers, protocols and algorithms

Most of this repository's measurements rest on small programs that parse, count or
synchronise: a scanner that reads a client's header compression choices off the wire, a decoder
that adds up a message without building it, threads that hold connections until all of them have
one, a writer that never copies what it sealed, readers that must not care how a socket cuts the
bytes. If one of them is wrong, the figure it prints is about something else. This project states
what each of them is for and proves it for every input, every run and every interleaving.

Code that changes things step by step is a `method` or a `class` with the same branches, proved
equal to a specification function; the theorems are lemmas about those functions. Concurrent code is
a state machine whose runs are all the sequences of its steps.

| file | what it is about |
|---|---|
| `Common.dfy`, `Bytes.dfy`, `Sockets.dfy` | options and sizes of sets; integers as octets; a byte stream handed over in pieces |
| `Hpack.dfy`, `ScanEnds.dfy`, `HpackScanner.dfy`, `HeaderBlocks.dfy` | the HPACK scanner and when it ends, and a block from its frames to its record |
| `Probe.dfy`, `ProbeCalls.dfy` | the HTTP/2 probe's frame loop and responders, interleaved |
| `Wire.dfy`, `WireReader.dfy`, `Utf8.dfy` | the protobuf wire format and its `Reader` |
| `Proto.dfy`, `ProtoStream.dfy`, `ProtoOrder.dfy`, `Logs.dfy`, `LogsAgreement.dfy` | the fused decoder against the walk of the tree |
| `Pool.dfy` | the connection-pool rendezvous |
| `SegmentLayout.dfy`, `Segments.dfy` | the segment writer, its iovecs and how many there can be |
| `H2Frames.dfy`, `Chunked.dfy`, `ChunkedCuts.dfy`, `ChunkedSizes.dfy`, `WebSocket.dfy`, `Fanout.dfy` | readers over arbitrary pieces |
| `Zipf.dfy`, `Foresight.dfy` | the popularity table, the cache ceiling and what seeing ahead is worth |
| `Writes.dfy`, `WritesArms.dfy` | the SQL write shapes, arm by arm and interleaved |
| `Percentile.dfy`, `Tz.dfy`, `Flat.dfy` | histogram percentiles, zone links, flat values |

`dafny verify dfyconfig.toml` checks all of it.

## Where the code and what is said of it differ

* `spike/grpc/probe/main.go:91-127` takes a string's length as the client claims it and moves the index
  by it in 64 bits, so the index can come back and the loop then never ends: twelve octets do it
  (`ScanEnds.EndlessNeverEnds`), recording a literal on every turn. `ScanEnds.EndsUnlessItComesBack`
  is the exact condition, `ScanEnds.ScanStops` one a reader of the block can check, and no encoding a
  client is meant to write is among them (`ScanEnds.EncodingNeverComesBack`). A read that begins
  outside the block is a panic, which takes the probe down: `ScanEnds.PanicsExactly` says on which
  blocks, and the one octet 0x40 is among them (`ScanEnds.OneOctetPanics`).
* `bench/json_segments.zig:188` has room for 64 iovecs and checks nothing. Every way of writing a body
  fits if and only if it is below 125472 octets under the 512-doubling sizes and 131104 under 4096
  (`SegmentLayout.VariantFitsExactly`); `Segments.RoomRunsOut` builds writes that do not at every size
  from there on.
* `bench/cache_hitrate.zig:14-17` says that no policy beats the ceiling and that Belady's need not be
  implemented to say so. No policy that chooses from the past beats it (`Zipf.NoPolicyBeatsCeiling`).
  Belady's sees the draws to come, and seeing just the next one is enough to be above the ceiling on
  every table, whenever there is room for some keys and not for all; only otherwise is there no such
  policy (`Foresight.ForesightBeatsCeiling`).
* `bench/proto_bench.zig:113` calls `walk` what a consumer reads and line 144 calls `stream` the same
  adding up. They differ on a number in a record's body, which only `stream` adds, and on a negative
  severity number, which `stream` adds and the checked cast of line 117 stops `walk` at.
  `LogsAgreement.AgreementExact` says exactly when they agree on an encoder's output,
  `LogsAgreement.NumberBodyDisagrees` and `LogsAgreement.NegativeSeverityTraps` are the smallest
  requests they differ on, and `LogsAgreement.AgreementOnTextBodies` covers what the benchmark builds.
* `bench/compare/wsload/main.go:137-164` merges 32-bit counts, so a bucket reached 2^32 times wraps.
  `Percentile.RightIffNothingWraps` is the exact condition; on `Percentile.EnoughOfOneBucketWraps` all
  four printed percentiles are `?`. With a single round trip none of the four has a rank
  (`Percentile.PrintedHaveRanks`), and each reads `0us`, which is right only of a time below a
  microsecond (`Percentile.WithoutRank`).
* `bench/mem.py:261-275` says the trailer is empty here, and needs it to be: with any trailer field
  the message stays short, so the drain goes on waiting and gives up when the peer closes
  (`Chunked.CodedScans`).
* `bench/mem.py:268-275` takes a size with a sign, and a slice from below zero keeps the end of what has
  come so far. So after a size below -2 how the socket cut the stream can decide the outcome: nine
  octets leave the drain waiting in one piece and are drained to their end in two
  (`ChunkedCuts.NegativeSizeDepends`). `ChunkedCuts.CutsAlikeExactly` says exactly which streams are
  drained alike under every cut; those with no size below -2 are (`ChunkedCuts.NoneBelowSuffices`).
* GORM's `Take` is an error where the other arms read no row, so the arms of the `tx` shape agree
  exactly while every key asked for is in the read fixture (`Writes.ArmsAgree`).

## Model

| member | source | states |
|---|---|---|
| Bytes.VarintGroups | proto/wire.zig:160-190 | octet k of a varint is seven bits of the value from bit 7k on, its high bit set unless it is the last |
| Bytes.VarintFits | proto/wire.zig:64-66 | and there are as many octets as the value has need of |
| Bytes.BigEndianOctets | bench/mem.py:60-61 | octet k of n, most significant first, is eight bits of the value from bit 8(n-1-k) on |
| Bytes.LittleEndianOctets | proto/wire.zig:97-109 | octet k, least significant first, is eight bits of the value from bit 8k on |
| Hpack.IntOnOctets | spike/grpc/probe/main.go:72-90 | on any octets and for every prefix p: the low p bits of the first, or, when all are set, 2^p - 1 plus what the groups after it spell, modulo 2^64, and where they end |
| Hpack.TurnByBits | spike/grpc/probe/main.go:95-126 | on any octets what a turn reads and counts by the high bits of its octet: 1, 01, 001, 0001 or 0000 |
| Hpack.ToInt64Is | spike/grpc/probe/main.go:91-94 | the length is added as the 64-bit signed number that is the same modulo 2^64 |
| Hpack.IntRoundTrip | spike/grpc/probe/main.go:72-90 | `readInt` gives back every integer below 2^64 written with any prefix and tag as section 5.1 of RFC 7541 says, and stops right after it |
| Hpack.StringSkipped | spike/grpc/probe/main.go:91-94 | `skipString` lands just past any string literal, Huffman coded or not |
| Hpack.RepTurn | spike/grpc/probe/main.go:95-126 | one turn over any section 6 representation consumes exactly its octets and notes exactly its kind |
| Hpack.ScanOfEncoding | spike/grpc/probe/main.go:70-127 | for every list of representations the scan of its encoding ends, within one turn each, never out of range, with exactly the counts, letters and size updates that were sent |
| HpackScanner.ReadIntAt | spike/grpc/probe/main.go:72-90 | the loop over the block is the reading function, reads past the end included |
| ScanEnds.EndsUnlessItComesBack | spike/grpc/probe/main.go:91-127 | on any block at all the loop has ended by turn length plus one if the index never comes back to where a turn began, and never ends if it does |
| ScanEnds.EndlessNeverEnds | spike/grpc/probe/main.go:91-125 | a block of twelve octets whose one string claims 2^64 - 12: after any number of turns the index is at the start and one more literal is recorded for each |
| ScanEnds.EncodingNeverComesBack | spike/grpc/probe/main.go:70-127 | on the encoding of any list of representations the index never comes back |
| ScanEnds.ScanStops | spike/grpc/probe/main.go:91-126 | malformed or not, if the strings read where the walk gets to, and no others, leave the sum within 63 bits, the loop ends |
| ScanEnds.PanicsExactly | spike/grpc/probe/main.go:70-127 | on any block, the loop ends with a panic exactly when some read on the walk begins outside the block, and ends without one exactly when none does and the index never comes back |
| ScanEnds.OneOctetPanics | spike/grpc/probe/main.go:72-106 | the block of the one octet 0x40, a literal with nothing behind it, panics |
| HpackScanner.Turns | spike/grpc/probe/main.go:70-127 | so many turns of the loop over a moving index and a mutable record, on any block, are the run of turns: over, with a panic, or still going |
| HpackScanner.Scan | spike/grpc/probe/main.go:70-127 | on exactly the blocks whose loop ends, the walk ends as the run does, panics included |
| HeaderBlocks.LiteralDecodes | spike/grpc/probe/main.go:166-175 | a literal's field is what was sent, or what the Huffman code makes of it when its bit is set, under its own name or an entry's, and is inserted if it is incremental |
| HeaderBlocks.IndexedDecodes | spike/grpc/probe/main.go:166-175 | an indexed field is the entry named, and the table stays as it is |
| HeaderBlocks.DecodeOne | spike/grpc/probe/main.go:166-169 | a block of one representation decodes as that one |
| HeaderBlocks.DecodeJoins | spike/grpc/probe/main.go:166-169 | two parts of a block decode as the first and then the second against the table the first left, and are refused if either is |
| HeaderBlocks.LateUpdateIsRefused | spike/grpc/probe/main.go:166-169 | a size update after any field has the whole block refused, and one in front of all fields does not |
| HeaderBlocks.TableCosts | spike/grpc/probe/main.go:170-175 | a table costs the octets of its names and values and 32 an entry |
| HeaderBlocks.InsertEvicts | spike/grpc/probe/main.go:166-175 | an insertion keeps as many of the newest entries as then fit and no fewer, in order, and one too large for the table leaves it empty |
| HeaderBlocks.SizeUpdateEvicts | spike/grpc/probe/main.go:166-175 | a size update above the allowed limit is refused, and any other keeps as many of the newest entries as fit |
| HeaderBlocks.IndexNames | spike/grpc/probe/main.go:166-175 | an index names the static table from 1 on, then the dynamic one newest first, and past them nothing |
| HeaderBlocks.RecordCountsLetters | spike/grpc/probe/main.go:95-126 | the four counters are the numbers of the four letters, whatever was noted before |
| HeaderBlocks.FieldsMatchLetters | spike/grpc/probe/main.go:166-175 | a block that decodes gives one field for each letter of `Kinds`, so the index into it is the field's own |
| HeaderBlocks.TableIsAQueue | spike/grpc/probe/main.go:166-175 | fields marked `+`, on top of the dynamic table before, are the table after followed by what was evicted, in order and within the limit |
| HeaderBlocks.InsertedBytesBalance | spike/grpc/probe/main.go:170-175 | the octets counted as inserted are the growth of the dynamic table plus the size of what it evicted |
| HeaderBlocks.TallyFields | spike/grpc/probe/main.go:170-175 | the loop over the fields records every name in order and adds the section 4.1 size of exactly the fields whose letter is `+`, those past the last letter adding none |
| HeaderBlocks.Recorder.Receive | spike/grpc/probe/main.go:246-261 | however a block is cut into HEADERS and CONTINUATION fragments, one record is added, of the whole block and its whole length, under the stream and trailer mark of the HEADERS frame |
| HeaderBlocks.FragmentsScanAsSent | spike/grpc/probe/main.go:164-189 | the reassembled block scans to the letters and the four counts of what was sent |
| HeaderBlocks.RecordBlock | spike/grpc/probe/main.go:164-189 | from the fragments of any octets whose scan ends to their record, the same for every cut, or to none exactly when the scan panics: length, the scan's counts, a name a field, and the sizes of the marked ones; for a block sent as representations the counts are the choices and, if it decodes, there is a letter a name and the octets are those of the incremental literals; one that is refused keeps its counts and has no names |
| Probe.MaxOpenIsPeak | spike/grpc/probe/main.go:236-245 | in every interleaving `MaxOpen` is the largest the map of open streams has ever been, and never more than `Calls` |
| Probe.AnswersAreContiguous | spike/grpc/probe/main.go:191-207 | in every interleaving the wire is whole answers and the loop's own frames, at most one responder, the write lock's holder, is part way, and only the loop or one responder is inside the map's lock |
| ProbeCalls.EveryEndIsAnsweredOnce | spike/grpc/probe/main.go:252-287 | after the wait, whatever the client sent, each stream has one responder for each END_STREAM on it, and each responder's three frames went out exactly once |
| ProbeCalls.OwnFramesArePaid | spike/grpc/probe/main.go:220-275 | in every interleaving the loop's own frames on the wire, and the one it is about to write, are exactly what the frames read so far oblige it to, in order: an ACK for each SETTINGS that is none, the window for each DATA with octets, each PING that is no ACK sent back; after the wait they are what the whole script obliges it to |
| ProbeCalls.StepsRunOut | spike/grpc/probe/main.go:209-287 | every step of loop or responder makes a measure smaller, so no run goes on for ever |
| ProbeCalls.SomethingCanStep | spike/grpc/probe/main.go:191-287 | until the connection is done something can step: with the write lock, the map's lock taken inside it and by the loop alone, and the wait group, no interleaving deadlocks |
| ProbeCalls.LegalClientIsAnswered | spike/grpc/probe/main.go:191-287 | for a client that keeps the stream states of section 5.1 of RFC 9113, after the wait no stream is open, `Calls` is the number of streams opened, and each was answered by exactly one responder |
| Wire.KeyByNumber | proto/wire.zig:146-153 | a key is 32 bits, its low three a wire type from 0 to 5 and the rest a number that is not 0, and anything else an invalid key |
| Wire.VarintRefused | proto/wire.zig:160-190 | a varint is too long exactly when nine octets go on and the tenth has more than one bit, and truncated exactly when fewer than ten are there and all go on |
| Wire.SkipRefuses | proto/wire.zig:97-143 | which octets each wire type takes and which error it is when they are not there, and when a group's end is no group's or another's |
| Wire.HundredGroups | proto/wire.zig:123-143 | a hundred groups one in another are skipped, a hundred and one are too deep |
| Wire.VarintRoundTrip | proto/wire.zig:79-91 | every 64-bit value written as a varint reads back, and what follows is left |
| Wire.SkipSerialized | proto/wire.zig:123-143 | skipping walks over exactly one field of any wire type, groups nested up to the depth given included |
| WireReader.VarintChecked | proto/wire.zig:79-91 | the quick path and the slow loop are one function: the value, its length, and truncated and overlong input |
| WireReader.Reader.Skip | proto/wire.zig:123-143 | the recursive skip moves the position past the field, or refuses it, exactly as the specification on the unread octets does |
| Utf8.ValidIsText | proto/wire.zig:229-277 | octets are well formed exactly when they encode some Unicode scalar values, each as section 3 of RFC 3629 writes it |
| Utf8.ValidUtf8 | proto/wire.zig:229-277 | the check that passes over ASCII 64 and then 16 octets at a time answers exactly whether the octets are UTF-8 of RFC 3629 section 4 |
| Utf8.AsciiPrefix | proto/wire.zig:239-277 | an ASCII run in front does not change whether octets are UTF-8, which is why handing over the rest is enough |
| Proto.UnlistedAddsNothing | bench/proto_bench.zig:145-242 | a field adds nothing at the outer levels unless it is the length delimited 1, 2 or 2, in a record unless its number is 1, 2, 3, 5, 6, 9 or 10, in an attribute 1 or 2, in a value 1 to 4 |
| Proto.RecordByNumber | bench/proto_bench.zig:175-217 | what each of a record's seven numbers adds under each wire type, and which are refused |
| Proto.AttributeByNumber | bench/proto_bench.zig:195-208 | what an attribute's two numbers add |
| Proto.ValueByNumber | bench/proto_bench.zig:219-242 | what a value's four numbers add |
| Proto.StreamIsFieldSum | bench/proto_bench.zig:145-242 | for any well-formed fields at any level, reading the bytes adds what the fields say, or refuses them with the first refused field's error |
| ProtoStream.StreamShifts | bench/proto_bench.zig:145-217 | a running sum carried through nested loops is that sum, added at the end, so the loops may share one accumulator |
| ProtoStream.StreamRecord | bench/proto_bench.zig:175-217 | the loop over a record, with the attribute loop inside it, is the specification of its level on any octets at all |
| ProtoStream.StreamValue | bench/proto_bench.zig:219-242 | the loop over a value is the specification of its level on any octets at all |
| ProtoStream.Stream | bench/proto_bench.zig:145-173 | the three nested loops and the three levels below them are the specification on any octets, errors included |
| ProtoOrder.TotalPermutes | bench/proto_bench.zig:145-242 | the total of a message's fields does not depend on their order |
| ProtoOrder.UnknownAddNothing | bench/proto_bench.zig:145-242 | fields whose number is not on the level's list add nothing and refuse nothing |
| ProtoOrder.RearrangedStreams | bench/proto_bench.zig:145-242 | permuting a message's fields and adding or dropping well-formed ones with other numbers than the level's own leaves the sum off the wire unchanged |
| ProtoOrder.RearrangedAtAnyDepth | bench/proto_bench.zig:145-242 | the same with the rearranged message nested at any level inside others |
| Logs.BitsAreTheValue | bench/proto_bench.zig:127 | the 64 bits of an integer are its value modulo 2^64 |
| LogsAgreement.StreamOfEncoding | bench/proto_bench.zig:145-242 | what `stream` answers for any request's encoding: every number in it modulo 2^64, or a refusal exactly when some string is not UTF-8 |
| LogsAgreement.AgreementExact | bench/proto_bench.zig:292-300 | on what an encoder writes for any request, both decoders come to a sum and the sums are equal if and only if every string is UTF-8, no severity number is negative, and the numbers in record bodies add up to a multiple of 2^64 |
| LogsAgreement.AgreementOnTextBodies | bench/proto_bench.zig:100-133 | with bodies absent or text and no negative severity, as the benchmark builds them, the decoders agree |
| LogsAgreement.NumberBodyDisagrees | bench/proto_bench.zig:118-121 | a single record with the number 1 for a body: 1 off the wire and 0 off the tree |
| LogsAgreement.NegativeSeverityTraps | bench/proto_bench.zig:117 | a single record with the severity -1: 2^32 - 1 off the wire and no sum off the tree |
| LogsAgreement.Walk | bench/proto_bench.zig:114-133 | on any request the nested loops over the tree give its total modulo 2^64, or stop at a negative severity number |
| Pool.NothingReturnsEarly | bench/fetch_tls_pool.zig:63-86 | in every interleaving, with any failures, no connection is in two hands or in a hand and the pool, and one goes back only when all `want` have been counted |
| Pool.StepEndsExactly | bench/fetch_tls_pool.zig:124-137 | at the end of a step `arrived` is exactly the target, `failed` counts each failure once, and the pool holds the larger of what it had and what was taken, less what was closed |
| Pool.RunStartsOn | bench/fetch_tls_pool.zig:124-135 | in every run as many threads are started as there are spawns, all of the target unless a spawn fails, and `failed` is how many requests and bodies have |
| Pool.NoFailures | bench/fetch_tls_pool.zig:124-141 | without failures the pool ends at the larger of what it had and the target |
| Pool.CleanRunEnds | bench/fetch_tls_pool.zig:124-141 | a run to the end in which nothing fails starts every thread, counts no failure and leaves the larger of what the pool had and the target |
| Pool.StepsRunOut | bench/fetch_tls_pool.zig:63-86 | every step but another look at the counter uses up some of what is ahead |
| Pool.SomethingCanStep | bench/fetch_tls_pool.zig:63-86 | until the step is over something other than another look is possible, without anything failing: no thread spins for ever, spawn failures included |
| Pool.SeriesHoldsLargest | bench/fetch_tls_pool.zig:121-148 | over a whole series without failures the pool holds the largest target so far |
| Segments.PayloadIs | bench/json_segments.zig:84-113 | a vectored write is its slices one after another, the last as often as `splat` says |
| Segments.RepeatIs | bench/json_segments.zig:84-113 | a slice repeated is so many times as long, and octet i of it is octet i modulo its length |
| Segments.Writer.Seal | bench/json_segments.zig:77-82 | sealing hands over what is buffered and changes no octet of it |
| Segments.Writer.Drain | bench/json_segments.zig:84-113 | `drain` ends, takes every octet of any data and splat, appends exactly them, lays them out as the bookkeeping says, and writes to no buffer that was there before |
| Segments.Writer.Put | bench/json_segments.zig:70-113 | any buffered write is a plain append, laid out as the bookkeeping says |
| Segments.Writer.Finish | bench/json_segments.zig:115-119 | the iovecs handed back are exactly the octets written, in order |
| Segments.Body | bench/json_segments.zig:210-214 | any sequence of writes finishes as iovecs whose concatenation is the writes' and whose sizes are the bookkeeping's |
| SegmentLayout.PutAllKeeps | bench/json_segments.zig:70-113 | after any sequence of writes a segment and the next hold more between them than the earlier one's room, and sizes are at least the schedule's |
| SegmentLayout.PartsHold | bench/json_segments.zig:70-119 | the segments of any sequence of writes hold its octets, no more and no fewer |
| SegmentLayout.FitsExactly | bench/json_segments.zig:70-119 | for any first size and cap, every way of writing n octets takes fewer than so many pairs of segments if and only if n is less than such pairs must hold |
| SegmentLayout.VariantFitsExactly | bench/json_segments.zig:210-221 | head and body fit in 64 iovecs for every way of writing n octets if and only if n is below 125472 under 512-doubling sizes, or 131104 under 4096 |
| SegmentLayout.SixteenKiB | bench/json_segments.zig:210-221 | bodies of 16384 octets take at most 11 and 7 segments under the two sizes |
| Segments.RoomRunsOut | bench/json_segments.zig:185-222 | at those sizes and every one past them there are writes whose iovecs do not fit |
| Segments.Answer | bench/json_segments.zig:197-226 | for any body: how many iovecs, that they fit exactly when they are no more than 64, as every body below its size's limit does, and that the ones after the head are then the body |
| Sockets.Socket.Fill | bench/mem.py:140-152 | reading until there is enough succeeds exactly when the stream has that much, loses nothing, and asks for nothing once there is enough |
| H2Frames.FrameOctets | bench/mem.py:60-61 | a frame octet by octet: the length in three, kind, flags, the stream in four, and the payload |
| H2Frames.EncodeOnce | bench/mem.py:60-61 | the octets of a frame, whatever follows, are no other frame's: kind, flags, stream and payload are all there to read |
| H2Frames.KindOf | bench/mem.py:158-165 | the handshake looks for kind 4, which bit 0 of the flags makes an acknowledgement, and kind 7 |
| H2Frames.FramesSplit | bench/mem.py:60-61 | what `frame` wrote, whatever follows, is what there is to read, frame by frame, in kind and flags |
| H2Frames.NextFrame | bench/mem.py:139-154 | for every cut of the stream `next_frame` answers the kind and flags of the frame at its front and keeps exactly the rest, and fails only when no whole frame is ever coming |
| H2Frames.ReadFrames | bench/mem.py:139-154 | any number of frames over any cut come back in order with the suffix unread |
| H2Frames.Shake | bench/mem.py:156-165 | the handshake ends right when both a SETTINGS and an ACK have come, having acknowledged each SETTINGS once; GOAWAY or the end of the stream stop it before |
| Chunked.Drain | bench/mem.py:255-275 | on any octets in any pieces the loops do as their specification on pieces says, sizes read as `int` reads them, signs included; where every cut is alike, what each turn lets go, how the drain ends and what it leaves are the stream's own, and each piece was asked for while everything read so far was short |
| ChunkedSizes.HexReads | bench/mem.py:267 | a number printed in hex, in either case, is read as that number |
| ChunkedSizes.PrintedScans | bench/mem.py:261-275 | a body printed chunk by chunk, each under its length in hex, is walked over a chunk a turn to its final CRLF |
| ChunkedSizes.SpellingReads | bench/mem.py:267 | every spelling of a number, with white space, a sign, `0x`, joined underscores and extensions, is read as what it means |
| ChunkedSizes.OnlySpellingsRead | bench/mem.py:267 | and a line reads as a size exactly when it is one of those |
| ChunkedSizes.SpelledTurn | bench/mem.py:263-275 | what a turn does after any size line, by the number it means: 0, from -2 on, or below |
| ChunkedSizes.UnspelledTurn | bench/mem.py:267 | a line that is no spelling of a number ends the drain |
| ChunkedCuts.CutsAlikeExactly | bench/mem.py:261-275 | every cut of a stream lets go the same at each turn, ends the same and leaves the same if and only if no size the scan comes to is below -2 with more octets behind it than the slice counts back over |
| ChunkedCuts.NoneBelowSuffices | bench/mem.py:261-275 | if no size line the scan comes to says less than -2, the pieces do not matter |
| ChunkedCuts.NegativeSizeDepends | bench/mem.py:267-275 | `-3`, CRLF, `0`, CRLF, CRLF in one piece leaves the drain waiting with the last octet, and cut after its first line it is over at the final CRLF |
| Chunked.CodedScans | bench/mem.py:261-275 | a body coded as in section 7.1 of RFC 9112, extensions and any spelling of the sizes included, is walked over whole, a turn a chunk, and is over exactly when a CRLF follows the last chunk |
| Chunked.DrainCoded | bench/mem.py:246-275 | over any cut of a coded message each turn lets go one chunk, the drain stops at the final CRLF, keeps all that follows, and never asks once it has the message |
| WebSocket.MaskedFrame | bench/ws_idle.py:114-135 | whatever follows it, a masked frame parses by sections 5.2 and 5.3 of RFC 6455 to its opcode and payload, under the shortest length form, for every payload; and octet by octet it is that head, the length most significant octet first, the key, and the payload with each bit flipped exactly where the key's octet i modulo 4 has a one |
| WebSocket.MaskFlips | bench/ws_idle.py:134 | bit k of masked octet i is one exactly when bit k of octet i and of octet i modulo 4 of the key differ |
| WebSocket.MaskTwice | bench/ws_idle.py:134 | masking twice with one key gives the payload back |
| WebSocket.RecvExact | bench/ws_idle.py:138-145 | exactly so many octets from the front of any cut of the stream, the rest kept |
| WebSocket.ReadFrame | bench/ws_idle.py:148-159 | the payload at the front of any cut of the stream, under any length form, and exactly the rest |
| WebSocket.ReadFrames | bench/ws_idle.py:148-159 | repeated reads return every server frame's payload in order over any cut |
| Fanout.MarkReads | bench/fanout.py:28 | the mark is the text `data: event` |
| Fanout.CountsAll | bench/fanout.py:28-119 | counting without overlap from the left misses no occurrence of the mark |
| Fanout.TailSuffices | bench/fanout.py:118-120 | the marks a piece adds are those in it and the ten octets before it, and the tail kept is those ten |
| Fanout.OccurrencesAreThePlaces | bench/fanout.py:119 | the count is the size of the set of places the mark is at |
| Fanout.Tally.Receive | bench/fanout.py:109-121 | one ready socket's piece keeps every socket's count and tail true of its whole stream |
| Fanout.Run | bench/fanout.py:99-121 | whatever order sockets become ready in and however their streams are cut, each count is the marks in its whole stream |
| Zipf.Build | bench/cache_hitrate.zig:51-60 | the filled and rescaled table is the running share of the weights |
| Zipf.Pick | bench/cache_hitrate.zig:62-71 | the binary search returns the least index whose entry reaches the draw, or the last |
| Zipf.Draw | bench/cache_hitrate.zig:48-71 | a draw lands on a key exactly when it falls in that key's stretch of the unit interval, which is as long as its share of the weight |
| Zipf.BestIsPopular | bench/cache_hitrate.zig:72-78 | any keys together are no likelier than as many of the most popular |
| Zipf.NothingAboveCeiling | bench/cache_hitrate.zig:72-78 | no set of at most `k` keys catches a draw more often than `ceiling(k)` |
| Zipf.PopularReachCeiling | bench/cache_hitrate.zig:72-78 | the `k` most popular catch it exactly that often |
| Zipf.NoPolicyBeatsCeiling | bench/cache_hitrate.zig:14-17 | no policy that chooses from the draws so far is expected more than `ceiling(k)` of the draws to come, from any history |
| Zipf.PopularIsBlind | bench/cache_hitrate.zig:72-78 | holding the most popular keys is one of the policies of its size that do not see the next draw |
| Zipf.PopularPolicyReachesCeiling | bench/cache_hitrate.zig:14-17 | holding the most popular keys is expected exactly that |
| Foresight.AheadIsDemand | bench/cache_hitrate.zig:14-17 | the policy that keeps the most popular keys once they have come, and lets the next draw decide the last place, holds at most k keys and none that was not held or fetched just before |
| Foresight.AheadOfCeiling | bench/cache_hitrate.zig:14-17 | from an empty cache its expected hits are, for any number of draws, that many times the ceiling and a positive gain, within k + 1 |
| Foresight.ForesightBeatsCeiling | bench/cache_hitrate.zig:14-17 | on every table, some policy filled by demand that sees the next draw is above the ceiling from some number of draws on if and only if there is room for some keys and not all; without such room no policy is |
| Foresight.TwoKeys | bench/cache_hitrate.zig:14-17 | on two keys drawn in the ratio r its long-run share of misses is 1/(1 + r + 1/r), where the ceiling's is 1/(1 + r) |
| Percentile.Conn.Record | bench/compare/wsload/main.go:104-114 | one round trip, clamped to the buckets, keeps the histogram and the count true of all recorded, in 32 and 64 bits |
| Percentile.ClampShows | bench/compare/wsload/main.go:106-164 | a time below twenty milliseconds shows as itself, a negative one as 0us and any other as the tail |
| Percentile.RankIs | bench/compare/wsload/main.go:152 | a rank is the whole part of the share of the total |
| Percentile.Merge | bench/compare/wsload/main.go:137-145 | the merged buckets and the total are those of all connections' times together |
| Percentile.Pct | bench/compare/wsload/main.go:151-164 | the scan stops at the first bucket by which the rank has been seen, and is unknown only when it never is |
| Percentile.RightIffNothingWraps | bench/compare/wsload/main.go:35-164 | every percentile with a rank is that-ranked order statistic of the clamped times if and only if no bucket holds 2^32 of them |
| Percentile.EnoughOfOneBucketWraps | bench/compare/wsload/main.go:143-175 | 2^32 round trips of one length leave nothing to see: no percentile with a rank finds a bucket |
| Percentile.PrintedHaveRanks | bench/compare/wsload/main.go:169-173 | the four percentiles that are printed all have ranks from two round trips on, and with fewer none of them has |
| Percentile.WithoutRank | bench/compare/wsload/main.go:151-164 | a percentile without a rank always reads as bucket 0, where the shortest time is exactly if some time is below a microsecond |
| Percentile.PercentilesRise | bench/compare/wsload/main.go:151-164 | a higher percentile is never a lower bucket |
| Percentile.Measure | bench/compare/wsload/main.go:91-164 | recorded, merged and read: the answer is the order statistic asked for, or 0us for want of a rank |
| Writes.WrittenTally | bench/compare-sql/go/ops.go:154-198 | what one written row adds to the checksum, from its key alone |
| Writes.DecimalReads | bench/compare-sql/go/ops.go:154 | a key printed in an address reads back |
| Writes.InsertBlock | bench/compare-sql/go/ops.go:355-403 | inserting, by row or by batch, succeeds exactly when none of the keys is there, and then stores and tallies every row once |
| Writes.DeleteBlock | bench/compare-sql/go/ops.go:355-403 | deleting never fails, takes exactly its keys out and tallies those that were there |
| Writes.TxBlock | bench/compare-sql/go/ops.go:407-435 | a transaction block fails only under GORM, exactly when a key it takes is missing; otherwise its sum and its tables are the same for every arm |
| Writes.ArmsAgree | bench/compare-sql/rust/src/ops.rs:464-711 | the blocks the five arms are each proved to run do the same to any tables and answer the same, except that GORM differs at a transaction if and only if a key is missing |
| Writes.TurnWorks | bench/compare-sql/go/ops.go:281-304 | one arm's turn from any contents of the tables it prepares: no duplicate key, the shape's checksum, the deletes all gone, and no table but its own touched |
| Writes.EveryBlockWorks | bench/compare-sql/go/ops.go:281-304 | any number of blocks, shapes and arms in any order: none fails and each reports one checksum for its shape, set by the fixture |
| Writes.SecondInsertClashes | bench/compare-sql/go/ops.go:287-290 | without the truncate between them the second of two insert blocks is a duplicate key |
| Writes.FixtureChecksums | bench/compare-sql/fixture.sql:37-101 | with the tables as seeded, delete and update report the insert checksum and a transaction twice it |
| Writes.ChecksumNumbers | bench/compare-sql/go/ops.go:281-304 | the insert and delete checksum is 88361285466 and the batch's 1767226660393 |
| WritesArms.Database.InsertReturning | bench/compare-sql/go/ops.go:41-55 | an insert of one row or many stores all of them or, on any key repeated or there already, none |
| WritesArms.Database.InsertUnnest | bench/compare-sql/go/ops.go:46-52 | an insert of four columns stores their rows side by side or none, and refuses columns of different lengths |
| WritesArms.PgxBlock | bench/compare-sql/go/ops.go:355-435 | pgx: columns made once and written over by every round, and the transaction round of its own, are the block of the specification |
| WritesArms.TokioBlock | bench/compare-sql/rust/src/ops.rs:464-511 | tokio-postgres: fresh columns a round, and a transaction's two sums added before COMMIT, are the block of the specification |
| WritesArms.DieselBlock | bench/compare-sql/rust/src/ops.rs:515-627 | Diesel: records for rows, and a closure's inner sum added once it has committed, are the block of the specification |
| WritesArms.SqlxBlock | bench/compare-sql/rust/src/ops.rs:631-711 | SQLx: fresh columns, and rows tallied into the running sum inside the transaction, are the block of the specification |
| WritesArms.GormBlock | bench/compare-sql/go/ops.go:455-531 | GORM: records read back into themselves, and a closure that adds to the block's own sum and rolls back on `Take`'s error, are the block of the specification |
| WritesArms.RunBlock | bench/compare-sql/rust/src/ops.rs:343-358 | whichever arm it is, its own block is the specification's, first error and all |
| WritesArms.Compare | bench/compare-sql/rust/src/ops.rs:327-361 | the main loop in either language, its order of arms flipped or rotated: no error, and every arm's checksum is the shape's |
| Tz.LastLineCounts | job/tzdata/refresh.py:91-100 | reading line by line keeps exactly the zones some line names and, for each link, the target of its last line |
| Tz.ZonesAndLinks | job/tzdata/refresh.py:91-100 | every zone named in any line, and for each link the target of its last line |
| Tz.Canonical | job/tzdata/refresh.py:135-142 | on any graph the loop ends, within as many steps as there are links, with the first zone on the chain, or without one when the chain dangles or loops |
| Tz.OneEnd | job/tzdata/refresh.py:135-142 | a chain that ends in a zone neither dangles nor loops and ends in no other |
| Tz.Table | job/tzdata/refresh.py:155-156 | there is a table if and only if every link's chain ends in a zone; then it names each zone and link, each with the zone it resolves to |
| Tz.Refresh | job/tzdata/refresh.py:132-158 | a finished refresh keeps one file a zone and none a link, and names exactly the zones and links |
| Tz.LookupAfterRefresh | job/tzdata/refresh.py:186-190 | `lookup` answers exactly the names listed, each with the bytes compiled for the zone its chain ends in |
| Flat.OffenceByKind | cache/flat.zig:57-104 | which kinds of type are refused for what, and which are made of parts |
| Flat.FlatDecided | cache/flat.zig:57-104 | a type is accepted exactly when no component at any depth offends; a refused one's path leads to an offending component, the first in order of declaration, and the reason is its own |
| Flat.KindDecided | cache/flat.zig:40-52 | a value is kept flat exactly when nothing in it offends and its size is below 65536, and one that offends is never called too large |
| Flat.AcceptedMeansTheSame | cache/flat.zig:54-104 | the bytes of an accepted type mean the same whatever memory has become |
| Flat.PointersChangeMeaning | cache/flat.zig:84-92 | wherever a value can have a pointer or a slice, some bytes mean one thing before memory changes and another after |
| Flat.RoundTrip | cache/flat.zig:109-127 | an accepted value copied into the ring at any offset and out again has its bytes and its meaning, and the rest of the ring is as it was |

## Left out

- HpackScanner.Scan: on a block whose loop never ends there is no end to state; `HpackScanner.Turns` says what any number of its turns do.
- HeaderBlocks.RecordBlock: the static table and the Huffman code are parameters, and decoding is modelled on representations rather than octets, because the decoder is the `hpack` package's and not this repository's; it is taken to refuse a size update after a block's first field, as section 4.2 of RFC 7541 has it. On a block whose scan never ends there is no record to state. The request headers kept for the first block are not modelled.
- ProbeCalls.OwnFramesArePaid: the SETTINGS the server sends before its loop begins are not part of the wire modelled, and a PING's eight octets are one number.
- Probe.MaxOpenIsPeak: frames are events, so what the framer itself rejects, and write errors, are not modelled; a loop that ends in the middle of a header block is not either.
- Pool.StepEndsExactly: the client's pool is taken to hand out a free connection when it has one and open one when not; its limit of 2^20 free connections is taken never to be reached, and weak memory orderings are not modelled, each atomic operation being one step.
- Segments.Writer.Drain: allocation failures, after which the answer is abandoned, are not modelled. Sizes of the first segment and the cap are taken to be positive.
- Segments.Writer.Finish: the standard library's `flush` and buffered write are modelled as a drain of nothing and as a copy when it fits, `drain` when it does not.
- LogsAgreement.AgreementExact: the check in the source walks what `decode` makes of the bytes. That is the request on an encoder's output, which the lemma is about; on other octets `decode` keeps the last of a field sent twice where `stream` adds both, and that merge is not modelled.
- LogsAgreement.StreamOfEncoding: the encoder is modelled by what it writes, not by its writing back to front, and `decode` is not modelled: the walk is taken over the request itself.
- LogsAgreement.Walk: a negative severity number is taken to stop the walk, as the checked cast does; built without checks the source has no defined answer there.
- WireReader.VarintChecked: the ten-octet quick path's unrolling is not modelled.
- Chunked.Drain: the head of the response and the length-delimited drain are not modelled.
- ChunkedCuts.CutsAlikeExactly: a piece may be of any length, where `recv(65536)` hands over no more than that; only the direction that finds two unlike cuts makes use of it.
- H2Frames.Shake: the loops of `open_grpc` and of the streams and the GET after the handshake read frames the same way under other stopping conditions and are not repeated.
- WebSocket.MaskedFrame: payloads of 2^63 octets and more, which section 5.2 of RFC 6455 cannot say the length of, and opcodes of more than four bits are excluded by precondition.
- WebSocket.ReadFrame: a mask bit or a close frame from the server is not looked at, as in the source.
- Fanout.Run: which sockets are ready is an arbitrary sequence; the time-outs that end the loop are not modelled.
- Zipf.Build: exact reals stand for floats, and any positive weights for `1 / rank^alpha`; the ceiling results need the weights not to rise.
- Percentile.Measure: exact reals stand for floats, and connections still running after the five-second wait are not modelled. Fewer than 2^64 round trips in all are assumed.
- Writes.EveryBlockWorks: sums are unbounded integers, which the 64-bit sums of at most a thousand rows do not exceed; timing, warm-up and the six read shapes are not modelled.
- WritesArms.DieselBlock: builders are taken to send the statement their call says, and GORM's batches of a hundred to be one statement each.
- Tz.Refresh: the download, the signature, `zic` and the text of the generated file are not modelled, lines come already cut at `#` and split, and the byte order of the names is not stated.
- Flat.AcceptedMeansTheSame: a layout without padding stands for the compiler's; the text of the compile errors is not modelled.
- The cache store and its ring's lock: they need a memory model and are a project of their own.
- Routing, SQL building, jobs, tokens and compression: not part of these programs.
