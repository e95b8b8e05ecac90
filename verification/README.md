# Verification of a streaming serialization codec

The codec encodes messages of typed fields and nested sequences into a byte stream and decodes them
again. Its decoder is fed chunks of any size; its encoder writes through buffers of any size, to a sink
that may copy or keep them. This project models both sides, the varint layer below them and two
helpers above the decoder, and proves that **neither the bytes nor the events depend on how buffers
and chunks are cut**, and that what is encoded is what is decoded.

`dafny verify dfyconfig.toml` checks everything.

## How it is laid out

| file | what it holds |
|---|---|
| `leb128.dfy` | the reference base-128 codec (LEB128; DWARF version 5, section 7.6), bounded to 64 bits |
| `swar.dfy` | the bit arithmetic of the eight-byte paths, related to the reference codec |
| `varint.dfy` | the cursor operations of `src/varint.rs`, and ZigZag |
| `wire.dfy` | ids, lengths, tags, words, and the decoder's callbacks as events |
| `decoder.dfy` | the meaning of a byte stream: an automaton that takes one byte at a time |
| `istream.dfy` | the decoder of `src/istream.rs`: a class with carry, resume state, depth and latch, proved to implement the automaton |
| `streams.dfy` | what follows: chunk invariance, prefixes, finality of a rejection |
| `completion.dfy` | exactly when bytes that are INCOMPLETE can still become a message |
| `discipline.dfy` | the announcement discipline of the callbacks, as a watcher |
| `payload.dfy` | the accumulator of `src/payload.rs`, alone and behind the decoder |
| `message.dfy` | messages as trees, the plain encoding, the encoder's calls as state transitions, lazy framing |
| `balance.dfy` | every balanced run of calls writes a tree |
| `output.dfy` | what a write may do to an output: a relation on snapshots, independent of buffers and sink |
| `ostream.dfy` | the encoder of `src/ostream.rs`: a class with buffer, cursor, held-back ids, sink and death |
| `encoder.dfy` | whole runs of the encoder |
| `roundtrip.dfy` | bytes of a tree in, callbacks of the tree out |
| `converse.dfy` | what decodes is a message: bytes back to a tree |
| `layout.dfy` | the wire format in plain numbers, as written, as read and as refused |
| `endtoend.dfy` | the encoder's calls to the decoder's callbacks and payloads |
| `slots.dfy` | the wrapper-array slots of `src/seq.rs`: reuse equals fresh |

Two specifications carry the weight, and both are simpler than the code that implements them.

* *Decoding.* `Decoder.Run` folds `Decoder.Step` over the bytes. `Step` re-reads the bytes of an
  undecided field head from its start with the reference varint reader; it has no carry, no chunks
  and no fast paths. `IStream.Feed` is proved to move the decoder's abstract state along `Run` and to
  extend the visitor's log by `Run`'s events, payload chunks taken byte by byte (`Flatten`).
* *Encoding.* `Message.Apply` says what one successful call does to (bytes so far, depth, ids held
  back). `Output.Emits` says what a writer that owes some bytes may do to any output. Every writer of
  the class is proved to satisfy `Emits` for the bytes its call owes, on its fast and its slow path
  (bytes that fit never reach a sink, and between flushes a sink sees full buffers only),
  and `Message.LazyFraming` shows that a run of calls amounts to encoding a pruned tree.

Neither specification stands alone. `RoundTrip.TreeRun` and `Converse.DecodedIsTree` say between them
that the messages within the format's bounds are what decodes; `layout.dfy` states the format in numbers,
on both sides; verdicts, errors and sink calls are spelled out in the contracts of the methods that
give them.

A `u64` is a `bv64`, an `i64` its two's complement bits, a byte a `bv8`; wrap-around is that of the
bit vectors. Floats are their 4 or 8 wire bytes.

## What is false of the code

Three statements in the repository's comments are not what the code does; the model follows the code.

* `src/istream.rs:429-431` says that carry and resume state are never both set. They are both set if and
  only if the bytes so far stop inside an element of an array or inside a float, however they were cut
  (`Streams.CarryAndResume`; `Streams.CarryBesideResume` is the three-byte instance). A payload never
  leaves a carry.
* `src/payload.rs:161-163` says that `buffered` is zero between messages. After a complete message it is
  zero if and only if the last payload came in one chunk, or none came and nothing was held before
  (`Payloads.HeldAfterMessage`; `Payloads.BufferedBetweenMessages` is an instance where it is not).
* `src/ostream.rs:331-357` heads the documentation of `with_flush` with "Panics"; the code, and the end
  of the same comment, return `Argument`.

Two promises a reader might expect do not hold either, and their exact conditions are proved.

* INCOMPLETE does not promise a valid continuation. There is one if and only if the bytes do not end
  inside a varint of a field head such that a zero byte in place of its rest would be rejected
  (`Completion.Completable`). `02 84` and `87` are INCOMPLETE and beyond rescue
  (`Completion.IncompleteIsNoPromise`).
* A write that a full buffer cut short and that is retried comes out right if and only if the room was
  the length of some of the held-back headers (`Output.RetryLaw`, `Encoder.WriteAndRetry`).
  `EndToEnd.TornHeader` is the silent corruption the source warns of.

## Model

| member | source | states |
|---|---|---|
| Leb128.ReadsBack | src/varint.rs:241-294 | the encoded form of any u64 reads back as that value and that length, whatever bytes follow |
| Leb128.Minimal | src/varint.rs:214-229 | the encoded form is the unique shortest one: any bytes that read as a value are at least as long, and equal if as short |
| Leb128.FitsTen | src/varint.rs:28-35 | every u64 fits ten digits, the tenth of them a single bit |
| Leb128.ShortIff | src/varint.rs:180-212 | a reader runs out of bytes exactly when fewer than ten are there and all of them continue |
| Leb128.Decided | src/varint.rs:67-74 | once a value or an overflow is decided, no following byte changes it |
| Swar.TerminatorAt | src/varint.rs:149-154 | the word test finds no terminator exactly when all eight bytes continue; otherwise the trailing zeros locate the first byte that does not |
| Swar.CompactPrefix | src/varint.rs:124-135 | masking with KEEP7 and compacting joins the 7-bit groups of exactly the first n bytes |
| Swar.WideRead | src/varint.rs:148-159 | for terminators in the first eight bytes the masked, compacted word is what the byte-at-a-time reader returns |
| Swar.WideLong | src/varint.rs:161-178 | with eight continuing bytes, the ninth and tenth complete, overflow or end the value as the reference reader says |
| Swar.SpreadCompact | src/varint.rs:214-221 | spreading is undone by compacting, on the low 56 bits |
| Swar.VarintLenIs | src/varint.rs:223-229 | the length computed from the bit count is the length of the minimal form |
| Swar.StoreShape | src/varint.rs:250-271 | which of the three store shapes applies is decided by the length of the minimal form, and the ninth and tenth bytes are its last digits |
| Varint.ReadVarint | src/varint.rs:67-104 | on every slice and position: value and cursor, "ran out" with the cursor unmoved, or overflow, as the byte-at-a-time reader decides |
| Varint.ReadVarintReady | src/varint.rs:106-122 | the same where ten bytes are readable, and then it never runs out |
| Varint.ReadVarintWide | src/varint.rs:137-179 | the eight-byte path agrees with the byte-at-a-time reader, overflow included |
| Varint.ReadVarintTail | src/varint.rs:181-212 | the checked loop of the last nine bytes agrees with it too, and cannot overflow |
| Varint.WriteVarintUnchecked | src/varint.rs:230-272 | the bytes stored are the minimal form, the result is its length, and nothing outside the ten reserved bytes changes |
| Varint.WriteVarintNarrow | src/varint.rs:274-294 | the same through the one-byte path |
| Varint.ZigzagRoundTrip | src/varint.rs:297-307 | decoding undoes encoding for every i64 |
| Varint.ZigzagOnto | src/varint.rs:297-307 | encoding undoes decoding for every u64, odd ones being the negatives |
| Varint.ZigzagInterleaves | src/varint.rs:297-302 | non-negatives go to 2v, negatives to 2(-v-1)+1 |
| Wire.LenRoundTrip | src/types.rs:15-26 | a length within the ceiling survives the trip through the 64-bit word and is not rejected |
| Decoder.RunAppend | src/istream.rs:386-400 | decoding a concatenation is decoding its parts one after the other |
| Decoder.HeadDecided | src/istream.rs:591-803 | a field head once decided, for or against, is not changed by what follows |
| Decoder.HeadBound | src/istream.rs:308-322 | an undecided field head has at most 29 bytes, non-minimal varints included |
| Decoder.HeadBoundAttained | src/istream.rs:312-318 | some undecided head has 29 bytes, so the carry's byte of slack is exactly one |
| Decoder.RunHead | src/istream.rs:595-620 | reading a head at once agrees with reading it byte by byte from any cut, and the deciding byte is its last |
| Decoder.RunInt | src/istream.rs:855-902 | the same for an array element that is a varint |
| Decoder.RunFloat | src/istream.rs:904-933 | the same for an element of fixed width |
| Decoder.RunPayload | src/istream.rs:935-974 | a stretch of payload delivered as one chunk is the same bytes delivered singly |
| IStream.CarryBound | src/istream.rs:308-322 | what may be held is under 30 bytes, and under ten inside an integer array |
| IStream.IStream.constructor | src/istream.rs:351-364 | a new decoder stands at the start with nothing held |
| IStream.IStream.Reset | src/istream.rs:366-373 | from any state, latched or mid-payload, back to the start |
| IStream.IStream.DeliverPayload | src/istream.rs:935-974 | hands over what the buffer holds of the payload, in one callback or in none, advancing as the automaton does, and stops only when the payload or the buffer ends |
| IStream.IStream.FixArray | src/istream.rs:904-933 | the elements the buffer holds whole, then the resume state with less than an element left over |
| IStream.IStream.IntArray | src/istream.rs:844-902 | the unchecked loop and the checked one together advance as the automaton does, rejecting what it rejects |
| IStream.IStream.ResumeItem | src/istream.rs:805-842 | an interrupted payload or array continues where it stopped |
| IStream.IStream.ParseField | src/istream.rs:595-801 | one field: advanced past, or stopped undecided at its start, or suspended, or rejected, exactly as the automaton says |
| IStream.IStream.Parse | src/istream.rs:569-803 | consumes what is decided and returns where the undecided rest starts; rejects exactly when the automaton does |
| IStream.IStream.Stash | src/istream.rs:511-524 | the tail fits the carry, so the defensive branch is dead, and the decoder stands where the automaton does |
| IStream.IStream.Latch | src/istream.rs:540-553 | only a malformed message latches |
| IStream.IStream.ResumeCarried | src/istream.rs:451-509 | stitching advances as the automaton does over the bytes taken; an item still short took the whole chunk, and the defensive branch is dead |
| IStream.IStream.Feed | src/istream.rs:375-449 | for every state and chunk, through carry stitching, payload shortcut and in-place parsing: state and events are those of the automaton run over the chunk; INVALID exactly when the bytes are rejected, and without a callback ever after, COMPLETE exactly at a message boundary, INCOMPLETE otherwise; with nothing carried, payloads wholly in the chunk come in one callback |
| Streams.ChunkInvariance | src/istream.rs:396-400 | every split of every byte string, empty chunks included, gives the state and events of the whole |
| Streams.DecodeChunks | src/istream.rs:375-449 | a decoder fed the chunks and then probed with an empty one answers INVALID, COMPLETE or INCOMPLETE as the whole is rejected, complete or neither, and logs the events of the whole |
| Streams.Decode | src/istream.rs:1000-1033 | one-shot decoding is one run of the automaton, with its verdict; in a complete message every string and blob comes in a single callback |
| Streams.PrefixMonotone | src/istream.rs:338-342 | the events of a prefix are a prefix of the events, and a rejection is final for every extension |
| Streams.NoPrefixInvalid | src/istream.rs:548-568 | no prefix of a message that decodes as complete is ever rejected |
| Completion.Completable | src/istream.rs:566-803 | for every byte string not yet rejected, some continuation makes a message of it if and only if it does not end inside a varint of a field head that a zero byte would get rejected |
| Completion.ZeroCompletes | src/varint.rs:181-212 | a zero byte completes any varint cut short, and every other completion has all its bits and the same lowest digit |
| Completion.ZeroIsBest | src/istream.rs:595-803 | if any continuation of a cut field head is accepted, so is the zero byte, and as the same kind of marker |
| Completion.DoomedStays | src/istream.rs:595-803 | nothing completes a message once a zero byte in a cut head is rejected |
| Completion.Finish | src/istream.rs:575-974 | from every other state of a run, bytes that complete the message |
| Completion.IncompleteIsNoPromise | tests/istream_tests.rs:368-425 | instances: a reserved subtype and a stray end marker, both INCOMPLETE and beyond rescue |
| Streams.FeedAll | src/istream.rs:375-449 | a new decoder fed any chunks stands where the automaton stands after the whole, with its events; the verdict after each chunk is that of the bytes so far, and once INVALID it stays INVALID |
| Streams.CarryAndResume | src/istream.rs:429-448 | whatever the chunks, carry and resume state are both set if and only if the bytes stop inside an array element or a float; a payload leaves no carry and a rejection no resume state |
| Streams.CarryBesideResume | src/istream.rs:429-448 | the smallest instance, contrary to the comment |
| Discipline.Disciplined | src/istream.rs:128-275 | on every input: each fixlen field and array is announced once and followed by its own chunks or exactly its count of elements, nothing in between; sequences nest at most 255 deep; a complete message leaves nothing open |
| Discipline.RawDisciplined | src/istream.rs:141-156 | the discipline holds of the callbacks as delivered, whatever the chunking: constant total, contiguous offsets, an empty chunk only for an empty payload |
| Discipline.StepWatched | src/istream.rs:591-803 | one byte keeps the watcher in step with the decoder |
| Payloads.PayloadAcc.Feed | src/payload.rs:80-146 | the answer and the new state for every total, offset and chunk: whole in one chunk, first of several, continued, completed, over-delivered, and a stray chunk of a completed payload, which changes nothing |
| Payloads.PayloadAcc.Reset | src/payload.rs:148-157 | forgets the payload under way |
| Payloads.FlattenWound | src/payload.rs:60-100 | the payloads of a log do not depend on how they were cut into chunks |
| Payloads.Reassembled | src/payload.rs:118-146 | from any state of the accumulator, abandoned payloads included, the payloads of a disciplined log come back once each, whole and in order |
| Payloads.EachPayloadOnce | src/payload.rs:148-157 | one accumulator behind one decoder, whatever it held before, returns exactly the payloads the bytes carry |
| Payloads.Collect | src/payload.rs:118-166 | the class driven over a decode's callbacks returns those payloads, and says what it still holds after a complete message |
| Payloads.HeldAfterMessage | src/payload.rs:159-166 | after a complete message in any chunks nothing is held if and only if the last payload came in one chunk, or none came and nothing was held before |
| Payloads.BufferedAfter | src/payload.rs:159-166 | after a completion nothing is held if and only if the payload came whole in its first chunk |
| Payloads.BufferedBetweenMessages | src/payload.rs:161-163 | a payload in two chunks that leaves four bytes held, contrary to the comment |
| Message.LazyFraming | src/ostream.rs:1053-1172 | the calls that write a tree succeed exactly when the tree is legal, and emit the plain encoding of the tree without the sequences that vanish, kept frames and their ancestors included |
| Message.PruneKeeps | src/ostream.rs:1060-1172 | what pruning keeps: every field and every kept frame, in order and with the sequences around them; and no other empty frame is left |
| Message.PruneIdle | src/ostream.rs:1060-1172 | pruning changes nothing in a tree without such empty frames |
| Message.HeldBack | src/ostream.rs:160-175 | over every run of calls the headers held back are those of the innermost open sequences, a contiguous suffix, never more than 255; that interrupted commits keep it is part of the encoder's `Valid` |
| Balance.BalancedIsTree | src/ostream.rs:1093-1172 | every run of successful calls that closes what it opened writes exactly one legal tree |
| Balance.UnclosedDepth | src/ostream.rs:1093-1172 | a sequence left open shows in the depth |
| Output.ExactFit | src/ostream.rs:586-607 | without a sink a write succeeds if and only if the bytes it owes fit, and otherwise fills the buffer to its end with a prefix of them |
| Output.SinkFit | src/ostream.rs:522-624 | with a sink, bytes that fit pass without a call of it, every call there is carries a buffer used to its end, and a failure is Argument and the death of the stream |
| Output.SurvivorsCut | src/ostream.rs:650-666 | the ids that survive a cut are those whose headers are not all there, a suffix |
| Output.WholeSurvivors | src/ostream.rs:650-666 | the number of whole headers that fit is unique, and the ids past it are those that survive |
| Output.RetryLaw | src/ostream.rs:655-666 | the retry of a cut write passes if and only if the headers not written whole and the content fit, and is then exact if and only if the room was the length of some headers; otherwise it is longer by exactly the torn prefix |
| OStream.Sink.FlushTake | src/ostream.rs:63-117 | a sink sees exactly the used bytes, may copy or keep the buffer, may scribble on what it hands back and names any offset |
| OStream.PendingRun.Push | src/ostream.rs:207-212 | appends the innermost id |
| OStream.PendingRun.Pop | src/ostream.rs:214-220 | takes the innermost id off, if there is one |
| OStream.PendingRun.DropFront | src/ostream.rs:229-247 | drops the outermost k ids and keeps the order of the rest |
| OStream.OStream.WithOffset | src/ostream.rs:289-323 | accepts exactly the offsets within the buffer, its end included |
| OStream.OStream.WithFlush | src/ostream.rs:327-370 | with a sink, accepts exactly the offsets that leave room for a byte |
| OStream.OStream.HandOver | src/ostream.rs:476-518 | one call of the sink with exactly the used bytes; nothing emitted is lost; a replacement without room for a byte is never installed and kills the stream, any other leaves room |
| OStream.OStream.DrainFull | src/ostream.rs:535-546 | a full buffer is drained to at least one byte of room, or there is no sink, or the stream is dead and its sink untouched |
| OStream.OStream.PushByte | src/ostream.rs:522-533 | one byte is emitted, or the error is that of a full buffer |
| OStream.OStream.PushRaw | src/ostream.rs:548-567 | a byte string is emitted, by bulk copy or in runs |
| OStream.OStream.PushRawSplit | src/ostream.rs:569-584 | in buffer-sized runs against any sink, and it terminates |
| OStream.OStream.Store | src/ostream.rs:598-603 | a store inside a reserved run leaves everything before it and after its ten bytes as it was |
| OStream.OStream.WriteVarint | src/ostream.rs:586-607 | the minimal form is emitted, behind a reservation or byte by byte |
| OStream.OStream.WriteVarintSplit | src/ostream.rs:609-624 | the byte-at-a-time form emits the same bytes across drains, and terminates |
| OStream.OStream.CommitPending | src/ostream.rs:644-680 | the held-back headers are emitted outermost first; exactly those that did not make it whole stay held back |
| OStream.OStream.WriteTwo | src/ostream.rs:705-722 | header and value emit the same bytes with one reservation or two split writes, and no sink is called if they fit |
| OStream.OStream.WriteFieldVarint | src/ostream.rs:682-722 | an id out of range changes nothing; otherwise held-back headers, header and value are emitted |
| OStream.OStream.WriteUnsigned | src/ostream.rs:726-730 | refused untouched or writes the field's bytes after the held-back headers |
| OStream.OStream.WriteSigned | src/ostream.rs:732-736 | the same with ZigZag |
| OStream.OStream.WriteBoolean | src/ostream.rs:738-742 | the same with 0 or 1 |
| OStream.OStream.WriteFixlen | src/ostream.rs:746-774 | refused untouched when the payload does not suit its subtype, is too long or the id is out of range; otherwise writes the field |
| OStream.OStream.WriteFixlenUnchecked | src/ostream.rs:776-825 | the same without the subtype check |
| OStream.OStream.PutFixlen | src/ostream.rs:805-824 | header, word and payload behind one reservation emit what the split form emits |
| OStream.OStream.WriteFixlenSplit | src/ostream.rs:826-851 | header and word reserved or split, then the payload |
| OStream.OStream.WriteStr | src/ostream.rs:864-876 | a string field |
| OStream.OStream.WriteBlob | src/ostream.rs:878-882 | a blob field |
| OStream.OStream.WriteFp32 | src/ostream.rs:853-857 | a 32-bit float field |
| OStream.OStream.WriteFp64 | src/ostream.rs:859-863 | a 64-bit float field |
| OStream.OStream.StoreRun | src/ostream.rs:903-912 | elements stored through a local cursor stay inside the bulk reservation and are the elements' varints |
| OStream.OStream.WriteVarintRun | src/ostream.rs:886-916 | all elements are emitted, whichever path the room picks |
| OStream.OStream.WriteVarintRunChunked | src/ostream.rs:918-949 | runs sized to the room, split elements at the ends, same bytes, and it terminates |
| OStream.OStream.WriteArrayUnsigned | src/ostream.rs:951-961 | refused untouched or writes header, count and elements |
| OStream.OStream.WriteArraySigned | src/ostream.rs:963-973 | the same with ZigZag elements |
| OStream.OStream.WriteFixlenRun | src/ostream.rs:975-1017 | the bulk copy and the element loop emit the same bytes |
| OStream.OStream.WriteArrayFloats | src/ostream.rs:1019-1049 | header, count, element word even when empty, elements |
| OStream.OStream.WriteSequenceBeginLazy | src/ostream.rs:1053-1103 | holds the header back, emits nothing, refuses a 256th level |
| OStream.OStream.DropHeld | src/ostream.rs:1126-1130 | the innermost sequence vanishes if and only if its header is held back |
| OStream.OStream.WriteSequenceEnd | src/ostream.rs:1105-1133 | drops an empty sequence or emits the end marker; refuses untouched when none is open |
| OStream.OStream.WriteSequenceEndKeep | src/ostream.rs:1135-1172 | emits the held-back headers and the marker; refuses untouched when none is open |
| OStream.OStream.Flush | src/ostream.rs:379-398 | reports what was buffered, hands exactly that over in one call, loses nothing; a dead stream answers Argument and stays as it is |
| OStream.OStream.BufferSet | src/ostream.rs:400-471 | judged before anything moves; one call of the sink if anything is buffered and none otherwise; the new buffer's reserved head is the offset given; nothing emitted is lost, and without a sink the old buffer keeps its bytes; a refused replacement at this handover leaves a live stream |
| Encoder.Perform | src/ostream.rs:682-1172 | every call is refused untouched or emits what it owes, and when it succeeds the stream is where the specification says |
| Encoder.Drive | src/ostream.rs:379-1172 | output independence; exact fit over the whole run; with a sink, only full buffers between flushes and installations, and no call while the bytes fit; the open sequences; and a dead stream: it emits nothing more and never calls its sink again, only calls that owe nothing pass, everything else answers Argument |
| Encoder.WriteAndRetry | src/ostream.rs:650-666 | the documented recovery from a full buffer: when it is needed, when it passes, what it emits, and exactly when that is right |
| RoundTrip.FieldRun | src/istream.rs:607-781 | the bytes of every acceptable field decode to exactly its callbacks |
| RoundTrip.TreeRun | src/istream.rs:575-803 | the plain encoding of a legal tree decodes to exactly the tree's callbacks and ends where it began |
| RoundTrip.PruneLegal | src/ostream.rs:1093-1172 | dropping the sequences that vanish keeps a tree legal |
| Converse.DecodedIsTree | src/istream.rs:575-974 | the converse: every byte string that decodes as complete, non-minimal words included, has exactly the callbacks of a tree within the format's bounds, and decodes as that tree's own encoding does |
| Converse.AsCalls | src/istream.rs:575-974 | bytes leading from one field boundary to another are the callbacks of a run of acceptable writer calls, depth included |
| Converse.HeadFits | src/istream.rs:596-781 | whatever a head announces is within the format's bounds: ids, lengths, counts, float widths |
| Layout.HeaderMeans | src/istream.rs:595-605 | a header cut short waits, one too wide or with an id above 2^31 - 1 is refused |
| Layout.MarkerMeans | src/istream.rs:783-798 | wire types 6 and 7 are the sequence markers |
| Layout.SecondMeans | src/istream.rs:607-740 | a second word cut short waits, one too wide is refused |
| Layout.ScalarMeans | src/istream.rs:607-615 | wire type 0 is an unsigned value, 1 a ZigZag signed one |
| Layout.FixMeans | src/istream.rs:617-705 | wire type 2 is refused exactly for lengths above 2^31 - 1, subtypes 4 to 7 and floats of a width not theirs; otherwise subtype and length are those in the word |
| Layout.IntArrayMeans | src/istream.rs:708-734 | wire types 3 and 4 are refused exactly for counts above 2^31 - 1 |
| Layout.FloatArrayMeans | src/istream.rs:736-781 | wire type 5 is refused for such counts and for any element word but 32 and 65 |
| Layout.Nesting | src/istream.rs:783-798 | a start is accepted exactly below depth 255, an end exactly above 0 |
| Layout.LenLimit | src/types.rs:15-26 | the ceiling on lengths and counts is 2^31 - 1 |
| Layout.LenBitsCounts | src/ostream.rs:802-803 | a length as a 64-bit word counts up by one |
| Layout.UnsignedLayout | src/ostream.rs:726-730 | an unsigned field is the varints of 8 id and the value |
| Layout.SignedLayout | src/ostream.rs:732-736 | a signed field is the varints of 8 id + 1 and the ZigZag value |
| Layout.FixLayout | src/ostream.rs:802-803 | a fixlen field is the varints of 8 id + 2 and 8 len + subtype, then the payload |
| Layout.UnsignedArrayLayout | src/ostream.rs:951-961 | header 8 id + 3, count, elements |
| Layout.SignedArrayLayout | src/ostream.rs:963-973 | header 8 id + 4, count, ZigZag elements |
| Layout.FloatArrayLayout | src/ostream.rs:1019-1049 | header 8 id + 5, count, element word 32 or 65, elements |
| Layout.MarkerLayout | src/ostream.rs:626-680 | a sequence start is the varint of 8 id + 6, its end the byte 07 |
| Layout.Acceptance | src/ostream.rs:699-1172 | the arguments the writers accept, in numbers |
| Layout.SmallMessages | src/types.rs:53-90 | the bytes and callbacks of one-field messages of five kinds |
| Layout.IdPastTheEnd | src/istream.rs:602-604 | a header with id 2^31 is refused |
| EndToEnd.EveryRunArrives | src/ostream.rs:699-1172 | the bytes of every balanced run of successful calls, cut anyhow, decode as complete to the callbacks and payloads of the pruned message |
| EndToEnd.Transmit | src/ostream.rs:251-266 | the same of the real encoder with any buffers, sink, flushes and installations in between |
| EndToEnd.Receive | src/istream.rs:375-449 | the real decoder and accumulator: the three verdicts, callbacks, discipline and payloads are functions of the bytes alone |
| EndToEnd.TornHeader | src/ostream.rs:655-664 | id 16 torn and retried is a well-formed header of id 2144 |
| Slots.CheckIndex | src/seq.rs:285-310 | InvalidMsg exactly at or past the schema's bound, LimitExceeded exactly at or past a cap, Argument exactly for a cap of zero |
| Slots.CheckLen | src/seq.rs:312-328 | the same past the bound, for a length |
| Slots.LengthsAndIndices | src/seq.rs:285-329 | a length is in bounds exactly when every index below it is, with the verdict of its last index |
| Slots.SeqVec.GrowTo | src/seq.rs:542-553 | defaults up to the length, or a refusal that grew nothing |
| Slots.SeqVec.Truncate | src/seq.rs:564-567 | shortens, and only shortens |
| Slots.ReserveElem | src/seq.rs:331-352 | each error exactly when its condition holds, a full container's among them; on success the container padded with defaults, else untouched |
| Slots.PlaceElem | src/seq.rs:354-370 | the same with the value placed |
| Slots.ReserveRow | src/seq.rs:372-391 | the same with the row emptied |
| Slots.ReuseSlot | src/seq.rs:474-532 | each error exactly when its condition holds; live count and every slot after all three branches; an error changes nothing |
| Slots.ReuseElem | src/seq.rs:393-424 | the merging form |
| Slots.ReuseLeaf | src/seq.rs:426-445 | the replacing form |
| Slots.ReuseRow | src/seq.rs:447-472 | the replacing form with clearing as the reset |
| Slots.ReuseMirrors | src/seq.rs:111-135 | one reservation keeps the live part of a reused destination equal to the fresh one |
| Slots.ResetMustRestore | src/seq.rs:400-405 | reuse agrees with fresh on every destination if and only if the reset restores the default |
| Slots.RowsNeedEmptyDefault | src/seq.rs:451-456 | rows may be reused if and only if their default is empty |
| Slots.DecodeFresh | src/seq.rs:331-391 | a whole decode into an empty destination, errors included |
| Slots.LastWrapper | src/seq.rs:119-120 | a repeated wrapper starts over: only the deliveries since the last one decide the slots |
| Slots.DecodeFreshRows | src/seq.rs:372-391 | the same for a matrix, through the row reservation |
| Slots.DecodeReused | src/seq.rs:111-150 | a whole decode into a destination with arbitrary old contents gives the same verdicts and slots, for growable and fixed containers |
| Slots.DecodeReusedRows | src/seq.rs:447-472 | a matrix decoded into whatever an earlier decode left gives the verdicts and rows of an empty destination |

## Left out

- Float arithmetic and `emit_fixlen_value` (src/istream.rs:984-998): floats are their wire bytes; the bulk float copy is a byte copy.
- UTF-8 validation: `WriteFixlen` takes the verdict of the validation as a parameter; `Encoder.Put` passes a positive one.
- Generic element types and their widening: array elements are already 64 bits wide, float elements already 4 or 8 bytes.
- Raw pointers, `MaybeUninit` and lifetimes: buffers are arrays with proved bounds; a pointer plus a cursor is a slice plus a position.
- Parse: the arms of the field parser's `match` are methods of their own (`ParseScalar`, `ParseFixlen` and so on), and a few steps the encoder's writers share are too (`Settle`, `WriteTwo`, `WriteFrameEnd`).
- Heap capacity, growth and allocation counts, and the internals of the `heapless` containers: one container with an optional capacity stands for all three.
- OStream.Sink.FlushTake: a sink starts out without units, and hands back the same buffer or a new one with any contents; a buffer it kept earlier and returns is such a new one, since nobody else can reach it by then, but the model does not identify the two. What a sink does with the bytes is not modelled.
- The visitor is a log of callbacks: a visitor that ends the decode, or decodes re-entrantly, does not exist in the source either.
- `src/float_bits.rs`, `src/lib.rs`, the version constant, benchmarks and vector loading: easy members, or no behaviour of the codec.
- Generated code around wrapper arrays: only the slot operations and their protocol are modelled, with the write to a slot as a function.
