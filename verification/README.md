# png-split-stream, modelled in Dafny

A model of `PNGSplitStream`. It is a streaming splitter that cuts a byte stream of concatenated PNG
images into one buffer per image. It reports the image format, the `tEXt` metadata and the APNG
frame descriptors as it goes.

The splitter is a byte-level state machine. It has four phases:

1. it waits for the 8-byte PNG signature;
2. it reads an 8-byte chunk header: a big-endian length and a four-byte tag;
3. it reads the chunk body through a handler chosen by the tag;
4. it discards the 4-byte CRC.

When the CRC of an `IEND` chunk has been consumed, the consumed prefix of the image accumulator is
emitted as one image, and the machine waits for the next signature.

The modules follow that structure:

- `Options`, `Bytes`, `Png`: the option type, big-endian integers, ASCII decoding, and the PNG
  tables. The tables are the colour-type table, the pixel size, the APNG `acTL` and `fcTL` fields,
  and the `tEXt` keyword/value split.
- `Machine`: the parser state `Splitter` and the fixed-size signature, header and CRC steps. It also
  holds the per-tag handlers with their dispatch table, and `Settle`. `Settle` applies what a handler
  took to the chunk cursor. A handler returns `Took(count, state, events)` or `Refused(state, fault)`.
- `Driver`: one turn of the driver loop (`Step`), the loop itself (`Run`), one write (`Feed`), and a
  sequence of writes (`FeedAll`). The loop stops at the first turn that changes nothing; its
  termination measure is the buffered length, then a rank of the phase.
- `StepFacts`, `ChunkFacts`, `HandlerFacts`: what each turn and each handler does.
- `Invariants`: the accounting invariant. The accumulator is always the consumed prefix followed by
  the unconsumed buffer, and no byte is lost or invented: the emitted images followed by the
  accumulator are exactly the input.
- `Publication`: the format and the metadata are published at most once per splitter, just before
  its first image data.
- `Streaming`: where the input is split into writes does not matter. `FeedAll` over any list of
  writes equals one `Feed` of their concatenation, for events and final state alike.
- `Splitting`: the splitter's headline promise. Well-formed PNG files written back to back, however
  the bytes are divided into writes, come out as exactly those files, one image each, in order.
- `Findings`: three handlers modelled exactly as the source writes them (the CRC turn, `IHDR` and
  `fdAT`), beside the corrected versions that the rest of the model uses.

Errors (`emit('error')`) become the absorbing phase `Failed(fault)` together with an `ErrorOut` event.
Every other emission is an event in a list, in order:

- `ImageOut` for `push`;
- `FormatOut` and `MetaOut` for the format and metadata;
- `FrameOut` for `fcTL`.

Per-image state is not reset: only `imageLength` and the phase are reset when an image is emitted.
`sawIDAT`, the format, the metadata and the palette persist across images, as in the source.

## Model

| member | source | states |
|---|---|---|
| Bytes.U32OfBE32 | index.js:110 | reading a big-endian 32-bit field inverts writing one |
| Bytes.BE32OfU32 | index.js:110 | the four bytes of a length field are recovered from the value read from them |
| Bytes.AsciiOfAsciiBytes | index.js:111 | decoding the bytes of a 7-bit tag gives the tag back |
| Bytes.AsciiIgnoresHighBit | index.js:111 | bytes that agree in their low seven bits decode to the same tag |
| Png.ColorModelMatchesFlags | index.js:191-219 | the colour-type table accepts exactly the codes whose palette, colour and alpha bits the PNG standard allows (0, 2, 3, 4, 6). The sample count and colour space of each accepted code agree with a definition from those bits, including indexed-or-rgb for code 3 |
| Png.PixelBytesIsCeiling | index.js:221-222 | for every permitted colour type and depth, the source's pixel-byte formula gives the least whole number of bytes that holds a pixel |
| Png.DecodeFrameOfEncode | index.js:313-325 | decoding an `fcTL` body recovers every encoded field; a zero delay denominator becomes 100 |
| Png.FrameOfPrefix | index.js:313-325 | a frame descriptor depends only on the first 26 bytes of the body |
| Png.FirstZero | index.js:273-279 | the key/value separator is the first zero byte, with no zero before it; it is absent exactly when there is no zero |
| Png.SplitTextOfEncode | index.js:281-285 | a `tEXt` body written as keyword, zero, value splits back into that keyword and value |
| Png.SplitTextNeedsZero | index.js:273-285 | a `tEXt` body yields an entry exactly when it contains a zero byte |
| Machine.ConsumeKeepsAccounted | index.js:143-145 | consuming k buffered bytes and adding k to `imageLength` keeps the accumulator equal to the consumed prefix plus the buffer |
| Machine.InvokeOk | index.js:134-145 | every handler of the table only takes bytes from the front of the buffer and counts them into `imageLength` and `consumed`. It keeps the phase and the cursor, emits no image, and refuses without consuming. A handler that takes nothing and changes nothing emits nothing |
| Machine.IdatOk | index.js:335-345 | the first image data emits exactly one format event, followed by the metadata, and sets `sawIDAT` |
| Machine.FdatOk | index.js:349-362 | dropping the sequence number takes four bytes off the front and counts them into the image and the cursor |
| Driver.StepProgress | index.js:53-80 | every turn that changes the state consumes input or lowers the phase rank. A turn that changes nothing emits nothing; this is where the loop stops |
| Driver.SettleProgress | index.js:142-156 | settling a handler's outcome never grows the buffer, and either consumes, finishes the chunk, fails, or leaves the state unchanged |
| StepFacts.SignatureTurn | index.js:90-103 | with fewer than 8 bytes nothing changes; with the PNG signature, exactly 8 bytes are consumed and the header phase follows; otherwise the splitter fails with an invalid-signature error and consumes nothing |
| StepFacts.HeaderTurn | index.js:105-118 | with fewer than 8 bytes only `lastChunk` is refreshed. Otherwise the length is the big-endian value of bytes 0-3 and the tag is the ASCII of bytes 4-7. `consumed` becomes 0, 8 bytes are consumed, the body phase follows, and `lastChunk` is the new tag; nothing else changes |
| StepFacts.CrcTurnConsumesFour | index.js:164-173 | with fewer than 4 bytes nothing changes; otherwise exactly 4 bytes are discarded unchecked and, after any chunk but `IEND`, the header phase follows |
| StepFacts.ImageSplit | index.js:69-77 | a turn emits an image if and only if it consumes the CRC of an `IEND` chunk. The image is the consumed prefix plus that CRC, starts with the signature, and is removed from the accumulator; `imageLength` becomes 0 and the signature phase follows |
| StepFacts.EmitAtIendCrc | index.js:69-77 | the emitted image is exactly the first `imageLength` accumulated bytes with the CRC, and what remains is the unconsumed input |
| StepFacts.NoImageOutsideCrc | index.js:53-80 | no other turn emits an image |
| ChunkFacts.DispatchTable | index.js:122-136 | each named tag selects its own handler, and a handler is selected only by its own tag |
| ChunkFacts.UnknownTagsAreSkipped | index.js:137-139 | every other tag, `IEND` included, is skipped |
| ChunkFacts.TakesAvailable | index.js:140-156 | a handler that takes min(buffered, chunkSize - consumed) bytes either finishes the body, resetting the cursor (no tag, size 0, consumed 0) before the CRC phase, or stays in the body having taken everything buffered |
| ChunkFacts.SkipTurn | index.js:137-156 | an unknown tag's body is skipped min(buffered, remaining) bytes at a time, emitting nothing |
| ChunkFacts.IdatTurn | index.js:335-345 | `IDAT` takes min(buffered, remaining) bytes; its first invocation in a splitter emits the format, then the metadata, and later ones emit nothing |
| ChunkFacts.FdatWaits | index.js:350-354 | at the start of a non-empty `fdAT`, fewer than 4 buffered bytes change nothing |
| ChunkFacts.FdatDropsNumber | index.js:349-362 | at the start of a non-empty `fdAT` with 4 bytes buffered, the sequence number is dropped (consumed becomes 4, `imageLength` grows by 4) and the rest is read as `IDAT` |
| ChunkFacts.FdatContinues | index.js:349-362 | past its start, an `fdAT` body is read as `IDAT` |
| ChunkFacts.ShortFdatOverruns | index.js:349-362 | an `fdAT` declared shorter than its sequence number fails with a bad chunk size once the number is dropped |
| ChunkFacts.FdatEmpty | index.js:349-355 | corrected behaviour of the second finding below: an `fdAT` declared empty fails with a bad chunk size at once, consuming nothing, whatever is buffered |
| HandlerFacts.WaitSettles | index.js:140-156 | a handler that takes nothing leaves a body that is not finished unchanged |
| HandlerFacts.WaitsForWholeBody | index.js:232-235 | `PLTE`, `tRNS`, `tEXt`, `acTL` and `fcTL` change nothing until their whole body is buffered |
| HandlerFacts.SettleFixed | index.js:140-156 | taking more than the declared body fails with a bad chunk size after the handler's own events; taking it exactly moves to the CRC phase |
| HandlerFacts.IhdrEmpty | index.js:176-180 | corrected behaviour of the second finding below: an image header declared empty fails with a bad chunk size at once, consuming nothing, whatever is buffered |
| HandlerFacts.IhdrWaits | index.js:177-180 | an image header waits, unchanged, until 13 bytes are buffered |
| HandlerFacts.IhdrRejects | index.js:217-218 | an unknown colour type fails with that code and consumes nothing |
| HandlerFacts.IhdrAccepts | index.js:182-222 | an accepted header records width and height (big-endian), the colour space, and the pixel size, and consumes 13 bytes |
| HandlerFacts.IhdrCompletes | index.js:224-227 | an accepted header always takes 13 bytes: it fails with a bad chunk size when the body is shorter, and completes the chunk when it is exactly 13 |
| HandlerFacts.PlteTurn | index.js:231-243 | the whole body becomes the palette, reported in the format only when the `indexed` option is set |
| HandlerFacts.TrnsTurn | index.js:246-263 | for an indexed header the body becomes the alpha palette (option set) or turns the colour space to rgba (option unset); for any other image it is skipped |
| HandlerFacts.TextTurn | index.js:266-289 | a keyword/value body records the value under the keyword and leaves every other entry alone; a later entry for the same key wins; the keyword `__proto__` stores nothing, as a plain object assignment does |
| HandlerFacts.TextWithoutZero | index.js:281-288 | a body without a zero byte leaves the metadata unchanged |
| HandlerFacts.ActlTurn | index.js:292-304 | the image becomes animated with the frame count read from the body and a loop count that is infinite exactly when the field is 0; the whole declared body is consumed, however long |
| HandlerFacts.ShortAnimationChunkFails | index.js:299-325 | an `acTL` or `fcTL` declared shorter than its fields fails, once the declared body is buffered |
| HandlerFacts.FctlTurn | index.js:307-332 | the body is emitted as one frame event with the encoded geometry, delay (denominator 0 read as 100) and operations; the format and metadata are kept; the whole declared body is consumed, however long |
| Invariants.InitGood | index.js:21-45 | a fresh splitter satisfies the invariant |
| Invariants.AppendKeepsGood | index.js:85-86 | appending the same bytes to the buffer and the accumulator keeps the invariant |
| Invariants.SignatureKeepsGood | index.js:90-103 | the signature turn keeps the invariant |
| Invariants.CrcKeepsGood | index.js:69-77 | the CRC turn, with or without an emission, keeps the invariant |
| Invariants.SettleKeepsGood | index.js:140-156 | settling any handler outcome keeps the invariant |
| Invariants.WholeBodyAllOrNothing | index.js:231-332 | a whole-body handler takes nothing or exactly the declared body |
| Invariants.StepKeepsGood | index.js:53-80 | every turn keeps the accounting invariant |
| Invariants.RunKeepsGood | index.js:53-80 | the whole loop keeps the invariant |
| Invariants.FeedKeepsGood | index.js:85-87 | after every write, the accumulator length is `imageLength` plus the buffered length |
| Invariants.FeedAllKeepsGood | index.js:49-88 | the invariant holds after any sequence of writes |
| Invariants.StepConserves | index.js:69-77 | a turn neither loses nor invents bytes: emitted images followed by the accumulator equal the accumulator before |
| Invariants.SettleConserves | index.js:140-156 | a chunk-body turn emits no image and keeps the accumulator |
| Invariants.RunConserves | index.js:53-80 | the loop neither loses nor invents bytes |
| Invariants.FeedConserves | index.js:85-87 | after one write, the emitted images followed by the accumulator are the old accumulator followed by the write |
| Invariants.FeedAllConserves | test/decoder.js:15-17 | over any writes, the images come out in input order and, followed by the accumulator, are exactly the input |
| Publication.SettlePublishes | index.js:335-340 | a handler outcome publishes the format once exactly when it sets `sawIDAT`, and then first, followed by the metadata |
| Publication.StepPublishes | index.js:335-340 | one turn publishes the format at most once, exactly when it sets `sawIDAT`, format before metadata before anything else; `sawIDAT` is never cleared |
| Publication.RunPublishes | index.js:335-340 | a whole loop publishes the format once exactly when it sets `sawIDAT`, never when it was already set |
| Publication.FeedAllPublishes | index.js:335-340 | over any writes, the same holds |
| Publication.FormatAtMostOnce | index.js:36 | a splitter publishes the format at most once in its whole life, and once exactly when it has seen image data |
| Streaming.SignatureCommutes | index.js:90-103 | once 8 bytes are buffered, extra input does not change the signature turn |
| Streaming.HeaderCommutes | index.js:105-118 | once 8 bytes are buffered, extra input does not change the header turn |
| Streaming.CrcCommutes | index.js:164-173 | once 4 bytes are buffered, extra input does not change the CRC turn |
| Streaming.IhdrAppend | index.js:176-228 | once the header is buffered or the body is empty, extra input does not change the header handler |
| Streaming.PlteAppend | index.js:231-243 | once the body is buffered, extra input does not change the palette handler |
| Streaming.WholeCommutes | index.js:231-332 | once its whole body is buffered, extra input does not change a whole-body turn |
| Streaming.IdatStepAppend | index.js:335-346 | with extra input an `IDAT` turn does what it did, or what it and the following turn do together |
| Streaming.StepAppend | index.js:53-80 | a turn that makes progress, given extra input, either does the same or does what two progressing turns do |
| Streaming.RunRests | index.js:53-80 | the loop stops at a resting state: running again changes nothing |
| Streaming.RunAppend | index.js:53-80 | running with extra input equals running first and then feeding the extra input |
| Streaming.FeedSplit | index.js:49-88 | one write of `a + b` equals a write of `a` followed by a write of `b` |
| Streaming.ChunkingIrrelevant | index.js:49-88 | from any resting state satisfying the invariant, any sequence of writes equals one write of their concatenation |
| Streaming.SplitAnywhere | index.js:49-88 | a fresh splitter gives the same events and final state however the input is split into writes |
| Splitting.HandlerFinishes | index.js:176-364 | with the whole body buffered, a handler finishes it in one turn exactly when the body is one it accepts: an image header of exactly 13 bytes with a permitted colour type, an `acTL` of at least 8 bytes, an `fcTL` of at least 26, an `fdAT` of at least 4, any body for other tags; it then reports only format, metadata and frame events |
| Splitting.BodyTurn | index.js:120-160 | a fully buffered, accepted body is consumed into the image in one turn and the CRC is awaited next, with the tag still remembered |
| Splitting.HeaderReads | index.js:105-118 | a chunk's length field is read back as the body length and its tag as the decoded tag; the eight header bytes join the image |
| Splitting.HeaderAndBody | index.js:105-160 | a readable chunk's header and body are consumed in two turns, ending at its CRC with the accumulator still the consumed prefix followed by the buffer |
| Splitting.ChunkRuns | index.js:164-174 | a readable chunk other than `IEND` is consumed whole, CRC included, with no image emitted, and the next header is awaited |
| Splitting.LastChunkRuns | index.js:69-77 | consuming the `IEND` CRC emits the scanned prefix through that CRC as one image and leaves only the following input |
| Splitting.ChunksRun | index.js:60-78 | the chunks of one file, up to the end of its `IEND` CRC, emit exactly one image, holding the prefix and every chunk |
| Splitting.FileRuns | index.js:90-103 | from a signature boundary, one well-formed file is emitted as exactly its own bytes, and the next signature is awaited |
| Splitting.FilesRun | index.js:49-88 | well-formed files back to back are emitted one image per file, in order, with no error |
| Splitting.SplitsEveryFile | index.js:49-88 | when the writes to a fresh splitter add up to well-formed PNG files back to back, the emitted images are exactly those files, in order; no error is reported; the splitter ends awaiting a signature with nothing buffered or held |
| Findings.AsWrittenDropsCrc | index.js:69-77 | as written, an `IEND` chunk with only part of its CRC buffered is emitted without the CRC, and the CRC bytes remain as the start of the next signature |
| Findings.CorrectedKeepsCrc | index.js:69-77 | corrected, the image is emitted only with its four CRC bytes, which end it |
| Findings.EmptyIhdrAsWritten | index.js:176-180 | as written, an empty image header completes with fewer than 13 bytes buffered and fails with 13 or more |
| Findings.EmptyIhdrSplitMatters | index.js:176-180 | as written, the same empty image header ends failed or in the CRC phase depending on the buffered length alone |
| Findings.EmptyFdatAsWritten | index.js:350-355 | as written, an empty `fdAT` completes with fewer than 4 bytes buffered and fails with a bad chunk size with 4 or more |
| Findings.EmptyBodiesCorrected | index.js:176-180 | corrected, an empty image header or `fdAT` fails with a bad chunk size at once, whatever is buffered, so the split no longer matters |

## Left out

- Input that is not a sequence of well-formed PNG files has no end-to-end statement beyond byte conservation (`Invariants.FeedAllConserves`) and the per-turn lemmas. A chunk the handlers do not accept leaves the splitter failed or waiting, as described row by row above.
- Node stream plumbing is not modelled: `util.inherits`, `Transform`, `push`, `_flush`, the `done` callbacks, and the `after`/`called` re-entrancy guard. A handler is a pure function that returns what it took and what it emitted.
- Driver.Run: stops at the first turn that changes nothing. In the source, a fixed-size step that finds too few bytes leaves the loop spinning, and a waiting handler re-enters through its callback without bound. This is the one intended deviation.
- Driver.Step: a splitter that reported an error stays in `Failed`, taking no further input. What the source does after `emit('error')` differs by path, and with no `'error'` listener `emit` throws. After a bad signature (index.js:95-96) the loop keeps running and re-emits the error on every turn. After a bad chunk size (index.js:147-148) `done` is never called, so the stream stalls. After an invalid colour type (index.js:217-218) the return value of `emit` is taken as a count, so one byte is consumed, and `done` is never called either.
- `bl` and `buffer-equal` are modelled as sequence slicing and equality. Their slices clamp to the available length, and so does `EmitImage`.
- The CRC is never checked, as in the source.
- HandlerFacts.ShortAnimationChunkFails: states the modelled `FieldsPastChunk` failure, not the source's behaviour. The source reads an `acTL` shorter than 8 bytes or an `fcTL` shorter than 26 bytes past the chunk into the following bytes, or throws when too few are buffered.
- Machine.ReadACTL: an `acTL` shorter than 8 bytes fails with `FieldsPastChunk` instead of reading the bytes after the chunk, for the reason given on the line above.
- Machine.ReadFCTL: an `fcTL` shorter than 26 bytes fails with `FieldsPastChunk` instead of reading the bytes after the chunk, for the same reason.
- Machine.ReadIHDR: an image header declared empty fails with a bad chunk size at once. This is the correction of the second finding below. The source's own behaviour depends on how many bytes happen to be buffered: it either completes the chunk unread or fails.
- Machine.ReadFDAT: an `fdAT` declared empty fails with a bad chunk size at once, for the same reason as `IHDR`.
- Machine.ReadIDAT: the `FormatOut` and `MetaOut` events carry copies of the format and metadata as they stand at the first image data. The source emits its live `format` and `meta` objects (index.js:337-338), so a listener that keeps them later sees changes made by the chunks that follow, including those of later images.
- The `fcTL` delay is kept as numerator and effective denominator, not as the floating-point `delayNum / delayDen * 1000`. The loop count 0 is kept as `Infinite`, not as JavaScript `Infinity`.
- The handler is looked up with `this['_read' + tag]`. The model uses a closed table of the eight named handlers, so tags that happen to name other methods are treated as unknown and skipped.
- The raw header fields (compression, filter and interlace methods) are stored but not interpreted, as in the source.
- The fixtures and stream pipes in test/decoder.js are not modelled. Only the order and completeness of the split images are stated, for arbitrary input.

## Findings

| source | as written | input that shows it | evidently intended | confidence | as-written member | corrected member |
|---|---|---|---|---|---|---|
| index.js:69-77 | after the CRC turn, the image is emitted whenever the last chunk was `IEND`, even when `_readCRC` found fewer than 4 bytes and consumed nothing | a complete image whose `IEND` CRC arrives split across writes, e.g. the last write ends after the first CRC byte | emit the image only once the 4 CRC bytes are consumed, so that every image ends with its CRC | not executed | Findings.CrcTurnAsWritten, Findings.AsWrittenDropsCrc | Machine.CrcTurn, Findings.CorrectedKeepsCrc |
| index.js:176-180, 349-355 | `IHDR` and `fdAT` read their fixed fields whenever 13 (resp. 4) bytes are buffered, even for a body declared empty | a chunk header declaring an empty `IHDR` followed by its CRC and the next chunk: split after 12 more bytes it completes, delivered in one write it fails with a bad chunk size | a body declared empty fails with a bad chunk size at once, as every other too-short declared length does, whatever is buffered, so the outcome does not depend on how the input was split | not executed | Findings.ReadIHDRAsWritten, Findings.ReadFDATAsWritten, Findings.EmptyIhdrSplitMatters, Findings.EmptyFdatAsWritten | Machine.ReadIHDR, Machine.ReadFDAT, Findings.EmptyBodiesCorrected, Streaming.SplitAnywhere |
