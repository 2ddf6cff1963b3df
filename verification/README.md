# Verified models of the LZMA decoder, the thread scheduler, and their neighbours

This project models, in Dafny 4.11, the parts of the repository in which a small slip would
corrupt data silently, and proves what those parts are for.

**LZMA decoder** (`Sources/LZMA/LzmaDec.c`). The class `LzmaDec.LzmaDec` has the fields of
`CLzmaDec` and follows its functions branch by branch: one flat probability array, a circular
dictionary, a carry buffer of twenty bytes, and the range coder's registers. Its contracts tie it
to a reference decoder that knows none of these tricks:

- `Grammar` writes the LZMA specification's symbol decoder (sections "Range Decoder" and "The main
  loop of decoder" of the LZMA specification) as a tree of bit decisions over named probability
  cells, and `SymbolDecoder.Decode` runs such a tree, refilling after every bit. `Layout` places
  the named cells in the flat array.
- `Stream` gives one step and a whole run of the decoder over an unbounded history of output
  (`Step`, `Advance`), and `Calls` what one API call answers (`Call`).
- `Lookahead` holds the counting argument for twenty bytes and the twin that only looks ahead;
  `Intervals` reads range decoding as interval arithmetic; `FirstSymbol` is about `kBadRepCode`;
  `Window` relates the circular buffer to the history; `ContextIndex` the masks and shifts to the
  contexts they select; `BitDecoding` and `BitPeeking` are the macros of the two decoders.
- `Spelling` is a table of codes from the side of an encoder, against which the grammar is proved, and
  `Meaning` an interpretation of symbols over lists, against which the reference decoder is.
- `Encoding`, `Paths` and `Writing` invert decoding: they build a stream for any message, which shows
  that the decoder can be led to anything the format can say; `Corruption` builds one that leads it to
  a symbol the specification calls corrupted.

The main results are `LzmaDec.LzmaDec.DecodeToDic` and `DecodeToBuf` (every call answers what the
reference decoder answers on everything received, for all inputs, limits, splits and finish
modes, and on corrupt input exactly the output before the refused symbol is written), and
`Calls.ChunkingIndependence` with `LzmaDec.LzmaDec.DecodeFeeds` and `DecodeBuffers` (splitting input
and output in any way changes nothing, but for a request for nothing after the end marker), and
`Writing.TextHasStream` (every text is decoded from some stream).
`SZ_ERROR_FAIL` is shown unreachable inside `DecodeCarry`, the absence of bounds checks in the fast
decoder is justified by `Lookahead.SymbolNeedsTwenty`, and the omitted check for a rep match on an
empty window by `FirstSymbol.FirstSymbolRep`.

**Threads and events** (`Sources/Win32/wg_threading.c`, parts of `Sources/Core/wg_engine.c`).
`Threads.Scheduler` and `Engine.Vm` are the scheduler and the engine around it, updated in place;
each method is proved against a function on snapshots. `Engine.Run` composes these functions into
runs of arbitrary guest behaviour, and `ThreadRuns` and `EventRuns` prove what holds over every
run: isolation, unique names and disjoint stacks, bounded waiting, no lost wake-up, and the
conservation of signals. `GuestCalls` tells what a guest can rely on from its calls, in terms of threads
and flags alone: how a wait comes back, where a new thread starts, what can rouse a thread. A wake-up *can* be lost when a thread waits on a handle before the event
exists; `EventRuns.ForgottenExactly` says that this is the only way, and
`EventRuns.ForgottenWaiter` gives a run.

**Message ring, relocation, lines.** `MessageRing` is the ring of posted thread messages, from whose
middle entries are removed. `Relocation` is the loop that patches a library to its load address,
over `Patching` (what a pass over a list of targets does to memory) and `Reversal` (when it can be
undone); `RelocTables` proves it against tables as a linker writes them. `LineDrawing` is the Bresenham loop in 32-bit integers. Some properties that one might
expect of these fail, and their conditions are proved: relocation cannot be undone when targets
overlap in part (`Reversal.ReversibleExactly`), the error term of a line can overflow
(`LineDrawing.OverflowExactly`), a section can be given data that the file does not hold
(`Relocation.WholeExactly`), and a relocation table can lead the loop outside the file
(`Relocation.EndsExactly`, with `WrapStrays` and `ShortStrays`).

Where the code and its comments differ the code is followed. The comment in `LzmaDec.h:48-49` counts 22
adaptive and 26 direct bits; a match through the position tree has 23 adaptive bits and none direct, and
truncation makes every bit cost a little more than the ratio it names. `SymbolMetered` covers both: six
credits for an adaptive bit, one for a direct bit, 158 in all, each a factor of 2.016.

Each file is one module named after its subject (`Context.dfy` holds `ContextIndex`, `Props.dfy`
holds `PropsCodec`). `dafny verify dfyconfig.toml` checks the project.

## Model

| member | source | states |
|---|---|---|
| RangeCoder.AdaptiveSplit | Sources/LZMA/LzmaDec.c:20-27 | an adaptive bit splits a normalised range into two non-empty parts, either of which one refill makes normal again, and `code < range` holds after it exactly if it held before |
| RangeCoder.DirectSplit | Sources/LZMA/LzmaDec.c:475-484 | the branch-free direct bit is the comparison of the code with half the range, which a one takes away from the code; `code < range` is lost exactly when the range is odd and the code is one below it |
| RangeCoder.NormalizeRestores | Sources/LZMA/LzmaDec.c:20-20 | one refill restores `range >= 2^24`, and keeps `code < range` |
| RangeCoder.Bound | Sources/LZMA/LzmaDec.c:22-22 | the product of range and probability stays within the range, hence within 32 bits |
| RangeCoder.SplitExactly | Sources/LZMA/LzmaDec.c:22-24 | a zero takes exactly the probability's share of the whole 2048ths of the range, and a one what is left above it, with the code counted from there |
| RangeCoder.LearnExactly | Sources/LZMA/LzmaDec.c:23-24 | the new probability is the one number that lies a thirty-second of the way, rounded down, nearer to its end of the scale |
| RangeCoder.OnesRest | Sources/LZMA/LzmaDec.c:24-24 | from every probability repeated ones come to rest at 31, and only there |
| RangeCoder.ZerosRest | Sources/LZMA/LzmaDec.c:23-23 | and repeated zeros at 2017, and only there |
| RangeCoder.NormalizeExactly | Sources/LZMA/LzmaDec.c:20-20 | a byte is shifted into the low end of the code, in 32 bits, exactly when the range is below 2^24 |
| Layout.AddrInTable | Sources/LZMA/LzmaDec.c:85-146 | every named cell of the specification lies in the array, inside its own table, with the low and middle length trees interleaved |
| Layout.AddrInjective | Sources/LZMA/LzmaDec.c:85-146 | no two cells of the specification share a place in the flat array |
| Layout.HoldsUpdate | Sources/LZMA/LzmaDec.c:23-24 | writing one probability in place changes one cell of the model and no other |
| Layout.HoldsFresh | Sources/LZMA/LzmaDec.c:904-908 | an array filled with 1024 is the model of a new stream |
| SymbolDecoder.SymbolMetered | Sources/LZMA/LzmaDec.h:48-51 | on no path through a symbol is a cell used twice, and no path costs more than 158 credits (six for an adaptive bit, one for a direct bit) |
| Lookahead.PeekAgrees | Sources/LZMA/LzmaDec.c:67-82 | decoding that never updates a probability sees the same bits as decoding that does, as long as no cell repeats |
| Lookahead.PeekSymbol | Sources/LZMA/LzmaDec.c:660-850 | so for a whole symbol the twin without updates stops, and answers, exactly as the decoder |
| Lookahead.DecodeMore | Sources/LZMA/LzmaDec.c:942-973 | a symbol that decodes from some bytes decodes alike when more follow, and leaves those |
| Lookahead.DecodeCovered | Sources/LZMA/LzmaDec.h:48-51 | if the bytes at hand outweigh what the remaining path can take from the range, decoding gets to its end and uses no more than those bytes |
| Lookahead.SymbolNeedsTwenty | Sources/LZMA/LzmaDec.h:48-51 | from a normalised state any twenty bytes suffice for one symbol with its final normalisation, and it takes at most twenty |
| Lookahead.PendingNeedsTwentyOne | Sources/LZMA/LzmaDec.c:196-201 | with one normalisation pending twenty-one suffice |
| FirstSymbol.FirstSymbolRep | Sources/LZMA/LzmaDec.c:617-637 | for a freshly initialised coder the first symbol is a rep if and only if `code >= kBadRepCode` |
| Intervals.SlotNested | Sources/LZMA/LzmaDec.c:20-27 | the code values that lead along a path of bits form a non-empty interval inside the range |
| Intervals.FollowsByInterval | Sources/LZMA/LzmaDec.c:20-27 | the decoder takes a given path of bits, uncorrupted, if and only if the number formed by its code and the following bytes lies in the interval of that path |
| Intervals.PathsDisjoint | Sources/LZMA/LzmaDec.c:20-27 | different paths of equal length own disjoint intervals |
| Intervals.CorruptionExact | Sources/LZMA/LzmaDec.c:472-494 | a symbol that starts with `code < range` is one the specification calls corrupted if and only if some direct bit meets an odd range with the code at its top; otherwise `code < range` again at its end |
| Intervals.OddTopMet | Sources/LZMA/LzmaDec.c:472-494 | that happens: a state of the coder in which the first direct bit of any long distance is corrupted |
| Corruption.CorruptedStream | Sources/LZMA/LzmaDec.c:472-494 | a stream that brings a new decoder there, over a literal and two matches |
| Stream.StepSound | Sources/LZMA/LzmaDec.c:514-523 | a decoded symbol keeps all four distances within the history and the dictionary, and the range normal |
| Stream.AdvanceSound | Sources/LZMA/LzmaDec.c:918-1013 | the same over any run from any sound state, one that ends in a refusal included; the history is only appended to and never passes the limit |
| Stream.AdvanceResumes | Sources/LZMA/LzmaDec.c:918-1013 | stopping at a smaller limit or for want of input, and going on with a larger limit and more input, ends where the uninterrupted run ends |
| Stream.AdvanceGrows | Sources/LZMA/LzmaDec.c:968-970 | a run below its limit produces output, comes to the end marker, is refused, or stops at once for want of input |
| Window.ShowsPush | Sources/LZMA/LzmaDec.c:303-303 | writing at the position appends one byte to the history that the circular buffer shows |
| Window.ShowsRewind | Sources/LZMA/LzmaDec.c:1032-1033 | moving the position from the end of the buffer to its start changes nothing of that history |
| Window.ShowsSuffix | Sources/LZMA/LzmaDec.c:1050-1051 | the bytes just before the position are the last ones of the history |
| Window.CopyAppends | Sources/LZMA/LzmaDec.c:526-565 | a match appends exactly its length, and every byte equals the one `rep0` before it, however source and destination overlap |
| Window.CopySplit | Sources/LZMA/LzmaDec.c:588-614 | a match cut anywhere and continued later copies the same bytes |
| ContextIndex.PosStateAgrees | Sources/LZMA/LzmaDec.c:161-161 | the masked 32-bit counter is the true position modulo `2^pb`, even after the counter wraps |
| ContextIndex.LiteralAgrees | Sources/LZMA/LzmaDec.c:225-253 | the single mask over position and previous byte selects the literal context that the specification computes from `lc` and `lp` separately |
| ContextIndex.LiteralContextFits | Sources/LZMA/LzmaDec.c:158-158 | a literal context never lies outside the probability array |
| BitDecoding.NormalizeAt | Sources/LZMA/LzmaDec.c:20-20 | with the byte present the macro reads exactly it, and its 32-bit shift is the reference refill |
| BitDecoding.SplitBit | Sources/LZMA/LzmaDec.c:22-24 | the compare-and-update macros are the reference bit, range and probability: the bit is the comparison with the product, and the probability moves by exactly a thirty-second of the way |
| BitDecoding.DecodeBit | Sources/LZMA/LzmaDec.c:20-27 | one macro step on the flat array is one step of the reference decoder on the named cell, with the normalisation moved to the front |
| BitDecoding.DecodeTree | Sources/LZMA/LzmaDec.c:29-55 | the bit-tree macros end on the symbol that the reference decoder ends on |
| BitDecoding.LiterStep | Sources/LZMA/LzmaDec.c:58-64 | one turn of the `offs` and `bit` arithmetic picks the cell and the subtree that comparing with the match byte picks |
| BitDecoding.DecodeMatched | Sources/LZMA/LzmaDec.c:275-299 | the eight turns of the matched literal yield the reference decoder's literal |
| BitDecoding.DecodeLen | Sources/LZMA/LzmaDec.c:408-441 | the overlapped length coder decodes the length of the three-part one |
| BitDecoding.DecodeReverseVar | Sources/LZMA/LzmaDec.c:455-469 | the reordered reverse tree with a moving increment decodes the reversed bits of the specification |
| BitDecoding.DirectBitAt | Sources/LZMA/LzmaDec.c:475-484 | the sign mask is all ones exactly for the bit 0 of the reference decoder |
| BitDecoding.DecodeDirect | Sources/LZMA/LzmaDec.c:472-494 | the branch-free loop over direct bits follows the reference decoder's comparisons |
| BitDecoding.DecodeAlign | Sources/LZMA/LzmaDec.c:495-504 | the unrolled align bits complete the distance, modulo 32 bits |
| BitDecoding.DecodeDistance | Sources/LZMA/LzmaDec.c:444-512 | slot, direct bits and tree together give the reference decoder's distance, or the end marker |
| BitPeeking.NormalizeCheck | Sources/LZMA/LzmaDec.c:67-67 | fails exactly when a byte is wanted and none is there |
| BitPeeking.PeekBit | Sources/LZMA/LzmaDec.c:69-75 | one macro step without updates is one step of the reference decoder on the unchanged model |
| BitPeeking.PeekTree | Sources/LZMA/LzmaDec.c:76-80 | looking ahead along a bit tree fails exactly when the reference decoder wants a byte that is not there |
| BitPeeking.PeekMatched | Sources/LZMA/LzmaDec.c:693-710 | the same for a matched literal |
| BitPeeking.PeekLen | Sources/LZMA/LzmaDec.c:771-802 | the same for a length |
| BitPeeking.PeekReverse | Sources/LZMA/LzmaDec.c:80-82 | the same for a reverse tree |
| BitPeeking.PeekDirect | Sources/LZMA/LzmaDec.c:824-831 | the same for direct bits |
| BitPeeking.PeekDistance | Sources/LZMA/LzmaDec.c:804-845 | the same for a distance |
| Calls.CallPart | Sources/LZMA/LzmaDec.c:1035-1046 | a call with a smaller limit is a stage of any larger one, and is already its answer unless it reached its limit |
| Calls.CallAgain | Sources/LZMA/LzmaDec.c:918-940 | a call repeated with what it left over gives the same answer again |
| Calls.CallKeepsHistory | Sources/LZMA/LzmaDec.c:183-209 | no answer, and no failure, takes back output, and none goes past the limit |
| Calls.StatusMeans | Sources/LZMA/LzmaDec.c:918-940 | each status is given exactly when it should be: "finished" at an end marker with a zero code, "may be finished" at a full output with no match cut and a zero code, "not finished" at any other full output that need not end, and "needs input" where the next symbol, or the start of the coder, is not all there |
| Calls.FailureStatus | Sources/LZMA/LzmaDec.c:885-964 | a failure is exactly one of these: a first byte that is not zero, a refused symbol below the limit, an end marker before a code that is not zero, and, at a full output that had to end, a cut match or a symbol that is no end marker, of which all but a match are reported as "not finished" |
| Calls.CallStage | Sources/LZMA/LzmaDec.c:875-1019 | one call that stops early, followed by any call with its unused input and more, answers as one call on the whole, even with a smaller limit, so long as that is not below the output, and is above it after the end marker |
| Calls.ChunkingIndependence | Sources/LZMA/LzmaDec.c:875-1060 | for every way to cut the input into chunks, and whatever amounts of output are asked for, the last answer, with output, decoder state and unused input, or the failure with its status and what was decoded before it, is that of a single call, if and only if the last request is not for nothing after an earlier call has read the end marker (or else that call insists on the end, and the code before the marker is not zero) |
| Calls.SomeRequested | Sources/LZMA/LzmaDec.c:875-1060 | which a caller excludes by asking for some output in the last call |
| Writing.LateRequest | Sources/LZMA/LzmaDec.c:918-940 | a stream and two requests on which the answers differ |
| Encoding.DecodeEncoded | Sources/LZMA/LzmaDec.c:20-27 | encoding run backwards inverts range decoding: for every path of bits and every code wanted at its end there are a code and bytes that lead the decoder along that path to that code, with nothing left over |
| Spelling.SymbolReads | Sources/LZMA/LzmaDec.c:244-524 | a table of codes, written from the side of an encoder, gives for every symbol and context which cells are consulted, in which order, and with which bits; the grammar, walked along the code of a symbol, consults exactly those and ends at the symbol |
| Spelling.MatchReads | Sources/LZMA/LzmaDec.c:444-512 | the same for a match or end marker of any length: the slot is the place of the distance's top digit and the digit below it, and the other digits follow, the lowest four or all of them in reverse |
| Spelling.LiteralReads | Sources/LZMA/LzmaDec.c:256-301 | the same for a literal, compared with the byte at the first distance for as long as the two agree |
| Paths.SymbolLeads | Sources/LZMA/LzmaDec.c:244-524 | in every context the bits of a symbol's code lead to it: any literal, any length with any 32-bit distance, the end marker, and the reps |
| Meaning.StartMeans | Sources/LZMA/LzmaDec.c:883-914 | five bytes start the coder, the first zero, the others the code from its most significant byte; a reset makes the distances 1 and every probability one half, and otherwise they stay |
| Meaning.RefusedExactly | Sources/LZMA/LzmaDec.c:514-523 | exactly a distance beyond the history or the dictionary, or a repetition of nothing, is refused |
| Meaning.SymbolMeans | Sources/LZMA/LzmaDec.c:303-371 | with the distances as a list, a rep moves the one it chooses to the front and leaves the others in their order, a match puts its own in front and drops the last, and every other symbol leaves them; what is output and what is still to be copied |
| Meaning.StateFollows | Sources/LZMA/LzmaDec.c:247-371 | the state is the summary of the kinds of the last four symbols: how long ago the last one that was no literal was, which it was, and whether one came before it |
| Meaning.ContextMeans | Sources/LZMA/LzmaDec.c:225-275 | the position gives the context its low digits, and a literal those and the top digits of the previous byte; the byte compared with is the one at the first distance |
| Meaning.MessageMeans | Sources/LZMA/LzmaDec.c:244-567 | a decoder that follows a sequence of symbols has the text, the distances and the state that the sequence means, by an interpretation of its own over lists, where every repeated byte equals the one its distance before it |
| Meaning.MessageSaid | Sources/LZMA/LzmaDec.c:244-567 | every such sequence is what some stream decodes to: a new decoder that has read it has what it means |
| Writing.MessageHasStream | Sources/LZMA/LzmaDec.c:244-567 | every sequence of symbols that can be followed is what some stream decodes to, from a new decoder, and what comes after the stream is left |
| Writing.TextHasStream | Sources/LZMA/LzmaDec.c:875-1019 | every text has a stream: one call with room to spare gives exactly the text, finds the end marker with a zero code, and leaves what follows |
| LzmaDec.LzmaDec.LiteralProb | Sources/LZMA/LzmaDec.c:251-253 | the literal coder's address is that of the specification's context for the history |
| LzmaDec.LzmaDec.PreviousByte | Sources/LZMA/LzmaDec.c:253-253 | the byte before the position, around the end of the buffer, is the last of the history |
| LzmaDec.LzmaDec.ByteBack | Sources/LZMA/LzmaDec.c:275-275 | the byte at the last distance is read from inside the buffer and is the one of the history |
| LzmaDec.LzmaDec.LiteralBits8 | Sources/LZMA/LzmaDec.c:256-301 | plain or matched, the eight bits are the reference literal |
| LzmaDec.LzmaDec.LiteralSymbol | Sources/LZMA/LzmaDec.c:247-305 | a literal is put after the history, and the state follows |
| LzmaDec.LzmaDec.ChooseRep | Sources/LZMA/LzmaDec.c:324-373 | the rep branch moves the chosen distance to the front and the others back, in their order |
| LzmaDec.LzmaDec.ShortRepSymbol | Sources/LZMA/LzmaDec.c:329-337 | a short rep repeats the byte at the first distance |
| LzmaDec.LzmaDec.MatchSymbol | Sources/LZMA/LzmaDec.c:444-524 | a plain match is refused exactly when its distance reaches outside the history or the dictionary, and a refusal leaves the position |
| LzmaDec.LzmaDec.CopySymbol | Sources/LZMA/LzmaDec.c:526-566 | a match is cut at the limit, the rest is remembered, and it fails exactly when there is no room at all, with nothing written |
| LzmaDec.LzmaDec.CopyMatch | Sources/LZMA/LzmaDec.c:526-565 | both copy loops write, for every overlap and wrap position, the bytes that copying from the unbounded history gives |
| LzmaDec.LzmaDec.CopyStraight | Sources/LZMA/LzmaDec.c:545-554 | the linear loop appends the match to the history, with its source behind or, after a wrap, ahead |
| LzmaDec.LzmaDec.CopyAround | Sources/LZMA/LzmaDec.c:555-564 | so does the loop whose source passes the end of the buffer |
| LzmaDec.LzmaDec.MatchOrRep | Sources/LZMA/LzmaDec.c:307-567 | matches, reps and the end marker are those of the reference decoder |
| LzmaDec.LzmaDec.DecodeSymbol | Sources/LZMA/LzmaDec.c:244-567 | one pass of the main loop applies the reference decoder's symbol, or breaks off only where that one refuses or the output is full, and then without a byte written |
| LzmaDec.LzmaDec.SymbolLoop | Sources/LZMA/LzmaDec.c:239-568 | while twenty-one bytes or more are left another symbol decodes, so no pass reads past the input; where the loop breaks off, the dictionary shows everything decoded before, and the position has not passed the limit |
| LzmaDec.LzmaDec.StoreRegisters | Sources/LZMA/LzmaDec.c:570-584 | the last normalisation makes the registers those of the reference decoder |
| LzmaDec.LzmaDec.DecodeReal | Sources/LZMA/LzmaDec.c:217-585 | the fast loop without bounds checks makes reference steps only, reads no byte past the input, and fails only where the reference decoder does, with the position written back at the end of what was decoded before |
| LzmaDec.LzmaDec.CopyRem | Sources/LZMA/LzmaDec.c:606-612 | the remainder of a match is copied around the end of the buffer as its beginning was |
| LzmaDec.LzmaDec.WriteRem | Sources/LZMA/LzmaDec.c:588-614 | continues a cut match by as many bytes as there is room for, and keeps the moment at which the dictionary counts as full |
| LzmaDec.LzmaDec.DrawInLimit | Sources/LZMA/LzmaDec.c:628-638 | the limit is drawn in so that the dictionary fills only between two rounds, and a first rep is refused |
| LzmaDec.LzmaDec.DecodeRound | Sources/LZMA/LzmaDec.c:626-646 | one round makes reference steps only and leaves the full dictionary noticed, or fails with the position between where it was and the limit |
| LzmaDec.LzmaDec.DecodeReal2 | Sources/LZMA/LzmaDec.c:624-650 | the loop over partial limits makes reference steps only, and the first-symbol test refuses exactly what the reference decoder refuses; on failure the dictionary shows what was decoded before |
| LzmaDec.LzmaDec.PeekLiteral | Sources/LZMA/LzmaDec.c:680-711 | looking ahead at a literal fails exactly for want of a byte, though its context is computed in another way |
| LzmaDec.LzmaDec.PeekMatchOrRep | Sources/LZMA/LzmaDec.c:713-846 | looking ahead tells matches from reps as decoding does |
| LzmaDec.LzmaDec.TryDummy | Sources/LZMA/LzmaDec.c:660-850 | reports an error exactly when the next symbol with its final normalisation needs more than the bytes given, and otherwise the kind of symbol that decoding yields; nothing is modified |
| LzmaDec.LzmaDec.Init | Sources/LZMA/LzmaDec.c:868-872 | whatever the decoder has been through, an error included, it then stands for a reference decoder at the start of a stream |
| LzmaDec.LzmaDec.InitDicAndState | Sources/LZMA/LzmaDec.c:853-866 | a reset of the dictionary is possible in any state; what a smaller reset keeps: the history unless the dictionary is reset, distances and probabilities unless the state is |
| LzmaDec.LzmaDec.CollectInit | Sources/LZMA/LzmaDec.c:885-893 | bytes are moved to the carry buffer in order and none is lost |
| LzmaDec.LzmaDec.StartCoder | Sources/LZMA/LzmaDec.c:894-913 | five collected bytes start the coder, with fresh probabilities and distances only if the state is reset |
| LzmaDec.LzmaDec.BeginCall | Sources/LZMA/LzmaDec.c:883-914 | the five initial bytes may arrive in any pieces; a first byte that is not zero is refused at once |
| LzmaDec.LzmaDec.ContinueMatch | Sources/LZMA/LzmaDec.c:916-916 | finishing a cut match first does not change the answer to be given |
| LzmaDec.LzmaDec.FillCarry | Sources/LZMA/LzmaDec.c:976-979 | the carried bytes are topped up to twenty, or with all that is there |
| LzmaDec.LzmaDec.CarryOver | Sources/LZMA/LzmaDec.c:951-952 | an unfinished symbol is carried over byte by byte |
| LzmaDec.LzmaDec.FeedDirect | Sources/LZMA/LzmaDec.c:942-973 | a pass on the caller's input keeps the answer still to be given, and raises the position or ends; on failure the position is within the limit and the dictionary shows what was decoded |
| LzmaDec.LzmaDec.FeedCarry | Sources/LZMA/LzmaDec.c:974-1012 | the same for a pass on carried bytes, topped up and looked at first |
| LzmaDec.LzmaDec.DecodeCarry | Sources/LZMA/LzmaDec.c:994-1011 | the carried symbol is decoded and the bytes it did not use go back to the caller's; both internal-error tests are false, since the symbol uses more than was carried and no more than is present |
| LzmaDec.LzmaDec.OnePass | Sources/LZMA/LzmaDec.c:918-1013 | every pass raises the position, reaches the end marker, or returns the answer or the failure |
| LzmaDec.LzmaDec.DecodeToDic | Sources/LZMA/LzmaDec.c:875-1019 | terminates and gives the reference answer for all bytes received so far: result, status, output, new state, and which bytes remain; whatever the result, the position stays within the limit and the dictionary shows exactly what the reference decoder produced before it stopped or refused; on an error the input reported as used is all before the refused symbol, or what whole passes before a longer one have used; `SZ_ERROR_FAIL` is never returned |
| LzmaDec.LzmaDec.DecodeFeeds | Sources/LZMA/LzmaDec.c:875-1019 | a loop of calls that resubmits what each has not used, and asks each time for any amount that fits into the buffer then, ends with the answer, state and unused input of a single call on everything |
| LzmaDec.LzmaDec.Rewind | Sources/LZMA/LzmaDec.c:1032-1033 | going back to the start of a full buffer keeps the decoder and its history, if the buffer is as large as the dictionary |
| LzmaDec.LzmaDec.BufferPass | Sources/LZMA/LzmaDec.c:1029-1054 | one pass hands out exactly the bytes it appended, before an error too, and leaves the rest of the answer to come |
| LzmaDec.LzmaDec.DecodeToBuf | Sources/LZMA/LzmaDec.c:1022-1060 | any request for output, across any number of wraps of the dictionary, gives the answer of one call, and the caller's buffer receives exactly the new output, on an error the output decoded before it |
| LzmaDec.LzmaDec.DecodeBuffers | Sources/LZMA/LzmaDec.c:1022-1060 | a series of such requests, with any input chunks and any sizes in any order, through an output buffer that need hold only one of them at a time, and with as many wraps of the dictionary as it takes, hands out in pieces the output of a single call on everything, and ends with its answer, state and unused input |
| LzmaDec.LzmaDecode | Sources/LZMA/LzmaDec.c:1162-1185 | one-shot decoding gives the reference answer for a new stream, with the error codes for short input and unsupported properties, the output decoded before an error and the input reported then, and all of the input consumed when more is wanted |
| PropsCodec.DecodeProps | Sources/LZMA/LzmaDec.c:1080-1104 | refuses exactly short data and a first byte of 225 or more; what it accepts is in range, spells the first byte in base 9 and 5, and has the size that the other four say, the least significant first, but at least 4096 |
| PropsCodec.PropsRoundTrip | Sources/LZMA/LzmaDec.c:1080-1104 | properties in range survive their encoding, whatever bytes follow |
| ThreadRuns.FirstReadyIs | Sources/Win32/wg_threading.c:126-129 | the scan yields a slot if and only if that slot is ready and no slot before it in the cyclic order is, and none if and only if none is ready |
| Threads.Scheduler.SaveRegs | Sources/Win32/wg_threading.c:23-27 | keeps the low halves of eight registers and the instruction pointer, and not the FS base |
| Threads.Scheduler.RestoreRegs | Sources/Win32/wg_threading.c:29-34 | the processor holds exactly the saved registers, FS base included |
| Threads.Scheduler.CreateThread | Sources/Win32/wg_threading.c:36-113 | fills the first free slot with a thread that starts at the address given, with ESP and EBP at its stack, the other registers zero and its creator's FS base, and fails exactly when there is none; in memory it makes the new stack and changes nothing else |
| Threads.StackHolds | Sources/Win32/wg_threading.c:63-85 | a new stack holds the parameter above a return address of 0 where the thread's ESP points, and no byte outside it changes |
| ThreadRuns.NewStackApart | Sources/Win32/wg_threading.c:59-85 | making it writes in no other thread's stack |
| Threads.Scheduler.SaveCurrent | Sources/Win32/wg_threading.c:115-121 | saves and reclassifies the current thread, and does nothing when there is none |
| Threads.Scheduler.SwitchNext | Sources/Win32/wg_threading.c:123-142 | enters the first ready slot in cyclic order after the current one, and changes nothing when there is none |
| Threads.Scheduler.Yield | Sources/Win32/wg_threading.c:144-157 | saves, switches, and falls back to the current thread when nobody else is ready |
| Threads.Scheduler.Wake | Sources/Win32/wg_threading.c:159-169 | makes ready every thread that waits on the handle, and no other |
| Threads.Scheduler.ExitThread | Sources/Win32/wg_threading.c:171-183 | the slot is never used again, and the scan restarts at slot 0 |
| Threads.Scheduler.Find | Sources/Win32/wg_threading.c:185-192 | the first slot in use with the handle, if any |
| Engine.Vm.StartMain | Sources/Core/wg_engine.c:5376-5388 | the main thread runs in slot 0 with its own FS base |
| Engine.Vm.TlsSetValue | Sources/Core/wg_engine.c:3059-3063 | changes one value in the row of the current thread, and nothing for an index out of range |
| Engine.Vm.TlsGetValue | Sources/Core/wg_engine.c:3054-3058 | the current thread's own value, or 0 for an index out of range |
| Engine.Vm.CreateThread | Sources/Core/wg_engine.c:3502-3528 | a created thread gets its own environment block, or shares its creator's if none could be allocated |
| Engine.Vm.CreateEvent | Sources/Core/wg_engine.c:3248-3260 | hands out the next handle until the table is full |
| Engine.Vm.SetEvent | Sources/Core/wg_engine.c:3261-3267 | raises the flag and wakes exactly the waiters |
| Engine.Vm.ResetEvent | Sources/Core/wg_engine.c:3268-3272 | lowers one flag and wakes nobody |
| Engine.Vm.ResumeThread | Sources/Core/wg_engine.c:3623-3631 | succeeds exactly for a suspended thread, and makes it ready |
| Engine.Vm.Consume | Sources/Core/wg_engine.c:316-321 | lowers the flag of an auto-reset event only |
| Engine.Vm.WaitForSingleObject | Sources/Core/wg_engine.c:3390-3431 | how a wait ends (signalled, timed out, alone, or switched away), its answer, and the whole state after it; an unlimited wait never answers 258 |
| GuestCalls.WaitAnswers | Sources/Core/wg_engine.c:3390-3431 | a wait answers 258 exactly for an object that is not up and no time, 0 exactly if the object is up or an unlimited wait finds nobody else ready, and in every other case does not come back before another turn |
| GuestCalls.WaitLeaves | Sources/Core/wg_engine.c:3390-3431 | an object that is up loses its flag if it is an auto-reset event and nothing else changes; a test changes nothing; otherwise the caller waits for the object, if its wait is unlimited and another thread is ready, or else stays ready or running |
| GuestCalls.ThreadStarts | Sources/Win32/wg_threading.c:59-105 | a new thread, after any run until it is first current, starts at its address, with ESP and EBP where its stack holds the return address 0 below the parameter, the other registers zero, and the FS base of its environment block, or of its creator if it has none |
| GuestCalls.YieldTurn | Sources/Win32/wg_threading.c:123-157 | a thread that parks is followed by the next ready one in the order of the slots, around the end, and by itself only if no other is ready |
| GuestCalls.ExitTurn | Sources/Win32/wg_threading.c:171-183 | a thread that exits is followed by the first ready one, counted from slot 0, or by none |
| GuestCalls.AsleepExactly | Sources/Win32/wg_threading.c:159-169 | a waiting thread is made ready exactly by a signal on its handle, a suspended one exactly by its resume, an exited one by nothing; no other action changes anything in its slot |
| GuestCalls.SleepsOn | Sources/Win32/wg_threading.c:159-169 | so it sleeps through any run in which nobody rouses it |
| GuestCalls.ExitedForGood | Sources/Win32/wg_threading.c:171-183 | over any run a thread that has exited never runs again, keeps its exit code, and satisfies every wait for it |
| GuestCalls.TlsReads | Sources/Core/wg_engine.c:3054-3063 | over any run a thread reads what it has last stored itself, whatever others store |
| GuestCalls.EventStarts | Sources/Core/wg_engine.c:3248-3260 | a new event is up if it is to be, of the kind it is to be, and no other event is touched |
| GuestCalls.EventBehaves | Sources/Core/wg_engine.c:3261-3272 | a signal raises an event, a reset lowers it, and it stays up after a wait exactly if it was up and is a manual-reset event |
| ThreadRuns.StepKeeps | Sources/Win32/wg_threading.c:115-183 | every action of a guest keeps the invariant: exactly the slot at `current` runs, with its own FS base, and slots are numbered in order of creation |
| ThreadRuns.ThreadsApart | Sources/Win32/wg_threading.c:52-63 | over every run from boot no two threads run at once or share a handle or an id, and their stacks lie apart with a guard gap, below the addresses of libraries |
| ThreadRuns.NamesAndStacks | Sources/Win32/wg_threading.c:39-63 | over every run from boot a slot's number gives the handle, the id and the stack of its thread |
| ThreadRuns.AwayKeepsOwn | Sources/Win32/wg_threading.c:115-142 | whatever another thread does, a thread that is away keeps its registers and thread-local values |
| ThreadRuns.ThreadResumes | Sources/Win32/wg_threading.c:144-157 | after any run in between, a thread that yielded finds the low halves of its eight registers and of its instruction pointer, its FS base and its thread-local values as they were |
| ThreadRuns.ScanCloser | Sources/Win32/wg_threading.c:123-142 | a scan that passes a ready slot over comes closer to it |
| ThreadRuns.PassedOver | Sources/Win32/wg_threading.c:123-183 | a ready thread that is passed over stays ready; each scan without an exit brings its turn closer, and each exit is paid for by a slot that is never used again |
| ThreadRuns.BoundedWaiting | Sources/Win32/wg_threading.c:123-183 | without exits fewer than 32 scans pass a ready thread over, with exits fewer than 32 times one more than the slots not exited |
| EventRuns.ForgottenExactly | Sources/Core/wg_engine.c:3248-3272 | a thread comes to wait on a signalled event if and only if an event is created, with its flag up, under a handle on which a thread waits already |
| EventRuns.NeverForgottenExactly | Sources/Core/wg_engine.c:3248-3272 | the same for whole runs, in both directions |
| EventRuns.NoLostWakeUp | Sources/Core/wg_engine.c:3390-3431 | from boot on, a program whose unlimited waits name only events that exist never sleeps through a signal |
| EventRuns.ForgottenWaiter | Sources/Core/wg_engine.c:3248-3260 | a run of three calls in which a thread does |
| EventRuns.SignalsConserved | Sources/Core/wg_engine.c:316-321 | for an auto-reset event, waits satisfied through the flag, signals wasted, and the flag at the end add up to the flag at the start and the signals sent |
| EventRuns.WaitsWithinSignals | Sources/Core/wg_engine.c:3403-3409 | so it satisfies no more waits than its initial state and its signals allow |
| EventRuns.ManualStays | Sources/Core/wg_engine.c:3268-3272 | a manual-reset event that is set satisfies every wait until it is reset |
| EventRuns.SignalReaches | Sources/Core/wg_engine.c:3261-3267 | a thread that waits on an event when it is set is current again within the bound on scans |
| MessageRing.Ring.Push | Sources/Core/wg_engine.c:386-394 | appends to the queue, unless sixty-three messages are held |
| MessageRing.Ring.Compact | Sources/Core/wg_engine.c:401-408 | shifting across the wrap removes one entry and keeps the order of the others |
| MessageRing.Ring.Remove | Sources/Core/wg_engine.c:401-409 | one entry leaves the queue, and the others keep their order |
| MessageRing.Ring.Pop | Sources/Core/wg_engine.c:395-414 | removes exactly the first message for the thread, or nothing if there is none |
| MessageRing.TakeFirst | Sources/Core/wg_engine.c:395-414 | taking a message leaves what is queued for every other thread as it was |
| MessageRing.FirstInFirstOut | Sources/Core/wg_engine.c:381-414 | over every run, what a thread has got and what is queued for it is what was queued and accepted for it, in order and each once |
| MessageRing.NeverOver | Sources/Core/wg_engine.c:386-388 | the ring never holds more than sixty-three |
| Relocation.RvaPtr | Sources/Core/wg_engine.c:76-89 | the place of an address of the image, in the headers or the first section that covers it, by 32-bit tests that may wrap |
| RelocTables.HeaderBytes | Sources/Core/wg_engine.c:77-78 | a range within the headers is read where it is |
| RelocTables.SectionBytes | Sources/Core/wg_engine.c:79-87 | for a range past the headers that does not wrap, the first section that covers it has a place for it if and only if it has data as far as the range, and every byte read is the one as far behind the section's data in the file as the address is behind the section |
| RelocTables.CoveredByNone | Sources/Core/wg_engine.c:79-88 | a range that no section covers has no place |
| Relocation.WholeExactly | Sources/PE/wg_pe_loader.c:345-348 | in a file below 4 GiB a section that is given data has as much of it as its header says if and only if its pointer plus its size does not pass 32 bits |
| Relocation.PromiseExactly | Sources/PE/wg_pe_loader.c:345-348 | such a section can be read as far as its header says if and only if that sum does not wrap |
| Relocation.PlaceInside | Sources/Core/wg_engine.c:76-89 | a place that passes the tests is read inside the file only if its offset and the length wanted do not pass 32 bits, and, when no section has passed the parser's test by a wrap, exactly then |
| Relocation.BodyInside | Sources/Core/wg_engine.c:146-147 | for a file and table below 2 GiB the entries of a block that passes are read inside the file only if its end does not wrap, and, when no section has passed the parser's test by a wrap, exactly then |
| Relocation.EndsExactly | Sources/Core/wg_engine.c:138-158 | for such a file the loop ends with every read inside the file only if no block it comes to passes its tests by a wrap, and, when no section has passed the parser's test by one, exactly then |
| Relocation.WrapStrays | Sources/Core/wg_engine.c:142-147 | a table of twenty bytes on which the second block does, and the read of its entries leaves the file |
| Relocation.ShortStrays | Sources/Core/wg_engine.c:138-141 | a file of twenty bytes whose one section passes the parser's test by a wrap: no block of its table wraps, and the read of the first header leaves the file |
| RelocTables.TableWalked | Sources/Core/wg_engine.c:138-158 | for every list of blocks written, entry by entry, into the data of a section, the loop ends with every read inside the file, and its targets are exactly the words of the entries of type 3, block after block and in order |
| RelocTables.OrdinaryTargets | Sources/Core/wg_engine.c:138-158 | a table of two blocks in the section of an ordinary file, whatever else is in it, with its three targets |
| Relocation.FixupsSame | Sources/Core/wg_engine.c:138-158 | the targets of a table do not depend on how many turns the loop is allowed |
| Relocation.NextBlock | Sources/Core/wg_engine.c:138-147 | finds the next whole block, or one of the four reasons to stop |
| Relocation.PatchBlock | Sources/Core/wg_engine.c:148-156 | patches exactly the HIGHLOW entries of a block, in order |
| Relocation.ApplyRelocations | Sources/Core/wg_engine.c:135-159 | on every table on which the loop ends with its reads inside the file, it adds the difference at exactly the targets that the table names, and does nothing for a difference of 0 or no table |
| Patching.RelocatedWord | Sources/Core/wg_engine.c:149-155 | a target gains the difference, modulo 2^32, once for each time it is named |
| Patching.RelocatedElsewhere | Sources/Core/wg_engine.c:149-155 | every byte that no target covers stays as it is |
| Patching.RelocationsAdd | Sources/Core/wg_engine.c:135-159 | for targets no two of which overlap in part, relocating by one difference and then by another is relocating by their sum |
| Patching.RelocationUndone | Sources/Core/wg_engine.c:135-159 | for such targets relocating back restores every byte |
| Reversal.ReversibleExactly | Sources/Core/wg_engine.c:149-155 | for targets in ascending order, relocating back restores every memory for every difference if and only if no two targets overlap in part |
| Reversal.AdditiveExactly | Sources/Core/wg_engine.c:149-155 | for targets in ascending order, relocating twice is relocating by the sum, for every memory and every two differences, if and only if no two targets overlap in part |
| Relocation.OverlapNotUndone | Sources/Core/wg_engine.c:138-158 | a table of one block, with its load address, that relocating back does not undo |
| LineDrawing.PutPixel | Sources/Win32/wg_win32_gdi.c:90-93 | changes the pixel if it lies inside, and nothing otherwise |
| LineDrawing.RgbaBytes | Sources/Win32/wg_win32_gdi.c:42-47 | red, green and blue are the low three bytes of a colour and stay what they are, and the fourth becomes opaque |
| LineDrawing.NextPoint | Sources/Win32/wg_win32_gdi.c:328-330 | one turn of the two tests goes to the next point of the line without overflow |
| LineDrawing.PlotLine | Sources/Win32/wg_win32_gdi.c:325-331 | the loop stops, after plotting every point of the line once |
| LineDrawing.DrawLine | Sources/Win32/wg_win32_gdi.c:319-331 | the differences, steps and first error are those the loop needs, and it draws the whole line |
| LineDrawing.DeviceContext.LineTo | Sources/Win32/wg_win32_gdi.c:313-335 | for all endpoints with which nothing overflows, the unbounded loop ends after exactly the points of the line, plots those inside and nothing else, and moves the current position to the end |
| LineDrawing.OverflowExactly | Sources/Win32/wg_win32_gdi.c:319-330 | some computed value leaves the machine integers if and only if a difference is too large, or the line is not longer along x and its larger difference plus the peak of the error below the smaller one passes 2^31 |
| LineDrawing.BelowPeak | Sources/Win32/wg_win32_gdi.c:324-330 | below the smaller difference the error never exceeds that peak, which the common divisor of the differences determines |
| LineDrawing.PeakReached | Sources/Win32/wg_win32_gdi.c:324-330 | and some step reaches it |
| LineDrawing.OverflowingLine | Sources/Win32/wg_win32_gdi.c:329-329 | a diagonal of 3 * 2^29 steps overflows in its first step |
| LineDrawing.DrawnPixel | Sources/Win32/wg_win32_gdi.c:325-331 | a pixel has the colour of the line if and only if a point of the line lies on it or it had that colour |
| LineDrawing.OffsetIsNearest | Sources/Win32/wg_win32_gdi.c:324-331 | the steps along the shorter axis are the whole number nearest to the ideal line, the lower of two |
| LineDrawing.LineEnds | Sources/Win32/wg_win32_gdi.c:326-327 | the line starts and ends exactly where it should, after as many steps as the longer axis has |
| LineDrawing.LineConnected | Sources/Win32/wg_win32_gdi.c:325-331 | successive points are different neighbours |
| LineDrawing.WithinHalfPixel | Sources/Win32/wg_win32_gdi.c:324-331 | no point is further than half a pixel from the ideal line on the shorter axis |
| LineDrawing.PointWithin | Sources/Win32/wg_win32_gdi.c:325-331 | no point leaves the rectangle that the ends span |
| LineDrawing.LineBackwards | Sources/Win32/wg_win32_gdi.c:324-331 | drawn backwards the line has the same point at a step if and only if the ideal line does not pass midway there |
| LineDrawing.ErrorBounds | Sources/Win32/wg_win32_gdi.c:324-330 | the error term stays in `[0, adx)` or `(-ady, 0]` |

## Left out

- LzmaDec.LzmaDec.DecodeToDic: after `SZ_ERROR_DATA` nothing is stated about the registers besides position, dictionary and history, because the code writes back only the position (`LzmaDec.c:519-523`) and only a new stream may follow.
- LzmaDec.LzmaDec.DecodeToBuf: a dictionary buffer smaller than `dicSize`, which `LzmaDec_Allocate` never makes, must not be rewound, since that loses bytes that distances may still name; `Rewind`, `BufferPass` and `DecodeBuffers` share this.
- LzmaDec.LzmaDec.DecodeFeeds: only the last call of a series insists on the end of the stream; one that does so earlier is a call of its own (`DecodeToDic`). The consumed length that a failing `LzmaDec_DecodeToBuf` reports is only bounded.
- LzmaDec.LzmaDec.InitDicAndState: a reset that keeps the dictionary is not for a decoder after an error, whose counters are behind its position; one that keeps the state too needs a state, and after a stream that ended without output the probabilities no longer tell a first rep by `kBadRepCode`.
- LzmaDec.LzmaDec.DecodeReal: the input is a sequence with an index, so the input buffer cannot be the dictionary.
- LzmaDec.LzmaDecode: allocation cannot fail here.
- Threads.Scheduler.CreateThread: guest memory is flat and holds a stack behind every 32-bit address; failing to allocate the zeroes is not modelled.
- Engine.Vm.CreateThread: the synchronous fallback when no slot is free is not modelled, nor is the layout of the environment block; its address is a parameter.
- ThreadRuns.StepKeeps: the return path of a thread, which switches once more after an exit has already switched (`wg_engine.c:5664-5667`), and the paused tick that parks the current thread with a stale wait handle (`wg_engine.c:5577-5592`) are not actions of a run; a yield is only made ready or waiting, as all callers do.
- EventRuns.NoLostWakeUp: waits on thread handles are part of the runs, but no wake-up on the exit of a thread is claimed, as `ExitThread` (`wg_engine.c:4150-4160`) wakes nobody; waits on several objects are not modelled.
- EventRuns.SignalsConserved: the answer given to a lone thread whose unlimited wait cannot be satisfied is also 0 and is not counted as a satisfied wait.
- Relocation.ApplyRelocations: a walk that reads outside the file has no meaning here and is excluded; when it does is stated for files and tables below 2 GiB (`EndsExactly`), and for larger ones only for each read (`PlaceInside`). Guest memory is flat and reaches four bytes past every 32-bit address.
- Relocation.EndsExactly: for a file with a section that has passed the parser's test by a wrap only one direction is stated, since a read in such a section stays inside the file exactly as far as the file goes.
- LineDrawing.DeviceContext.LineTo: a framebuffer has at most 2^31 pixels; looking up the device context by its handle is left out.
- Loops: macros repeated a fixed number of times in the C code are loops here; the `_LZMA_SIZE_OPT`, assembler and 32-bit probability builds are not modelled.
- `LzmaDec_Allocate`, `LzmaDec_Free` and their allocator callbacks: memory plumbing.
- Fiber-local storage, I/O completion ports, mutexes as lockable objects, thread priorities: stubs or copies of what is modelled.
- The guest processor: an action may set its registers and instruction pointer to anything; memory shared by threads is not part of isolation.
- The PE loader, import resolution, DLL mapper, window and text rendering, sockets, files and TLS wrappers: no shared invariant beyond what is modelled, or outside libraries.
