# q36: the two-stage pipeline, the line editor and the streaming codecs, proved

This project models the parts of q36 whose correctness spans many steps, and
proves what they promise for every input and every run.

**The pipeline** (`Stages`, `Wire`, `Coordinator`, `Span`, `Prefill`,
`Speculation`, `Pipeline`). A coordinator holds the prefix layers, a worker the
suffix layers. The two stages are deterministic functions of a token history. A
connection is the worker loop plus two queues of frames; the worker takes its
turns at any moment between the coordinator's calls, and the connection, the
stages and the caller's cancellation may fail at every step. `Link.Future` is
what the worker will hold and will have answered once it has served all that was
sent, so a statement about it covers every interleaving. `Prefill.Overlap` runs the
two threads of the long prefill against each other in any order of their steps. `Engine.Coherent` is
the recovery invariant: it holds after every operation of every run
(`AnyRun`), and its parts say that no frame ever sent on any connection fails a
worker check, and that a session of the current connection has the same token
history on both sides.

Every failure has a reason: connections, stages and the engine count in `trouble` what
goes wrong out of the model's sight (a broken connection, a failed evaluation, a
cancellation, a hello that does not fit), and an operation that fails was called outside
its guard or has seen that count grow.

**The line editor** (`Utf8`, `Grapheme`, `Clusters`, `Folds`, `EditLine`, `Keys`,
`Editing`, `KeyEffects`, `Paste`, `Typing`, `Cursor`, `Editor`, `Render`). What each key does is a function on the line, the
folds and the history; a class updates its fields in place as the editor does and
each handler is proved to be that function. `Editor.Valid` is kept by every byte:
the text is well-formed UTF-8 without NUL, the cursor stands between code points,
the folds are sorted, disjoint, at most sixteen, and each still covers the text it
was made for. `Typing` folds this over bytes: what any byte sequence leads to does not
depend on how it is cut, pauses inside a paste included, and the class gets exactly
there. `KeyEffects` says of every key what it does to bytes, cursor, folds and history
in those terms alone. The cursor may enter a fold; `Cursor` says exactly when.

**Streaming codecs** (`ToolText`, `TagSplitter`, `Trace`, `MtpLookup`) and
**rearrangement and hashing** (`Image`, `Sha`). Each loop is proved against an
independent definition on whole texts, with the round trip, the bijection or the
invariance under cutting the input that the code relies on.

`Basics` holds what several parts share. `dafny verify dfyconfig.toml` checks everything.

## Model

| member | source | states |
|---|---|---|
| Stages.AnnotatePrefix | q36.c:13457-13470 | cutting a history back to its first tokens leaves exactly what the worker held after them, so a rolled-back frontier is a state it really was in |
| Stages.AnnotateChunk | q36.c:13285-13322 | feeding the suffix stage a chunk of prefix rows on top of a history gives the same as having fed the whole history |
| Wire.FlagsRoundTrip | q36_distributed.c:502-504 | a WORK flag word decodes to the flags it was made from, and no undefined bit is ever set |
| Wire.RowsRoundTrip | q36_distributed.c:507-512 | rows written into a frame are the rows read from it, with exactly the announced number of words |
| Wire.HelloSplitsModel | q36_distributed.c:244-261 | when both ends accept each other's hello, the same model is split between them with no gap and no overlap, and MTP runs only where both can verify |
| Wire.Worker.ServeAllSnoc | q36_distributed.c:803-903 | serving a queue and then one more frame is serving the longer queue: it does not matter when the worker takes its turns |
| Wire.Worker.OneReplyEach | q36_distributed.c:832-882 | a worker that has failed no check has answered every frame exactly once |
| Wire.Worker.ServeAllSane | q36_distributed.c:815-888 | whatever frames arrive in whatever order, no worker session passes its context, a transaction starts after a token and holds at most eight, and only vocabulary tokens are evaluated |
| Wire.Worker.ServeTouches | q36_distributed.c:815-902 | a refused frame ends every session of the worker; an accepted one touches only the session it names, which is new, goes, keeps a beginning of its tokens or grows, and the reply says where it stands |
| Wire.Worker.OthersUntouched | q36_distributed.c:815-819 | sessions do not interfere: frames that name others change nothing about one |
| Wire.Link.Turn | q36_distributed.c:806-895 | one iteration of the worker loop changes nothing about what both queues will have led to |
| Wire.Link.Elapse | q36_distributed.c:803-903 | whatever the worker does meanwhile, and whether or not the connection breaks, the outcome of the frames already sent is the same |
| Wire.Link.Send | q36_distributed.c:166-171 | a sent frame extends that outcome by what the worker makes of it; a failed send leaves it and ends the connection, and a connection that was up can fail only by breaking |
| Wire.Link.Receive | q36_distributed.c:173-201 | a received frame is the oldest outstanding reply; while one is outstanding only a break can lose it, and waiting in vain ends the connection |
| Wire.Link.Idle | q36_distributed.c:806-814 | with no reply outstanding and no check failed the worker has nothing left to do: it holds now what it was going to hold |
| Coordinator.Stage.Eval | q36.c:13285-13322 | the prefix stage accepts only tokens of the vocabulary at its own next position inside the context, at most eight inside a transaction, and then holds the longer history and returns its rows; it refuses anything else, and nothing else unless it fails |
| Coordinator.Stage.SpecBegin | q36.c:13428-13455 | a transaction saves the frontier it starts at, and never nests |
| Coordinator.Stage.SpecCommit | q36.c:13457-13470 | a commit of n keeps the saved frontier plus the first n speculative tokens and closes the transaction; n must be between one and the number evaluated, and any such n is accepted unless the stage fails |
| Coordinator.Setup.CapFits | q36_distributed.c:450-459 | the chunk cap is positive, within the worker's cap, one for verification, and one such chunk always fits a frame |
| Coordinator.Setup.CapLargest | q36_distributed.c:450-459 | and no longer chunk would respect the count, both prefill caps, the configured chunk and the frame limit, or the single token of a verification |
| Coordinator.RingPush | q36_distributed.c:526-529 | pushing while fewer than 64 chunks are in flight overwrites no live slot of the ring |
| Coordinator.SuffixRows | q36_distributed.c:879-881 | the final rows a worker returns for a chunk are those of the whole history up to each of its tokens |
| Coordinator.AdvanceChunk | q36_distributed.c:871-882 | a worker at position lo that evaluates the next n tokens holds the longer history, and replies with all final rows, the last one, or none as asked |
| Coordinator.ServeChunk | q36_distributed.c:847-882 | a coordinator's chunk passes every id, size, position and flag check of the worker, and has that effect and that reply |
| Span.FlagsAllowed | q36_distributed.c:850-858 | every flag word the span loop makes satisfies the worker's rules for RESET, ROWS, SPEC and BEGIN in the state the worker is in |
| Span.SendServe | q36_distributed.c:498-525 | what the worker makes of the next frame of a span: the session advances by exactly its tokens and the owed rows are queued |
| Span.SendStep | q36_distributed.c:498-530 | sending the next chunk keeps the wire invariant: contiguous chunks, one owed reply for each in flight, in order, and no failed check |
| Span.ReceiveStep | q36_distributed.c:533-541 | the next reply belongs to the oldest chunk in flight, and taking it keeps the wire invariant |
| Span.ResultRows | q36_distributed.c:294-321 | a reply is accepted only if it is a result with the expected id, end position and size, and then yields exactly its rows |
| Span.OwedRows | q36_distributed.c:294-321 | the rows read from an owed reply are the owed rows |
| Span.LoadBatch | q36_distributed.c:482-495 | the next local batch is evaluated at the right position (after a reset at 0, and only there), into the host buffer, row by row; it fails only when the stage does or the tokens are not its own to evaluate |
| Span.SendChunk | q36_distributed.c:496-530 | a chunk's frame carries the rows of its own tokens; ring and wire invariants are kept and the worker fails no check |
| Span.TakeReply | q36_distributed.c:533-541 | the ring slot read is the oldest live chunk and the rows received are that chunk's rows |
| Span.FeedMtp | q36_distributed.c:542-543 | the MTP head is fed each chunk's tokens and final rows once and in order |
| Span.AbsorbPlain | q36_distributed.c:536-543 | a plain chunk's rows extend the MTP history, and the last chunk's row becomes the logits |
| Span.AbsorbVerify | q36_distributed.c:544-557 | a verified row yields the two-stage pick after its token; the first mismatch or eos stops the issue of further tokens, and rows already in flight change nothing |
| Span.AbsorbPrepared | q36_distributed.c:537-541 | an exchanged chunk's rows land in the target buffer at its own index |
| Span.SpanLoop.LoadNext | q36_distributed.c:482-495 | loading happens only when the host buffer is free and never touches rows that still have to be sent |
| Span.SpanLoop.SendNext | q36_distributed.c:496-530 | the loop's whole invariant survives a send, and the send makes progress |
| Span.SpanLoop.Take | q36_distributed.c:533-541 | the loop's invariant survives taking a reply off ring and wire |
| Span.SpanLoop.Reuse | q36_distributed.c:537-541 | a plain reply is read into the host buffer itself: it fits, and overwrites no row that still has to be sent |
| Span.SpanLoop.UsePlain | q36_distributed.c:536-543 | the loop's invariant survives using a plain reply out of the reused host buffer |
| Span.SpanLoop.UseVerify | q36_distributed.c:544-557 | the loop's invariant survives a verdict, including the one that stops it |
| Span.SpanLoop.UsePrepared | q36_distributed.c:537-541 | the loop's invariant survives storing an exchanged chunk's rows |
| Span.SpanLoop.Bounded | q36_distributed.c:467-481 | the number of chunks in flight never exceeds the window, hence never the 64 slots |
| Span.SpanLoop.Iterate | q36_distributed.c:472-569 | one iteration keeps the invariant: it sends if and only if tokens are left and the window has room, collects otherwise, and with MTP rows owed does both; it fails only with the connection or the stage, the worker still content |
| Span.SpanBody | q36_distributed.c:445-576 | the span loop terminates; on success every issued token has been evaluated once and in order on both stages, all replies are taken, and logits, target rows or verdicts are those of the tokens' own positions; on every path no worker check fails; and tokens of the vocabulary that fit are evaluated unless the connection or the stage fails or the caller cancels |
| Prefill.CatchUpBatch | q36_distributed.c:656-664 | feeding the MTP head in wire-sized pieces covers a batch once and in order |
| Prefill.Beside | q36_distributed.c:589-601 | a running exchange depends neither on the prefix stage's history nor on any buffer but its own two |
| Prefill.EvalBeside | q36_distributed.c:632-633 | the caller may evaluate the next batch at any moment of a running exchange without disturbing it |
| Prefill.StoreBeside | q36_distributed.c:632-633 | and store any of its rows at any moment, into a buffer that is neither of the exchange's |
| Prefill.Overlap | q36_distributed.c:624-654 | whatever the interleaving of the exchange's steps with the evaluation and the row-by-row stores of the caller, both end as if alone, which needs the second buffer; a failure or cancellation of the caller shuts the connection and still waits for the exchange |
| Prefill.Exchange | q36_distributed.c:624-654 | exchanging a prepared batch beside the evaluation of the next one moves the worker on by exactly that batch, brings back its rows, and leaves the next batch complete in the other buffer |
| Prefill.Round | q36_distributed.c:618-671 | one round of the overlap followed by the MTP catch-up keeps both histories and the MTP history in step |
| Prefill.PrefillSpan | q36_distributed.c:589-681 | the overlapped double-buffered prefill has the very postcondition of the plain span: same worker history, same local history, same MTP history, same logits row, and no other reasons to fail |
| Speculation.SerialLen | q36_distributed.c:760-766 | serial greedy decoding of a drafted block always consumes at least its first token and at most all of them |
| Speculation.SerialIsLongest | q36_distributed.c:544-557 | that length is the largest n such that every token after the first is the two-stage argmax after its predecessors and no earlier token is eos |
| Speculation.VerdictIsSerial | q36_distributed.c:544-557 | the verdicts collected by the pipeline, whatever its window and however many rejected tokens were in flight, determine exactly the serial length |
| Speculation.CommitCount | q36_distributed.c:760-766 | the commit loop reads that length off the verdicts |
| Speculation.CommitServed | q36_distributed.c:840-846 | a COMMIT rolls the worker back to base plus the committed tokens, and its reply names that position |
| Speculation.Commit | q36_distributed.c:767-777 | both sides end at base plus the committed tokens, the MTP history grows by exactly those, and the logits are the committed row's; it fails only with the connection or the stage, or if more tokens are committed than the stage takes at once |
| Speculation.VerifyAndCommit | q36_distributed.c:734-784 | pipelined verification followed by the commit refines serial greedy decoding, on both sides, and drafted tokens of the vocabulary that fit are verified unless something out of sight fails or the confirmed part is longer than the stage's batch |
| Pipeline.Engine.Route | q36_distributed.c:269-292 | a connection is kept, and without one an accepted hello makes one: a new generation with no session on the worker; it fails only when interrupted or when the hello does not fit |
| Pipeline.Engine.CreateSession | q36_distributed.c:383-394 | a new session gets an id of its own and coherence stays |
| Pipeline.Engine.Announce | q36_distributed.c:335-341 | announcing a session to a new worker leaves it empty there and everything else as it was |
| Pipeline.Engine.SessionReady | q36_distributed.c:328-342 | afterwards the worker of the current connection has the session: with the checkpoint if it was announced before, empty otherwise, matching the caller's decision to replay; it fails only with the connection or when the session's context exceeds the worker's |
| Pipeline.Engine.EvalSpan | q36_distributed.c:683-694 | a span extends the history on both sides and yields the logits of the whole history; for tokens of the vocabulary it fails only with the connection or the stage, or when cancelled |
| Pipeline.Engine.DistSync | q36_distributed.c:696-713 | sync ends with both sides at the prompt, from the checkpoint without emptying the stage if the worker has it, by replay from 0 otherwise; on failure, for which there must have been a reason, the connection is dropped |
| Pipeline.Engine.Sync | q36.c:11565-11595 | a successful sync publishes exactly the prompt with both sides in step, after any earlier failure, and evaluates nothing again if the checkpoint is valid, a prefix and known to the worker; a failed one leaves the old checkpoint or none, never part of one; it fails only if the prompt is empty, too long or has foreign tokens, the worker's context is too small, or a connection, a stage, a hello or the caller failed it; a connection that is up is the one used; coherence always holds |
| Pipeline.Engine.DistEval | q36_distributed.c:715-730 | eval first replays the checkpoint on a new connection, then appends one token on both sides |
| Pipeline.Engine.Eval | q36.c:11953-11976 | a successful eval publishes checkpoint plus token, without evaluating the checkpoint again if the worker has it; a failed one leaves the checkpoint's tokens; it fails only if the context is full or too large for the worker, the token is foreign, or something out of sight failed; coherence always holds |
| Pipeline.Engine.DistSpeculate | q36_distributed.c:734-784 | speculation ends with both sides at checkpoint plus the serially confirmed prefix, or with no connection |
| Pipeline.Engine.Speculate | q36.c:13535-13547 | the returned count is the serial length and the checkpoint grows by exactly those tokens, in step on both sides; otherwise the checkpoint is empty or untouched; -1 comes back only if the session is invalid, the arguments are outside the guard (no MTP, no checkpoint, 0 or more than 8 tokens, no room, foreign tokens), the worker's context is too small, the confirmed part exceeds the own prefill cap, or something out of sight failed during the call; coherence always holds |
| Pipeline.Engine.Invalidate | q36.c:12452-12465 | invalidating restores coherence whatever transaction a failed verification left open |
| Pipeline.Engine.Free | q36_distributed.c:399-411 | freeing removes the session here and on the worker, or, only if the exchange fails, drops the connection; coherence holds |
| Pipeline.Engine.AtRest | docs/DISTRIBUTED.md:188-205 | between operations the worker is idle and holds every session of this connection with the coordinator's own token history |
| Pipeline.AnyRun | docs/DISTRIBUTED.md:188-205 | every run of create, sync, eval, speculate and free on any sessions, with failures anywhere, keeps coherence; the content is the loop invariant, for any number of steps and any choice at each of them |
| Pipeline.AnyOperation | q36_distributed.c:696-784 | every single operation keeps coherence whatever its arguments |
| Pipeline.SpanHistories | q36_distributed.c:536-543 | after a whole span the prefix stage and the MTP head stand at its end |
| Pipeline.CommittedHistories | q36_distributed.c:767-777 | after a commit the MTP history is that of the committed tokens |
| Pipeline.ServeCreate | q36_distributed.c:820-834 | the worker accepts a CREATE for a new id within its context and then holds an empty session |
| Pipeline.ServeFree | q36_distributed.c:835-839 | the worker accepts a FREE for a session it holds and forgets exactly that one |
| Utf8.DecodeEncode | linenoise.c:255-271 | decoding the encoding of any scalar value gives it back, whatever follows |
| Utf8.EncodeShape | linenoise.c:213-250 | an encoding has the length its lead byte announces, continuation bytes after it, and decodes by its value bits |
| Utf8.EncodeDecode | linenoise.c:255-271 | whatever the decoder accepts is the unique encoding of the scalar value it returns |
| Utf8.CodePointsEncode | linenoise.c:255-271 | well-formed text is the encoding of its code points |
| Utf8.EncodeCodePoints | linenoise.c:255-271 | every sequence of scalar values encodes to well-formed text with these code points |
| Utf8.WellFormedAppend | linenoise.c:255-271 | well-formed texts concatenate, code points and all |
| Utf8.WellFormedRest | linenoise.c:255-271 | a code-point boundary splits well-formed text into well-formed parts |
| Utf8.JsonUtf8Valid | q36_cli.c:684-707 | the JSON writer's validator accepts exactly the texts the editor's decoder consumes without an error or an incomplete tail |
| Grapheme.DecodePrev | linenoise.c:310-328 | scanning back finds the last code point before a boundary and its length |
| Grapheme.PrevCharLen | linenoise.c:331-383 | the backward scan covers exactly the code points of the preceding cluster |
| Grapheme.NextGrapheme | linenoise.c:455-485 | the forward scan covers exactly the code points of the first cluster |
| Grapheme.StepBack | linenoise.c:331-383 | moving back over a cluster moves, and stays on a code-point boundary |
| Grapheme.StepForward | linenoise.c:387-391 | moving forward over a cluster moves, and stays on a code-point boundary |
| Clusters.WholeBack | linenoise.c:331-383 | a base with any marks, and any bases behind joiners, is one cluster for the backward scan, whatever is before it but a joiner |
| Clusters.WholeAhead | linenoise.c:455-485 | and for the forward scan, whatever is behind it but a mark or a joiner |
| Clusters.FlagPairs | linenoise.c:331-383 | two regional indicators are one cluster, and a third is not part of it |
| Clusters.ScansAgree | linenoise.c:331-391 | on such clusters the two scans cover the same bytes |
| Folds.InsertKeepsFolds | linenoise.c:1316-1330 | inserting text anywhere leaves every surviving fold sorted, disjoint and on exactly the text it was made for |
| Folds.DeleteKeepsFolds | linenoise.c:1334-1349 | so does deleting whole code points anywhere |
| Folds.InsertClear | linenoise.c:1316-1330 | no surviving fold touches the inserted text |
| Folds.AddKeepsFolds | linenoise.c:1273-1286 | adding a fold over a clear range keeps them sorted, disjoint and on their own text |
| EditLine.TypedSound | linenoise.c:1739-1757 | inserting keeps the line sound: well-formed, cursor on a boundary, folds in place |
| EditLine.ErasedSound | linenoise.c:1955-1978 | deleting between boundaries keeps the line sound |
| EditLine.NextLenBoundary | linenoise.c:1244-1255 | a cursor movement to the right goes over a whole fold or cluster, never stands still and ends on a boundary |
| EditLine.PrevLenBoundary | linenoise.c:1259-1270 | so does one to the left |
| EditLine.SkipBack | linenoise.c:1986-1990 | a backward word scan ends on a boundary, at the start of the line or at the kind of character that stops it |
| EditLine.SwapMoves | linenoise.c:2375-2380 | exchanging two neighbouring stretches is deleting one and inserting it before the other |
| EditLine.SwappedSound | linenoise.c:2366-2384 | Ctrl-T on a stretch no fold touches keeps the line sound and every fold where it is |
| EditLine.BackspaceUndoesTyping | linenoise.c:1967-1977 | backspace restores line, cursor and folds exactly after typing a code point that starts its own cluster |
| Editing.CursorEntersFold | linenoise.c:1259-1270 | after a combining mark is typed behind a fold a step to the left goes into that fold |
| Cursor.RightEntersFold | linenoise.c:1244-1255 | before a fold whose text begins with a combining mark a step to the right goes into it |
| Cursor.LeftExactly | linenoise.c:1259-1270 | from outside all folds a step to the left stays outside if and only if a fold ends at the cursor or, for every fold on the left, the cluster before the cursor has at most the code points between the fold and the cursor or at least those from its start on; one fold is not enough to look at, since a cluster may reach over a whole one |
| Cursor.RightExactly | linenoise.c:1244-1255 | the mirror image for a step to the right |
| Cursor.LeftOutside | linenoise.c:1877-1882 | the same for the key that moves left |
| Cursor.RightOutside | linenoise.c:1885-1890 | the same for the key that moves right |
| Cursor.DeletionsOutside | linenoise.c:1955-1996 | no deletion leaves the cursor inside a fold |
| Cursor.StaysOutside | linenoise.c:2342-2460 | a cursor outside all folds stays outside at every key, except for the two moves in exactly the cases above |
| Cursor.PasteOutside | linenoise.c:2182-2236 | and at every finished paste |
| Keys.AssembleSplit | linenoise.c:2286-2333 | how the bytes are cut into reads does not change the keys they make |
| Keys.AcceptableIsEncoding | linenoise.c:2305-2313 | the assembler's test accepts a finished sequence exactly when it is a scalar value's encoding |
| Keys.AssembleAllBehaves | linenoise.c:2297-2340 | whatever arrives, less than 32 bytes are held back and every text passed on is well formed and free of NUL |
| Keys.AssembleText | linenoise.c:2297-2317 | any text without control characters comes out as exactly its characters |
| Keys.SingleKey | linenoise.c:2308-2460 | a control byte is a key of its own, an ESC no sequence follows is lost, and a byte that begins no character becomes one U+FFFD |
| Keys.SequenceKey | linenoise.c:2308-2323 | an escape sequence is one key with all its bytes, however it arrives, and one that gets too long is dropped |
| Keys.TruncatedCharacter | linenoise.c:2297-2300 | a character cut short becomes one U+FFFD and costs nothing of what follows |
| Editing.Type | linenoise.c:1762-1789 | typing keeps the editor's whole invariant, whether or not the text fits |
| Editing.DeleteWord | linenoise.c:1981-1996 | deleting the previous word keeps it |
| Editing.Swap | linenoise.c:2363-2386 | Ctrl-T keeps it, whether or not it does anything |
| Editing.HistoryFold | linenoise.c:1105-1143 | the range hidden in a recalled entry is non-empty, inside it and cut at code points |
| Editing.Recall | linenoise.c:1912-1949 | history recall keeps it: the recalled entry is the whole line, with at most one fold |
| Editing.RecallReturns | linenoise.c:1912-1949 | going to a neighbouring entry and back finds the edited text again, stored in its place |
| Editing.Press | linenoise.c:2342-2460 | every key keeps the invariant, and Enter returns exactly the line and drops exactly the placeholder |
| KeyEffects.EndKeys | linenoise.c:1893-1906 | Ctrl-A and Home put the cursor at 0, Ctrl-E and End at the end, and nothing else changes |
| KeyEffects.StepKeys | linenoise.c:1877-1890 | Ctrl-B, Ctrl-F and the arrows move the cursor over exactly one fold or cluster, and nothing else changes |
| KeyEffects.EraseKeys | linenoise.c:1955-1978 | Backspace and Delete, in each of their two spellings, remove exactly the fold or cluster before or behind the cursor; folds they touch go, those behind move along, and no other changes |
| KeyEffects.KillKeys | linenoise.c:2434-2445 | Ctrl-K leaves what is before the cursor, Ctrl-U the empty line |
| KeyEffects.WordKey | linenoise.c:1981-1996 | Ctrl-W removes a run of units that do not end in a space and the run of units ending in one behind it, both as long as can be |
| KeyEffects.RunBytes | linenoise.c:1986-1990 | which without folds and in seven-bit text are runs of non-spaces and of spaces |
| KeyEffects.SwapKey | linenoise.c:2363-2386 | Ctrl-T exchanges the two units around the cursor and puts it behind them if both have at most 32 bytes and no fold touches them, and otherwise does nothing |
| KeyEffects.TypedText | linenoise.c:1739-1789 | text goes in at the cursor if the line still fits, and only folds it lands inside of go |
| KeyEffects.HistoryKeys | linenoise.c:1912-1949 | Ctrl-P, Ctrl-N and the arrows store the line where it came from and show the entry one step older or newer, if there is one, folded exactly if it has 4096 bytes or 16 lines |
| KeyEffects.HistoryHides | linenoise.c:1105-1143 | the fold hides all of a short entry, and of a long one what is left without 96 clusters at either end, or none where one of those begins with a newline |
| KeyEffects.OtherKeys | linenoise.c:2335-2460 | Enter, Ctrl-C and Ctrl-D on an empty line end the edit with line and history as they are; every key without a meaning does nothing |
| Editing.PressAll | linenoise.c:2259-2461 | every sequence of keys keeps it |
| Editing.PressAllAppend | linenoise.c:2259-2461 | keys after keys act on what the first ones left |
| Editing.TypingInserts | linenoise.c:2259-2461 | typing any text without control characters, however its bytes arrive, puts exactly that text at the cursor in one piece |
| Paste.MatchByte | linenoise.c:2160-2164 | a matching byte extends the partial terminator and no other one is possible |
| Paste.MatchFails | linenoise.c:2166-2175 | on a mismatch everything held back is payload, and the byte itself may only start a new terminator |
| Paste.MatchEnd | linenoise.c:2160-2163 | the sixth match is the first terminator in the whole stream |
| Paste.PayloadUnique | linenoise.c:2144-2180 | there is only one payload, however much of the stream is read |
| Paste.NormalizedIdempotent | linenoise.c:2194-2206 | the normalized text has no CR and normalizes to itself |
| Paste.NormalizedInverts | linenoise.c:2194-2206 | a CR-free text sent with CRLF line ends is restored exactly |
| Paste.NormalizedEach | linenoise.c:2194-2206 | anywhere in a text a CR, alone or with the LF behind it, becomes one LF, and any other byte is kept |
| Paste.NormalizedKeeps | linenoise.c:2194-2206 | apart from CR and LF no byte is lost, added or moved |
| Paste.CleanInsertable | linenoise.c:2208-2221 | what the paste check accepts may be inserted |
| Paste.CleanBytes | linenoise.c:2210-2221 | what it accepts is well-formed text without control bytes but newline and tab, without DEL, and without C1 controls |
| Paste.Normalize | linenoise.c:2194-2206 | the in-place pass computes the normalization |
| Paste.CheckClean | linenoise.c:2210-2221 | the loop accepts exactly well-formed text without terminal controls |
| Paste.TypeFolded | linenoise.c:2223-2231 | inserting and folding keeps the editor's invariant |
| Paste.Pasted | linenoise.c:2182-2236 | a finished paste keeps it, whatever was pasted |
| Paste.PastedText | linenoise.c:2182-2236 | the normalized payload stands at the cursor, as a fold of its own exactly if it has a newline or 200 bytes; but an empty payload, one of more than a MiB or than fits, one with sixteen folds on the line and one that is not clean change nothing |
| Typing.ByteIn | linenoise.c:2259-2461 | every byte, in a paste or out of it, keeps the editor's invariant and the search for the terminator |
| Typing.BytesCut | linenoise.c:2463-2469 | it does not matter how the bytes are cut, even inside a paste |
| Typing.PasteGoesOn | linenoise.c:2144-2180 | while no terminator comes a paste only grows |
| Typing.PasteEnds | linenoise.c:2144-2180 | at the first terminator it is finished with all that came before it, and the bytes behind are keys again |
| Typing.PasteThrough | linenoise.c:2259-2461 | a whole bracketed paste: what stands between the two markers is pasted, and the bytes behind are keys again |
| Typing.EnterEnds | linenoise.c:2335-2353 | Enter ends the edit with the line as it is, and the bytes behind it stay |
| Typing.FateText | linenoise.c:2342-2357 | whatever the bytes, an edit ends with a well-formed text that fits |
| Typing.BytesAreKeys | linenoise.c:2259-2461 | bytes that neither paste nor end the edit act as the keys they spell |
| Editor.Editor.constructor | linenoise.c:2022-2075 | an edit starts empty and valid, with an empty newest entry behind the given history |
| Editor.Editor.Grow | linenoise.c:1706-1732 | doubling reaches any size up to the limit and never passes it, and a fixed buffer never grows |
| Editor.Editor.AdjustAfterInsert | linenoise.c:1316-1330 | the in-place loop computes the adjusted folds |
| Editor.Editor.AdjustAfterDelete | linenoise.c:1334-1349 | so does this one |
| Editor.Editor.Insert | linenoise.c:1739-1789 | the text goes in exactly when it fits, and the new state is that of typing it |
| Editor.Editor.NextLenAt | linenoise.c:1244-1255 | the loop over the folds finds the movement to the right |
| Editor.Editor.PrevLenAt | linenoise.c:1259-1270 | and to the left |
| Editor.Editor.DeletePrevWord | linenoise.c:1981-1996 | the new state is that of deleting the word |
| Editor.Editor.OverlapsFold | linenoise.c:1303-1312 | the loop finds whether any fold touches the range |
| Editor.Editor.SwapClusters | linenoise.c:2363-2386 | the new state is that of the swap |
| Editor.Editor.FoldAdd | linenoise.c:1273-1286 | shifting from the end inserts a range at its sorted place; an empty range or a full list changes nothing |
| Editor.Editor.ContextFold | linenoise.c:1105-1143 | the two scans find the hidden range |
| Editor.CountLines | linenoise.c:1063-1069 | the count is one more than the newlines |
| Editor.Editor.HistoryNext | linenoise.c:1912-1949 | the new state is that of the recall |
| Editor.Editor.Append | linenoise.c:2113-2126 | all settled bytes are kept as long as they fit, and once they do not the paste stays overflowed |
| Editor.Editor.PasteByte | linenoise.c:2150-2180 | one byte keeps the matcher's invariant or finds the first terminator |
| Editor.Editor.FinishPaste | linenoise.c:2182-2236 | the new state is that of the finished paste |
| Editor.Editor.EditPaste | linenoise.c:2130-2236 | from any suspension point, either all waiting bytes are taken and no terminator has come, or the payload is exactly the bytes before the first one and the line is that of the finished paste |
| Editor.Editor.Dispatch | linenoise.c:2342-2460 | every control byte does what its key does |
| Editor.Editor.Key | linenoise.c:2295-2340 | one byte changes what is held back and performs exactly the keys it completes |
| Editor.Editor.Feed | linenoise.c:2259-2461 | one call keeps everything valid and acts as one byte, or as much of a paste as is there |
| Editor.Editor.FeedOn | linenoise.c:2259-2461 | one call, which takes one byte or all there is of a paste, changes nothing about where the waiting bytes lead |
| Editor.Editor.Drain | linenoise.c:2259-2461 | for every waiting byte sequence the editor ends valid exactly where its bytes lead one by one, or hands over a well-formed text that fits and leaves the bytes behind the one that ended the edit |
| Editor.Editor.FeedBytes | linenoise.c:2463-2469 | any bytes fed one at a time, pastes and the end of the edit included, lead where they would lead waiting together |
| Editor.Editor.FeedText | linenoise.c:2463-2469 | printable text that fits ends up at the cursor byte for byte |
| Render.ShownBefore | linenoise.c:1202-1237 | outside folds the cursor is shown right before the rendering of what follows it |
| Render.RenderedAround | linenoise.c:1202-1237 | around any fold: the text before it, its marker, which a cursor inside the fold is shown behind, and the text after it |
| Render.ShownMonotone | linenoise.c:1202-1237 | moving the cursor right never moves it left on the screen, nor past the rendered length |
| Render.MarkerReads | linenoise.c:1086-1099 | a marker names the number of lines of what it hides, or of bytes where that is one line |
| Render.RenderedLength | linenoise.c:1192-1200 | the size computed in the first pass is the size of what is rendered |
| Render.RenderBuffer | linenoise.c:1176-1240 | the buffer is filled exactly with the rendering, without overrun, and the cursor is its image |
| ToolText.EscapedCloseIff | q36_tool_text.h:10-15 | the test recognises exactly the spellings of an escaped delimiter, at every level of escaping |
| ToolText.PlainPrefix | q36_server.c:2515-2519 | a text without the two special characters begins the escaped text exactly when it begins the text |
| ToolText.RoundTrip | q36_tool_text.h:17-37 | decoding undoes escaping for every text and every such delimiter |
| ToolText.NoDelimiter | q36_server.c:2515-2519 | escaped text holds the delimiter nowhere |
| ToolText.FramedEnds | q36_server.c:2510-2521 | the first delimiter behind a framed parameter is the writer's own, even across the newline before it |
| ToolText.FramedRoundTrip | q36_server.c:4330-4338 | cutting there, dropping one newline at each end and decoding gives the parameter back, whatever follows |
| ToolText.UnescapeInPlace | q36_tool_text.h:21-37 | the in-place decoder leaves the decoded text and its NUL, the writer never passing the reader, and nothing behind the old end changes |
| ToolText.PartialEscapeIff | q36_tool_text.h:41-57 | a fragment is held back exactly when it is a non-empty proper prefix of some spelling |
| ToolText.StreamCarries | q36_tool_text.h:39-57 | holding such fragments back at one cut gives the decoding of the whole text |
| ToolText.FragmentsDecode | q36_tool_text.h:39-57 | for every way of splitting the input into fragments, with what is held back decoded at the end, the output is that of the whole text |
| TagSplitter.PiecesSpell | q36_cli.c:482-513 | tags and characters together spell the text: nothing is lost |
| TagSplitter.PiecesTags | q36_cli.c:482-513 | a text without '<' is characters, and a tag behind it is a tag |
| TagSplitter.Scan | q36_cli.c:498-507 | only a proper beginning of a tag is ever held back, and nothing at the end |
| TagSplitter.ScanCarries | q36_cli.c:471-515 | what was decided and held back goes on as if the text had never been cut |
| TagSplitter.ShowsExpected | q36_cli.c:433-458 | with colour exactly the thinking is seen in grey, without it nothing is, and there is one newline after it |
| TagSplitter.ExpectedRun | q36_cli.c:433-458 | what is meant to be seen: characters between tags all, grey if they are thought and there is colour; nothing for an opening tag, and for a closing one a newline unless the last character was one |
| TagSplitter.ExpectedParts | q36_cli.c:471-515 | and what comes later goes on from there |
| TagSplitter.TokenPrinter.Process | q36_cli.c:471-515 | the loop performs the decided pieces in order and holds back fewer than 16 characters |
| TagSplitter.TokenPrinter.Write | q36_cli.c:535-543 | after any fragments the screen is that of the decided part of the whole text, or of all of it as it is when formatting is off |
| TagSplitter.TokenPrinter.Finish | q36_cli.c:517-523 | at the end the screen is that of the whole text read at once, with the colour off |
| TagSplitter.TokenPrinter.Done | q36_cli.c:525-533 | and the last line is ended |
| TagSplitter.PrintTokens | q36_cli.c:471-543 | however the text is cut into tokens the reader sees, with formatting, every character outside the tags, grey exactly while thinking if there is colour, and without formatting every character as it is |
| TagSplitter.Styled | q36_eval.c:2221-2224 | text and styles have the same length |
| TagSplitter.StyledRun | q36_eval.c:2221-2224 | text before the first tag has the style the stream was started with |
| TagSplitter.StyledOne | q36_eval.c:2243-2253 | an opening tag starts the thinking style and shows nothing, a closing one ends it and shows a newline |
| TagSplitter.StyledParts | q36_eval.c:2226-2268 | and text after a tag is styled from there on |
| TagSplitter.EvalStream.AppendTokenText | q36_eval.c:2226-2268 | after every call both buffers have the same length, and a final call leaves what reading the whole text at once gives |
| Trace.ReadCount | q36_eval.c:3442-3446 | a byte count is read back from the line it was printed on |
| Trace.BoundedStrstr | q36_eval.c:3403-3412 | the search finds the first occurrence |
| Trace.TraceFile.WriteBlock | q36_eval.c:2668-2679 | a counted block is appended |
| Trace.TraceFile.WriteCase | q36_eval.c:2764-2848 | a case is appended: header, metadata, three blocks, an empty line |
| Trace.SkipsBlock | q36_eval.c:3424-3461 | the reader skips a written block whole, whatever text it holds |
| Trace.PastLines | q36_eval.c:3463-3511 | lines that avoid the markers are passed over |
| Trace.PastCase | q36_eval.c:3463-3484 | from inside a case the next case found is the next one written, whatever the prompts and the output contain |
| Trace.CutsCase | q36_eval.c:3622-3629 | a case is found where it starts and cut where the next one does |
| Trace.CopiesOutput | q36_eval.c:3544-3579 | the model output of a written case comes back byte for byte |
| Trace.FindNextCase | q36_eval.c:3463-3484 | the cursor loop finds the next case |
| Trace.FindOutputBlock | q36_eval.c:3486-3507 | the cursor loop finds the output block |
| Trace.Regrade | q36_eval.c:3617-3629 | the regrade loop cuts the file into its cases |
| Trace.RegradeUndoesTrace | q36_eval.c:3403-3629 | for any preamble and any cases the reader returns exactly the written cases and every output |
| MtpLookup.MatchLength | q36_mtp.h:19-21 | the inner loop finds how far the match reaches, sixteen at most |
| MtpLookup.BestDecides | q36_mtp.h:22-30 | what the scan ends with is the longest match of the window, ambiguous exactly when two of them go on differently |
| MtpLookup.Lookup | q36_mtp.h:9-33 | it drafts exactly when a longest match of 12 to 16 tokens exists and all of them agree; the draft is the first token and what followed, and otherwise nothing is written |
| Sha.ChainedAppend | q36_image.c:91-105 | one more block is one more compression, and the first block is one of the initial value |
| Sha.Padded | q36_image.c:107-121 | the padded message is whole blocks and begins with the message |
| Sha.FillLeast | q36_image.c:107-117 | no smaller number of zeros would fill the blocks |
| Sha.PaddedBytes | q36_image.c:107-121 | byte by byte: the message, 0x80, zeros, and the length in bits modulo 2^64 in the last eight bytes of the first block with room for it (section 5.1.1 of FIPS 180-4) |
| Sha.PaddedInjective | q36_image.c:107-121 | different messages are padded differently |
| Sha.Sha256.Update | q36_image.c:91-105 | any data joins what was hashed before, through one 64-byte buffer |
| Sha.Sha256.Final | q36_image.c:107-127 | the digest is that of the padded message, in one or two more blocks: its eight four-byte numbers are the words of the last chain value in order |
| Sha.DigestWord | q36_image.c:121-126 | word i of the chain value stands in bytes 4i to 4i + 3, the highest byte first |
| Sha.HashPieces | q36_image.c:82-127 | how the data is cut into updates does not matter |
| Image.OrientedUndone | q36_image.c:199-214 | each of the eight orientations is undone by another, so output pixels and input pixels correspond one to one |
| Image.OrientedSides | q36_image.c:201-211 | each of them is the one the tag means: the stored rows count from the side where row 0 belongs and the columns from that of column 0 (tag 274 of TIFF 6.0, section 8) |
| Image.OrientationTooLarge | q36_image.c:193-214 | a code above 8, which no caller passes, would swap the frame without moving the pixels: some pixel would fall outside exactly when the picture is not square |
| Image.OrientRgb | q36_image.c:186-220 | every output pixel is written, and its three bytes are the first three of its origin's, or the first one three times if there are fewer than three channels |
| Image.PatchOrderBijective | q36_image.c:438-461 | on even grids the patch order uses every canvas value exactly once |
| Image.CopyPatch | q36_image.c:444-453 | one patch is copied colour by colour in order |
| Image.Rearrange | q36_image.c:438-461 | the seven nested loops put at every index the canvas value it stands for, which is the one at ((16 py + y) 16 gw + 16 px + x) 3 + c |

## Left out

- Sockets, poll, timeouts, byte order and address resolution: a connection is a pair of queues that may break at any step. A worker that fails for reasons of its own answers with an error frame and hangs up, which the coordinator treats like a broken connection, and so does the model.
- GPU kernels, sampling and floating point: the two stages are uninterpreted functions of the token history, logits are represented by the row they are projected from.
- The thread that writes a frame while a reply is read: the frame is a value built before, so the two are taken in turn. The steps of the prefill exchange that Prefill.Overlap interleaves with single row stores are whole iterations of the span loop.
- The engine's recursive mutex: operations are atomic with respect to other sessions.
- 32-bit wrap-around of generations, session ids and positions; allocation failure.
- The MTP head's own speculative cache while it drafts; vision prompts; snapshots; progress and debug output.
- The worker's linked list of sessions is a map; the order of its elements plays no role.
- Terminal output, refresh, display widths, hints, the completion callback, mask mode and input that is not a terminal.
- The edit buffer, the pending key and the paste buffer are sequences reassigned by the methods; bytes beyond the used length and the separate capacity of the paste buffer are not modelled. History entries given at the start have to be well formed and fit the buffer, and history is switched on.
- Editor.Editor.Feed: reading is from the queued input only; a read from the terminal adds to that queue.
- Render.RenderBuffer: markers are not cut to their 64-byte field, which no count of at most twenty digits reaches.
- Editing.RecallReturns: cursor and folds of the line left are not restored, because the editor does not keep them.
- ToolText.StreamCarries: no caller of the withholding test is part of the repository, so the decoder that withholds is the one the header describes.
- Editor.Editor.HistoryNext: an entry longer than a fixed buffer, which the editor cuts at a byte, is excluded by the assumption above.
- Trace: the fields read for grading, the answer extractors, and traces in the older form without byte counts beyond how their output is copied.
- Sha.Sha256.Final: the compression function is a parameter, and the theorems hold for every such function.
- Image.OrientRgb: orientation codes above 8, which no caller passes, are excluded.
- Image: decoding, EXIF parsing, bicubic resizing and normalization of the canvas; pixel values are only moved. Image.OrientRgb takes the orientations its callers pass, 8 at most (`q36_jpeg_orientation`, line 176); Image.OrientationTooLarge says why no other would do.
- The key-value store, quantization, web tool, TUI, argument parsing and benchmarks, which would only add easy members.
