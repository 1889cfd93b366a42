# Verified model of the trade pipeline and its neighbours

This project models, in Dafny 4.11, the parts of the repository in which mistakes would be silent:

- **The EE.log trade pipeline.** A scanner is fed the game's log in arbitrary chunks and forgets what it thinks it
  no longer needs (`Scanner`, `Chunking`, `ChunkInvariance`, `ExactChunking`, `Grammar`, `GameLog`). A tail follows the growing,
  sometimes replaced file (`Tail`, `SessionChange`). The dialog text becomes a trade (`Dialog`, `DialogLaws`, `DialogRoundTrip`,
  `DialogFallbacks`, `Publishing`). Trades reach the server through an on-disk FIFO while writes, syncs, renames and requests fail
  (`Queue`, `Delivery`, `DeliveryLaws`, `DeliveryProgress`, `DeliveryOrder`, `ExactlyOnce`). `Pipeline` puts it all together.
- **Trees and streams with laws.** JSON paths and default filling (`JsonTree`, `JsonLaws`); the diff between two
  sweeps of an order book and the table it is written to (`OrderDiff`, `OrderRuns`); calendar units, date keys,
  grouping, and the dashboard's summary (`Calendar`, `DateKeys`, `Grouping`, `Summary`).
- **Two small protocols.** The sliding-window login limit (`LoginLimiter`), and the statistics import with the
  status it shares with its watcher (`Backfill`).

Check it with `dafny verify dfyconfig.toml`.

## How the model is built

Code that updates its state step by step is a class or a method with a loop, and its contract ties the new state to
a function of the old one. The theorems are about those functions, over every input, run or reachable state.
Markers, a codec, decoding, the local clock and every possible failure are parameters, so a theorem holds for each
choice of them.

The main results:

1. **Chunking.** However a log is cut into chunks, the same dialogs are reported, and each event whose line in front
   of START fits into the kept tail is reported with its timestamp (`ChunkingAgreesWithScanAll`). A file reports the
   same events for every chunking if and only if the line of each event it reports fits (`ChunkingIsExactIff`), and
   the same holds of all sessions over a file (`SessionsAreExactIff`). From any state a chunk may be split off from
   whatever follows without a trace if and only if its call does not cut inside a line (`SplitIsExactIff`).
   `TimestampIsLost` is the concrete loss.
2. **Meaning.** A scan reports exactly the START…END dialogs whose first following marker is SUCCESS, each with the
   bytes of its line (`ScanFollowsGrammar`). That grammar is stated on the text alone. On the game's own log, spelled
   out, a dialog is reported when the game says that the trade was successful, and not when it says otherwise
   (`GameLogIsRead`).
3. **Sessions.** All polls of a session together report what one scan of the bytes written would (`SessionIsScanAll`),
   and a new file that is noticed starts afresh (`NewSessionIsScanAll`). A poll is sure to read a file as a new one if
   and only if it is shorter than what was read, or nothing is known of an old one (`NoticedIff`);
   `UnnoticedSessionPairs` shows what can happen otherwise.
4. **Delivery.** Over every run with any failures no event is lost (`NoEventIsLost`), and each is held exactly as
   often as it was there or detected if and only if no sync failed behind a written line and no pop behind a settled
   event (`ExactlyOnceIff`). From the first byte to the server: every trade confirmed in the bytes read, over one
   session after another, is pending, queued or settled (`AllSessionsAreHeld`). The order of distinct events is kept
   over a pass (`PassKeepsOrderIff`) and over a run (`RunKeepsLineIff`) if and only if nothing is written behind a
   failed push; then what was sent is a prefix of the order of detection (`DeliveryIsFifo`). Nor does delivery stall:
   a drain goes on until the queue is empty or one of four failures ends it, each with its own wait (`DrainEnds`),
   corrupt lines are passed over (`PeekIsExact`, `CorruptLinesAreSkipped`), and after any run one turn without a
   failure, a minute later, settles everything (`EverythingIsDelivered`).
5. **Round trips.** Parsing undoes the game's rendering of a trade (`DialogRoundTrips`), through the scanner too
   (`ConfirmedTradeIsPublished`), and texts the game does not write are read as `DialogFallbacks` says; popping undoes
   pushing in the text file (`PushAppendsIff`, `PopTakesHeadIff`).
6. **JSON.** A written value is read back if and only if the walk meets only objects (`SetReadsBackIff`), and panics
   exactly as `SetPanicsIff` says; extraction to incomparable targets is total, faithful and independent of map order;
   default filling is complete, idempotent and conservative, exactly as far as `ValuesSurviveIff` says, and reports
   exactly what was missing (`MissingIff`).
7. **Orders.** The live table after any run of sweeps holds exactly what the last sweep saw, each row as first seen at
   the start of its unbroken presence (`RowIsFromStreakStart`), and every unit that came in is live or was logged as
   vanished (`QuantityIsAccountedFor`).
8. **Profit and calendar.** The summary reports exactly the transactions of its unit (`InPeriodIsUnit`), and the
   points of the graph add up to the report's profit (`ProfitIsConserved`). Filling covers a period if and only if the
   start lies no deeper in its unit than the end does, or the step is a month or a year (`FillingCoversIff`), which
   holds for every period the summary uses (`WholeUnitIsCovered`).
9. **Protocols.** No window ever holds more than `max` accepted logins, and none is refused without cause
   (`WindowHoldsAtMostMax`, `AcceptedIff`). The import's status says over every interleaving how the last import
   stands (running, done exactly when it went through its items, failed otherwise) if and only if no watcher of a task
   that panicked after recording its end writes while the status is running or done (`RunsAreSafeIff`;
   `LatePanicHidesDone` and `LatePanicBreaksSafety` are what such a write does), and `Running` ends within a bounded
   number of the import's own steps (`RunningEnds`). A second import adds rows exactly as `SecondRunAddsIff` says, and
   the days it counts are the growth of the table but for what `DaysInsertedIs` names.

Where the code and its comments differ, the model follows the code:

- `scan_all` is described as giving the result of any chunking. It does for dialogs, but for events only as
  `ChunkingIsExactIff` says.
- `set_json_value` is described as creating what it needs. It panics on a value that is not an object, and silently
  drops the write when that value is the one the last segment should go into (`SetIsDropped`).
- `validate_json` comments its recursive branch with "both sides are objects". The branch is also taken when the
  existing value is not one, and then replaces it (`ValuesSurviveIff`); the branch after it is never reached.
- `fill_missing_date_keys` is described as filling all keys between two dates. From an unaligned start it can miss
  the last one (`LastUnitIsMissed`). The summary groups by local time but fills by UTC (`GraphCoversPeriod`).

## Model

| member | source | states |
|---|---|---|
| Search.FindIsFirst | crates/qf_log_parser/src/scanner.rs:18-24 | a search returns an occurrence, passes over none, and gives up only when there is none |
| Scan.LineStart | crates/qf_log_parser/src/scanner.rs:27-29 | the start of a line is behind the last newline before it, or 0 |
| Scan.FirstHitIsFirst | crates/qf_log_parser/src/scanner.rs:72-87 | of the five markers that settle a dialog, the one acted on stands first |
| GameMarkers.GameIsWellFormed | crates/qf_log_parser/src/lib.rs:13-18 | no marker is empty, nests in another or has a newline, and START's first byte is nowhere else in any marker |
| GameLog.GameLogIsRead | crates/qf_log_parser/src/lib.rs:13-18 | in the six literal texts of the game: a dialog between START and END is reported with its line if the first text that follows is the successful one, and not if it is one of the other three or a new START |
| GameLog.GameTextsAreGame | crates/qf_log_parser/src/lib.rs:13-18 | the six markers are these texts and no others |
| ChunkInvariance.DialogIsTaken | crates/qf_log_parser/src/scanner.rs:52-69 | an idle scanner takes a whole dialog with the last line in front of it, and keeps just what follows END |
| Scan.Scanner.constructor | crates/qf_log_parser/src/scanner.rs:38-41 | a new scanner is idle with nothing buffered |
| Scan.Scanner.Reset | crates/qf_log_parser/src/scanner.rs:43-46 | afterwards the scanner is as new |
| Scan.Scanner.Feed | crates/qf_log_parser/src/scanner.rs:48-104 | the loop ends, and its events and final state are those of `AfterChunk` |
| Scan.Scanner.TakeDialog | crates/qf_log_parser/src/scanner.rs:52-69 | one idle turn: a whole dialog becomes pending with its line, or the buffer settles |
| Scan.Scanner.TakeResult | crates/qf_log_parser/src/scanner.rs:71-101 | one waiting turn: only SUCCESS reports, a new START drains nothing, or the buffer settles |
| Scan.Scanner.KeepTailFromLineStart | crates/qf_log_parser/src/scanner.rs:107-112 | the unfinished line stays, or its last KEEP_TAIL bytes |
| Chunking.FirstHitAppend | crates/qf_log_parser/src/scanner.rs:72-87 | later bytes never complete a marker in front of a complete one |
| Chunking.DriveAppend | crates/qf_log_parser/src/scanner.rs:48-104 | apart from trimming, scanning is a homomorphism: two parts in turn are the whole at once |
| ChunkInvariance.ChunkingKeepsDialogs | crates/qf_log_parser/src/scanner.rs:48-112 | from every resting state, any chunking yields the same dialogs and the same pending dialog as one call, without any bound on lines |
| ChunkInvariance.ChunkingAgrees | crates/qf_log_parser/src/scanner.rs:48-112 | from every resting state, any chunking yields one call's detections: each dialog, and each line that fits |
| ChunkInvariance.UncutChunkingIsExact | crates/qf_log_parser/src/scanner.rs:48-112 | without a cut inside a line, events with timestamps, buffer and pending dialog are those of one call |
| ChunkInvariance.UncutSplitIsExact | crates/qf_log_parser/src/scanner.rs:48-112 | two calls are one call when the first does not cut inside a line |
| ChunkInvariance.CutShows | crates/qf_log_parser/src/scanner.rs:107-112 | after a cut, START arriving next is kept with less of its line |
| ChunkInvariance.SplitIsExactIff | crates/qf_log_parser/src/scanner.rs:48-112 | a chunk splits off from every continuation without a trace if and only if its call does not cut inside a line |
| ChunkInvariance.ChunkingIsScanAll | crates/qf_log_parser/src/lib.rs:115-117 | if the line of each reported dialog fits, every chunking reports the events of the one-shot scan, whatever other lines there are |
| ChunkInvariance.ChunkingAgreesWithScanAll | crates/qf_log_parser/src/lib.rs:114-117 | for every file and chunking, the one-shot scan's dialogs, and each of its events whose line fits |
| ExactChunking.ChunkingIsExactIff | crates/qf_log_parser/src/lib.rs:114-117 | a file's events are the same for every chunking if and only if the line of each reported one fits into KEEP_TAIL with all but one byte of START |
| ExactChunking.SplitShows | crates/qf_log_parser/src/scanner.rs:107-112 | otherwise a split inside that START reports something else |
| ChunkInvariance.ChunkingDialogsAreScanAll | crates/qf_log_parser/src/lib.rs:115-117 | for every file, every chunking reports the dialogs of the one-shot scan in order |
| ChunkInvariance.AfterChunkRests | crates/qf_log_parser/src/scanner.rs:48-112 | after every call: idle with a START and no END after it, or no START, no newline and at most KEEP_TAIL bytes |
| ChunkInvariance.CutLosesTimestamp | crates/qf_log_parser/src/scanner.rs:107-112 | a dialog on a line longer than KEEP_TAIL is reported with only the kept bytes of its line when a chunk ends in front of START |
| Grammar.ScanFollowsGrammar | crates/qf_log_parser/src/scanner.rs:48-104 | a scan reports exactly the confirmed dialogs of the whole text, in order, with their lines |
| Grammar.FollowerIsUnique | crates/qf_log_parser/src/scanner.rs:72-87 | a dialog has at most one verdict |
| Grammar.NoStartInResult | crates/qf_log_parser/src/lib.rs:13-18 | START overlaps no result marker, so dialogs can be found before verdicts |
| Grammar.VerdictIsFinal | crates/qf_log_parser/src/scanner.rs:88-101 | a dialog followed by failed, cancelled, accept-failed or a new START is never confirmed by anything appended |
| Grammar.AppendingAddsEvents | crates/qf_log_parser/src/scanner.rs:48-104 | a longer file's events start with the shorter file's |
| TailLog.Tail.StartAtEnd | crates/qf-helper/src/ee_log.rs:19-22 | the offset is the file's length, or 0 without a file |
| TailLog.Tail.Poll | crates/qf-helper/src/ee_log.rs:31-72 | events, offset, scanner and warning after a poll, with every failing call |
| TailLog.SessionFeeds | crates/qf-helper/src/ee_log.rs:51-71 | the scanner is fed exactly the bytes the offset moves over |
| TailLog.SessionIsScanAll | crates/qf-helper/src/ee_log.rs:31-72 | for every interleaving of appends and polls, all results together are the scan of the bytes read: every dialog, and every event whose line fits |
| TailLog.SessionsAreExactIff | crates/qf-helper/src/ee_log.rs:31-72 | all sessions that read a file to its end report the one-shot scan's events if and only if the lines of these fit |
| TailLog.LastPollReadsAll | crates/qf-helper/src/ee_log.rs:51-71 | a readable poll at the file's full length has read everything |
| TailLog.ResetForgets | crates/qf-helper/src/ee_log.rs:34-50 | a poll that notices a new session acts as a tail that never read anything |
| TailLog.NewSessionIsScanAll | crates/qf-helper/src/ee_log.rs:28-50 | after a noticed shrink or disappearance the results are the scan of the new file from byte 0: no dialog pairs across it |
| TailLog.UnnoticedSessionPairs | crates/qf-helper/src/ee_log.rs:46-50 | a new file at least as long is not noticed, and its SUCCESS confirms the old file's dialog |
| SessionChange.NoticedIff | crates/qf-helper/src/ee_log.rs:46-53 | from a resting state, a poll reads every file of a length as a fresh tail would if and only if it is shorter than what was read or the tail is fresh |
| SessionChange.ScannerShows | crates/qf_log_parser/src/scanner.rs:48-112 | a resting scanner that is not as new answers some chunk of each length differently |
| Dialog.StripGlyphs | crates/qf_log_parser/src/lib.rs:52-55 | the result is the text without its trailing private-use run, which it fully removes |
| Dialog.ParsePieces | crates/qf_log_parser/src/lib.rs:80-90 | the loop that updates quantities in place computes the merge of the parsed pieces |
| DialogLaws.MergingIsFaithful | crates/qf_log_parser/src/lib.rs:80-90 | names with ranks come out once, in first-appearance order; the totals are exact if and only if each of them fits into 64 bits |
| DialogRoundTrip.PieceParses | crates/qf_log_parser/src/lib.rs:58-78 | platinum, icon ranks, suffix ranks and plain names parse back from their rendering |
| DialogRoundTrip.SuffixRankFound | crates/qf_log_parser/src/lib.rs:68-76 | a `(WORD RANK n)` suffix gives its rank and its name, whatever the word |
| DialogRoundTrip.SideParses | crates/qf_log_parser/src/lib.rs:80-90 | one rendered side, a piece a unit, parses to its items |
| DialogRoundTrip.DialogRoundTrips | crates/qf_log_parser/src/lib.rs:93-103 | parsing a rendered trade gives the same trade |
| DialogFallbacks.LinesArePieces | crates/qf_log_parser/src/lib.rs:80-83 | each line is a piece without the white space around it; a blank line is none |
| DialogFallbacks.NumbersAreRead | crates/qf_log_parser/src/lib.rs:61-72 | a number is read with any sign and leading zeros if it fits into 64 bits |
| DialogFallbacks.OthersAreNot | crates/qf_log_parser/src/lib.rs:61-72 | no other text is read as a number |
| DialogFallbacks.PlatinumIsRead | crates/qf_log_parser/src/lib.rs:60-62 | platinum counts by its amount, and as one where the amount is unreadable |
| DialogFallbacks.UnclosedIsName | crates/qf_log_parser/src/lib.rs:68-77 | a text not closed by a parenthesis is all name |
| DialogFallbacks.UnreadableRankIsName | crates/qf_log_parser/src/lib.rs:68-77 | so is one whose rank is not a number |
| DialogFallbacks.OnlyOffered | crates/qf_log_parser/src/lib.rs:93-103 | without the first separator everything is offered, to nobody |
| DialogFallbacks.OnlyPlayer | crates/qf_log_parser/src/lib.rs:93-103 | without the second one what follows the first is the player's name |
| Publishing.FirstWordIs | crates/qf_log_parser/src/scanner.rs:32-35 | the timestamp is the first word of the line |
| Publishing.ConfirmedTradeIsPublished | crates/qf_log_parser/src/lib.rs:115-117 | a log that shows a rendered trade and its success is published as exactly that trade with the line's timestamp |
| Publishing.EveryChunkingPublishesTheSameTrades | crates/qf_log_parser/src/scanner.rs:91-97 | whatever the chunking, the same trades are published in order, and an event whose line fits with the same timestamp and id |
| Publishing.TimestampIsLost | crates/qf_log_parser/src/scanner.rs:32-35 | where the kept tail of a long line begins with another word, the published timestamp differs between two chunkings |
| TradeQueue.PushAppendsIff | crates/qf-helper/src/queue.rs:35-57 | appending a line adds that one entry if and only if the file is empty or newline-ended |
| TradeQueue.FileOfLines | crates/qf-helper/src/queue.rs:78-81 | splitting undoes joining, up to a carriage return at a line's end |
| TradeQueue.PopTakesHeadIff | crates/qf-helper/src/queue.rs:72-88 | the rewritten file holds exactly the tail if and only if none of its entries ends in a carriage return, and is newline-ended |
| TradeQueue.PushedIsTidy | crates/qf-helper/src/queue.rs:43-57 | a push keeps the file empty or newline-ended and adds one entry |
| TradeQueue.PoppedIsTidy | crates/qf-helper/src/queue.rs:72-88 | a pop keeps the file empty or newline-ended and removes the first entry |
| TradeQueue.PeekIsExact | crates/qf-helper/src/queue.rs:59-70 | behind `n` unreadable lines: peeking fails if and only if one of the `n + 1` reads or `n` removals fails, and then the lines before are gone; otherwise the `n` lines are gone and the answer is the readable line behind them, or that there is none |
| TradeQueue.CorruptLinesAreSkipped | crates/qf-helper/src/queue.rs:58-70 | without a failure peeking gives the first readable entry, and says the queue is empty if and only if it has none: corrupt lines do not wedge it |
| TradeQueue.Queue.Push | crates/qf-helper/src/queue.rs:43-57 | one line is appended even when the sync fails; nothing when it could not be written |
| TradeQueue.Queue.Pop | crates/qf-helper/src/queue.rs:72-88 | at any failure or crash the file is the old one or its tail, never in between |
| TradeQueue.Queue.Peek | crates/qf-helper/src/queue.rs:59-70 | the loop ends, and on a file that the queue wrote its answer and the entries left are those of `PeekOf`, which `PeekIsExact` pins |
| Delivery.Helper.Persist | crates/qf-helper/src/trade.rs:118-129 | pending events are appended in order; those whose push failed stay pending |
| Delivery.Helper.TryOldest | crates/qf-helper/src/trade.rs:146-166 | one attempt has the outcome and state of `Attempted`, whose cases `AttemptIs` spells out |
| Delivery.Helper.Drain | crates/qf-helper/src/trade.rs:145-167 | the inner loop ends, with the queue and history of `Drained`, which `DrainEnds` pins |
| Delivery.Helper.Turn | crates/qf-helper/src/trade.rs:138-168 | one turn of the outer loop: detect, persist, and drain unless waiting |
| DeliveryProgress.AttemptIs | crates/qf-helper/src/trade.rs:146-166 | an accepted or dropped event is settled, and draining goes on exactly when it was popped too; a refused key stops it for 60 s, a failed request, peek or pop for 10 s, an empty queue without a wait |
| DeliveryProgress.DrainEnds | crates/qf-helper/src/trade.rs:145-167 | every drain settles its first events in order, one an attempt, and ends with the queue empty or with one of the four failures, each with what it sent and settled, what it left and its wait |
| DeliveryProgress.DrainDeliversAll | crates/qf-helper/src/trade.rs:145-167 | a drain without a failure empties the queue, and sends and settles its readable events in order |
| DeliveryProgress.TurnWaits | crates/qf-helper/src/trade.rs:138-168 | a turn drains unless the wait lasts; either way what it detected is queued behind what was pending |
| DeliveryProgress.TurnDeliversAll | crates/qf-helper/src/trade.rs:138-168 | a turn without a failure and with no wait left settles the queue, then what was pending, then what it detected, and leaves nothing |
| DeliveryProgress.EverythingIsDelivered | crates/qf-helper/src/trade.rs:132-172 | after any run with any failures, one turn without a failure a minute after the last attempt leaves nothing behind and has settled every event there ever was |
| DeliveryLaws.NoEventIsLost | crates/qf-helper/src/trade.rs:116-172 | over every run with any failures, each event is pending, queued or settled at least as often as it was detected |
| DeliveryLaws.OnlyFinalOutcomesRemove | crates/qf-helper/src/trade.rs:30-41 | rejected and failed outcomes settle and remove nothing |
| ExactlyOnce.ExactlyOnceIff | crates/qf-helper/src/trade.rs:116-172 | over every run each event is held exactly as often as it was there or detected if and only if no sync failed behind a written line and no pop behind a settled event |
| ExactlyOnce.PassSplitsIff | crates/qf-helper/src/trade.rs:118-129 | a pass writes or keeps each event, and both exactly when its sync failed |
| DeliveryLaws.PassKeepsOrderIff | crates/qf-helper/src/trade.rs:118-129 | a pass over distinct events, which may stand in the queue already, keeps their order if and only if it writes nothing behind a failed push |
| DeliveryLaws.RunKeepsLine | crates/qf-helper/src/trade.rs:132-172 | if no pass writes behind a failed push, what was sent, then the queue, then what is pending is always the initial line and the detections in order, repeats taken together |
| DeliveryOrder.RunKeepsLineIff | crates/qf-helper/src/trade.rs:116-172 | over every run of distinct events that order is kept if and only if no pass writes behind a failed push |
| DeliveryOrder.FifoIff | crates/qf-helper/src/trade.rs:116-172 | from a queue of distinct events the line stays the queue followed by the detections if and only if no pass writes behind a failed push |
| DeliveryOrder.RunStaysOvertaken | crates/qf-helper/src/trade.rs:132-172 | an event once overtaken in the queue stays behind over any run |
| DeliveryLaws.DeliveryIsFifo | crates/qf-helper/src/trade.rs:132-172 | what was sent, repeats taken together, is a prefix of the initial queue followed by the detections |
| Pipeline.Turn | crates/qf-helper/src/trade.rs:138-168 | one turn from the poll, with the clock read at each event, to the drained queue |
| Pipeline.TickTells | crates/qf-helper/src/trade.rs:139-141 | one event for each detection, in order, with its id and trade and the clock read at it |
| Pipeline.ConfirmedTradesAreHeld | crates/qf-helper/src/trade.rs:132-172 | of every confirmed dialog in the bytes a session read there is an event with its trade, in order, that is pending, queued or settled, whatever fails |
| Pipeline.AllSessionsAreHeld | crates/qf-helper/src/trade.rs:132-172 | the same over a first session and any number of noticed ones, and no other events are made |
| JsonTree.SetJsonValue | crates/utils/src/helper.rs:640-662 | the walk with a moving cursor over a dotted path computes `Set` on its segments, panics included |
| JsonTree.GetJsonValue | crates/utils/src/helper.rs:612-621 | the walk over a dotted path computes `Get` on its segments |
| JsonTree.SegmentsJoin | crates/utils/src/helper.rs:641 | a dotted path splits into segments without dots that join to it again |
| JsonTree.SegmentsAreUnique | crates/utils/src/helper.rs:641 | no other segments without dots join to it |
| JsonLaws.SetReadsBackIff | crates/utils/src/helper.rs:640-662 | a written value is read back if and only if the walk meets only objects or gaps |
| JsonLaws.SetIsDropped | crates/utils/src/helper.rs:659-661 | a write into a value that is not an object is lost without a panic |
| JsonLaws.SetPanicsIff | crates/utils/src/helper.rs:640-662 | a write panics if and only if a value in front of the last one on its way is not an object; where only the last one is not, nothing changes |
| JsonLaws.SetKeepsOthers | crates/utils/src/helper.rs:640-662 | reads at incomparable paths do not change |
| JsonLaws.SetsCommute | crates/utils/src/helper.rs:640-662 | writes to incomparable paths commute |
| JsonTree.ExtractJsonValues | crates/utils/src/helper.rs:690-703 | the loop over the mapping of dotted paths, in its order, computes `Extract` |
| JsonLaws.ExtractionIsFaithful | crates/utils/src/helper.rs:690-703 | with incomparable targets extraction never panics and every found source value is at its target |
| JsonLaws.ExtractionIgnoresOrder | crates/utils/src/helper.rs:690-703 | with incomparable targets the map's iteration order does not matter |
| JsonLaws.LastMoveIsWrittenLast | crates/utils/src/helper.rs:690-703 | with any targets the moves are written in turn: a missing source is passed over, and the first panic ends it |
| JsonTree.ValidateJson | crates/utils/src/helper.rs:373-418 | the loop over the required keys, in any order, computes the filled tree and the missing paths |
| JsonLaws.MissingIff | crates/utils/src/helper.rs:373-418 | a path is reported missing if and only if it is required and absent while the place it belongs in is there |
| JsonLaws.DefaultsFillGaps | crates/utils/src/helper.rs:388-392 | wherever an object input has nothing, the result reads as the defaults do |
| JsonLaws.RequiredPathsExist | crates/utils/src/helper.rs:373-418 | every required path exists in the result, whatever the input is |
| JsonLaws.UnchangedIffNothingMissing | crates/utils/src/helper.rs:373-418 | an object lacks nothing if and only if it comes back unchanged |
| JsonLaws.SecondPassFindsNothing | crates/utils/src/helper.rs:373-418 | a second pass finds nothing missing |
| JsonLaws.ValuesSurviveIff | crates/utils/src/helper.rs:388-411 | a value that is not an object survives if and only if no sub-key is required below it |
| OrderDiff.DiffOrders | crates/qf_core/src/collector/diff.rs:102-124 | the loops compute `DiffOf`, whose three parts the rows below pin by fields, with their order |
| OrderDiff.DiffIsPointwise | crates/qf_core/src/collector/diff.rs:106-122 | the orders are taken one by one: new, changed and vanished stand in the order of the listing |
| OrderDiff.LastCounts | crates/qf_core/src/collector/diff.rs:103 | of several orders with one id the last is the one compared with |
| OrderDiff.AppearedIs | crates/qf_core/src/collector/diff.rs:107-108 | new are exactly the current orders whose id was not known |
| OrderDiff.ChangedIs | crates/qf_core/src/collector/diff.rs:109-114 | by fields: a change is recorded if and only if a current order with a known id has another price or quantity than its old row; it holds that row, and the order with the old first-seen time |
| OrderDiff.VanishedIs | crates/qf_core/src/collector/diff.rs:118-122 | vanished are exactly the previous orders whose id is not current |
| OrderDiff.PatchGivesCurrent | crates/qf_core/src/collector/store.rs:243-286 | writing the diff leaves exactly the current ids, prices and quantities, the rest of each row as first seen |
| OrderDiff.QuantityIsConserved | crates/qf_core/src/collector/diff.rs:102-124 | total quantity changes by new minus vanished plus the edits |
| OrderRuns.ToSeenIsVisible | crates/qf_core/src/collector/diff.rs:54-68 | a sweep's rows are exactly its visible orders, stamped with its time |
| OrderRuns.ToSeenConcat | crates/qf_core/src/collector/diff.rs:54-68 | they stand in the order of the response |
| OrderRuns.Store.ApplySweep | crates/qf_core/src/collector/store.rs:243-286 | rows and vanish log after one transaction |
| OrderRuns.Store.DeleteVanished | crates/qf_core/src/collector/store.rs:247-250 | every vanished row is deleted and logged in full |
| OrderRuns.Store.UpdateChanged | crates/qf_core/src/collector/store.rs:252-265 | edited rows get the new price and quantity only; a drop is logged as partial |
| OrderRuns.Store.InsertAppeared | crates/qf_core/src/collector/store.rs:266-286 | new orders are inserted or replace |
| OrderRuns.SweepIsLogged | crates/qf_core/src/collector/store.rs:247-265 | by fields: first each vanished order with its own quantity, in full, then, for exactly the quantity drops, the row from before with the amount of the drop, as partial |
| OrderRuns.RowIsFromStreakStart | crates/qf_core/src/collector/diff.rs:54-124 | over any run of sweeps a live row is what the first sweep of its unbroken presence saw, at the latest price and quantity |
| OrderRuns.LiveHasStreak | crates/qf_core/src/collector/diff.rs:102-124 | every live row has such a presence up to the last sweep |
| OrderRuns.NotSeenIsNotLive | crates/qf_core/src/collector/diff.rs:118-122 | an order the last sweep did not see is not live |
| OrderRuns.QuantityIsAccountedFor | crates/qf_core/src/collector/store.rs:243-286 | over any run every unit that came in is live or logged as vanished |
| Calendar.SecondsOrder | crates/utils/src/grouping.rs:126-180 | civil order is the order of seconds, leap years included, and no second has two names |
| Calendar.EverySecond | crates/utils/src/grouping.rs:126-180 | every whole second has a civil name |
| Calendar.MonthsStart | crates/utils/src/grouping.rs:126-166 | the months of a year, leap or not, start where the Gregorian calendar has them |
| Calendar.StepsAdd | crates/utils/src/grouping.rs:47-49 | carrying over days, months and years adds exactly an hour or a day |
| Calendar.UnitIsInterval | crates/utils/src/grouping.rs:122-182 | a unit's start and end enclose exactly the seconds that share its fields |
| Calendar.UnitsAbut | crates/utils/src/grouping.rs:122-182 | the next unit starts one second after this one ends, December and February included |
| Calendar.StepKeepsOffset | crates/utils/src/grouping.rs:48-73 | an hour or day step keeps the offset in the unit, a month or year step drops it; every step moves on |
| DateKeys.GenerateDateKey | crates/utils/src/grouping.rs:109-120 | the loop over the levels joins their padded fields |
| DateKeys.KeyJoins | crates/utils/src/grouping.rs:109-120 | a key is its single levels' keys in the given order, joined by dashes |
| DateKeys.PaddedSpells | crates/utils/src/grouping.rs:109-120 | a padded field spells its value in decimal, in at least its width and in more only where needed |
| DateKeys.KeySpells | crates/utils/src/grouping.rs:109-120 | from year 0 to 9999 a year-first key reads `YYYY-MM-DD-HH:00`, as far as its levels go, each field by its decimal value |
| DateKeys.SameUnitSameKey | crates/utils/src/grouping.rs:109-120 | times in one unit of the most granular level share a key |
| DateKeys.KeyTellsUnit | crates/utils/src/grouping.rs:109-120 | a year-first key names exactly one unit, in any year |
| DateKeys.KeysAreChronological | crates/utils/src/grouping.rs:109-120 | from year 0 to 9999 text order of year-first keys is time order |
| Grouping.GroupBy | crates/utils/src/grouping.rs:78-90 | the loop computes `Grouped` |
| Grouping.GroupsAreExact | crates/utils/src/grouping.rs:78-90 | a group is exactly the items of its key, in order, and none is empty |
| Grouping.FillMissingDateKeys | crates/utils/src/grouping.rs:34-76 | the loop ends, with the groups of `Filled` |
| Grouping.FillKeepsGroups | crates/utils/src/grouping.rs:42-44 | filling changes no group and adds only empty ones |
| Grouping.NoLevelsAddOne | crates/utils/src/grouping.rs:34-76 | without levels only the empty key is added, if the period is not empty |
| Grouping.FillingCovers | crates/utils/src/grouping.rs:34-76 | where the last unit is reached, the keys are the old ones and those of every instant of the period |
| Grouping.OnlyLastIsMissed | crates/utils/src/grouping.rs:34-76 | at any levels and over any groups no key is missed but perhaps the last unit's |
| Grouping.FillingCoversAnyIff | crates/utils/src/grouping.rs:34-76 | at any levels and over any groups the period is covered if and only if the last unit is reached, or its key was there or is a position's |
| Grouping.FillingCoversIff | crates/utils/src/grouping.rs:34-76 | for year-first keys the period is covered if and only if the start lies no deeper in its unit than the end, or the step is a month or a year |
| Grouping.LastUnitIsMissed | crates/utils/src/grouping.rs:42-49 | otherwise the last unit's key is missing |
| Grouping.WholeUnitIsCovered | crates/qf_core/src/helper.rs:37-44 | the period of any unit is covered at any levels |
| Summary.ReportAddsUp | crates/entity/src/dto/financial_report.rs:138-187 | sales and purchases make up all transactions, and profit is revenue minus expenses |
| Summary.ReportMore | crates/entity/src/dto/financial_report.rs:138-187 | one more transaction moves each count, each sum and the total as its kind says, and nothing else; without any, all are 0 |
| Summary.ProfitMore | crates/entity/src/dto/financial_report.rs:138-187 | one more transaction moves the profit by its price, up for a sale and down for a purchase |
| Summary.GraphFrom | crates/entity/src/dto/financial_graph.rs:18-34 | one point a group, labels strictly ascending, values extracted from their groups |
| Summary.GraphIsUnique | crates/entity/src/dto/financial_graph.rs:18-34 | the graph does not depend on the hash map's order |
| Summary.GraphIsChronological | crates/entity/src/dto/financial_graph.rs:29-31 | year-first labels stand in time order |
| Summary.GenerateTransactionSummary | crates/qf_core/src/helper.rs:30-50 | the report of exactly the transactions made in the unit of the date, and a graph whose points add up to its profit |
| Summary.InPeriodIsUnit | crates/qf_core/src/helper.rs:37-40 | the filter takes each transaction that shares the date's unit, as often as it occurs, and no other |
| Summary.ProfitIsConserved | crates/qf_core/src/helper.rs:30-50 | for any transactions, period, levels and local clock the points add up to the report's profit |
| Summary.GraphCoversPeriod | crates/qf_core/src/helper.rs:37-44 | the labels are the keys of the period's instants and of its transactions' local dates |
| LoginLimits.LoginLimiter.TryAcquire | crates/qf-server/src/auth.rs:54-65 | the loop drops what is older than the window, then accepts below `max` |
| LoginLimits.EvictStops | crates/qf-server/src/auth.rs:57-59 | whatever the clock does, eviction drops the attempts older than the window up to the first one that is not |
| LoginLimits.EvictKeepsWindow | crates/qf-server/src/auth.rs:57-59 | eviction loses nothing a later window could hold, and keeps as many as the window holds now |
| LoginLimits.MemorySuffices | crates/qf-server/src/auth.rs:54-65 | what is remembered counts as everything accepted does, for every window from now on |
| LoginLimits.AcceptedIff | crates/qf-server/src/auth.rs:54-65 | an attempt is accepted if and only if fewer than `max` accepted ones lie in the window before it |
| LoginLimits.WindowHoldsAtMostMax | crates/qf-server/src/auth.rs:43-65 | over any run no closed interval as long as the window holds more than `max` accepted attempts |
| Backfill.OnlyMissingDaysComeIn | crates/qf_core/src/collector/backfill.rs:79-97 | existing rows stay as they are, every day has a row, no other row comes in |
| Backfill.FirstDayIsStored | crates/qf_core/src/collector/backfill.rs:84-93 | of several days of one item, subtype and date the first is stored, field by field |
| Backfill.Importer.InsertMissing | crates/qf_core/src/collector/backfill.rs:80-97 | all days or none, and the number of rows added |
| Backfill.Importer.Import | crates/qf_core/src/collector/backfill.rs:220-234 | one item's outcome; rows stay inserted when a later write fails |
| Backfill.Importer.Run | crates/qf_core/src/collector/backfill.rs:204-272 | final status and table of a whole run |
| Backfill.RunAccountsForItems | crates/qf_core/src/collector/backfill.rs:204-272 | a run is done if and only if it had items; then done is total is imported plus missing plus failed |
| Backfill.DaysInsertedIs | crates/qf_core/src/collector/backfill.rs:220-238 | the days counted are the growth of the table, less the days of items behind whose insertion a later write failed |
| Backfill.StatusTells | crates/qf_core/src/collector/backfill.rs:206-262 | start and end time, and the last error: that of the last item that failed, or that there were no items |
| Backfill.RowsSurvive | crates/qf_core/src/collector/backfill.rs:79-97 | no run alters an existing row |
| Backfill.RowsAfterRun | crates/qf_core/src/collector/backfill.rs:204-272 | the rows after a run are those before it and the days it wrote |
| Backfill.SecondRunAddsIff | crates/qf_core/src/collector/backfill.rs:79-97 | a second run adds rows if and only if it writes a day the first neither found nor wrote |
| Backfill.SameResponsesAddNothing | crates/qf_core/src/collector/backfill.rs:204-272 | with the same items and responses a second run adds no row and counts none, if the database took every series the first time |
| BackfillProtocol.StepKeepsSafeIff | crates/qf_core/src/collector/backfill.rs:155-309 | the one step that makes a safe world unsafe is a late panic's watcher overwriting a running or done status |
| BackfillProtocol.RunsAreSafeIff | crates/qf_core/src/collector/backfill.rs:155-309 | over every interleaving: at most one live import, running exactly while there is one, done exactly when the last one went through its items, with all of them accounted for, if and only if no such watcher strays |
| BackfillProtocol.UndisturbedRun | crates/qf_core/src/collector/backfill.rs:204-295 | the updates of one import, left alone, end in the status that `Importer.Run` computes |
| BackfillProtocol.RunningMakesProgress | crates/qf_core/src/collector/backfill.rs:297-309 | a live import can always take its next step, which brings it nearer its end, and a panicked one is one step from failed |
| BackfillProtocol.RunningEnds | crates/qf_core/src/collector/backfill.rs:204-309 | over every run, while it is running the live import and its watcher take fewer steps than a bound set when it was first seen, and no other step touches it |
| BackfillProtocol.StartIsRefusedIff | crates/qf_core/src/collector/backfill.rs:275-295 | a start is refused, and changes nothing, if and only if an import is live |
| BackfillProtocol.LatePanicHidesDone | crates/qf_core/src/collector/backfill.rs:259-309 | an import that went through its items is shown as failed by a late panic's watcher |
| BackfillProtocol.LatePanicBreaksSafety | crates/qf_core/src/collector/backfill.rs:259-309 | a run in which such a watcher lets a third import start beside the second |

## Left out

- Decoding and ids: lossy UTF-8 decoding and the digest behind `event_id` are arbitrary functions of complete slices (`Publishing`).
- JSON text: the queue's codec is any pair that round-trips and whose output is a single line; section 7 of RFC 8259 has control characters in strings escaped.
- Delivery.Helper: starts from a queue file as the queue itself leaves it. A file that someone else cut in the middle of a line is covered by `PushAppendsIff` and `PopTakesHeadIff` only.
- Partial writes of a queue line: an append is all or nothing. A queue file that is not UTF-8 is a failing read.
- TradeQueue.Queue.Push: creating the directory, encoding, opening and writing fail alike, as "not written".
- Delivery.Helper.Turn: what the tail detects in a turn is a parameter, which `Pipeline` takes from the polls; the answers of the server and the times are parameters throughout, and messages are not modelled.
- DialogRoundTrip.DialogRoundTrips: asks that the text be unambiguous, i.e. that no piece contains the words that separate the sides and no player name those behind it.
- Dialog.ParsePieces: quantities wrap around as in an optimised build; a debug build panics instead.
- JsonTree.SetJsonValue: the tree is a value and the cursor a path of enclosing objects; aliasing is not captured.
- JsonTree.ValidateJson: missing paths are a set of key sequences; their dotted form and order are not modelled.
- The HTTP request: which statuses and errors count as accepted, rejected, dropped or failed (crates/qf-helper/src/trade.rs:72-95) is a parameter of each attempt.
- Real clocks: times are parameters. Calendar times are whole seconds, so an instant within the last second of a period is outside.
- Local time: the local clock is an arbitrary function of UTC time, so coverage is stated in UTC.
- Years outside the range of the date library, where the source panics.
- Summary.ProfitMore: profits are unbounded integers. Averages, margins, extremes and the properties of the report are floating point or presentation and are not modelled.
- Sorting: the standard library's sort of the graph's entries is an insertion sort.
- Order summaries (`summarize`), the pending and gap labels of vanished orders and the other tables a sweep writes: they add no law.
- OrderRuns.RowIsFromStreakStart: asks that one response does not list a visible order twice.
- The database is a map; a transaction commits or leaves the table alone.
- Retries of a fetch, rate limits and parsing of the statistics: an item's fetch is a parameter.
- Login sessions, cookies, HTTP, websockets, the web UI, icons and log formatting.
