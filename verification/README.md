# Verified model of the study app's stateful components

The application streams tutor replies, keeps logs of running turns, delivers announcements, limits request
rates and grades practice tests. This project models the parts of it that carry state from one call to the
next, and proves what they promise over every input and every run. It verifies with
`dafny verify dfyconfig.toml` (Dafny 4.11).

| files | component |
|---|---|
| `UiStream`, `UiSplit`, `Cards` | the filter that keeps study-card fences out of a streamed reply, what is saved of the reply, the ids of its cards |
| `Push`, `PushRuns`, `PushDrain`, `PushService`, `Inbox` | announcements, deliveries and shared subscriptions: the tables, what holds on every run, one drain as a run, the services, the inbox notices |
| `RunLog`, `Replay`, `Polling`, `Reconnect`, `RunHub` | the event log of a turn, its stored copy, live and polling readers, clients that reconnect, the registry of runs |
| `ToolLog`, `ToolRuns`, `ToolFold`, `ToolTracker` | the tool lines of a turn, live and rebuilt from the log, and the text and cards rebuilt with them |
| `RateLimit`, `RateBound` | the in-memory rate limiter and how much it lets pass |
| `Ids`, `Numerals` | ids and the numerals they are made of |
| `PracticeExit` | the graded test that completes a lesson |
| `SeedCatalogue` | seeding levels and topics from a curriculum |
| `StreamControl` | stop requests for running streams |
| `Retrieval`, `StableSort` | finding, grading, rewriting and ranking documents for an answer |
| `Guardrails` | turning a guard assessment into an action |
| `Text`, `Wrappers` | string operations and result types |

Code that updates fields is modelled as classes whose methods are proved against a function on values; the
theorems are about those functions, over all runs. Inputs that come from outside (clocks, random numbers, the
push gateway, the database accepting a write, model grades, search results) are parameters and may be anything.

## What the proofs show about the code

Most properties hold as the code and its documentation say. These hold only under a condition or differ from the
documentation. The condition is proved to be exact, and for the limiter's bound, where it is not, what happens
without it is proved too:

- A streamed reply equals the saved one exactly when, in the reply stripped of whitespace at its ends, nothing but
  blank text and well-opened fences follows the first fence marker. A marker with anything else on its line ends
  the stream for good but stays in the saved text (`app/ai/tutor/ui_blocks.py:9-10` against `:125-142`), and so
  does an opener at the very end, which stripping robs of its newline (`app/ai/tutor/service.py:1041`).
- `best_recent` says that a bad retake never erases a pass (`app/services/practice_exit.py:88`). It looks at the
  last three results, so three worse ones do; each result counts for the next two. And since results are rounded
  up to the mark, a score can reach it although none of the three passed: 69.6 fails 70 and shows as 70.
- `cursor_after` says that an unknown id replays from the start (`app/ai/core/stream_events.py:152`). A header of
  digits that includes a superscript digit, or that has more than 4300 digits, passes `isdigit` and then makes
  `int` raise.
- The reader that polls a stored run gives frames out before it looks at whose run they belong to
  (`app/ai/tutor/service.py:1244-1261`). It keeps to its own run exactly when the first row of another run, if it
  is still polling then, is no longer than its cursor and all rows before.
- A client that reconnects to a process with a lagging copy starts over and misses nothing before any frame it has,
  as long as no poll gives it another run's frames. If one does, its last id belongs to the wrong run, and frames of
  its own run are skipped for good.
- A polling reader that stops has the whole turn exactly when the last row it found held the whole log. A turn that
  pauses stores the status before its last frames (`app/ai/tutor/service.py:1070-1098`), so a reader can stop short.
- A second seeding run leaves all data unchanged, but titles that share a slug rewrite their one row in turn and
  are each reported as updated (`scripts/seed_catalogue.py:330-345`).
- A stop for a whole thread is lost when an older stream of that thread ends after it
  (`app/ai/core/stream_control.py:62-67`).
- The permissive guard policy changes nothing unless the review threshold is above the action threshold
  (`app/ai/core/guardrails.py:193-194`); with the defaults 0.35 and 0.7 it never does.
- In any time as long as a window the limiter lets at most `2 * max(1, limit) - 1` requests of a key pass, and this
  is reached, as long as the key's live window is not evicted. Each eviction can add at most one limit more, and a
  full table with a limit of one breaks the bound.
- The waiting time of a refused request is rounded down (`app/core/rate_limit.py:41`): a client that comes back
  exactly then is refused again if more than a second was left and not a whole number of seconds.
- What the limiter evicts is the key that came first, whose window can be the newest of all
  (`app/core/rate_limit.py:29-30`).
- A tool line stays running after the closing sweep exactly when its key was opened again while still open.
- The random field of an id determines its random number except for the largest that can be drawn: 36 to the eighth
  has nine digits, and cut to eight it reads like 36 to the seventh (`app/core/ids.py:34`).

## Model

| member | source | states |
|---|---|---|
| UiStream.HeldSuffix | app/ai/tutor/ui_blocks.py:109-115 | The result is the longest proper prefix of the marker that the text ends with, by an independent definition of borders. |
| UiStream.UiStreamFilter.Push | app/ai/tutor/ui_blocks.py:125-142 | Emitted and held text are the whole input so far and what is held is the longest suffix of the whole input that can still become a marker; the push that completes a marker shows the rest of the text before it without its trailing whitespace; afterwards nothing is shown. |
| UiStream.UiStreamFilter.Release | app/ai/tutor/ui_blocks.py:129-142 | Splits the text at hand into what to show and the longest border to hold, or cuts it at the first marker. |
| UiStream.UiStreamFilter.FlushTail | app/ai/tutor/ui_blocks.py:144-149 | Before a marker, everything pushed has now been shown; after one, nothing is added. |
| UiStream.StreamReply | app/ai/tutor/service.py:998-1021 | For every cutting of a reply into pieces, what is shown is the reply if it has no marker, and otherwise the text before the first marker with only trailing whitespace possibly missing. |
| UiStream.BordersOfHeldText | app/ai/tutor/ui_blocks.py:128-142 | Looking only at held text plus new text finds the same borders as looking at the whole input. |
| UiStream.FenceInHeldText | app/ai/tutor/ui_blocks.py:129-130 | Searching the held text plus new text finds the first marker of the whole input, at the shifted position. |
| UiStream.PushAdvances | app/ai/tutor/ui_blocks.py:125-142 | One release keeps the relation between input, emitted text and held text. |
| UiStream.HeldTextIsExactlyWhatMayBecomeAFence | app/ai/tutor/ui_blocks.py:118-142 | No shown position could start a marker whatever follows, and the first held position could. |
| UiSplit.CardEnd | app/ai/tutor/ui_blocks.py:9-10 | A card's text ends at the first place where the fence closes or the reply ends. |
| UiSplit.CardEndSays | app/ai/tutor/ui_blocks.py:9-10 | That is the first place at which a closing fence follows, or nothing but a final newline, or nothing. |
| UiSplit.StreamedTextStartsSavedText | app/ai/tutor/ui_blocks.py:97-149 | For one content that is both streamed and split, however it was cut into pieces, the stripped stream is a prefix of the text kept by the split, and equals it exactly when the content has no marker or only blanks and well-opened fences from the first one on. |
| UiSplit.ReplyStartsSavedText | app/ai/tutor/service.py:1041-1130 | The same for a reply as the service handles it, where the pieces are streamed as they come and the stripped whole is split and saved; the condition is then one on the stripped reply. |
| UiSplit.OpenerAtTheVeryEnd | app/ai/tutor/service.py:1036-1049 | A reply that stops right after an opener: the stream ends before it, its text meets the condition, but the stripped reply does not, and the marker is saved. |
| UiSplit.PartsMakeUpTheContent | app/ai/tutor/ui_blocks.py:97-106 | Splitting loses nothing: kept texts and fences in order make up the content. |
| UiSplit.KeptAndCut | app/ai/tutor/ui_blocks.py:97-106 | The saved text is the kept part and the cards are the insides of the fences, in order. |
| UiSplit.CutPartsAreFences | app/ai/tutor/ui_blocks.py:9-10 | Every part that is cut out is the marker, blanks, a newline, a card and the closing fence, or none at the end. |
| UiSplit.PartsSay | app/ai/tutor/ui_blocks.py:97-106 | Every part is the character at its place if no fence opens there, or else that fence with its shortest card: nothing that opens a fence is kept and nothing else is cut. |
| UiSplit.OpenerSays | app/ai/tutor/ui_blocks.py:9-10 | A marker followed on its line by blanks only opens a fence, and its card begins on the next line. |
| UiSplit.TextBeforeFencesStays | app/ai/tutor/ui_blocks.py:105 | Cutting fences out leaves the text before the first marker as it is. |
| UiSplit.OneCardAtTheEnd | app/ai/tutor/service.py:1101-1130 | A reply that, stripped, ends with one well-formed card streams exactly the text that is saved. |
| UiSplit.OpenCardAtTheEnd | app/ai/tutor/ui_blocks.py:9-10 | A card that the stripped reply opens and leaves open is dropped from both. |
| UiSplit.BadMarkerStopsTheStream | app/ai/tutor/ui_blocks.py:9-142 | When the first marker of the stripped reply opens no fence, the stream is strictly shorter than the saved text. |
| UiSplit.MarkerWithTextOnItsLine | app/ai/tutor/ui_blocks.py:9-142 | Such a reply: the student sees "Hi", and the marker and the word after it are saved too. |
| Cards.AcceptUiBlocks | app/ai/tutor/ui_blocks.py:87-94 | The cards are, in order, those of exactly the positions whose block is valid, with ids ui_1, ui_2 and so on, all different. |
| PushRuns.RunKeepsInv | app/services/push.py:109-192 | On every run of create, deliver, expire, complete, cancel, subscribe and unsubscribe, each announcement's counters are the numbers of its deliveries, of those sent and of those failed; finished ones have no pending delivery, queued ones only pending deliveries; no live subscription has reached five failures. |
| PushRuns.StepKeepsInv | app/services/push.py:125-192 | Each single step keeps that. |
| PushRuns.EmptyTablesAreBalanced | app/services/console.py:1108-1133 | Empty tables satisfy it. |
| PushRuns.DeliverChangesOneRow | app/services/push.py:125-178 | One delivery changes its own row, its announcement's counters accordingly and its subscription, and nothing else; a row left pending has used up an attempt. |
| PushRuns.RunContinues | app/services/push.py:125-192 | On every run, a finished delivery or announcement row is never changed again and counters never fall. |
| PushRuns.StepUsesWork | app/services/push.py:164-178 | The attempts left to an announcement's pending deliveries fall at every outcome returned for it and never rise. |
| PushRuns.OutcomesAreBounded | app/services/push.py:125-178 | On every run, the deliveries of an announcement return at most three outcomes per recipient. |
| PushDrain.RunTotals | app/services/push.py:155-178 | Over every run the sent counters rise by the outcomes "sent" and the failed counters by the outcomes "invalid" plus the retries that ran into a limit. |
| PushDrain.DrainReportMatchesCounters | app/services/push.py:82-107 | What a drain reports agrees with the tables: the sent counters rise by what it calls sent, the failed ones by what it calls failed plus the retries that ran into a limit, as many rows turn gone as it says, failures and retries have used up one attempt each, claimed is the sum of its parts, and no surviving subscription has five failures. |
| PushDrain.ExpiriesSay | app/services/push.py:109-123 | The expiries of a drain close exactly the announcements that are queued or sending and have `expiresAt` at or before now, as of now, and withdraw exactly their pending deliveries; every other row stays. |
| PushDrain.CompletionsSay | app/services/push.py:180-192 | The completions finish exactly the sending announcements without a pending delivery, as of now, and nothing else. |
| PushDrain.DrainClosesExpired | app/services/push.py:82-123 | One drain: what has expired at its start is done as of its start with its pending deliveries withdrawn, and nothing the drain does afterwards touches it. |
| PushDrain.DrainTouchesOnlyClaims | app/services/push.py:82-123 | A delivery that is neither claimed and taken up in time nor withdrawn by an expiry is unchanged. |
| PushDrain.DrainHandlesClaims | app/services/push.py:89-178 | Every claimed row that is taken up in time and whose announcement goes on is gone, sent with the answer "sent", or failed or pending once more with the answer "invalid" or "retry" and one attempt more. |
| PushDrain.FailuresAreCounted | app/services/push.py:164-178 | On every run a live subscription's failure count is the number of failures told of it, and below five. |
| PushRuns.DeliveredRowSays | app/services/push.py:125-178 | What becomes of the delivered row, case by case: gone without a subscription or when it vanished, sent, failed when invalid, at the third attempt or with the subscription's fifth failure, else pending with one attempt more; all other rows stay. |
| PushRuns.DeliveredAnnouncementSays | app/services/push.py:125-178 | Its announcement is sending and counts what was sent and what failed for good; no other announcement changes. |
| PushRuns.DeliveredSubscriptionSays | app/services/push.py:155-178 | A vanished subscription is removed, one that failed is counted up and removed with its fifth failure; every other one stays as it was. |
| PushRuns.NothingToDeliver | app/services/push.py:125-134 | Without a queued or sending announcement nothing is delivered and nothing changes. |
| PushRuns.RunKeepsClosed | app/services/push.py:109-192 | Whatever happens afterwards, an announcement that is neither queued nor sending and has no pending delivery is never touched again, nor are its deliveries. |
| PushService.PushStore.constructor | app/services/push.py:77-80 | Starts with empty, balanced tables. |
| PushService.PushStore.CreateAnnouncement | app/services/console.py:1135-1177 | Adds one announcement, a notice for every student and, in order, one pending delivery per subscription of the audience; without subscriptions it is done at once. |
| PushService.PushStore.WithdrawPending | app/services/console.py:1192-1196 | Exactly the pending deliveries of the announcement become cancelled; every other row stays. |
| PushService.PushStore.CancelAnnouncement | app/services/console.py:1189-1204 | Unknown announcements and those that are done or cancelled are refused without a change; otherwise exactly its pending deliveries are withdrawn, its status is cancelled and exactly its notices go. |
| PushRuns.CancelledNoticesAreWithdrawn | app/services/console.py:1198-1202 | On every run a cancelled announcement is in no inbox, and a notice of any other one stays where it was put. |
| PushService.PushStore.ExpireAnnouncements | app/services/push.py:109-123 | Every announcement that was queued or sending with `expiresAt` at or before now is done as of now and its pending deliveries are withdrawn; every other announcement and delivery is as it was, and so are subscriptions and notices. |
| PushService.PushStore.ApplyOutcome | app/services/push.py:155-178 | The in-place changes are those of the outcome's step, limits included, for a subscription that is live or removed earlier in the drain and still found. |
| PushService.PushStore.DeliverOne | app/services/push.py:125-153 | Takes the delivery step and returns its outcome, or none when the announcement is no longer active; whether a subscription removed earlier in the drain is still found is open. |
| PushService.PushStore.CompleteAnnouncements | app/services/push.py:180-192 | Exactly the sending announcements without a pending delivery are done as of now; everything else is as it was. |
| PushService.PushStore.HasPending | app/services/push.py:185-190 | True exactly when some delivery of the announcement is pending. |
| PushService.PushStore.DeliverRows | app/services/push.py:89-99 | Delivers the claimed rows in order up to the deadline and counts their outcomes. |
| PushService.PushStore.Process | app/services/push.py:82-107 | One drain is exactly the run of its expiries, its deliveries before the deadline, the writing of its removals and its completions, and reports that run's outcomes. What was queued or sending and had expired at its start is done as of its start without a pending delivery, and an announcement is left sending only if a delivery of it is pending. |
| Inbox.QueueInbox | app/services/console.py:1135-1156 | Every notice is written once and in order, in chunks of 500 except for a non-empty last one. |
| Inbox.ChunksAreDetermined | app/services/console.py:1135-1156 | That determines the chunks. |
| RunLog.AgentRun.PublishFrame | app/ai/core/runs.py:35-41 | Appends one frame with the next number and the given event and data; ids stay 1, 2, 3 without holes. |
| RunLog.RunLog.FlushCopy | app/ai/core/runs.py:101-109 | A write that succeeds stores the whole log, keeps the time after it and resets the counter; one that fails changes nothing. |
| RunLog.RunLog.Note | app/ai/core/runs.py:91-96 | Counts the frame and stores the whole log when forced, at the sixteenth frame or after a quarter of a second, if the write succeeds; otherwise only the count changes. |
| RunLog.Emitter.EmitFrame | app/ai/tutor/service.py:874-877 | Appends the frame with the given event and data always, and notes it once there is a log object, where anything but a token is written out at once: one step of the producer. |
| RunLog.Emitter.Attach | app/ai/tutor/service.py:946 | From here on the turn keeps a copy; nothing is stored yet. |
| RunLog.FramesCarryTheEmits | app/ai/core/runs.py:35-41 | On every turn, frame i of the log has the event and the data of the i-th emit, and the id i + 1; there are as many frames as emits. |
| RunLog.StoredLogFollowsLiveLog | app/ai/core/runs.py:91-109 | On every turn, whatever writes fail, whenever it starts to keep a copy and whether or not it pauses: ids have no holes and the stored copy is a prefix of the live log; if the last attempted write succeeded it lacks only tokens, at most fifteen. |
| RunLog.ForcedEmitStoresEverything | app/ai/tutor/service.py:874-877 | On every turn, when the last frame is not a token and the last attempted write succeeded, the copy is the whole log. |
| Replay.Subscriber.Next | app/ai/core/runs.py:48-60 | Yields the frame next after its cursor and those it gave out before; waits only when all such frames were given out and the run is open; returns only when it is sealed and drained. |
| Replay.ReadersLoseAndRepeatNothing | app/ai/core/runs.py:35-60 | For every interleaving of publishing, sealing, joining and resuming readers, the k-th frame a reader has given out is frame cursor + k of the log, and once it has stopped it has given out all of them. |
| Replay.PublishedFramesStay | app/ai/core/runs.py:35-60 | In every interleaving a frame published before the run is sealed is in the log from then on, with its event and data. |
| Replay.ResumingGetsOn | app/ai/core/runs.py:48-60 | A reader that is resumed has less left to take and to give out, unless it has everything; then it stops exactly if the run is sealed. No other reader is touched. |
| Replay.CursorAfter | app/ai/core/stream_events.py:151-167 | The cursor is the header's number if the log has that many frames, 0 for other headers, or a failure where the header's digits cannot be read as a number. |
| Replay.CursorSays | app/ai/core/stream_events.py:151-167 | Without a header, or with anything but digits, it reads from the start; a number of at most 4300 digits is where it goes on if the log has that frame, and the start otherwise. |
| Replay.CursorFailsOnSuperscriptsOrLength | app/ai/core/stream_events.py:153-155 | It fails exactly on headers of digits that include a superscript digit or have more than 4300 digits. |
| Replay.SuperscriptHeader | app/ai/core/stream_events.py:153-155 | It fails on a superscript two. |
| Replay.OverlongHeader | app/ai/core/stream_events.py:153-155 | It fails on 4301 ones. |
| Replay.CursorOfPublishedId | app/ai/core/stream_events.py:151-167 | The id of a published frame is read back as its number, or 0 when the log at hand does not have it, as long as it has at most 4300 digits. |
| Replay.RejoinLosesNothing | app/ai/tutor/service.py:1288-1294 | Two live readings, the second from the last id of the first: together they are the log after the first cursor, or the second is the whole log if its log lacks that frame. |
| Reconnect.ReconnectingLosesNothing | app/ai/tutor/service.py:1269-1308 | For any number of connections, each served live or by polling a copy that may lag: every frame received is the run's own exactly when no row of another run leaked in; then the client misses nothing before any frame it has, and it has every frame once and in order exactly when no connection that gave it something had to start over. |
| Reconnect.AllOwnUnlessLeaked | app/ai/tutor/service.py:1230-1308 | Frames of other runs are received exactly when some connection leaks. |
| Reconnect.LeakLosesFrames | app/ai/tutor/service.py:1244-1294 | What a leak costs: a client with one frame polls another run's row of three, comes back live, and has neither the second nor the third frame of its own run. |
| Reconnect.PollingAfterALostConnection | app/ai/tutor/service.py:1230-1308 | If the first row has the client's last frame, what it read before and what the polling reader gives out are a prefix of the log after the first cursor; if the row lags behind, the polling reader gives out a prefix of the whole log. |
| Reconnect.ReceivedIsStretch | app/ai/tutor/service.py:1288-1308 | A connection, live or polling, gives out a prefix of the log after its cursor unless it leaks. |
| Polling.PersistedReader.PollOnce | app/ai/tutor/service.py:1236-1265 | One turn of the polling loop, for any row: gives out the frames whose ids go beyond the cursor, skips all others, and decides whether to leave. |
| Polling.PersistedReader.Collect | app/ai/tutor/service.py:1243-1255 | The inner loop gathers the new frames, moves the cursor to the last of them and notices a "done". |
| Polling.IdsIncrease | app/ai/tutor/service.py:1243-1257 | Whatever the rows hold, ids given out increase and lie beyond the first cursor. |
| Polling.IdsAreContiguous | app/ai/tutor/service.py:1230-1266 | When every row holds a beginning of some run's log, the ids given out are consecutive from the cursor on. |
| Polling.PollingAgreesWithLiveReading | app/ai/tutor/service.py:1230-1266 | The reader gives out its own run's frames only, exactly when the first row of another run, if found while it polls, is no longer than its cursor and the rows before; then they are a prefix of what a live reader with the same cursor gives out. |
| Polling.FollowAsRowsSay | app/ai/tutor/service.py:1236-1265 | How far a polling reader has read and whether it still polls can be told from the rows alone. |
| Polling.LeaksAsRowsSay | app/ai/tutor/service.py:1244-1261 | So can whether it has leaked. |
| Polling.StoppedReaderHasTheTurn | app/ai/tutor/service.py:1258-1265 | A reader that has stopped without a leak has everything of a turn that is over exactly when the row at which it stopped was the run's own and held the whole log. |
| Polling.PausedReaderStopsShort | app/ai/tutor/service.py:1068-1098 | A turn that pauses: a reader that polls right after the first frame is stored as paused stops for good, two frames short. |
| Polling.LateReaderSeesTheNextRun | app/ai/tutor/service.py:1244-1261 | A reader whose thread has moved on to another run is given that run's frames. |
| RunHub.RunHub.Create | app/ai/core/runs.py:123-128 | Registers a new run by id and, with a thread, as that thread's run. |
| RunHub.RunHub.Bind | app/ai/core/runs.py:130-132 | The run takes the thread, and the thread the run. |
| RunHub.RunHub.ForThread | app/ai/core/runs.py:137-144 | Answers with the thread's run if it is registered and unfinished. |
| RunHub.RunHub.Drop | app/ai/core/runs.py:146-149 | Removes the run, and the thread's entry only if it is this run. |
| RunHub.ThreadFindsItsLastRun | app/ai/core/runs.py:118-149 | On every run of operations, a thread is answered with a run exactly when that run was the last created for or bound to it and has neither finished nor been dropped. |
| ToolLog.PartialFromEvents | app/ai/core/stream_events.py:187-230 | The content is that of the last assistant message, or without one the joined tokens stripped; cards and tool lines are the folds of the log. |
| ToolFold.TextAddsUp | app/ai/core/stream_events.py:200-229 | The text of a log is that of its first part followed by that of the rest. |
| ToolFold.TextOfOne | app/ai/core/stream_events.py:200 | A single token has its own text, and any other event none. |
| ToolFold.CardsOfTheLastMessageComeFirst | app/ai/core/stream_events.py:203-222 | The cards are those of the last message that lists any, and then the later ones. |
| ToolFold.CardsAddUp | app/ai/core/stream_events.py:215-222 | After such a message, or without one, cards are added in order. |
| ToolFold.CardOfOne | app/ai/core/stream_events.py:215-222 | A card event adds its card if it has an id, and any other event none. |
| ToolFold.ToolsAreTheLatestLines | app/ai/core/stream_events.py:205-229 | For every log the tools shown are exactly the latest lines it has for each id, whether from tool events or messages, every id once. |
| ToolFold.TurnTextIsWhatWasSaid | app/ai/core/stream_events.py:187-230 | On every turn the tokens of the log are what was said, piece by piece, whatever tools run meanwhile. |
| ToolFold.TurnFinalIsTheLastCommit | app/ai/core/stream_events.py:187-230 | On every turn the final text is that of the last committed message, and there is none exactly when none was committed. |
| ToolLog.CallbackTable | app/ai/core/stream_events.py:116-148 | Which callback opens or closes which key: node callbacks only for grade_documents, closing as done at its end and as failed at an error; tool callbacks under the run id or the name. |
| ToolLog.StatusTable | app/ai/core/stream_events.py:122-129 | Which callbacks show a status: a listed node when it starts, and when it ends with something to report. |
| ToolLog.OpeningShows | app/ai/core/stream_events.py:68-78 | An opening callback adds a running tool with the next id and shows it after its status; its key now stands for it and keeps its place or comes last. |
| ToolLog.ClosingShows | app/ai/core/stream_events.py:80-90 | A closing callback shows the tool of its key in its new phase and forgets the key; an unknown key shows nothing. |
| ToolLog.RemoveKeepsOrder | app/ai/core/stream_events.py:81 | Forgetting a key leaves the other open keys in their order. |
| ToolTracker.ToolTracker.Start | app/ai/core/stream_events.py:68-78 | A new running record with the next id, the given name and summary is shared by the list and the table of open keys. |
| ToolTracker.ToolTracker.Finish | app/ai/core/stream_events.py:80-90 | Closing a key changes the shared record and so what the list shows; an unknown key changes nothing. |
| ToolTracker.ToolTracker.CloseRemaining | app/ai/core/stream_events.py:92-98 | Closes every open key, oldest first. |
| ToolTracker.ToolTracker.Interpret | app/ai/core/stream_events.py:116-148 | Each callback opens a tool, closes one or does neither, and emits its status and tool events. |
| ToolTracker.ToolTracker.Snapshot | app/ai/tutor/service.py:644-653 | Shows the records in order. |
| ToolTracker.RunTurn | app/ai/tutor/service.py:874-881 | For every turn on the live objects, folding the emitted log gives what the tracker shows. |
| ToolRuns.LogMatchesTracker | app/ai/core/stream_events.py:60-230 | After every operation of every turn, the tool lines rebuilt from the log are the tracker's, in order, and the log has closed each tool once if it is finished and never otherwise. |
| ToolRuns.EveryPrefixMatches | app/ai/tutor/service.py:879-881 | A stored log may end in the middle of an operation: inside the closing sweep it shows the first open keys closed and the others running; elsewhere it shows the tracker before or after the operation. |
| ToolRuns.TurnOrphans | app/ai/core/stream_events.py:68-78 | A running tool that no key stands for exists exactly when an open key was opened again. |
| ToolRuns.EveryToolClosesUnlessReopened | app/ai/core/stream_events.py:92-98 | The closing sweep leaves no tool running exactly when no open key was ever opened again. |
| ToolRuns.ReopenedToolStaysRunning | app/ai/core/stream_events.py:68-120 | Two starts of a tool without a run id share its name as their key, and the first is left running after the sweep. |
| RateLimit.RateLimiter.SweepTable | app/core/rate_limit.py:22-30 | Below the cap nothing changes; at the cap expired windows go, and then the first keys as far as needed. |
| RateLimit.RateLimiter.HitMemory | app/core/rate_limit.py:33-45 | The answer and the new table are those of a sweep and a count; the table is within the cap afterwards. |
| RateLimit.RateLimiter.CountHit | app/core/rate_limit.py:36-45 | Opens a window or counts in the live one; the opening request is always allowed. |
| RateLimit.LiveWindowCounts | app/core/rate_limit.py:36-45 | In a table below the cap, a request whose key has a live window is counted there, passes exactly while the count is in the limit, and is told to wait for the whole seconds left, at least one. |
| RateLimit.FirstRequestPasses | app/core/rate_limit.py:36-38 | Without a live window the request passes whatever its limit, and a new window counts it as the first; other keys keep theirs. |
| RateLimit.HitKeepsCap | app/core/rate_limit.py:9-45 | No request leaves more windows than the cap, and keys stay distinct. |
| RateLimit.OnlyTheFirstKeyIsEvicted | app/core/rate_limit.py:22-30 | A live window is evicted exactly when the table is full of live windows and its key is the first in it. |
| RateLimit.ReopenedKeyKeepsItsPlace | app/core/rate_limit.py:36-38 | A key whose window is reopened keeps its place in the table. |
| RateLimit.NewestWindowCanBeEvicted | app/core/rate_limit.py:22-38 | So the window that is evicted can be the one that would last longest. |
| RateLimit.SweepKeepsLive | app/core/rate_limit.py:22-30 | A sweep that does not evict a key leaves its live window as it was. |
| RateBound.OneWindow | app/core/rate_limit.py:33-45 | While a window lasts, exactly as many requests of its key pass as it has room for, whatever other keys do. |
| RateBound.FirstWindow | app/core/rate_limit.py:33-45 | From a moment without a live window, exactly the smaller of the requests and the limit pass within a window's time. |
| RateBound.OneMoreLimitPerEviction | app/core/rate_limit.py:22-45 | In any time as long as a window, from any table and whatever other keys do, fewer than twice the limit pass, and one limit more for each time the key's live window is evicted. |
| RateBound.LessThanTwiceTheLimit | app/core/rate_limit.py:33-45 | So without an eviction of the key fewer than twice the limit pass. |
| RateBound.EvictedKeyIsAllowedAgain | app/core/rate_limit.py:22-45 | A key that is evicted by one other request is allowed twice at one moment, whatever its limit. |
| RateBound.EvictionBreaksTheBound | app/core/rate_limit.py:22-45 | With a concrete full table and a limit of one, that is more than the bound. |
| RateBound.BoundIsReached | app/core/rate_limit.py:33-45 | For every limit there is a history that reaches twice the limit less one. |
| RateBound.WaitingAsToldCanFail | app/core/rate_limit.py:36-45 | A client that is refused and comes back exactly after the time it was told, whatever other keys did, is refused again exactly when more than a second was left of the window and not a whole number of seconds. |
| RateBound.RefusedAfterWaiting | app/core/rate_limit.py:36-45 | Such a client: limit one in two seconds, refused at 0.5, told to wait one second, refused at 1.5. |
| Ids.Base36 | app/core/ids.py:11-20 | The digit loop produces the base-36 numeral of the absolute value. |
| Ids.IdGenerator.Next | app/core/ids.py:23-35 | Advances the counter cyclically and builds the id from it. |
| Ids.IdGenerator.NextAll | app/core/ids.py:23-35 | The ids of one process are numbered consecutively from its start. |
| Ids.CounterField | app/core/ids.py:26-30 | The counter field has four characters and determines the counter. |
| Ids.FingerprintShowsProcess | app/core/ids.py:31-33 | The fingerprint is the digits of the process id and of the salt, cut or filled with zeros to four characters. |
| Ids.RandomField | app/core/ids.py:34 | The random field has eight characters and determines the random number, except that 36 to the eighth, which can be drawn, reads like 36 to the seventh. |
| Ids.CuidLayout | app/core/ids.py:35 | An id is the letter, the time, the counter, the fingerprint and the random part, in this order. |
| Ids.CuidDeterminesItsParts | app/core/ids.py:29-35 | Two ids are equal exactly when time, counter, fingerprint and random part are, although the time has no fixed width. |
| Ids.ConsecutiveIdsDiffer | app/core/ids.py:23-35 | Any 36 to the fourth consecutive ids of a process differ, whatever time and chance do. |
| Ids.CounterRepeats | app/core/ids.py:27 | One id later, equal time and chance give an equal id. |
| Numerals.ValueOfRender | app/core/ids.py:11-20 | Reading a numeral back gives the number. |
| Numerals.DigitsAre | app/core/ids.py:8 | The digits are 0 to 9 and a to z. |
| Numerals.NoLeadingZero | app/core/ids.py:11-20 | The numeral of a positive number has no leading zero. |
| Numerals.PaddedInjective | app/core/ids.py:30 | Zero-padded numerals of different numbers differ. |
| PracticeExit.BestRecentIsBestOfThree | app/services/practice_exit.py:87-94 | The score reaches a mark exactly when one of the last three rounded results does. |
| PracticeExit.RecordingKeepsLastTwo | app/services/practice_exit.py:97-117 | Recording one more result never drops the score below either of the two results before it. |
| PracticeExit.OldPassIsForgotten | app/services/practice_exit.py:87-94 | A pass counts with two worse results after it and no longer with three. |
| PracticeExit.RoundedScoreReachesMark | app/services/practice_exit.py:94-111 | A percentage, rounded to a tenth and then to a whole number, reaches a mark exactly when it passes it or is a near miss. |
| PracticeExit.ScoreReachesMarkWithoutPass | app/services/practice_exit.py:87-117 | For any graded results: the score reaches the mark without a pass among the last three exactly when all three failed and one is a near miss. |
| PracticeExit.FailedWithTheMarkAsScore | app/services/practice_exit.py:87-117 | 69.6 fails a mark of 70 and leaves the score 70. |
| PracticeExit.ProgressRow.StartExit | app/services/practice_exit.py:172-245 | Waits exactly while the last result failed less than thirty minutes ago, else resumes the marked attempt, refuses, or starts a new one, in this order; only starting changes the row, and only its marker. |
| PracticeExit.ProgressRow.CompleteExit | app/services/practice_exit.py:301-342 | Answers nothing unless the attempt is the open one, and otherwise whether the percentage reaches the mark; takes the completion step, which records the result, clears the marker and updates score and access time. |
| PracticeExit.ProgressRow.CloseExit | app/services/practice_exit.py:316-334 | Score, checkpoint and access time are updated always; on a pass the lesson is complete in full, due for revision in a day, and one event is added, on a fail all these stay. |
| PracticeExit.RecordAttemptSays | app/services/practice_exit.py:97-117 | The new result comes last, with its percentage rounded to a tenth, of at most twenty; those before it are the latest ones, and the marker is cleared. |
| PracticeExit.EveryResultIsGraded | app/services/practice_exit.py:299-317 | On every run the history holds exactly the completions of the open attempts, in order, each as a pass exactly when its percentage reaches the mark it was given. |
| PracticeExit.StoredScoreReachesMarkWithoutPass | app/services/practice_exit.py:87-117 | On every run of a lesson with one mark, the stored score reaches it without a pass among the last three completions exactly when all three failed and one is a near miss. |
| PracticeExit.EventsAreThePasses | app/services/practice_exit.py:319-334 | On every run the learning events name exactly the attempts that passed, in order, and a lesson with one is completed in full and due for revision a day after the last pass. |
| PracticeExit.RunKeepsInv | app/services/practice_exit.py:69-342 | On every run of starts and completions: the latest results are kept, at most twenty; no attempt is recorded twice; after a failed result the next comes from an attempt started at least thirty minutes later; the lesson is completed exactly when some result passed. |
| PracticeExit.WaitIsExactlyTheCooldown | app/services/practice_exit.py:69-84 | On every run, a start is told to wait exactly when the last result failed less than thirty minutes ago, and until those are over. |
| PracticeExit.ScoreIsBestRecent | app/services/practice_exit.py:317 | On every run the stored score is the best of the last three results. |
| PracticeExit.CompletedForGood | app/services/practice_exit.py:319-320 | A completed lesson stays completed. |
| SeedCatalogue.TopicRow.ApplyChanges | scripts/seed_catalogue.py:244-251 | The row ends with the given values over its old ones, in whatever order they are visited, and the result says whether anything differed. |
| SeedCatalogue.Seeder.EnsureLevel | scripts/seed_catalogue.py:309-325 | Finds the level of a class and term or adds it with a new id. |
| SeedCatalogue.Seeder.Upsert | scripts/seed_catalogue.py:334-344 | Adds a topic with a new id or assigns what differs, and tells which. |
| SeedCatalogue.Seeder.SeedBlock | scripts/seed_catalogue.py:326-345 | The title loop is the run over the block's items, with its counts. |
| SeedCatalogue.Seeder.SeedCurriculum | scripts/seed_catalogue.py:296-345 | The nested loops are the run over the flattened curriculum, with its counts. |
| SeedCatalogue.EachTopicTakesItsLastEntry | scripts/seed_catalogue.py:254-345 | At any point of a run each slug's row has the values of the last entry so far with that slug, and the id it had before, or a new one. |
| SeedCatalogue.EachTopicIsAsItsLastTitleSays | scripts/seed_catalogue.py:254-345 | After seeding any curriculum, the topic of a title that no later title shares its slug with has that title, its place in the subject, the level of its class and term, and the minutes and weights known for it, or 45, 0.0 and 0.0. |
| SeedCatalogue.CreatedCountsNewTopics | scripts/seed_catalogue.py:334-341 | A run reports as created exactly the topics it adds, and every row it adds takes one new id. |
| SeedCatalogue.SeedingIsIdempotent | scripts/seed_catalogue.py:1-17 | A second run over the same items leaves tables and id supply unchanged and creates nothing. |
| SeedCatalogue.SecondRunChangesNothing | scripts/seed_catalogue.py:1-17 | The same for every curriculum and every earlier state of the tables. |
| SeedCatalogue.SecondRunRewritesRepeatedSlugs | scripts/seed_catalogue.py:342-345 | The second run reports one update for each entry whose slug another entry has. |
| SeedCatalogue.SecondRunReportsUpdates | scripts/seed_catalogue.py:342-345 | It reports none exactly when no two titles of the subject have the same slug. |
| SeedCatalogue.SharedSlugIsReportedTwice | scripts/seed_catalogue.py:326-345 | Two titles with one slug: the second run changes nothing and reports two updates. |
| StreamControl.StreamControl.BeginStream | app/ai/core/stream_control.py:53-57 | Sets the active stream and clears the stream's and the thread's tokens. |
| StreamControl.StreamControl.EndStream | app/ai/core/stream_control.py:62-67 | Clears both tokens, and the active stream only if it is this one. |
| StreamControl.StreamControl.RequestStop | app/ai/core/stream_control.py:75-104 | Sets one token and reports the named, the local or the remote stream. |
| StreamControl.StreamControl.ShouldStop | app/ai/core/stream_control.py:107-126 | True exactly when the stream's or the thread's token is set, or the shared store names this stream or all; that is remembered, and no other token is set. |
| StreamControl.StopIsSeenUntilCleared | app/ai/core/stream_control.py:53-126 | On every run, a stream is told to stop exactly when it was stopped by name and has neither begun nor ended since, or its thread was stopped and nothing on it has begun or ended since. |
| StreamControl.BeginForgetsEarlierStops | app/ai/core/stream_control.py:53-57 | What stops a stream was asked for here, or heard of from another worker, after it began. |
| StreamControl.StopReachesOnlyItsStream | app/ai/core/stream_control.py:84-90 | A stop for one stream changes no other stream's answer. |
| StreamControl.OldStreamsEndLosesThreadStop | app/ai/core/stream_control.py:62-67 | A stop for the thread is lost when an older stream ends after it. |
| StreamControl.ColonsCollide | app/ai/core/stream_control.py:86-90 | With colons in thread ids two threads can share a token. |
| StreamControl.ActiveIsTheLastBegun | app/ai/core/stream_control.py:53-82 | A thread's active stream is the last begun one, as long as that has not ended. |
| Retrieval.RankingKeepsTheBest | app/ai/core/decisions.py:229-240 | The ranking keeps the k best, in descending order, drops the rest, loses nothing, and among equal scores keeps the earlier first. |
| Retrieval.PairedInOrder | app/ai/core/decisions.py:233-237 | The ranking starts from exactly the items that have a score, in their order, each with its own. |
| StableSort.SortIsStable | app/ai/core/decisions.py:238 | Sorting orders by key, is a permutation and keeps the order of equal keys. |
| StableSort.OrderAndTiesDetermine | app/ai/core/decisions.py:238 | Order and ties determine a stable sort completely. |
| Retrieval.MatchingDocumentsComeFirst | app/ai/tutor/graph.py:380-397 | Documents of the question at hand come before all others, and each group stays in its order. |
| Retrieval.NearestComeFirst | app/ai/tutor/graph.py:380-386 | All that was found, nearest first, equally near ones in the order they were found in. |
| Retrieval.RetrievalOrdersWhatWasFound | app/ai/tutor/graph.py:380-397 | So a retrieval hands on all that was found in that order, and starts grading without scores. |
| Retrieval.GradeDocuments | app/ai/tutor/graph.py:400-462 | Graded by score, when there are documents and any grade: kept are, in order, exactly the documents at positions whose grade reaches the threshold, with their grades; otherwise exactly the documents found relevant, in order and without scores. A rewrite is skipped exactly when nothing is kept, one is left and it is said not to help. |
| Retrieval.GradingKeepsWhatPasses | app/ai/tutor/graph.py:411-418 | There are increasing positions, exactly those with a grade at or above the threshold, at which the kept documents and scores are found. |
| Retrieval.FallbackKeepsWhatIsRelevant | app/ai/tutor/graph.py:420-444 | There are increasing positions, exactly those of relevant documents, at which the kept ones are found. |
| Retrieval.RankedPositionsRankTheDocuments | app/ai/core/decisions.py:243-270 | Ranking positions and looking them up gives the ranking of the documents themselves, with the same scores. |
| Retrieval.RerankSays | app/ai/tutor/graph.py:489-543 | Ranked are the grades if every document has one, else fresh scores if there are any to keep, else the fallback is taken without scores. |
| StableSort.SortMapped | app/ai/core/decisions.py:262-263 | Sorting what elements stand for, by a key they agree on, is sorting the elements. |
| Retrieval.RetrievalEnds | app/ai/tutor/graph.py:380-543 | For all outcomes the loop ends after three steps per rewrite left and three more, retrieves at most once more than there are rewrites left, and always has no scores or one per document; a rewrite is made only when nothing was kept, none was declined and one is left. |
| Retrieval.FruitlessRunUsesEveryRewrite | app/ai/tutor/graph.py:465-486 | The bound on retrievals is reached when nothing is ever found. |
| Retrieval.FinalScoresAreRanked | app/ai/tutor/graph.py:489-543 | The scores of the final documents are descending and no more than asked for. |
| Guardrails.Route | app/ai/core/guardrails.py:202-226 | Support exactly when the hazard self_harm reaches one of the two thresholds, else block when any hazard does or the severity is high, else pass. |
| Guardrails.PermissiveRaisesTheActionThreshold | app/ai/core/guardrails.py:188-199 | The permissive policy raises the action threshold to 0.85 and changes nothing else. |
| Guardrails.VerdictIgnoresOrder | app/ai/core/guardrails.py:212-219 | The verdict depends on which hazards are listed, not on their order. |
| Guardrails.VerdictIsMonotone | app/ai/core/guardrails.py:202-226 | Raising probabilities or the severity never weakens the verdict. |
| Guardrails.OnlyTheLowerThresholdMatters | app/ai/core/guardrails.py:212-219 | Two settings give the same verdicts on everything exactly when the lower of their two thresholds is the same. |
| Guardrails.ActionThresholdHasNoEffect | app/ai/core/guardrails.py:212-219 | With a review threshold no higher than it, the action threshold has no effect. |
| Guardrails.PermissiveChangesNothingUnlessReviewIsHigher | app/ai/core/guardrails.py:188-199 | The permissive policy equals the strict one on everything exactly when review is not above action or action is 0.85 already. |

## Left out

- Push.Deliver: rows are values found by their position, so two references to one database row are not told apart; a subscription that another session removes during a drain is absent at once.
- PushService.PushStore.Process: the clock is read once for all expiries and once for all completions, and other sessions do not change the tables during a drain; between drains any step may happen.
- PushService.PushStore.CreateAnnouncement: parsing and the audience queries are not modelled; the audience is a list of students and a list of subscriptions. Dismissing and reading notices is not modelled.
- RunLog.AgentRun.PublishFrame: frame data is one text, and the condition variable is reduced to the states in which a reader waits.
- RunLog.Step: the status changes by pausing only; a turn that ends is cleared from its row after a grace period that is not modelled.
- Replay.SystemStep: the producer publishes nothing after sealing, which is the order in `app/ai/tutor/service.py:1169-1182`.
- Replay.CursorAfter: headers are Latin-1 text, as the server decodes them, and frames are those that `publish` numbers; frames with foreign ids are skipped by the source and do not occur here.
- Replay.Number: the ids of published frames are read without a limit on their digits; a run would need 4301 digits of frames to meet it.
- Polling.Poll: the two columns of a row change together, as this code writes them; a frame without a text id is one with an empty id, and a stored id whose digits cannot be read as a number, which no run writes, is skipped where the source raises.
- Reconnect.Possible: a paused turn without stored frames, for which frames are made up from messages, is not covered.
- UiSplit.ReplyStartsSavedText: the reply is the joined pieces; when the graph hands over a final text instead (`app/ai/tutor/service.py:1026-1031`), or the output guard replaces the text, what is saved is that text and bears no relation to the stream.
- RunHub.RunHub.Create: a new run's id is required to be new; runs are told apart by the order of their creation.
- ToolLog.Event: a tool's summary and a node's decision are texts given with the callback; nodes of the admin assistant are not listed.
- RateLimit.Hit: times are exact numbers instead of floats, and a key's limit and window length are fixed in `RateBound`.
- Ids.Cuid: time, process id and random numbers are inputs; the lock makes one call of `Next` atomic.
- PracticeExit.Round: percentages are exact numbers instead of floats, and records with a missing or non-numeric percentage are not covered.
- PracticeExit.Start: a request that raises is rolled back as a whole (`app/database/db.py:57-64`), and attempt ids are new.
- SeedCatalogue.Items: `slugify` and the older metadata are parameters; class levels and terms are one list of blocks; unknown term keys and missing subjects, which raise, are not covered.
- SeedCatalogue.Seeder: `seed_subjects` and `seed_achievements` take the same find-or-add step without levels and would add only copies.
- StreamControl.Step: the shared store is the answer it gives; its keys, expiry times and the polling interval are not modelled, so a stop overwritten there by a later one is not covered.
- Retrieval.Step: search, grades, verdicts and fallback rankings are inputs; the wording of questions is not kept.
- Retrieval.Settings: scores are exact numbers instead of floats, and the number of documents to retrieve is not negative.
- Guardrails.Route: probabilities are exact numbers; the table of hazards is reduced to whether a hazard asks for support, as every other listed or unknown one blocks.
- Cards.AcceptUiBlocks: which props a card may have is a parameter, and parsing a card's text is not modelled.
- UiSplit.Cards: the JSON of a card is kept as text.
- At most one running turn per thread is not decided by this code (`app/ai/tutor/service.py:771-776` awaits between the check and the creation).
- The admin assistant's copies of the run log and the service, HTTP routes, queries, prompts, web push, Redis, heartbeats and the grace period are not modelled.
