# MeshCore Control Bridge: a verified model

MeshCore Control Bridge keeps small persistent state machines between two unreliable transports. This
project models the parts of it whose properties span whole runs, and proves those properties for
every input, every interleaving and every failure the model admits.

| file | models |
|---|---|
| `Utf8.dfy`, `Text.dfy` | UTF-8 with `errors="ignore"` decoding (RFC 3629, section 3), whitespace normalisation, line tidying |
| `Render.dfy`, `LoraTrim.dfy` | byte-budget texts: prefix and word truncation, the two trimming layers |
| `RateLimit.dfy`, `Deduplication.dfy` | the two windowed filters against the full history of their acceptances |
| `Transactions.dfy` | `BEGIN IMMEDIATE`, nested savepoints, bounded retry: a connection as a stack of snapshots |
| `TelegramStore.dfy`, `StoreRuns.dfy`, `Migration.dfy`, `MigrationAnswers.dfy` | the purging Telegram store, its runs, the start-up migration that replays old rows |
| `UpdatePolling.dfy` | the update loop with crashes between its three steps |
| `BridgeHealth.dfy`, `HealthEvents.dfy` | health counters and overrides, the coalescing change publisher |
| `WebSocket.dfy` | the request/response correlator |
| `Forwarding.dfy` | two-way forwarding with echo suppression |
| `Audit.dfy`, `Authorization.dfy`, `Pipeline.dfy` | the audit trail over failing writes, authorisation, the command pipeline |

`Models.dfy` holds the shared value types, `Traces.dfy` what a run of a state machine is.

## How it is modelled

- Objects whose methods update fields are classes. Each method is tied to a function on values
  (`Next`, `Effect`, `Apply`, `Survivors`, `Trimmed`, ...), and the properties are lemmas about that
  function or invariants (`Valid`) that every method keeps. Where the source has a loop over awaits,
  a method runs it with anything at its awaits and is shown to be a trace of that function. Code
  between two awaits is one method; interleavings and crashes are sequences of events over those
  steps.
- Strings hold Unicode scalar values, so lone surrogates do not occur. Times are real numbers.
- Hashes are injective: rows are keyed by what is hashed. Identifiers are fresh. Each clock is a
  nondecreasing input. The wall clock (deduplication, store) and the monotonic clock (limiters) are
  separate inputs.
- A write that may fail takes its failure as an input. Store operations are single steps: that a
  failing or retried transaction leaves all of its effect or none is what `Transactions` proves.
- An execution in the pipeline carries the clock readings at which its message passed the two
  filters; nothing is awaited between those readings and the handler's start.

## Where the code does not do what it seems to promise

- Two effects for one Telegram update are 3600 s apart counted from the acceptance of the first. An
  effect that comes `d` seconds after its acceptance shortens the gap by up to `d`, and by no more:
  with effects at most `d` late, gaps are guaranteed exactly up to 3600 s less `d`
  (`SpacingExactly`).
- The start-up migration changes no answer if and only if every source row that can still show in
  one is covered by the target, as it is after a first migration into a target whose rows outlast
  such source rows of the same keys (`AnswersInvisibleExactly`, `MigrationAnswersInvisible`). A fresh
  target always qualifies. `InvisibleExactly` is the same about all unexpired rows.
- Echo suppression needs a prefix that does not start with whitespace and has only single ASCII
  spaces. With any other prefix some forwarded text's own echo is not recognised
  (`OwnEchoesAreRecognisedExactly`).
- The bridge's trim leaves `fit_lora` results alone for one shared budget of at most 1 byte or at
  least 8 bytes, and for no budget between; it is idempotent for at most 1 byte or at least 21
  bytes, and for no budget between (`BridgeBudgets`).
- Without failures a message's audit events are one causal chain exactly if it is no unforwarded text
  that passed the filters as no command: there `message.ignored` hangs on the reception, beside
  `command.parsed` (`OneChainUnlessLeftOver`). Every command is one chain.

The deduplicator also looks up an older key that it never stores. That lookup can find another
message's row only for transport names that are `v2` or begin with `v2:`
(`LegacyKeysCollideExactly`). The daemon's transport has a constant name that is neither, so no
message it receives is affected (`DaemonNeverCollides`).

## Model

| member | source | states |
|---|---|---|
| Utf8.RoundTrip | src/meshcore_control/app.py:258-264 | decoding what was encoded gives the string back, for every string |
| Utf8.RfcExamples | src/meshcore_control/app.py:258-264 | the encoder gives the examples of RFC 3629, section 7 |
| Utf8.DecodeOfCut | src/meshcore_control/app.py:258-264 | bytes cut anywhere and decoded with errors ignored are exactly the longest fitting code-point prefix: a split character vanishes and nothing else does |
| Utf8.TruncateIsOptimal | src/meshcore_control/telegram/service.py:1118-1122 | byte truncation gives a prefix within the budget, and no longer prefix fits, for every string and budget |
| Text.NormalizeIsNormal | src/meshcore_control/telegram/service.py:1125-1126 | the normalised text has only single inner ASCII spaces and the same words |
| Text.NormalizeFixedPoint | src/meshcore_control/telegram/service.py:1125-1126 | a text is its own normalisation exactly when it has no other whitespace than single inner ASCII spaces |
| Text.NormalizeSameWords | src/meshcore_control/security/deduplication.py:87-88 | two texts normalise alike exactly when they have the same words, so differences in whitespace do not matter |
| Text.SpacesExactly | src/meshcore_control/telegram/service.py:1125-1126 | the characters counted as whitespace, each by its code point |
| Text.BreaksExactly | src/meshcore_control/app.py:245 | the characters counted as line ends, each by its code point |
| Text.TidyIsTidy | src/meshcore_control/app.py:245 | strip and per-line rstrip give a tidy text, and leave exactly the tidy texts unchanged |
| Text.TidyKeepsText | src/meshcore_control/app.py:245 | tidying keeps every word in order, and changes a text of one line at its ends only |
| Render.TruncateUtf8Words | src/meshcore_control/telegram/service.py:1085-1104 | the word loop computes the text that WordTruncationIsOptimal characterises |
| Render.WordTruncationIsOptimal | src/meshcore_control/telegram/service.py:1085-1104 | for normalised text over the limit: the ellipsis after the longest run of whole words that fits, or the longest code-point prefix when the first word does not fit; nothing exactly when the limit is below 4 or no code point fits |
| Render.RenderedFits | src/meshcore_control/telegram/service.py:1049-1122 | both renderings stay within their byte limit |
| Render.FittingGoesOutWhole | src/meshcore_control/telegram/service.py:1049-1082 | in both directions a text without words is not sent, and one that fits goes out as the prefix with its words |
| Render.TelegramCutIsLongest | src/meshcore_control/telegram/service.py:1067-1122 | over the limit, and with room for the suffix, Telegram gets the visible part of the longest fitting code-point prefix with the suffix, and nothing exactly when nothing visible fits |
| Render.TelegramHasNoRoom | src/meshcore_control/telegram/service.py:1107-1111 | over a limit of no more than the suffix nothing is sent |
| Render.TelegramGetsTheText | src/meshcore_control/telegram/service.py:1067-1082 | whatever is rendered for Telegram is the whole text where that fits, and otherwise such a longest cut |
| Render.MeshcoreGetsTheText | src/meshcore_control/telegram/service.py:1049-1104 | whatever is rendered for MeshCore is the whole text where that fits, and otherwise, under a clean prefix, the longest run of words or of characters before an ellipsis; nothing exactly when not one character has room |
| Render.CleanPrefixKeepsNormal | src/meshcore_control/telegram/service.py:1049-1064 | a prefix before a normal text gives a normal text exactly when the prefix is clean |
| Render.RenderedIsFixedPoint | src/meshcore_control/telegram/service.py:1049-1126 | with a clean prefix every rendered text, whole, word-truncated or cut inside its first word, is a fixed point of normalisation |
| Render.CleanPrefixIsNeeded | src/meshcore_control/telegram/service.py:1049-1126 | all rendered texts are fixed points if and only if the prefix is clean |
| LoraTrim.TrimToBudget | src/meshcore_control/app.py:244-255 | the trimmed text, within every nonnegative budget; the shrinking loop never runs its body |
| LoraTrim.TrimmedFits | src/meshcore_control/plugins/home_status.py:180-191 | the result fits every nonnegative budget, and the body cut for the marker already fits with it |
| LoraTrim.TrimKeepsLongest | src/meshcore_control/app.py:244-255 | a tidied text within the budget stays whole; a longer one keeps the longest leading part that leaves room for the marker |
| LoraTrim.LayersCompose | src/meshcore_control/plugins/home_status.py:180-191 | the outer layer leaves every inner result unchanged exactly for budgets of at most one byte or at least four more than the inner marker |
| LoraTrim.BridgeBudgets | src/meshcore_control/app.py:244-255 | the two actual layers compose exactly for at most 1 or at least 8 bytes; the bridge's trim is idempotent exactly for at most 1 or at least 21 |
| RateLimit.RateLimiter.Allow | src/meshcore_control/security/rate_limit.py:13-23 | accepts exactly a named sender with fewer than the cap of acceptances in the closed window ending now, judged on the full history; a rejection leaves the history alone; the deque stays the sorted live end of the history and every window of that length stays capped |
| RateLimit.Slide | src/meshcore_control/security/rate_limit.py:16-23 | popping the expired head and counting the rest decides as the full history does |
| RateLimit.AcceptKeepsCap | src/meshcore_control/security/rate_limit.py:20-23 | one more acceptance below the cap keeps every closed interval of window length capped, whenever it starts |
| RateLimit.WindowIsTail | src/meshcore_control/security/rate_limit.py:18-19 | what is left of the deque is exactly the window that ends now |
| RateLimit.OthersUnaffected | src/meshcore_control/security/rate_limit.py:16-22 | senders do not interact |
| Deduplication.Deduplicator.SeenOrStore | src/meshcore_control/security/deduplication.py:24-70 | seen exactly when the key was accepted at some time whose window is still open, judged on the full history; for the daemon's messages, exactly when one of the same room, sender and id was; repeats extend nothing; a storage error changes nothing |
| Deduplication.Deduplicator.StoreKey | src/meshcore_control/security/deduplication.py:29-44 | purge, look every key up, insert the first: a key that is inserted is not in the purged table, so the primary key is never broken; a repeat leaves every row as it was |
| Deduplication.IdsShareExactly | src/meshcore_control/security/deduplication.py:46-70 | one sender's messages of one room with ids share a key exactly when the ids are equal |
| Deduplication.IdsAndTextsNeverShare | src/meshcore_control/security/deduplication.py:46-70 | a message with an id and one without never share a key, whatever the hash |
| Deduplication.SendersNeverShare | src/meshcore_control/security/deduplication.py:46-92 | messages of one room that share a key have one sender, and both have ids or neither |
| Deduplication.RoomsNeverShare | src/meshcore_control/transport/homeassistant_meshcore.py:199-226 | the daemon's messages that share a key come from one room |
| Deduplication.DaemonsShareExactly | src/meshcore_control/transport/homeassistant_meshcore.py:199-248 | the daemon's messages share a key exactly when room, sender and id are the same |
| Deduplication.RecentIsSameAccepted | src/meshcore_control/security/deduplication.py:24-70 | a key of the daemon's is recent exactly when a message of the same room, sender and id was accepted within the window |
| Deduplication.RecentIsLast | src/meshcore_control/security/deduplication.py:33-68 | an open window of any acceptance is one of the last acceptance of that key |
| Deduplication.LegacyKeyNeverCurrent | src/meshcore_control/security/deduplication.py:72-92 | unless the transport reads as the newer format, an older key equals nobody's current key |
| Deduplication.LegacyKeyCanCollide | src/meshcore_control/security/deduplication.py:72-92 | for every transport name that is `v2` or begins with `v2:`, whatever the hash, two messages from different rooms with the older key of one equal to the current key of the other |
| Deduplication.LegacyKeysCollideExactly | src/meshcore_control/security/deduplication.py:46-84 | older keys of a transport can equal current keys if and only if its name is `v2` or begins with `v2:` |
| Deduplication.DaemonNeverCollides | src/meshcore_control/transport/homeassistant_meshcore.py:199-226 | messages of the daemon's own transport never carry an older key that is anybody's current key |
| Deduplication.WhitespaceSharesKey | src/meshcore_control/security/deduplication.py:72-92 | without ids, one sender's texts in one room share a key exactly when they have the same words |
| Transactions.Connection.WriteTransaction | src/meshcore_control/storage/database.py:210-268 | one attempt after the other exactly while they end on a lock, at most retries + 1; the first that succeeds or fails otherwise is the last, and its error is returned: that of its BEGIN, else the first its body reaches, else that of its COMMIT; the effect of its surviving writes if it succeeded and of none otherwise; the total pause |
| Transactions.ErrorIsFirstReached | src/meshcore_control/storage/database.py:210-268 | what an attempt ends in is the first error it reaches, as a relation on its BEGIN, its nodes and its COMMIT, and nothing exactly when all of them are quiet |
| Transactions.DecisionIs | src/meshcore_control/storage/database.py:239-268 | if the attempts before the k-th end on a lock and the k-th succeeds or fails otherwise, the k-th decides, with its own error |
| Transactions.Connection.WriteSavepoint | src/meshcore_control/storage/database.py:285-330 | a nested write is all or nothing, and a raise restores the state before it and the nesting depth |
| Transactions.Connection.RunBody | src/meshcore_control/storage/database.py:285-330 | for any tree of nested writes, the database ends as if only the writes outside failed scopes had run |
| Transactions.FailedScopesVanish | src/meshcore_control/storage/database.py:285-330 | cutting a caught, failed scope out of an operation changes neither its error nor its surviving writes |
| Transactions.SucceedingScopesFlatten | src/meshcore_control/storage/database.py:285-330 | the statements of a successful scope may stand in its place |
| Transactions.BackoffDoubles | src/meshcore_control/storage/database.py:225-268 | k retries sleep initial * (2^k - 1) seconds in all |
| TelegramStore.TelegramStore.SeenOrStoreUpdate | src/meshcore_control/telegram/store.py:93-118 | answers whether a live row of the update is there, and leaves the purged table with the new row |
| TelegramStore.TelegramStore.CreateBridgeRecord | src/meshcore_control/telegram/store.py:184-246 | stores one record that expires after 600 s, over the purged table |
| TelegramStore.TelegramStore.ConsumePendingEcho | src/meshcore_control/telegram/store.py:248-316 | takes an oldest live, unconsumed, accepted record of the text if there is one, flips it and nothing else |
| TelegramStore.TelegramStore.PersistLastUpdateId | src/meshcore_control/telegram/store.py:86-91 | the offset is what was persisted last |
| TelegramStore.SameAnswers | src/meshcore_control/telegram/store.py:93-316 | stores that show the same live rows allow the same answers, and show the same rows afterwards, whether they purge or not |
| TelegramStore.LiveEffect | src/meshcore_control/telegram/store.py:93-316 | what an operation does to the live rows does not depend on the expired ones |
| StoreRuns.PurgingIsInvisible | src/meshcore_control/telegram/store.py:93-316 | a run is possible with purging exactly when it is without, and shows the same rows |
| StoreRuns.HistoryRow | src/meshcore_control/telegram/store.py:184-316 | each row is its creation, flipped exactly if some step consumed it |
| StoreRuns.SeenMatchesHistory | src/meshcore_control/telegram/store.py:93-118 | an update is answered as seen exactly when the history holds an acceptance of it that is less than 3600 s old |
| StoreRuns.EchoMatchesHistory | src/meshcore_control/telegram/store.py:248-316 | an echo is taken exactly when the history holds an unexpired, unconsumed, accepted record of it, and then an oldest one |
| StoreRuns.TakenOnce | src/meshcore_control/telegram/store.py:248-316 | no record is consumed twice |
| StoreRuns.EchoConservation | src/meshcore_control/telegram/store.py:184-316 | successful forwards of a text are its suppressions plus its unconsumed records |
| StoreRuns.SuppressionsBounded | src/meshcore_control/telegram/store.py:184-316 | suppressions of a text never exceed its successful forwards, in every purging run |
| Migration.MigrateTelegramTables | src/meshcore_control/telegram/database.py:38-63 | the copy loops leave the target's rows and add the source's missing ones; a failure changes nothing |
| Migration.InsertOrIgnore | src/meshcore_control/telegram/database.py:45-63 | row by row insertion that ignores present keys is the union that prefers the table |
| Migration.ReplayIsInvisible | src/meshcore_control/telegram/database.py:38-63 | over a covered source the replay changes no live row and keeps it covered |
| Migration.RestartsAreInvisible | src/meshcore_control/main.py:255-265 | a run with restarts anywhere is possible exactly when the same operations and answers are possible without them |
| Migration.InvisibleExactly | src/meshcore_control/telegram/database.py:38-63 | restarts are invisible in every run, in what answers are possible and in the state and unexpired rows they end with, if and only if the source is covered: each of its rows is expired or outlasted by the target's |
| Migration.FirstMigrationCovers | src/meshcore_control/telegram/database.py:38-63 | after a first migration the source is covered exactly when no unexpired source row met a target row of its key that expires earlier |
| Migration.MigrationIsInvisible | src/meshcore_control/main.py:255-265 | from the first migration on, restarts leave the possible answers, the state rows and all unexpired rows of every run as they are without them, if and only if no unexpired source row met a target row of its key that expires earlier; a fresh target always qualifies |
| MigrationAnswers.AnswersInvisibleExactly | src/meshcore_control/telegram/database.py:38-63 | counting answers and state rows alone, with fresh identifiers: restarts change none in any run if and only if every source row that can still show in one is covered; among the records these are the unexpired ones that an echo may take |
| MigrationAnswers.MigrationAnswersInvisible | src/meshcore_control/main.py:255-265 | from the first migration on, restarts change no later answer and no state row, activation and offset included, if and only if no unexpired update and no consumable record of the source met a target row of its key that expires earlier |
| Migration.NeverConsumableAgain | src/meshcore_control/telegram/store.py:248-304 | a consumed or expired echo record is never consumed afterwards, over any restarts |
| Migration.RecordStays | src/meshcore_control/telegram/store.py:184-316 | a record stays as it is, over operations and restarts, until it expires or is taken |
| Migration.UncoveredRestartShows | src/meshcore_control/telegram/database.py:38-63 | where the target's row of an update expires before the source's, a run with a restart in it that ends with the update answered as seen, while without the restart the same question must be answered as new |
| UpdatePolling.UpdatePoller.CheckUpdate | src/meshcore_control/telegram/service.py:999-1006 | a storage error, like a repeat, keeps the update from acting; the step follows the transition function |
| UpdatePolling.UpdatePoller.PollOnce | src/meshcore_control/telegram/service.py:471-494 | a poll asks for what follows the stored offset; whatever is delivered, whatever fails and wherever it breaks off, it is a run of the check, act and persist steps; it leaves the offset at the last delivered id whose persist was reached and did not fail, and with a server that honours the request it does not lower it |
| UpdatePolling.UpdatePoller.ProcessUpdate | src/meshcore_control/telegram/service.py:496-557 | one update is accepted exactly if its check does not fail and no live row of it is stored; it acts then, if the poll gets there, and is persisted, if the poll gets there and the write does not fail |
| UpdatePolling.PolledOffsetIsLastPersisted | src/meshcore_control/telegram/service.py:471-494 | the offset after a poll is the last delivered id whose persist is reached and does not fail, and the old one if there is none |
| UpdatePolling.SmoothPollMovesOn | src/meshcore_control/telegram/service.py:471-494 | after a poll without breaks and failed persists the offset is the last id delivered, and the next poll asks for the one after it |
| UpdatePolling.UpdatePoller.Run | src/meshcore_control/telegram/service.py:427-459 | poll after poll, some broken off inside an update and some followed by a restart, is one run of those steps, to which the theorems about runs apply; each poll moves the offset to the last id it persisted; with servers that honour their requests the offset is never lowered |
| UpdatePolling.TraceKeepsOnce | src/meshcore_control/telegram/service.py:496-557 | acceptances of one update are 3600 s apart and every effect belongs to one acceptance, in every run with crashes |
| UpdatePolling.EffectsAreSpaced | src/meshcore_control/telegram/service.py:496-557 | two effects of one update are 3600 s apart less the delay of the first after its acceptance |
| UpdatePolling.LagIsLost | src/meshcore_control/telegram/service.py:496-557 | that loss is real: for every delay up to 3600 s a run with effects that much closer |
| UpdatePolling.SpacingExactly | src/meshcore_control/telegram/service.py:496-557 | over all runs whose effects come at most a lag after their acceptance, a gap between effects of one update is guaranteed if and only if it is at most 3600 s less that lag |
| UpdatePolling.OffsetNeverDecreases | src/meshcore_control/telegram/service.py:471-494 | with ascending ids at or above the requested offset, the stored offset never decreases |
| UpdatePolling.PersistedNeverActsAgain | src/meshcore_control/telegram/service.py:471-557 | no update at or below a persisted offset takes effect again |
| BridgeHealth.BridgeHealthState.Change | src/meshcore_control/bridge_health.py:177-313 | every mutator's new state, and a critical notification exactly on the transitions that count as critical |
| BridgeHealth.SwitchAfter | src/meshcore_control/bridge_health.py:177-246 | a switch is what it was last set to by an override, a reset or the configuration, and nothing else moves it |
| BridgeHealth.FailureAfter | src/meshcore_control/bridge_health.py:248-313 | the last failure and its reason are those recorded last |
| BridgeHealth.StatesAfter | src/meshcore_control/bridge_health.py:177-313 | each state of a connection or database moves by its own mutators only, and each command counts once |
| BridgeHealth.FingerprintsAgreeExactly | src/meshcore_control/bridge_health.py:35-133 | two states have one fingerprint exactly when they agree in everything that is shown |
| BridgeHealth.ChangesShow | src/meshcore_control/bridge_health.py:35-133 | every recorded forward and command, every new override and every changed connection changes the fingerprint |
| BridgeHealth.CriticalExactly | src/meshcore_control/bridge_health.py:119-133 | new failures and lost connections are critical; successes, commands and switches are not |
| BridgeHealth.ResetUndoesOverrides | src/meshcore_control/bridge_health.py:197-246 | after any overrides a reset gives the state and the configured switches as if none had been set |
| BridgeHealth.CountersAreConserved | src/meshcore_control/bridge_health.py:281-301 | over any mutations, success plus failure of a direction grows by the recorded forwards of that direction |
| BridgeHealth.ReasonsStaySafe | src/meshcore_control/bridge_health.py:439-441 | whatever text a failure carries, only a reason from the safe list is ever shown |
| BridgeHealth.SafeReasonExactly | src/meshcore_control/bridge_health.py:651-653 | a safe reason is kept, and one whose normalised spelling is not safe becomes a storage error |
| HealthEvents.HealthEventPublisher.Run | src/meshcore_control/homeassistant_health_events.py:70-88 | the loop, with any mutators, notifications, marks and stops at its awaits, any timeouts and any failed sends, runs through a trace of the model's steps, so it loses and repeats nothing; after a turn that nobody disturbs and whose send succeeds, the current state is the published one |
| HealthEvents.StepLosesNothing | src/meshcore_control/homeassistant_health_events.py:35-108 | every step keeps: a waiting loop has published the current state or has a flag, mark or notification outstanding |
| HealthEvents.StepRepeatsNothing | src/meshcore_control/homeassistant_health_events.py:90-108 | every unforced successful publish differs from the one before |
| HealthEvents.RunsLoseNothing | src/meshcore_control/homeassistant_health_events.py:35-108 | both hold in every interleaving of mutators, marks, sleeps, heartbeats and failed publishes |
| HealthEvents.RunsFromStartLoseNothing | src/meshcore_control/homeassistant_health_events.py:35-108 | so in every run of a new publisher, nothing is lost and nothing repeated |
| HealthEvents.QuietLoopCatchesUp | src/meshcore_control/homeassistant_health_events.py:53-108 | left alone with sends that succeed, a live publisher has the current state published after a bounded number of its own steps, in every order, and keeps it published |
| HealthEvents.LiveIsNeverStuck | src/meshcore_control/homeassistant_health_events.py:70-88 | a live publisher always has a step of its own to take |
| WebSocket.WebSocketConnection.IssueCommand | src/meshcore_control/adapters/homeassistant_ws.py:246-270 | a new id from the client's counter and one open future for it |
| WebSocket.WebSocketConnection.RunCommand | src/meshcore_control/adapters/homeassistant_ws.py:246-299 | one command with anything at its awaits: it returns the first result frame of its own id that the reader took while the future was open, exactly if its send went out and that frame is a success; nothing of it stays pending |
| WebSocket.WebSocketConnection.SimpleCommand | src/meshcore_control/adapters/homeassistant_ws.py:175-209 | a connection for one command runs through a trace, gives that same answer, and tears down with nothing pending |
| WebSocket.WebSocketConnection.Events | src/meshcore_control/adapters/homeassistant_ws.py:67-132 | the listener runs through a trace; if all its subscriptions succeed it yields, turn by turn, the event that heads the queue until the reader has stopped, and otherwise nothing; what it yields is a leading part of the events received, and teardown leaves no command behind |
| WebSocket.FateIsFirstResult | src/meshcore_control/adapters/homeassistant_ws.py:301-354 | a command is completed by a frame exactly if that is the first result of its id to be taken before anything stops the reader |
| WebSocket.FutureIsFate | src/meshcore_control/adapters/homeassistant_ws.py:246-354 | what becomes of the future of a command just issued is decided by the events alone |
| WebSocket.QueuedIsHeard | src/meshcore_control/adapters/homeassistant_ws.py:101-132 | whatever arrives meanwhile, every queued event that has a turn before the reader stops is yielded |
| WebSocket.RunsStayCorrelated | src/meshcore_control/adapters/homeassistant_ws.py:246-379 | correlation and event order hold in every run of sends, frames, timeouts, cancellations and teardown |
| WebSocket.ResultsReachTheirCommand | src/meshcore_control/adapters/homeassistant_ws.py:67-132 | a completed future holds a received frame of its own id; yielded events are a leading part of the received ones; after teardown nothing is pending or open |
| WebSocket.IdsIncrease | src/meshcore_control/adapters/homeassistant_ws.py:240-270 | command ids strictly increase over the run and are never reused |
| WebSocket.SettledForGood | src/meshcore_control/adapters/homeassistant_ws.py:272-364 | a future that has completed, failed or been cancelled never changes again |
| WebSocket.FinishedIsGone | src/meshcore_control/adapters/homeassistant_ws.py:272-299 | a finished command is never pending again |
| Forwarding.Bridge.ReceiveFromMeshcore | src/meshcore_control/telegram/service.py:101-218 | the order of reasons to ignore; disabled, self-sent, empty and echoed messages spend no limiter budget; what is sent is the prefix and text, whole if they fit and cut as rendered otherwise; an echo takes one matching record; an enabled echo of any remembered text whose record has not expired is ignored; a dropped text is noted in the store, if that works; the exact health afterwards; forwarding stays conserved |
| Forwarding.Bridge.TelegramSendEnded | src/meshcore_control/telegram/service.py:186-275 | an admitted text's send ends with one success or one failure counted and its reason kept, noted in the store as sent or failed, and with no consumable record |
| Forwarding.Bridge.IsPendingEcho | src/meshcore_control/telegram/service.py:277-299 | an echo exactly when a live record matches the normalised text by content and size, or the store fails |
| Forwarding.EchoKeysExactly | src/meshcore_control/telegram/service.py:277-299 | two texts are echoes of each other exactly when they come from one room and have the same words; a text to Telegram is never one |
| Forwarding.DecidedExactly | src/meshcore_control/telegram/service.py:101-218 | a message is sent exactly when nothing speaks against it, and else the first reason that applies is given |
| Forwarding.RateKeysExactly | src/meshcore_control/telegram/service.py:1154-1161 | senders of one room have separate rates |
| Forwarding.Bridge.ReceiveFromTelegram | src/meshcore_control/telegram/service.py:596-703 | the order of reasons to ignore; what is admitted is in flight as rendered, whole if it fits; a dropped text is noted in the store, if that works; the exact health afterwards; forwarding stays conserved |
| Forwarding.Bridge.MeshcoreSendEnded | src/meshcore_control/telegram/service.py:704-789 | a consumable record appears only after the send of an admitted rendering returned, under that text, for 600 s, and is remembered; a failed one is noted as failed; one success or one failure is counted |
| Forwarding.Bridge.Restarted | src/meshcore_control/main.py:255-265 | a restart with its migration keeps every sent text's unexpired record, and conservation starts anew |
| Forwarding.Bridge.Run | src/meshcore_control/telegram/service.py:101-299 | over any run of both directions' steps, interleaved with each other and with changes of the health: every message heard is answered, forwarding is conserved, and no echo that could be forwarded is |
| Forwarding.ForwardAndHear | src/meshcore_control/telegram/service.py:277-299 | a text that is admitted, sent and recorded and comes back within 600 s is ignored as an echo, whatever the lookup does |
| Forwarding.EchoIsFound | src/meshcore_control/telegram/service.py:277-299 | a message that repeats a remembered text finds a live matching record; under a clean prefix the sent text itself does |
| Forwarding.EndedCounters | src/meshcore_control/bridge_health.py:281-301 | whatever the storage does, the end of one send moves one counter of its direction by one |
| Forwarding.EndedShows | src/meshcore_control/telegram/service.py:186-275 | a failed send leaves its time and its own reason, and a returned one neither |
| Forwarding.EchoesAreSuppressed | src/meshcore_control/telegram/service.py:277-299 | with a clean prefix, from any store: once recorded, every text of that room that normalises to the sent one is answered as an echo until the record expires or is taken, over all operations and restarts |
| Forwarding.UncleanPrefixLeaksEcho | src/meshcore_control/telegram/service.py:1049-1064 | for every other prefix some text is forwarded whose own echo takes no record, though its own is the only one in the store and unexpired |
| Forwarding.OwnEchoesAreRecognisedExactly | src/meshcore_control/telegram/service.py:277-299 | every sent text's own echo is recognised, whatever the text, the cut, the store and what happens to it, if and only if the prefix is clean |
| Audit.AttemptIsAllOrNothing | src/meshcore_control/storage/audit_flow.py:221-233 | an attempt ends in the first thing that goes wrong in it; it succeeds exactly when nothing does, and then every statement counts |
| Audit.DecidedByWeather | src/meshcore_control/storage/audit_flow.py:221-233 | a write gets through exactly when some attempt within the retries meets no fault and all before it met only locks |
| Audit.ForestMeans | src/meshcore_control/storage/audit_flow.py:279-308 | in a forest every cause is absent or an earlier stored event of the same correlation id, and ids are distinct |
| Audit.AuditFlow.MessageReceived | src/meshcore_control/storage/audit_flow.py:84-123 | stores the reception and starts a trail at it, or starts a degraded trail and changes nothing; forest, anchored trails and agreement of the tables are kept |
| Audit.AuditFlow.Record | src/meshcore_control/storage/audit_flow.py:125-181 | stored exactly if the write gets through within its retries: one event, hanging on the reception if it is an ignored message and on the latest event otherwise, or nothing at all; a failed write leaves the trail where it was |
| Audit.AuditFlow.CommandExecution | src/meshcore_control/storage/audit_flow.py:183-234 | the inbound row, the legacy row and the event, all three or none, under any failing statement, refusal or retry; the event names the command only if it is registered |
| Audit.AgreeGrows | src/meshcore_control/storage/audit_flow.py:212-233 | three more rows of one call keep inbound messages, legacy rows and execution events in step |
| Audit.RowsCorrespond | src/meshcore_control/storage/audit_flow.py:212-233 | row for row: as many inbound messages and execution events as legacy rows, the i-th of each with the same message, result and duration, and the command's name in the event exactly if it is registered |
| Audit.AuditFlow.Follow | src/meshcore_control/storage/audit_flow.py:51-54 | the trail moves only to an event that is stored, and every trail stays anchored |
| Audit.AuditTrail.AnchoredMeans | src/meshcore_control/storage/audit_flow.py:44-54 | a trail's received and latest ids are absent or name stored events of its correlation id |
| Audit.TaleGrows | src/meshcore_control/storage/audit_flow.py:300-308 | whatever writes were lost before, a trail's stored events stay a subsequence of what it recorded, each hanging where it should |
| Audit.WholeTaleIsChain | src/meshcore_control/storage/audit_flow.py:279-308 | a trail that lost nothing holds every event recorded on it, each but an ignored message caused by the one before |
| Audit.OneChainExactly | src/meshcore_control/storage/audit_flow.py:125-137 | such a trail is one causal chain if and only if nothing was ignored but right after the reception |
| Authorization.Authorizer.AuthorizedExactly | src/meshcore_control/auth/authorization.py:43-73 | a sender is let through exactly when no room is configured or this one is enabled and allows commands, and the role reaches the larger of the room's and the command's minimum |
| Pipeline.CommandRouter.Handle | src/meshcore_control/commands/router.py:37-137 | a handler runs exactly when the command is known and its sender authorised; reply, row and events follow from that; a failing audit changes none of it and loses at most its own rows |
| Pipeline.CommandRouter.Dispatch | src/meshcore_control/commands/router.py:48-115 | unknown, unauthorised, succeeded and failed commands, each with its reply, its row and its authorisation event |
| Pipeline.CommandRouter.HandledExactly | src/meshcore_control/commands/router.py:37-137 | for each kind of text, sender and outcome: what is answered, which row is written with which result, who runs, and which events are told with which reason of denial |
| Pipeline.BridgeService.ProcessMessage | src/meshcore_control/app.py:54-118 | what becomes of a message is decided by the full history; at most one send, to its own reply target; which filter is spent; and the whole state invariant: executions rightful, spaced and capped |
| Pipeline.BridgeService.VerdictExactly | src/meshcore_control/app.py:56-86 | each verdict exactly, filter by filter, from channel, room, storage, earlier acceptances and spare rate |
| Pipeline.BridgeService.RepeatsExactly | src/meshcore_control/app.py:65-68 | the daemon's messages count as repeats exactly when one of the same room, sender and id was accepted within the window |
| Pipeline.BridgeService.AnswersGoBack | src/meshcore_control/app.py:72-118 | every answer goes to its sender's id, reply target and channel, and is the rate limit text or the trimmed reply; exactly the other verdicts and silent replies send nothing |
| Pipeline.BridgeService.TextEndsExactly | src/meshcore_control/app.py:86-103 | a text that is no command ends as not forwarded for its reason, or is taken by the forwarder |
| Pipeline.BridgeService.RunForever | src/meshcore_control/app.py:120-126 | message after message until a storage error of the deduplicator: everything sent and everything executed follows from the verdicts, at most one send a message, and the invariant holds at the end |
| Pipeline.BridgeService.Admit | src/meshcore_control/app.py:56-70 | the filters in order: a duplicate spends no rate, a wrong channel or room spends nothing |
| Pipeline.NewRunIsSpaced | src/meshcore_control/app.py:65-86 | a message that is not recent may run without coming within the window of an execution of the same key |
| Pipeline.AcceptanceCovers | src/meshcore_control/app.py:69-86 | in every interval a sender's executions stay at most its acceptances |
| Pipeline.RunsAreCapped | src/meshcore_control/app.py:69-86 | so executions of one sender keep the limiter's cap in every window |
| Pipeline.BridgeService.RunsAreBounded | src/meshcore_control/app.py:54-118 | in every reachable state: right channel, open room and sufficient role for every execution, more than the window between two of one key, at most the cap per sender and window |
| Pipeline.BridgeService.CommandIsOneChain | src/meshcore_control/app.py:134-208 | the events of a command whose writes all succeeded are the whole story in one causal chain from message.received |
| Pipeline.BridgeService.OneChainUnlessLeftOver | src/meshcore_control/app.py:86-103 | of the messages whose writes all succeeded, exactly the texts that passed the filters as no command and were not forwarded leave no single chain |

## Left out

- Transports, TLS, JSON, handshakes and the SQLite engine: only frames, ids, rows and failures appear.
- Configuration, command parsing and registry contents: parameters of the model (`parse`, `lower`, `registry`, `Config`), as are the fixed wordings of answers.
- Status rendering, help texts, log redaction, health-check files, legacy migrations: no part of the properties above.
- Telegram's own command path and classification of updates: an accepted update acts or does not, as an input.
- The audit writes of forwarding and of the Telegram store: they write through the same flow, whose invariant holds for any trails and any interleaving; what forwarding adds to a trail is not part of `Pipeline`.
- The audit flow with the normalised audit disabled, and no audit flow at all: those write legacy rows only, in separate transactions.
- Cancellation and exceptions that a forwarding step does not list: conservation counts sends that end in one of the listed ways.
- A rollback that itself fails.
- What the override mutators of the health state return, and their fallback for unknown state names: targets and states are typed.
- The command name and the argument count in parse and authorisation events.
- Row ids and the order among echo records created at the same instant, which SQL leaves open too.
- `OutboundMessage.reply_to`, the `record_command_processed` timestamp, and the health marks that the pipeline sets when an audit write or a response fails.
- A missing MeshCore transport is one of the ways a send can end in failure, not a branch of its own.
- Concurrent handlers of one `BridgeService`: its loop awaits each message before it receives the next.
- UpdatePolling.EffectsAreSpaced: the gap counts from the first acceptance, because the effect may come later than its acceptance and the stored window does not know by how much.
