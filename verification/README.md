# Verified model of the lab dispatcher

The dispatcher connects measurement devices, actuators and a browser workbench. This project
models its stateful and arithmetic parts in Dafny and proves what they promise.

| file | part |
|---|---|
| `Interpolation.dfy`, `LinTable.dfy`, `WireFormat.dfy`, `Decoders.dfy` | the binary decoder and encoder: calibration table, interpolation and its inverse, two's complement byte formats, quantisation |
| `SessionLog.dfy`, `Recorder.dfy`, `Replayer.dfy`, `ReplayThread.dfy`, `RecordThenReplay.dfy` | the recorder's buffer and batches, the replay thread's command queue and cursor, and the two composed |
| `IdIndex.dfy`, `Registry.dfy`, `RegistryExactness.dfy`, `RegistryCompleteness.dfy`, `ProviderRegistry.dfy`, `SystemState.dfy` | manifests per session, the lookup indices and the decoder cache derived from them, and the routing table and source tags removed with them |
| `SharedMemory.dfy`, `Bridge.dfy` | the shared-memory ring buffer, and the ownership of its channels between the two threads of the bridge daemon |
| `Routing.dfy` | re-chunking and rate limiting on every route from a source to an actuator |
| `ClockOffsets.dfy` | the bounded cache of device clock offsets |
| `GroupPolicy.dfy` | group exclusivity of active tasks |
| `Options.dfy`, `Numbers.dfy` | the optional value; smaller, larger and absolute values |

Each stateful part has two layers. Functions over a value of the state (`State`, `Player`, `Tape`,
`Table`, ...) are the specification; invariants, round trips and run theorems are lemmas about
them. A class holds the same data in fields, as the source does, and every method's contract ties
the new field values to the specification function applied to the old ones. A run is a sequence of
events, one per section of code that holds a lock; the sections of `add_provider`, of the recorder's
`stop` and `write`, of the bridge's threads and of `task_assigned` are events of their own. Theorems
about all runs cover all interleavings of these events. The replay loop has two machines: in
`Replayer` a pass of the loop is one event, in `ReplayThread` each of its sections is (the top, one
queued command, the check after the drain, the tail), and `ReplayThread.PassIsSections` connects
them. The recorder's `start` and the replayer's `load_session` are one event each.

Conventions:

- Floating-point numbers are exact reals. Values that are not finite numbers appear as `Junk`,
  `Malformed` or `None`, where the source tests for them.
- A missing or empty id is the empty string; a missing number is `None`.
- Every clock reading, database answer and shared-memory creation result is a parameter, so the
  theorems hold for all of them. `Replayer.GoodRun` asks that the clock does not run backwards
  between the reading a tick starts from and the tick's own. A tick reads the clock twice
  (replayer.py lines 174 and 349); both readings are modelled and their distance is `Lag`.
- Emitted messages and unlinked channels are collected in ghost traces.

Where the code does not do what its documentation says or what a reader expects, with the exact
condition:

- The replay thread keeps an open connection when another session is loaded over it, so it plays
  the old file with the new bounds (`Replayer.FaithfulStep`, `Replayer.ConnectionPersists`). Over all
  interleavings the loaded session is the one played exactly when no load finds another connection
  open (`ReplayThread.RunFaithful`). A caller cannot tell from `running`: between the drained unload
  and the check that closes the connection it is false already. A load that sees it false plays its
  own session exactly when the thread does not stand in that gap (`ReplayThread.LoadAtRestExactly`);
  between two passes of the loop it never does (`Replayer.FaithfulRun`).
- A play whose last tick ends exactly on the duration leaves out the last instant
  (`RecordThenReplay.PlayThrough`).
- A write that falls between the flush and the close of `stop` is lost without an error, unless it
  is due to flush itself; one that does after the bounds are filed can make them stale. Both are
  decided exactly, the first by the times of the sections alone (`Recorder.StopExactly`,
  `Recorder.WriteBeforeClose`).
- The anchoring of a source is inserted in the same transaction as the rows, so a close can lose it
  although it is no longer pending: exactly when it is not committed with the same value
  (`Recorder.AnchoredExactly`; `Recorder.FailedRowsLoseAnchoring` gives the inputs).
- A batch that the closing write flushes but cannot commit is lost exactly when the log holds no
  measurement, although the database works again (`Recorder.FailedLastCommit`).
- A measurement range of zero makes the integer codec lose payloads (`Decoders.ByteRoundTripExactly`).
- Conflicts are checked against other sessions only, and the check and the insertion hold the lock
  separately. The indices stay complete, with one owner per id, exactly when: an insertion finds no
  conflict at its own moment, and a task id that the manifest it replaces shares with another of the
  session is brought again; an update meets the same condition, which it does not check; a dropped
  manifest shares no task id with one that stays (`RegistryCompleteness.LateInsertExactly`,
  `UpdateExactly`, `PopManifestLosesExactly`; over all runs `RunCompleteExactly`). So an ordinary
  `add_provider` that passes its check can lose an entry (`RegistryCompleteness.SharedTaskIsLost`).
- `_unindex_manifest` promises that a late disconnect does not harm a reconnected device. While the
  indices are complete that is so for every store (`SystemState.LateDisconnect`), and the handler removes the ghost session first
  (elab_server/socket_handlers/auth_handlers.py:356-366). When two registrations race past the
  check, or after an unchecked manifest update, only the lookup keeps the promise: decoder, tag and
  routes go with the old session exactly when it still lists an id involved
  (`SystemState.StaleDisconnect`; `SystemState.RacingRegistrations` is such a run).
- A bridge registration leaks a channel exactly when its manifest repeats a task id
  (`Bridge.RegistrationLeaksExactly`; over all runs `Bridge.LeaksExactly`).
- The reaper removes the instance it found dead exactly when that node has not registered or
  deregistered since; otherwise it removes the new instance, if there is one (`Bridge.ReaperPopsExactly`;
  `Bridge.ReaperPopsReplacement` is such a run).
- A route sends one chunk per payload at most: less than a chunk is left behind exactly when no
  burst of the last payloads completed more chunks than it had payloads (`Routing.BacklogExactly`);
  payloads larger than the chunk size make the buffer grow without bound (`Routing.EvenBacklog`).
- The comment in `_get_offset` says that active sources are not evicted as oldest; a source whose
  clock is corrected on every use is (`ClockOffsets.CorrectionDoesNotRefresh`).
- The check and the store of an assignment take the lock separately: the slots stay exclusive
  exactly when every store would still be allowed at its moment (`GroupPolicy.InterleavedExactly`,
  `GroupPolicy.RacingAssignments`). An assignment can be refused only because of the task it would
  replace (`GroupPolicy.RefusedNeedlessly`).

## Model

| member | source | states |
|---|---|---|
| `Interpolation.LinearizeIsTheCurve` | elab_server/decoders.py:175-194 | `_linearize` is the clamped piecewise-linear curve through the table and nothing else: a value is returned exactly when it satisfies the chord equation of the segment, or the end value outside |
| `Interpolation.LinearizeAtKnot` | elab_server/decoders.py:175-194 | every table point is reproduced exactly |
| `Interpolation.LinearizeHull` | elab_server/decoders.py:175-194 | decoded values never leave the range of the table's ordinates |
| `Interpolation.LinearizeLipschitz` | elab_server/decoders.py:175-194 | across segments and clamped ends, two inputs decode at most the steepest slope times their distance apart |
| `Interpolation.OneSided` | elab_server/decoders.py:289-305 | when no segment encloses a value, all ordinates are strictly on one side of it, so the search only fails outside the ordinates' range |
| `Interpolation.LinearizeDelinearize` | elab_server/decoders.py:284-305 | for every table, monotone or not, `_linearize(_delinearize(y))` is `y` clamped to the ordinates' range |
| `Interpolation.DelinearizeLinearize` | elab_server/decoders.py:284-305 | with strictly monotone ordinates and inside the table, `_delinearize(_linearize(x))` is `x` |
| `Interpolation.MonotoneCurveInjective` | elab_server/decoders.py:175-194 | with strictly monotone ordinates, two inputs inside the table never decode alike |
| `LinTable.CalibrationUnique` | elab_server/decoders.py:124-173 | strictly increasing abscissae and first-entry-wins answers determine the table; `TableIsTheList` says what these answers are |
| `LinTable.TableIsTheList` | elab_server/decoders.py:139-171 | a stored table has the point (x, y) exactly when (x, y) is an entry of the list and no usable entry before it has the abscissa x |
| `LinTable.TwoPoints` | elab_server/decoders.py:149-173 | it has two points, and is used, exactly when two usable entries of the list have different abscissae |
| `LinTable.SortByX` | elab_server/decoders.py:156-157 | the sort by x is stable: the first point of each abscissa stays first |
| `WireFormat.CodesFillTheWord` | elab_server/decoders.py:321-332 | the clamping bounds of each integer type leave exactly one code per bit pattern |
| `WireFormat.WordMeaning` | elab_server/decoders.py:249-255 | which end is little: the number of a word of one, two or four bytes, byte by byte, in both byte orders |
| `WireFormat.CodeMeaning` | elab_server/decoders.py:249-255 | the code of a word: its number, less the word size where the type is signed and its top bit is set |
| `WireFormat.UnpackAllAt` | elab_server/decoders.py:234-255 | after whole words, a word is read as it would be alone |
| `WireFormat.UnpackPack` | elab_server/decoders.py:252-255 | unpacking a packed code restores it, negative codes included, in both byte orders |
| `WireFormat.PackUnpack` | elab_server/decoders.py:338-340 | packing an unpacked word restores its bytes |
| `WireFormat.UnpackAllPackAll` | elab_server/decoders.py:249-255 | a packed list of codes unpacks to the same list |
| `WireFormat.PackAllUnpackAll` | elab_server/decoders.py:234-255 | packing what was unpacked restores the payload up to its last whole word; trailing bytes are what is discarded |
| `WireFormat.WholeLengthAligned` | elab_server/decoders.py:240-247 | a payload of whole words loses nothing |
| `Decoders.DecodeEncode` | elab_server/decoders.py:307-343 | `decode(encode(v))` works element by element, in either byte order |
| `Decoders.EncodeIsNearest` | elab_server/decoders.py:315-332 | without a table, no code of the format decodes closer to the value than the encoded one, clamping included |
| `Decoders.QuantisationBound` | elab_server/decoders.py:307-343 | through the table, `decode(encode(v))` misses the clamped value by at most steepest slope times scale over two |
| `Decoders.ReencodeCode` | elab_server/decoders.py:307-332 | a decoded code encodes back to itself, also through a strictly monotone table |
| `Decoders.ByteRoundTrip` | elab_server/decoders.py:224-343 | `encode(decode(b))` is `b` up to its last whole word |
| `Decoders.ByteRoundTripExactly` | elab_server/decoders.py:319 | without a table the byte round trip holds exactly when the scale is not zero or all codes equal the zero code |
| `Decoders.LsbIsOneCodeStep` | elab_server/decoders.py:196-222 | slope times scale is the decoded distance of two neighbouring codes while they stay in one segment |
| `Decoders.KnotDecodes` | elab_server/decoders.py:175-194 | a code that scales to an abscissa of the table decodes to its ordinate |
| `Decoders.DecodedIsMeasured` | elab_server/decoders.py:262-282 | decoded codes in terms of the manifest: without a table `(code - zero) * scale`; with one, a code that scales to the abscissa of a first-listed entry decodes to the ordinate of that entry |
| `Decoders.GenericBinaryDecoder.constructor` | elab_server/decoders.py:77-110 | a decoder is usable whatever the manifest says: scale from the ranges; `Valid` ties the table to the list, which `calibration` records |
| `Decoders.GenericBinaryDecoder.BuildLinTable` | elab_server/decoders.py:124-173 | by the entries alone: the table is used exactly when two usable entries have different abscissae, and then has the point (x, y) exactly when the first usable entry with abscissa x is (x, y) |
| `Decoders.GenericBinaryDecoder.Decode` | elab_server/decoders.py:224-282 | the loop decodes all whole words, each to `(code - zero) * scale` without a table and through the listed entries with one (`Measured`), and remembers the last scaled value, also when there was none |
| `Decoders.GenericBinaryDecoder.DelinearizeValue` | elab_server/decoders.py:284-305 | the segment search computes the inverse that `LinearizeDelinearize` is about |
| `Decoders.GenericBinaryDecoder.Encode` | elab_server/decoders.py:307-343 | the loop encodes every value and packs the codes |
| `Decoders.GenericBinaryDecoder.AdcLsbDecoded` | elab_server/decoders.py:196-222 | one raw code in decoded units at the last decoded sample; before any sample 0 with a table, the scale without |
| `SessionLog.OrderedHolds` | elab_server/replayer.py:176-184 | the query order is by event time and, at equal times, by sequence number, and a permutation of the log |
| `SessionLog.SelectExact` | elab_server/replayer.py:176-200 | one window sends every DATA_STREAM row of `[lo, hi)` exactly as often as the table holds it, sorted, and nothing else |
| `SessionLog.SelectSplit` | elab_server/replayer.py:176-200 | adjacent windows concatenate to the joint window: no gap, no duplicate |
| `SessionLog.DataSpan` | elab_server/replayer.py:51-56 | the fallback bounds are attained minimum and maximum of the DATA_STREAM times |
| `SessionLog.BoundsOfFile` | elab_server/replayer.py:32-56 | the bounds are the two metadata values when both are there, else those of the DATA_STREAM rows; there are none exactly when there is no such row |
| `Replayer.NextConsistent` | elab_server/replayer.py:222-366 | one load, command, speed change or pass of the loop keeps the run invariant |
| `Replayer.RunInvariant` | elab_server/replayer.py:222-366 | on every run the rows sent since the last load or reset are exactly the DATA_STREAM rows of `[base, hi)`, once each and in order; `hi` is the cursor, or past the end the cursor was clamped to |
| `Replayer.TickConsistent` | elab_server/replayer.py:349-361 | a tick extends the sent window from the cursor to the next cursor |
| `Replayer.FaithfulStep` | elab_server/replayer.py:236-245 | a step keeps the open connection on the loaded session exactly when it does not load another log under an open connection |
| `Replayer.ConnectionPersists` | elab_server/replayer.py:228-245 | without an unload, loading another session does not change the connection |
| `Replayer.FaithfulRun` | elab_server/replayer.py:228-245 | when sessions are loaded only between two passes of the loop and only while `running` is false, the loaded session is the one played, on every run |
| `ReplayThread.RunInvariant` | elab_server/replayer.py:222-366 | the run invariant holds after every section of the loop, with loads, commands and speed changes between any two sections |
| `ReplayThread.PassIsSections` | elab_server/replayer.py:227-366 | with no other handler in between, the sections of a pass are the pass |
| `ReplayThread.NextFaithful` | elab_server/replayer.py:97-145 | a section keeps the open connection on the loaded session exactly when it is no load of another log onto an open connection |
| `ReplayThread.RunFaithful` | elab_server/replayer.py:228-328 | on every run of sections the loaded session is the one played throughout exactly when no load finds another connection open |
| `ReplayThread.RunOpenInGap` | elab_server/replayer.py:251-328 | on every run, while `running` is false a connection is open exactly between the unload and the check after the drain |
| `ReplayThread.LoadAtRestExactly` | elab_server/replayer.py:251-328 | after every run, a load that sees `running` false plays its own session exactly when the thread stands at the top of its loop, or that session is still open |
| `Replayer.SilentWhilePaused` | elab_server/replayer.py:248-332 | once paused, no row is sent on any run until a play or seek command |
| `Replayer.ShiftLosesNothing` | elab_server/replayer.py:202-218 | the rewriting of a replayed payload is injective on live payloads: nothing of the recording is lost |
| `Replayer.SentReplays` | elab_server/replayer.py:202-220 | every time a payload carries is moved by one offset, its samples are kept, and its source id is marked `rec_` with the true one beside it |
| `Replayer.RangeSendsWindow` | elab_server/replayer.py:165-220 | a window sends every DATA_STREAM row in it as often as the table holds it, nothing else, in order, its upper end shifted to the clock reading |
| `Replayer.WindowShift` | elab_server/replayer.py:165-220 | each shifted log time of a window lies in `[now - window length, now)`, and so does the payload's start time or timestamp when the row is filed under it |
| `Replayer.CursorIsElapsed` | elab_server/replayer.py:349-359 | however the ticks fall, the cursor advances by the elapsed time times the speed |
| `Replayer.UnitSpeedShift` | elab_server/replayer.py:174-210 | at speed 1 every tick of an uninterrupted play shifts by the same amount, up to how late each emission reads the clock |
| `Replayer.TickShiftBounds` | elab_server/replayer.py:349-359 | at speed <= 1 a tick's events lie between the previous clock reading and its own |
| `Replayer.TicksApart` | elab_server/replayer.py:174-210 | at speed <= 1 an event of a later tick is logged later than one of an earlier tick, up to the difference of the two ticks' lags between their clock readings; nothing is asked of the lags |
| `Replayer.PlayWindowsApart` | elab_server/replayer.py:349-359 | the same for any two windows of a whole play whose clock does not run backwards |
| `Replayer.PlayNeverBackwards` | elab_server/replayer.py:349-359 | so emitted log times never go back from one window to a later one, provided the later tick lags at least as much (with one clock reading per tick the lag is 0) |
| `Replayer.PassIsTick` | elab_server/replayer.py:248-366 | a pass with no command, while playing before the end, is one tick |
| `Replayer.SessionReplayer.LoadSession` | elab_server/replayer.py:76-145 | result and new state for an id without a file, unreadable bounds, missing, unusable (outside 1577836800000 to 4102444800000) or inverted bounds, and success: start, duration, cursor 0, paused, running; every rejected file but a missing one still becomes the active session |
| `Replayer.SessionReplayer.SetSpeed` | elab_server/socket_handlers/session_handlers.py:98-107 | a speed in [0.1, 10] is taken as it is, any other becomes the nearer end |
| `Replayer.SessionReplayer.EmitWindow` | elab_server/replayer.py:165-220 | the loop over fetched rows sends the shifted DATA_STREAM rows of the window in order, each as often as the table holds it |
| `Replayer.SessionReplayer.Execute` | elab_server/replayer.py:250-322 | for each command, what becomes of `paused`, the cursor, `running`, the clock reading and the messages; after a seek to t the cursor is t inside the session, else the nearer end, 0 for no number |
| `Replayer.SessionReplayer.SeekTo` | elab_server/replayer.py:300-322 | the cursor goes to the target clamped to the session, the reset carries it, and the rows sent after it are the DATA_STREAM rows of the 2000 ms before it |
| `Replayer.SessionReplayer.DrainCommands` | elab_server/replayer.py:248-322 | the queue is executed in order until it is empty |
| `Replayer.SessionReplayer.Advance` | elab_server/replayer.py:349-364 | the cursor moves by elapsed time times speed and the rows between its two positions are sent, or a pause when the read fails |
| `Replayer.SessionReplayer.FinishPass` | elab_server/replayer.py:324-364 | after the drain: the connection is dropped without a session, nothing happens while paused, the cursor stops on the duration at the end, else it ticks |
| `Replayer.SessionReplayer.RunOnce` | elab_server/replayer.py:227-366 | one pass of the main loop: no session, failed connection, unloaded while draining, paused, at the end, or a tick |
| `Recorder.NextIntact` | elab_server/recorder.py:145-260 | start, write, late write, flush, bounds and close keep the recorder invariant, whatever the database answers |
| `Recorder.RunIntact` | elab_server/recorder.py:145-260 | over every interleaving of these sections what is committed is a prefix of the events written; while the connection is open, log rows followed by the buffer are those events, and no source's anchoring is lost |
| `Recorder.RunFiles` | elab_server/recorder.py:145-182 | on every run what is written are the events accepted since the last start, in order: linear data under its start time, other data under its timestamp, the rest under the event's own, the clock's reading where that field is missing |
| `Recorder.AnchoredExactly` | elab_server/recorder.py:203-260 | a closed file holds every known anchoring exactly when those pending or in the open transaction were committed with the same value |
| `Recorder.FailedRowsLoseAnchoring` | elab_server/recorder.py:203-224 | a new source whose batch fails at its rows is not in the closed file |
| `Recorder.BufferStaysShort` | elab_server/recorder.py:184-189 | with a working database no write leaves 200 rows in the buffer, or one that has waited for half a second |
| `Recorder.StopExactly` | elab_server/recorder.py:249-260 | stopping with a working database while other handlers write: by the times of their sections alone, every accepted event is in the file exactly when no row waits at the close; every anchoring and the span are right, too, exactly when, besides, the events' span is the same at the bounds and at the close |
| `Recorder.StopIsComplete` | elab_server/recorder.py:249-260 | without a write between flush and close everything is kept, whatever is written between the end marker and the flush |
| `Recorder.StopAlone` | elab_server/recorder.py:249-260 | a stop during which nobody writes is the case without sections in between, and adds the end marker |
| `Recorder.WriteBeforeClose` | elab_server/recorder.py:184-189 | one write between flush and close survives exactly when the flush interval has passed |
| `Recorder.WriteAfterClose` | elab_server/recorder.py:153-182 | a write that was let in before the close and takes the lock after it is lost |
| `Recorder.FailedLastCommit` | elab_server/recorder.py:196-247 | for every answer to the write of the end marker, with the rest succeeding and no other write: events are lost exactly when that write flushed, inserted and could not commit, and the log holds no DATA_STREAM row |
| `Recorder.SessionRecorder.StartSession` | elab_server/recorder.py:47-131 | an empty database and buffers, and the start marker under the clock reading; refused while recording |
| `Recorder.SessionRecorder.WriteEvent` | elab_server/recorder.py:145-154 | refused without an open recording, else the event is filed under its own time in the locked section |
| `Recorder.SessionRecorder.AppendLocked` | elab_server/recorder.py:156-189 | the entry appended carries the start time of linear data, the timestamp of other data, the event's own otherwise, and the clock exactly when that field is missing; its source is noted (`system` only when the key is missing), and the buffer is flushed at 200 rows or after half a second |
| `Recorder.SessionRecorder.BufferEvent` | elab_server/recorder.py:156-182 | the part before the flush: source noted, row buffered, nothing else |
| `Recorder.SessionRecorder.FlushLocked` | elab_server/recorder.py:196-224 | what each of the three statements leaves behind when it fails |
| `Recorder.SessionRecorder.WriteTimeBounds` | elab_server/recorder.py:226-247 | the span of the DATA_STREAM rows is stored, and storing it commits the rest |
| `Recorder.SessionRecorder.CloseConnection` | elab_server/recorder.py:258-264 | rows, anchorings and span that are not committed are gone |
| `Recorder.SessionRecorder.StopSession` | elab_server/recorder.py:249-277 | marker, flush, bounds and close in a row, with no other write in between, for every answer of the database; the end marker is filed under the clock reading |
| `RecordThenReplay.WindowIsWhole` | elab_server/replayer.py:177-183 | a window from the first event is the whole recording exactly when it ends past the last event |
| `RecordThenReplay.WholeRecordingExact` | elab_server/replayer.py:176-200 | the whole recording holds each DATA_STREAM row as often as the table does, by time and then sequence number |
| `RecordThenReplay.WholeRecordingIsChronicle` | elab_server/replayer.py:176-200 | in terms of the events: each data event once, under its own time, ordered by these times and, at equal times, by arrival |
| `RecordThenReplay.LoadThenPlay` | elab_server/replayer.py:138-145 | loading into a player that does not run, and playing, starts at the top of that session |
| `RecordThenReplay.PlayOnConsistent` | elab_server/replayer.py:349-361 | every tick of an uninterrupted play keeps the sent rows those of `[0, cursor)` |
| `RecordThenReplay.PlayThrough` | elab_server/replayer.py:335-364 | a play that reaches the end stops there and has sent every row, once and in order, exactly when its last tick ran past the duration |
| `RecordThenReplay.PlayEndsOnTime` | elab_server/replayer.py:335-353 | a play has reached the end exactly when elapsed time times speed covers the duration, and is past it exactly when that is more |
| `RecordThenReplay.OneTickPlaysThrough` | elab_server/replayer.py:349-361 | every started session has an uninterrupted play past its end |
| `RecordThenReplay.RecordedThenReplayed` | elab_server/replayer.py:177-183 | a recording whose file kept every event and their span, replayed to its end, comes out completely, each data event once, by the events' own times |
| `RecordThenReplay.AcceptedThenReplayed` | elab_server/recorder.py:145-260 | over every run of a recorder: a play of the kept file sends the data events accepted since the last start, each once, by their own times |
| `RecordThenReplay.StoppedThenReplayed` | elab_server/recorder.py:249-260 | a recording stopped while other handlers write, loaded and played to its end, comes out completely when no row waits at the close and the span did not grow after the bounds |
| `IdIndex.ReplaceComplete` | elab_server/state_stores/provider_registry.py:166-187 | replacing ids keeps an index complete exactly when no surviving id is dropped and no added id belongs to another session |
| `IdIndex.LookupIsSearch` | elab_server/state_stores/provider_registry.py:216-224 | a sound and complete index answers as a search of the table |
| `IdIndex.CacheReplace` | elab_server/state_stores/provider_registry.py:176-188 | replacing a session's decoders keeps the cache exact |
| `Registry.ForgetAllClosed` | elab_server/state_stores/provider_registry.py:41-59 | forgetting manifests one by one drops exactly their own session's entries and decoders |
| `Registry.InsertClosed` | elab_server/state_stores/provider_registry.py:168-188 | the whole new registry after an insertion, without the loops |
| `Registry.PopManifestClosed` | elab_server/state_stores/provider_registry.py:249-265 | the whole new registry after one manifest is dropped |
| `Registry.PopProviderExactly` | elab_server/state_stores/provider_registry.py:192-206 | removing a session drops every index entry that points at it and changes none that points elsewhere |
| `Registry.UpdateSound` | elab_server/state_stores/provider_registry.py:296-330 | an unchecked manifest update leaves no wrong index entry |
| `Registry.NextSound` | elab_server/state_stores/provider_registry.py:131-330 | each locked section keeps every entry pointing at a session that registers the id |
| `Registry.RunSound` | elab_server/state_stores/provider_registry.py:131-330 | so does every run, with updates and with checks and insertions interleaved freely |
| `Registry.BuildsExactly` | elab_server/state_stores/provider_registry.py:61-97 | a decoder is built for exactly the ids with a task that has a working configuration of the known kind, from the last such task |
| `RegistryExactness.FindIsScan` | elab_server/state_stores/provider_registry.py:216-224 | `find_provider_sid(id)` is a session exactly when one of its manifests, or a task of one, has that id |
| `RegistryExactness.RegisteredExactly` | elab_server/state_stores/provider_registry.py:216-224 | the ids a session registers are those its manifests and their tasks carry |
| `RegistryExactness.CacheIsTheTasks` | elab_server/state_stores/provider_registry.py:61-97 | in an exact registry the cache holds a configuration under an id exactly when it is that of the last working task with the id in a registered manifest |
| `RegistryExactness.OneOwner` | elab_server/state_stores/provider_registry.py:102-129 | no id has two owner sessions across provider and task ids |
| `RegistryExactness.NextExact` | elab_server/state_stores/provider_registry.py:131-265 | checked insertions and removals keep indices complete and the decoder cache equal to the decoders of the registered tasks |
| `RegistryExactness.RunExact` | elab_server/state_stores/provider_registry.py:131-265 | so does every such run from the empty registry |
| `RegistryCompleteness.PopManifestLosesExactly` | elab_server/state_stores/provider_registry.py:249-265 | dropping a manifest keeps both indices complete exactly when it shares no task id with one that stays |
| `RegistryCompleteness.UpdateExactly` | elab_server/state_stores/provider_registry.py:296-330 | an unchecked update keeps them complete exactly when it brings no conflict and every task id shared with another manifest of the session |
| `RegistryCompleteness.InsertExactExactly` | elab_server/state_stores/provider_registry.py:156-188 | from an exact registry, an insertion keeps indices, cache and distinct ids exact exactly without a conflict and with no task id of the session's other manifests |
| `RegistryCompleteness.NextCompleteExactly` | elab_server/state_stores/provider_registry.py:131-330 | for every locked section, updates included, the exact condition for complete indices |
| `RegistryCompleteness.RunCompleteExactly` | elab_server/state_stores/provider_registry.py:131-330 | on every run the indices are complete after each section exactly when each section meets its condition |
| `RegistryCompleteness.SharedTaskIsLost` | elab_server/state_stores/provider_registry.py:124-187 | a registration that passes the check and loses a task id another manifest of the session lists |
| `RegistryCompleteness.LateInsertExactly` | elab_server/state_stores/provider_registry.py:156-188 | with any manifests in the session, an insertion keeps both indices complete with one owner per id exactly when the check would find no conflict at that moment and no shared task id is dropped with the manifest it replaces |
| `ProviderRegistry.ProviderRegistry.IndexManifest` | elab_server/state_stores/provider_registry.py:31-39 | exactly the manifest's id and its tasks' ids gain entries, pointing at the session; no other entry changes |
| `ProviderRegistry.ProviderRegistry.UnindexManifest` | elab_server/state_stores/provider_registry.py:41-59 | exactly the entries for the manifest's ids that point at its own session go |
| `ProviderRegistry.ProviderRegistry.BuildManifestDecoders` | elab_server/state_stores/provider_registry.py:61-97 | decoders for exactly the tasks with a known, working configuration; the last one wins |
| `ProviderRegistry.ProviderRegistry.FindIdConflicts` | elab_server/state_stores/provider_registry.py:102-129 | exactly the ids of the manifest that another session owns as either kind |
| `ProviderRegistry.ProviderRegistry.AddProvider` | elab_server/state_stores/provider_registry.py:131-190 | accepted exactly when no task id is repeated and every id, looked up as provider id and then as task id, is free or the session's own; the manifest then replaces the session's manifests of its id; an exact registry stays exact when the session's other manifests bring none of the task ids |
| `ProviderRegistry.ProviderRegistry.InsertProvider` | elab_server/state_stores/provider_registry.py:168-188 | the locked section, with decoders built before it |
| `ProviderRegistry.ProviderRegistry.PopProvider` | elab_server/state_stores/provider_registry.py:192-206 | the session's manifests are returned and forgotten, exactness kept |
| `ProviderRegistry.ProviderRegistry.PopManifest` | elab_server/state_stores/provider_registry.py:249-265 | the named manifests are returned and forgotten, exactness kept |
| `ProviderRegistry.ProviderRegistry.UpdateProviderManifest` | elab_server/state_stores/provider_registry.py:296-330 | the first manifest of that id is replaced, the decoders stay as they are, soundness kept |
| `ProviderRegistry.ProviderRegistry.FindProviderSid` | elab_server/state_stores/provider_registry.py:216-224 | the lookup, provider ids first; in an exact registry the session whose manifests carry the id |
| `ProviderRegistry.ProviderRegistry.ScanForSource` | elab_server/state_stores/pairing_store.py:139-156 | the search over all manifests finds a registered id whatever the order, and with exact indices names the session the lookup names |
| `SystemState.RoutesDetermine` | elab_server/state_stores/actuator_links.py:19-33 | a table without empty target sets is determined by its routes |
| `SystemState.PurgeRoutes` | elab_server/state_stores/actuator_links.py:41-60 | a purge keeps exactly the routes that mention no removed id on either side, and leaves no empty target set |
| `SystemState.GoneExactly` | elab_server/state_stores/actuator_links.py:41-52 | the ids a removal takes away are those its manifests and their tasks carry |
| `SystemState.LinkSteps` | elab_server/state_stores/actuator_links.py:19-33 | adding and removing a link changes exactly that route |
| `SystemState.SessionRemovalLeavesNothing` | elab_server/state.py:91-99 | after a session is removed no index entry, decoder, tag or route mentions an id it registered |
| `SystemState.ManifestRemovalLeavesNothing` | elab_server/state.py:133-139 | after one manifest is removed an id of it is found exactly when the session's other manifests carry it; no decoder, tag or route mentions it |
| `SystemState.OrderlyRunExact` | elab_server/state.py:83-139 | on every run with checked registrations the registry stays exact, removals included |
| `SystemState.RemovalOnEveryRun` | elab_server/state.py:91-99 | wherever such a run removes a session, no store mentions any of its ids |
| `SystemState.RemovalFrame` | elab_server/state.py:91-99 | lookups, decoders, tags and routes of all other ids, and all other sessions, are unchanged |
| `SystemState.ManifestRemovalFrame` | elab_server/state.py:133-139 | the same when one manifest is removed, and the session keeps exactly its other manifests |
| `SystemState.StaleDisconnect` | elab_server/state_stores/provider_registry.py:44-51 | with merely sound indices a late disconnect leaves the lookup of an id found at another session alone, but takes its decoder, its tag and its routes on either side exactly when the old session still lists an id involved |
| `SystemState.LateDisconnect` | elab_server/state.py:91-99 | with complete indices a disconnect leaves lookup, decoder, tag and routes of ids that are not found at that session as they were, registered or not |
| `SystemState.LateDisconnectOnEveryRun` | elab_server/state.py:91-99 | so on every run with checked registrations and no task id shared inside a session |
| `SystemState.RacingRegistrations` | elab_server/state_stores/provider_registry.py:156-188 | for any manifest with a decoder: two sessions that both pass the check before either inserts, and the end of the first takes the decoder and tag of the second |
| `SystemState.RunInv` | elab_server/state.py:83-139 | on every run no entry points at the wrong session and no source has an empty target set |
| `SystemState.RemovedUntilBroughtBack` | elab_server/state.py:91-99 | on every run after a removal no store mentions a removed id until an event carries it in again |
| `SystemState.ActuatorLinkRegistry.AddActuatorLink` | elab_server/state_stores/actuator_links.py:19-24 | the new table; empty ids are ignored |
| `SystemState.ActuatorLinkRegistry.RemoveActuatorLink` | elab_server/state_stores/actuator_links.py:26-33 | the new table; an emptied source disappears |
| `SystemState.ActuatorLinkRegistry.GetActuatorLinks` | elab_server/state_stores/actuator_links.py:35-39 | exactly the linked actuators, each once |
| `SystemState.ActuatorLinkRegistry.PurgeFor` | elab_server/state_stores/actuator_links.py:41-60 | exactly the routes stay that mention no id the manifests or their tasks carry |
| `SystemState.PairingStore.MarkUiInternal` | elab_server/state_stores/pairing_store.py:204-209 | the tag is added unless the id is empty |
| `SystemState.PairingStore.ForgetSources` | elab_server/state_stores/pairing_store.py:216-228 | exactly the tags of ids the manifests or their tasks carry go |
| `SystemState.Facade.RemoveProvider` | elab_server/state.py:91-99 | registry, tags and routes are cleaned together: of the removed manifests' ids no tag and no route is left |
| `SystemState.Facade.RemoveManifestFromSid` | elab_server/state.py:133-139 | the same for one manifest |
| `SharedMemory.LatestIsHistory` | elab_api/shared_memory_channel.py:96-109 | a read returns the last min(count, total, capacity) samples ever written |
| `SharedMemory.WrittenHolds` | elab_api/shared_memory_channel.py:78-90 | the one or two slice assignments keep the newest samples where a read looks for them |
| `SharedMemory.RefusedHolds` | elab_api/shared_memory_channel.py:87-90 | what survives a chunk that is too long for the wrap-around |
| `SharedMemory.PositionsMeet` | elab_api/shared_memory_channel.py:83-90 | a store meets a published sample only after a full turn |
| `SharedMemory.TornReadIsSafe` | elab_api/shared_memory_channel.py:83-109 | a read of c samples during an unfinished write of n returns the last c published samples when c + n <= capacity |
| `SharedMemory.StoredFirstWritten` | elab_api/shared_memory_channel.py:83-90 | after k stores the memory is that of a finished write of the first k samples |
| `SharedMemory.StoredFirstTorn` | elab_api/shared_memory_channel.py:83-90 | at every moment of a write only the positions of its chunk differ |
| `SharedMemory.TornReadExactly` | elab_api/shared_memory_channel.py:83-109 | a read of c samples is right at every moment of every accepted write of n samples exactly when c + n <= capacity |
| `SharedMemory.SharedMemoryChannel.Write` | elab_api/shared_memory_channel.py:78-94 | accepted exactly up to twice the capacity minus the write position; history grows by the chunk, the header moves last |
| `SharedMemory.SharedMemoryChannel.StoreSlices` | elab_api/shared_memory_channel.py:83-90 | the stores touch only the ring positions of the chunk |
| `SharedMemory.SharedMemoryChannel.ReadLatest` | elab_api/shared_memory_channel.py:96-109 | the end of the history, as long as asked for unless the ring or the history is shorter |
| `SharedMemory.PublishAndRelay` | elab_api/local_node.py:428-449 | with the request answered before the next write, the bridge reads the published chunk |
| `SharedMemory.RelayAll` | elab_bridge/bridge_daemon.py:406-446 | every chunk of a run of publishes is relayed unchanged |
| `Bridge.NextInv` | elab_bridge/bridge_daemon.py:346-404 | every step of either thread keeps one holder per channel |
| `Bridge.StoreOwned` | elab_bridge/bridge_daemon.py:371-373 | storing a finished node never overwrites one |
| `Bridge.ChannelOwnership` | elab_bridge/bridge_daemon.py:632-680 | over every interleaving each created channel has exactly one owner or is unlinked, none is unlinked twice or while its node is registered |
| `Bridge.RestLeaksNothing` | elab_bridge/bridge_daemon.py:674-680 | once both threads rest, a channel is unlinked exactly when no registered node holds it |
| `Bridge.CreateExactly` | elab_bridge/bridge_daemon.py:360-367 | a creation keeps one holder per channel exactly when the node has no channel for the task yet |
| `Bridge.LeaksExactly` | elab_bridge/bridge_daemon.py:346-404 | over every interleaving, any task ids and any creation failures, every channel has one holder at the end exactly when no creation overwrote an entry |
| `Bridge.LeakIsForever` | elab_bridge/bridge_daemon.py:674-680 | a channel without a holder is never unlinked |
| `Bridge.RegistrationLeaksExactly` | elab_bridge/bridge_daemon.py:354-369 | a registration whose creations succeed, with the heartbeat thread running beside it, ends with one holder per channel exactly when its task ids are distinct |
| `Bridge.BuiltNode` | elab_bridge/bridge_daemon.py:354-369 | while a node is built, with the heartbeat thread running beside it, it gains one slot per named task, in order, each on a new channel |
| `Bridge.RegistrationStores` | elab_bridge/bridge_daemon.py:354-373 | a registration with distinct task ids whose creations succeed is stored under its name with exactly these slots |
| `Bridge.RunStamped` | elab_bridge/bridge_daemon.py:346-373 | on every run instance numbers in use lie below the counter, and the name being built is free |
| `Bridge.CurrentExactly` | elab_bridge/bridge_daemon.py:346-404 | until the reaper pops a name, the instance under it stays exactly when no request of that node is accepted |
| `Bridge.ReaperPopsExactly` | elab_bridge/bridge_daemon.py:637-659 | whatever happens between collecting and popping, the pop removes the instance found dead exactly when no request to register or deregister that node was accepted since |
| `Bridge.ReaperPopsReplacement` | elab_bridge/bridge_daemon.py:637-659 | a run in which it removes an instance registered after the collection |
| `Bridge.BridgeDaemon.BeginRegister` | elab_bridge/bridge_daemon.py:346-352 | the pop that starts a registration: the replaced node's channels are handed to the control thread |
| `Bridge.BridgeDaemon.BeginDeregister` | elab_bridge/bridge_daemon.py:392-404 | the pop of a deregistration: the node's channels are handed to the control thread |
| `Bridge.BridgeDaemon.AdvanceControl` | elab_bridge/bridge_daemon.py:354-373 | unlink, create or store, one step at a time |
| `Bridge.BridgeDaemon.BeginReap` | elab_bridge/bridge_daemon.py:637-642 | the dead nodes are collected under one lock acquisition, nothing else changes |
| `Bridge.BridgeDaemon.AdvanceHeart` | elab_bridge/bridge_daemon.py:653-659 | pop or unlink, one step at a time |
| `Routing.DeliveryPrefs` | elab_server/socket_handlers/provider_handlers.py:100-139 | scalar only when a list of accepted kinds names no array kind; a positive interval exactly for a positive numeric rate, whose reciprocal it is; the buffer size as configured |
| `Routing.PickObservedValue` | elab_server/socket_handlers/_helpers.py:68-78 | the payload's value, else the last number it lists, else 0 |
| `Routing.ChunksConserveSamples` | elab_server/socket_handlers/provider_handlers.py:229-272 | on every run of a route, chunks followed by buffer are what was held before and what the payloads bring, in order: the samples a payload lists or, if it lists none, its value, 0 for one that is no number; every chunk has exactly maxBufferSize samples |
| `Routing.ListsAreConserved` | elab_server/socket_handlers/provider_handlers.py:240-272 | where every payload lists samples, these are the lists themselves, one after the other |
| `Routing.BacklogBelowMax` | elab_server/socket_handlers/provider_handlers.py:254-261 | payloads no larger than the chunk size never leave a full chunk behind |
| `Routing.ChunkCount` | elab_server/socket_handlers/provider_handlers.py:254-261 | then chunks sent and backlog are quotient and remainder of the samples that arrived |
| `Routing.ChunksAreQueued` | elab_server/socket_handlers/provider_handlers.py:254-261 | the chunks sent on a run are the least, over all its prefixes, of the chunks completed by then plus the payloads since |
| `Routing.BacklogExactly` | elab_server/socket_handlers/provider_handlers.py:254-261 | for payloads of any sizes, less than a chunk is left behind exactly when no burst of the last payloads completed more chunks than it had payloads |
| `Routing.EvenBacklog` | elab_server/socket_handlers/provider_handlers.py:254-261 | n payloads of c samples leave a remainder of n * c if c <= maxBufferSize, else n times the difference |
| `Routing.ChunksJoin` | elab_server/socket_handlers/provider_handlers.py:232-272 | each chunk starts at the time the one before it ended, the first at the first payload's time |
| `Routing.RateLimit` | elab_server/socket_handlers/provider_handlers.py:221-227 | any span of time of length W holds at most floor(W / interval) + 1 forwards, whatever the clock does |
| `Routing.ConfiguredRate` | elab_server/socket_handlers/provider_handlers.py:122-128 | in terms of the configuration: at most floor(seconds * Hz) + 1 forwards |
| `Routing.HeldBackExactly` | elab_server/socket_handlers/provider_handlers.py:223-227 | a payload is held back exactly when the route sent something less than an interval ago, or never did and the clock reads less than an interval |
| `Routing.RoutesIndependent` | elab_server/socket_handlers/provider_handlers.py:205-272 | over every run, a route's state and commands are those of its own events alone |
| `Routing.ActuatorRouter.DropActuatorRoutesFor` | elab_server/socket_handlers/provider_handlers.py:168-182 | exactly the routes with a gone side are dropped |
| `Routing.ActuatorRouter.Repackage` | elab_server/socket_handlers/provider_handlers.py:230-272 | what is held grows by the samples listed, or by the one value of a payload that lists none; a full chunk is cut off its front, its times those of the samples in it |
| `Routing.ActuatorRouter.Forward` | elab_server/socket_handlers/provider_handlers.py:221-287 | one payload on one route: held back by the rate limit, re-chunked, or sent as one number or as a whole, with the new tables in each case |
| `Routing.ActuatorRouter.RouteToActuators` | elab_server/socket_handlers/provider_handlers.py:199-287 | all linked actuators: offline ones are skipped, each connected one is sent what its own route yields and nothing else, and no other route changes |
| `ClockOffsets.RunInv` | elab_server/socket_handlers/_helpers.py:251-272 | on every run the cache stays within its cap and its keys stand in the order of their last insertion or in-tolerance use |
| `ClockOffsets.EvictionExactly` | elab_server/socket_handlers/_helpers.py:257-265 | a use evicts a source exactly when the cache is full, the user is new and the source comes first |
| `ClockOffsets.EvictsLeastRecentlyTouched` | elab_server/socket_handlers/_helpers.py:257-265 | the evicted source is the one whose last insertion or in-tolerance use is oldest |
| `ClockOffsets.CorrectionDoesNotRefresh` | elab_server/socket_handlers/_helpers.py:255-271 | the first source of a full cache survives a newcomer after one more use exactly when that use was within tolerance |
| `ClockOffsets.OffsetIsClose` | elab_server/socket_handlers/_helpers.py:254-272 | every returned offset puts the client time within 2000 ms of the server's |
| `ClockOffsets.OffsetConstant` | elab_server/socket_handlers/_helpers.py:251-272 | a source that is not corrected, dropped or evicted keeps one offset over a whole run |
| `ClockOffsets.SpansAreExact` | elab_server/socket_handlers/provider_handlers.py:375-409 | between two readings of such a source server times are exactly as far apart as client times |
| `ClockOffsets.OffsetCache.constructor` | elab_server/socket_handlers/_helpers.py:34-37 | the cap is never below 256 |
| `ClockOffsets.OffsetCache.DropTimeOffsetsFor` | elab_server/socket_handlers/_helpers.py:242-248 | exactly the given sources go, the others keep their order |
| `ClockOffsets.OffsetCache.GetOffset` | elab_server/socket_handlers/_helpers.py:251-272 | the cached offset exactly when it brings the client time within 2000 ms of now, else the difference of now and client time; it is stored, and which keys move or go |
| `ClockOffsets.OffsetCache.NormaliseTimes` | elab_server/socket_handlers/provider_handlers.py:368-409 | which fields are rewritten, that spans and spacings inside a payload are kept, that the shift is the cached offset and lies within 2000 ms of now, and which uses of the cache are made |
| `GroupPolicy.NextExclusiveByOwner` | elab_server/state.py:312-378 | no event lets two tasks of one owner with different groups be active, even with repeated ids |
| `GroupPolicy.AlwaysExclusive` | elab_server/socket_handlers/provider_handlers.py:540-597 | with distinct task ids, and each check and its store in a row, no reachable state has two active tasks of one manifest with different `group` fields, a missing one counting as `__default__` |
| `GroupPolicy.InterleavedExactly` | elab_server/socket_handlers/provider_handlers.py:547-558 | over every interleaving of checks, stores and removals the slots stay exclusive exactly when every store would still be allowed at its moment |
| `GroupPolicy.OneAtATimeExclusive` | elab_server/socket_handlers/provider_handlers.py:547-558 | assignments that do not overlap keep the slots exclusive, whatever is emptied between check and store |
| `GroupPolicy.StoreExactly` | elab_server/socket_handlers/provider_handlers.py:547-558 | a store keeps exclusivity exactly when the check would allow it at that moment with the slot empty |
| `GroupPolicy.RacingAssignments` | elab_server/socket_handlers/provider_handlers.py:547-558 | two assignments checked before either is stored end exclusive exactly when their tasks do not clash |
| `GroupPolicy.RefusedNeedlessly` | elab_server/state.py:362-376 | an assignment is refused needlessly exactly when the only clashing task is the one it would replace |
| `GroupPolicy.AllowedByField` | elab_server/state.py:346-376 | what the check decides, by the `group` fields alone |
| `GroupPolicy.GroupGuard.LocateOwner` | elab_server/state.py:327-344 | the first manifest that lists the task, and its first such task |
| `GroupPolicy.GroupGuard.CheckGroupExclusivity` | elab_server/state.py:312-378 | refused exactly when the first manifest that lists the task also lists an active task with another `group` field, a missing one counting as `__default__`; a refusal names one |
| `GroupPolicy.GroupGuard.StoreTask` | elab_server/socket_handlers/provider_handlers.py:557-558 | the slot holds the task, and exclusivity is kept exactly when the check would allow it now |
| `GroupPolicy.GroupGuard.TaskAssigned` | elab_server/socket_handlers/provider_handlers.py:540-558 | check and store in a row, with no other handler in between: accepted exactly when there is a slot, an id and no active task of another `group`; the new slots, and that exclusivity is kept |
| `GroupPolicy.GroupGuard.TaskUnassigned` | elab_server/socket_handlers/provider_handlers.py:586-592 | the slot is emptied and its task returned |
| `GroupPolicy.GroupGuard.ClearIfLast` | elab_server/socket_handlers/auth_handlers.py:120-127 | slots are cleared exactly when the last workbench leaves |

## Left out

- Socket.IO, ZeroMQ, Flask and UDP discovery: a message sent is an entry of a trace or a result.
- SQLite and the file system: the log is a sequence, a statement succeeds or fails as a whole. Read errors of a seek's preroll window, the rules for session ids and paths, and two recordings started in the same second under one name are not modelled.
- `add_manifest_if_recording` (elab_server/recorder.py:279-300) shares the recorder's connection; its commits are not modelled, so `Recorder.FailedLastCommit` is about recordings without one after the failure.
- Floating-point rounding, and the float32 and float64 wire formats.
- HMAC signing, pairing and approval, secrets, and who may send a payload.
- Uncertainty metadata: `map_uncertainty`, accuracy models and their merging.
- The encoding of a routed payload for actuators that want bytes (elab_server/socket_handlers/provider_handlers.py:289-307).
- Manifest schema validation, and the alias, colour and decimals copied into an updated manifest.
- `BridgeDaemon.stop`, request time-outs, forwarding to the dispatcher, and the read of a channel that runs outside the node lock in `_handle_data_available`.
- The 64-bit width of the ring's write index, and the operating system's rounding of shared-memory sizes: both views have the requested capacity.
- Writes during the recorder's `start`, which resets the buffer without the lock, and other threads between the assignments of `load_session`, of one replay command or of one tick.
- A time field that is present but null: the recorder files such an event without a time, and it is never replayed; the model knows missing fields only.
- The workbench, the device drivers, plug-in URLs, process spawning and the tools directory.
- GroupPolicy.AlwaysExclusive: a check and its store are one event (`GroupPolicy.InterleavedExactly` is about other handlers in between), and the registered manifests are fixed along a run; a manifest that changes its groups while tasks are active is not covered.
- Routing.RateLimit: the actuator's configuration is fixed and the route is not dropped along the run; a drop forgets the time of the last forward.
- Bridge.NextInv: task ids of one manifest are distinct, which the bridge does not check; `Bridge.LeaksExactly` and `Bridge.RegistrationLeaksExactly` say what happens otherwise.
- GroupPolicy.GroupGuard.TaskAssigned: runs its two sections in a row; `GroupPolicy.InterleavedExactly` is about other handlers in between.
- Recorder.SessionRecorder.StopSession: runs its four sections in a row; `Recorder.StopExactly` is about other handlers in between.
- RegistryExactness.RunExact: leaves out manifest updates, which rebuild no decoders and check no conflicts; `Registry.RunSound` and `RegistryCompleteness.RunCompleteExactly` cover them.
