# Proofs about the GPS gateway and its reports

The repository receives fixes from GT06 trackers over TCP, stores them in Postgres, sends the
trackers commands, and reports on drives, stops, driving behaviour and geofences. This project
models the parts of it that are hard to get right, in Dafny, and proves what they promise.

**Wire.** `Crc` is the checksum, table form against the bit-serial register of Appendix C.2 of
RFC 1662, with its error detection. `Framing` is the incremental parser over its mutable buffer.
`Codec` is the printer of frames and commands, `Decoding` what trackers' packets say, and
`RoundTrip` puts printer and parser together: any frames, short and extended, cut into any reads,
any of them damaged.

**Gateway.** `Postgres` is the all-or-nothing COPY with its row-by-row fallback, `Batching` the
bounded queue with one flusher and a stop marker, `Completion` the guarded update that ends a
command, `Registry` the table of sessions, `CommandStore` the API's command store, and `Server`
one tracker's connection as a state machine: reader, command delivery and reply timers. `Ledger`
sums up its log and keeps the accounts, `Connections` holds the results over runs, `Session` is
the class, `Timers` follows the reply timers, and `Fleets` puts all connections together over the
one registry they share.
Concurrent code is a state machine whose steps are the stretches between two awaits; a run is
any interleaving of them. Classes hold the mutable fields; each method is tied to the step it
takes, and the theorems are about every run of steps.

**Reports.** `Intervals` measures time by counting: a stretch of time is the set of its
microseconds, and its length is the size of that set. `Reports`, `Driving`, `Stretches`,
`DrivingReports` and `Geofences` are the sweeps of the report modules, proved to return such
sizes, so no figure is counted twice, none is lost, and the clamps at zero never bite.

**Throttle.** `Throttle` is the sliding window on sign-in failures, with lazy pruning and sweep.
`SignIns` is the endpoint around it: the look at the throttle and the outcome of the awaited
password check are two steps, and the results are about every interleaving of any sign-ins.

What is not shown in the repository's Python is a parameter or an arbitrary choice of the run:
how the database answers each write, which rows a claim returns, when timers fire, what the
clock reads, and the distance between two points. `dafny verify dfyconfig.toml` checks everything.

Findings worth knowing:

- How the stream is cut into reads never matters exactly when the buffer guard is at least 65540
  bytes, the longest unfinished frame, also for reads of at most 4096 bytes as the gateway makes
  them (`Framing.ReadsNeverMatterIff`; `Framing.SplitNeverMattersIff` for feeds of any size). The
  default is 8192. For any limit from 9 to 65539 an extended frame two bytes longer than the limit
  is taken when its last read carries two bytes, and lost when it carries one
  (`Framing.SmallBufferSplits`). With 259 bytes or more nothing else sets the guard off: short
  frames are safe (`Framing.GuardSparesShortFrames`), and independence holds for every split whose
  leftovers fit (`Framing.ChunkingIndependent`).
- The checksum, sent high byte first, misses one alteration within two adjacent bytes: 0x91 in the
  serial's low byte together with the checksum's first byte that goes with it
  (`RoundTrip.DamageUnseen`). It sees every other one (`RoundTrip.DamageSeenIff`).
- The outcome of a claimed command goes out under the device id the session has at that moment.
  After a second login as another tracker it misses the command's row, which stays marked sent
  (`Connections.MissedRowExample`). It reaches the row exactly when the id is still the one the
  claim was made for (`Connections.ReachesRowIff`), so always on a connection that only ever
  names one tracker (`Connections.OneTrackerAlwaysReaches`).
- A command that cannot be printed raises out of the delivery task, because only connection
  errors are caught: that command and those claimed with it behind it stay marked sent, with no
  timer (`Server.BegunStrandsIff`, `Connections.StrandedExample`). The API's own texts are all
  printable (`CommandStore.ApiTextsPrint`), so this takes a row inserted from elsewhere, or an id
  of 2^32 or more (`Connections.ApiCommandsNeverStranded`).
- Over an awaited store the cut endpoint's checks and its creation are apart. A cut admitted,
  then switched off, is still created (`CommandStore.CheckedTooEarly`); the rule holds throughout
  a run exactly when each cut is created while cut-off is on (`CommandStore.SafeThroughoutIff`).
  Such a row is created, but not delivered while cut-off stays off: `claim_device_commands`
  (sql/schema.sql:1045-1051, not modelled) fails it with relay_disabled at the next claim.
- When a tracker's newer connection closes, its older one, though still open, is not registered
  again (`Registry.OlderIsForgotten`).
- The throttle looks before the awaited password check and records after it, so sign-ins that
  overlap do not see each other's failures: a limit of one lets two through
  (`SignIns.TwoAtOnce`). With at most n of a key's sign-ins in flight at a time, a window holds at
  most its limit and n - 1 of its failures (`SignIns.RateBound`), and that is exact
  (`SignIns.RateExactly`; for a pair the limit is the smaller of the two). So the plain limit
  is kept exactly for n = 1, where a key's sign-ins follow one another.
- Retry-After keeps its word wherever a username's sign-ins follow one another
  (`SignIns.RetryAfterIsEnough`). After overlapping failures the wait can be too short (`SignIns.WaitTooShort`); `SignIns.RetryAfterIff` is the exact
  condition.
- Limits below 1 do not keep even that rate (`SignIns.RateHoldsIff`), and a later look raises an
  IndexError in some run exactly for them (`SignIns.NeverErrsIff`). The repository itself only
  builds `LoginThrottle()` with its defaults (api/state.py:239), so this takes another caller.
- The driving score is documented as 0 to 100; the four caps add up to 90, so it is never below
  10 (`Driving.ScoreRange`).

## Model

| member | source | states |
|---|---|---|
| Crc.BuildTable | gps_gateway/protocol/crc.py:3-9 | entry b of the table is eight shifts of b through the register |
| Crc.Crc16Itu | gps_gateway/protocol/crc.py:12-20 | the table-driven checksum equals the bit-by-bit register of RFC 1662 C.2 on every byte sequence |
| Crc.SerialIsParallel | gps_gateway/protocol/crc.py:6-8 | shifting bits in one at a time is loading them at once and shifting |
| Crc.ByteIsLookup | gps_gateway/protocol/crc.py:18-19 | eight serial steps of a byte are one lookup |
| Crc.BurstDetected | gps_gateway/protocol/crc.py:12-20 | messages of equal length that differ only inside a burst of at most 16 bits have different checksums |
| Crc.TwoByteErrorsDetected | gps_gateway/protocol/crc.py:12-20 | messages that differ only within two adjacent bytes have different checksums |
| Crc.LastByteSilent | gps_gateway/protocol/crc.py:12-20 | messages that differ in their last byte have checksums with the same low byte if and only if the two bytes differ by 0x91 |
| Framing.FirstStartUnique | gps_gateway/protocol/framing.py:121-124 | the start found is the first one, however it is searched for |
| Framing.FrameDecoder.DoResync | gps_gateway/protocol/framing.py:116-128 | the buffer is cut to its first start marker, or to a trailing half of one |
| Framing.FrameDecoder.NextFrame | gps_gateway/protocol/framing.py:68-114 | one parsing step: wait, frame, or drop, with the exact new buffer and drop count |
| Framing.FrameDecoder.GuardBuffer | gps_gateway/protocol/framing.py:59-66 | a buffer over the limit is emptied, any other is left alone |
| Framing.FrameDecoder.Feed | gps_gateway/protocol/framing.py:43-57 | returned frames, new buffer and new drop count are those of draining the old buffer plus the data; the buffer never exceeds the limit |
| Framing.NextShrinks | gps_gateway/protocol/framing.py:50-55 | every step that makes progress removes at least two bytes, so the loop ends |
| Framing.NextExtend | gps_gateway/protocol/framing.py:68-114 | more bytes behind the buffer never change a step that made progress |
| Framing.DrainSplit | gps_gateway/protocol/framing.py:43-57 | draining two parts one after the other is draining them together |
| Framing.LeftoverSettled | gps_gateway/protocol/framing.py:50-54 | what is left after a feed waits for more bytes and is already resynchronised |
| Framing.LeftoverBound | gps_gateway/protocol/framing.py:90-92 | a leftover starting 78 78 holds at most 259 bytes, any leftover at most 65540 |
| Framing.ChunkingIndependent | gps_gateway/protocol/framing.py:43-57 | for every stream and every split whose leftovers fit, frames, final buffer and drops equal those of one feed |
| Framing.ChunkingIndependentAlways | gps_gateway/protocol/framing.py:59-66 | the sufficient half: every split agrees when the limit is at least 65540 |
| Framing.ReadsNeverMatterIff | gps_gateway/server.py:97-104 | for every limit of 0 or more: any two ways of cutting any stream into reads of 1 to 4096 bytes agree, from every settled state, if and only if the limit is at least 65540 |
| Framing.SplitNeverMattersIff | gps_gateway/protocol/framing.py:34-66 | for every limit of 0 or more: every split of every stream from every settled state agrees with one feed if and only if the limit is at least 65540 |
| Framing.SmallBufferSplits | gps_gateway/protocol/framing.py:59-66 | for every smaller limit, one stream and two ways of reading it, each read at most 4096 bytes, that disagree |
| Framing.GuardSparesShortFrames | gps_gateway/protocol/framing.py:59-66 | with a limit of 259 or more the guard only ever discards a buffer that starts 79 79 |
| Framing.FalseStartDrain | gps_gateway/protocol/framing.py:83-101 | bytes that start like a frame but have a length too short or no stop bytes lose their two start bytes only, for one drop |
| Framing.NoiseDrain | gps_gateway/protocol/framing.py:116-124 | bytes ahead of the first start marker go without a drop |
| Framing.NoiseAlone | gps_gateway/protocol/framing.py:125-128 | without a start marker everything goes but a trailing half of one |
| RoundTrip.DrainBlocks | gps_gateway/protocol/framing.py:90-114 | a stream of frame outlines, short and extended, yields the undamaged ones in order and one drop for each other |
| RoundTrip.LeftoverOfPrefix | gps_gateway/protocol/framing.py:90-92 | at every moment of such a stream of short ones the leftover is under 260 bytes |
| RoundTrip.PrintParse | gps_gateway/protocol/codec.py:231-243 | any packets printed, concatenated and fed in any chunks come back exactly, in order, nothing left or dropped |
| RoundTrip.PrintedReadBack | gps_gateway/protocol/codec.py:231-243 | one printed frame comes back with its protocol, content, serial and checksum |
| RoundTrip.AckReadBack | gps_gateway/protocol/codec.py:246-252 | an acknowledgement can always be built and is read as an empty frame with the packet's protocol and serial |
| RoundTrip.TimeReadBack | gps_gateway/protocol/codec.py:255-263 | a time answer can be built exactly when each field fits a byte, and is read as those six bytes under the request's serial |
| RoundTrip.CommandReadBack | gps_gateway/protocol/codec.py:272-290 | a command can be printed exactly when it is ASCII, at most 243 long and its id fits four bytes, and the tracker reads back the id and the text |
| RoundTrip.DamageSeenIff | gps_gateway/protocol/framing.py:90-114 | any alteration of a short or extended frame within two adjacent bytes between length and stop bytes leaves the outline, and is noticed if and only if it is not the one that slips through |
| RoundTrip.DamageUnseen | gps_gateway/protocol/codec.py:238-243 | for every frame whose serial's low byte is 0, an alteration that slips through |
| RoundTrip.DamagedFrames | gps_gateway/protocol/framing.py:68-114 | any list of short and extended frames, any of them so damaged, in any reads: all the others come back with the very protocol, content and serial, in order, and exactly one drop is counted for each damaged one |
| RoundTrip.UploadsParse | gps_gateway/protocol/framing.py:68-114 | undamaged, all of them come back, nothing left or dropped |
| Codec.ClassicReplyRoundTrip | gps_gateway/protocol/codec.py:304-315 | a classic reply gives back its flag and text, whatever suffix follows |
| Codec.NewReplyRoundTrip | gps_gateway/protocol/codec.py:297-302 | a newer reply gives back its flag and its text in the announced encoding |
| Codec.ClassicReplyText | gps_gateway/protocol/codec.py:304-313 | which bytes of a classic reply are its text, for every length byte |
| Codec.StripExactly | gps_gateway/protocol/codec.py:314-314 | the text loses the zero bytes around it, then the spaces, and nothing else |
| Decoding.DecodeLogin | gps_gateway/protocol/codec.py:52-66 | a login is read exactly when its first eight bytes are decimal digits |
| Decoding.LoginRoundTrip | gps_gateway/protocol/codec.py:52-66 | a padded fifteen-digit identity is read back whole, a second leading zero included |
| Decoding.LoginWhole | gps_gateway/protocol/codec.py:52-66 | sixteen digits that do not begin with a zero are read back as they are |
| Decoding.CellRoundTrip | gps_gateway/protocol/codec.py:80-102 | a cell in either width is read back with the bytes it took, and an all-zero one is no cell |
| Decoding.DecodeLocation | gps_gateway/protocol/codec.py:122-200 | an event comes out exactly when the content is long enough and its raw coordinates lie within 90 and 180 degrees; it carries the device id it was decoded for, and is fixed only with satellites in view |
| Decoding.LocationRoundTrip | gps_gateway/protocol/codec.py:140-200 | the first 18 bytes are read back field by field; a position off the map is refused |
| Decoding.IgnitionFound | gps_gateway/protocol/codec.py:162-177 | where the ignition is read from in each of the three packets |
| Decoding.IgnitionTold | gps_gateway/protocol/codec.py:162-177 | a position's ignition is what the bytes of its content say, byte by byte, for every content |
| Decoding.DecodeHeartbeat | gps_gateway/protocol/codec.py:109-119 | a heartbeat says the ignition is on exactly when bit 1 of its first byte is set; an empty one says nothing |
| Decoding.DegreesExactly | gps_gateway/protocol/codec.py:147-155 | a coordinate times 1,800,000 is the raw number, negative for south and west |
| Decoding.DecodeTimestamp | gps_gateway/protocol/codec.py:69-77 | a time is read exactly when its six bytes are a date and a time of day |
| Postgres.PostgresSink.Start | gps_gateway/sinks/postgres.py:99-121 | started exactly when the pool was created and the schema is there; the pool stays unless the schema is missing |
| Postgres.PostgresSink.Stop | gps_gateway/sinks/postgres.py:174-177 | the pool is gone |
| Postgres.RowErrorIff | gps_gateway/sinks/postgres.py:59-63 | of the database's errors exactly classes 22 and 23 are a row's fault |
| Postgres.PostgresSink.Publish | gps_gateway/sinks/postgres.py:128-130 | the row lands exactly when the write did not raise |
| Postgres.PostgresSink.PublishEach | gps_gateway/sinks/base.py:15-34 | one outcome per event, each the write's own; exactly the events reported written land, in order |
| Postgres.PostgresSink.PublishMany | gps_gateway/sinks/postgres.py:138-172 | one result per event; the table grows by exactly the events whose result is None; a database failure writes nothing, a row failure falls back |
| Postgres.LandedExactly | gps_gateway/sinks/base.py:24-34 | the reported positions are those with no error, rising |
| Postgres.KeptIsLanded | gps_gateway/sinks/base.py:24-34 | what lands is the events at those positions in input order, none twice; the rest are the failures |
| Postgres.KeptInOrder | gps_gateway/sinks/base.py:24-34 | what lands is a subsequence of the input |
| Batching.BatchingSink.Make | gps_gateway/sinks/batching.py:39-62 | exactly the bad sizes and intervals are refused |
| Batching.BatchingSink.Publish | gps_gateway/sinks/batching.py:74-80 | refused before start and once closing; otherwise the event waits for room |
| Batching.BatchingSink.Stop | gps_gateway/sinks/batching.py:88-92 | closing begins and the marker waits for room |
| Batching.BatchingSink.Land | gps_gateway/sinks/batching.py:77-80 | a waiting put enters the queue at its end |
| Batching.BatchingSink.TimeOut | gps_gateway/sinks/batching.py:126-132 | at the deadline the batch goes out as it is |
| Batching.BatchingSink.Take | gps_gateway/sinks/batching.py:112-136 | one stretch of the flusher's loop, from an item to the next await |
| Batching.BatchingSink.FlushReturned | gps_gateway/sinks/batching.py:137-161 | counters and mode after the inner sink returned or raised |
| Batching.BatchingSink.Flush | gps_gateway/sinks/batching.py:141-161 | in front of Postgres, events_failed grows by exactly the events of the batch that did not land |
| Batching.BatchingSink.DropLeftovers | gps_gateway/sinks/batching.py:98-110 | the queue is emptied and every fix in it counted as failed |
| Batching.CollectedMoves | gps_gateway/sinks/batching.py:119-136 | the inner loop moves fixes in order, swallows at most one marker, and never overfills a batch |
| Batching.StepKeeps | gps_gateway/sinks/batching.py:74-161 | every step keeps conservation, the bounds and the counters |
| Batching.Conservation | gps_gateway/sinks/batching.py:74-139 | in every run, what entered ahead of the marker is, in order, what was handed over, then the batch being built, then the queue; every batch has 1 to batch_size events and the queue at most queue_max; accepted events are never lost or doubled |
| Batching.StopHandsOverAll | gps_gateway/sinks/batching.py:88-110 | once the flusher has ended, everything ahead of the marker was handed over exactly once, and events_failed is handed minus written plus leftovers dropped |
| Batching.StopEnds | gps_gateway/sinks/batching.py:88-95 | from any moment of a run with the marker queued, whatever else lands, the flusher takes at most a bounded number of further steps, and until it has finished it can take one |
| Batching.WrittenInOrder | gps_gateway/sinks/batching.py:21-25 | in every run what was written is, in order, a subsequence of the fixes that entered ahead of the marker |
| Completion.CommandTable.Complete | gps_gateway/commands.py:67-72 | the guarded update, row by row |
| Completion.SettledForGood | gps_gateway/commands.py:67-72 | a row confirmed, or failed with anything but no_reply, never changes again |
| Completion.FirstAnswerWins | gps_gateway/commands.py:67-72 | over every order of completions an open row ends with the first answer, or with no_reply if only timers fired |
| Completion.TimeoutCommutes | gps_gateway/server.py:305-343 | a timeout anywhere among the completions of an answered command makes no difference |
| Registry.SessionRegistry.Add | gps_gateway/commands.py:168-169 | a session takes the tracker over from any other |
| Registry.SessionRegistry.Notify | gps_gateway/commands.py:178-182 | exactly the session registered for the tracker, if any, is told |
| Registry.NotifyReaches | gps_gateway/commands.py:175-182 | in every run a queued command reaches one connection at most: open, standing for the tracker, the last to log in as it |
| Registry.OlderIsForgotten | gps_gateway/commands.py:171-173 | a run that leaves an open connection of a tracker unregistered |
| Registry.SessionRegistry.Remove | gps_gateway/commands.py:171-173 | a session removes only its own entry |
| Registry.RegistryRight | gps_gateway/server.py:176-182 | in every run a registered session is open and stands for that tracker, and the registry names exactly the session that logged in as it last and has neither moved on nor closed |
| CommandStore.InMemoryCommandRepository.Create | api/commands_repository.py:145-171 | the new store and the command returned |
| CommandStore.InMemoryCommandRepository.SetRelayEnabled | api/commands_repository.py:111-128 | the new store |
| CommandStore.CreatedExactly | api/commands_repository.py:145-171 | command by command, what a creation supersedes, what it leaves alone, and every field of the new one |
| CommandStore.SwitchedExactly | api/commands_repository.py:111-128 | command by command, what switching cut-off fails and what it leaves alone |
| CommandStore.InMemoryCommandRepository.SendRelayCommand | api/routers/devices.py:521-540 | accepted exactly when a restore, or a cut with cut-off on and ignition known off; the command returned, each reason of refusal, and nothing changed by one |
| CommandStore.ListedRight | api/commands_repository.py:173-182 | newest first, up to the limit, waiting ones past their expiry as expired; nothing else is shown, and whatever is left out is older than all shown |
| CommandStore.CutSafeIff | api/routers/devices.py:521-526 | one creation of a cut keeps forbidden cuts away if and only if cut-off is on at that moment |
| CommandStore.SafeThroughoutIff | api/routers/devices.py:521-540 | with checks and creation apart, over every run: no forbidden cut at any moment if and only if each cut is created while its cut-off is on |
| CommandStore.CheckedTooEarly | api/routers/devices.py:521-540 | a run in which the checks pass and a forbidden cut is created |
| CommandStore.ApiTextsPrint | api/commands_repository.py:18-29 | every text the API queues can be printed, for any id that fits four bytes |
| CommandStore.DigitsRead | api/commands_repository.py:28-29 | the numbers of a timer command are written in decimal |
| CommandStore.StepKeeps | api/commands_repository.py:111-171 | every step keeps both rules and rising ids |
| CommandStore.OneCommandAtATime | api/commands_repository.py:39-45 | in every run, at every later moment, no two waiting commands of a tracker have the same action or are both for the relay, and no waiting cut has its cut-off switched off |
| Connections.HandledMatches | gps_gateway/server.py:162-237 | each branch of the loop acknowledges, publishes and logs in as the frame's kind and the device id in force call for |
| Server.LoginTellsRegistry | gps_gateway/server.py:176-182 | a login's calls change the registry as the registry's own login step does |
| Server.CloseTellsRegistry | gps_gateway/server.py:117-119 | the end of handle() changes the registry as the registry's own closing step does |
| Connections.DeafForGood | gps_gateway/server.py:107-119 | once a read with a refused login is done, or the connection closed, no frame is handled any more and the device id stays, whatever deliveries and timers do |
| Fleets.MoveIsEvent | gps_gateway/server.py:117-182 | each step of any connection is at most one event of the registry's machine, with the same outcome |
| Fleets.FleetRefines | gps_gateway/server.py:88-182 | every run of all connections over the shared registry is a run of the registry's machine |
| Fleets.NotifyFindsTracker | gps_gateway/commands.py:175-182 | in every run of all connections a queued command tells one at most: the last to log in as its tracker, open and standing for it |
| Connections.AckDiscipline | gps_gateway/server.py:239-248 | whatever was interleaved, after all publishes of a read the ACKs of exactly the accepted frames go out in order, then the time answers |
| Connections.EventsCarryDevice | gps_gateway/server.py:186-223 | in every run each published position or heartbeat was due when its frame was handled, is what that frame's bytes call for under the device id then in force, an alarm marked as one, and what was published is what was due, each once, but for what is under way |
| Connections.SilentBeforeLogin | gps_gateway/server.py:169-175 | before a login is admitted nothing is published and only heartbeats are acknowledged |
| Connections.StepKeeps | gps_gateway/server.py:145-311 | every step of reader, delivery and timers keeps the accounts |
| Connections.EveryCommandDisposedOnce | gps_gateway/server.py:263-303 | in every run the commands claimed are, in order and each once, those refused, written with a timer, lost or left behind, and those in hand |
| Connections.ReachesRowIff | gps_gateway/server.py:335-339 | the outcome of a refusal, a loss or a timeout is about a claimed command and reaches its row if and only if the session then still stands for the tracker claimed for |
| Connections.ClaimsAreForTheSession | gps_gateway/server.py:270-274 | a claim is made for the device id the session has when the delivery starts |
| Connections.OneTrackerAlwaysReaches | gps_gateway/server.py:335-339 | on a connection that names one tracker every such outcome reaches its row |
| Connections.MissedRowExample | gps_gateway/server.py:292-294 | a run in which a second login makes an outcome miss its row |
| Connections.CutsAreSafe | gps_gateway/server.py:280-290 | in every run a cut is written only if the last frame handled since the login that says anything of the ignition, by its bytes, does not say on, and refused only if it does |
| Server.BegunStrandsIff | gps_gateway/server.py:280-295 | the loop leaves commands behind if and only if the next one passes the last check and cannot be printed |
| Server.SerialAdvances | gps_gateway/server.py:288-290 | each attempt takes the next serial, 0 after 65535, and the frame bears it |
| Server.OutcomesNamed | gps_gateway/server.py:280-310 | a refusal is reported as ignition_on, a loss as connection_lost and a timeout as no_reply, under the device id of the moment |
| Timers.WrittenIsFollowed | gps_gateway/server.py:296-343 | in every run a command that was written has its timer running, or the task of its timer still to run, or an outcome under its id reported since |
| Connections.AnswerSettlesRow | gps_gateway/server.py:313-333 | a tracker's answer, from its bytes to the row: confirmed with its text, or failed when the words say so, and the timer goes |
| Connections.PrintableNeverStranded | gps_gateway/server.py:280-295 | in every run whose claimed commands can all be printed, none is left behind |
| Connections.UnprintableStrands | gps_gateway/server.py:280-295 | once delivery rests, a claimed command that cannot be printed means one was left behind, unless it is a cut the ignition can have refused |
| Connections.StrandedIff | gps_gateway/server.py:280-295 | at rest, where no refusal is possible, something is left behind if and only if something claimed cannot be printed |
| Connections.ApiCommandsNeverStranded | gps_gateway/server.py:280-295 | commands with the API's own texts are never left behind |
| Connections.StrandedExample | gps_gateway/server.py:288-295 | a run in which a command is left behind |
| Connections.OutboundReadable | gps_gateway/server.py:242-248 | in every run the bytes on the socket, however they are cut, decode to exactly the frames written, in order |
| Connections.RowEndsWithFirstAnswer | gps_gateway/server.py:305-343 | whichever of a connection's completions land, in whatever order, a sent row ends with the first answer |
| Session.DeviceSession.HandleFrame | gps_gateway/server.py:162-237 | one turn of the loop is the step of the state machine |
| Session.DeviceSession.FinishJob | gps_gateway/server.py:313-333 | a publish or a command reply is that step |
| Session.DeviceSession.WriteReplies | gps_gateway/server.py:241-248 | the bytes of the ACKs, then of the time answers, are added, and the read is done with |
| Session.DeviceSession.ProcessFrames | gps_gateway/server.py:145-251 | for one read, the bytes added are exactly those the frames call for, and the device id is the last admitted login's |
| Session.DeviceSession.Handle | gps_gateway/server.py:88-119 | the reads up to the first with a login turned away are answered, no more, and the session's name is taken off the registry |
| Session.DeviceSession.Close | gps_gateway/server.py:117-119 | the end of handle() is that step |
| Session.DeviceSession.Deliver | gps_gateway/server.py:269-272 | commands are asked for exactly when the session stands for a tracker |
| Session.DeviceSession.ClaimReturned | gps_gateway/server.py:273-280 | the claimed commands are taken on in order |
| Session.DeviceSession.ClaimRaised | gps_gateway/server.py:277-279 | a failed claim ends the delivery |
| Session.DeviceSession.Continue | gps_gateway/server.py:280-295 | the delivery loop up to its next await is that step, bytes included |
| Session.DeviceSession.Try | gps_gateway/server.py:288-295 | the serial advances modulo 65536, and the command is written, failed or left behind |
| Session.DeviceSession.Drained | gps_gateway/server.py:300-303 | the reply timer of the command just written is armed, then the loop goes on |
| Session.DeviceSession.DrainRaised | gps_gateway/server.py:292-295 | the command in hand is failed as connection_lost |
| Session.DeviceSession.ReplyTimedOut | gps_gateway/server.py:305-311 | the timer's entry goes and a task is started for its report |
| Session.DeviceSession.ReportNoReply | gps_gateway/server.py:335-339 | the task records no_reply under the device id it finds |
| Intervals.CoveredPermutes | api/geofence_report.py:74-86 | what intervals cover does not depend on their order |
| Intervals.SortCanonical | api/geofence_report.py:118-118 | with distinct keys there is one sorted order, whatever order one starts from |
| Reports.CleanRouteOrdered | api/reports.py:187-195 | the route keeps time order and holds only usable fixes |
| Reports.CleanRouteExactly | api/reports.py:160-195 | which fixes are left out, by their numbers: those without lock or position, and of the others with both neighbours exactly those beyond reach of both while these are within reach of each other, each within five minutes |
| Reports.RouteIsQuerys | api/repository.py:963-1001 | the route is the query's usable and kept, row by row with LAG and LEAD |
| Reports.WindowExactly | api/reports.py:211-211 | the part of a list in the window is the fixes at or after its start and at or before its end |
| Reports.CountedExactly | api/reports.py:209-209 | how many fixes are in the window and when the first and the last of them were |
| Reports.MetresIsQuerys | api/repository.py:1002-1017 | the distance is the query's sum over LAG |
| Reports.MaxOf | api/reports.py:261-261 | the longest halt is one of them and none is longer; 0 without any |
| Reports.KindsDisjoint | api/reports.py:231-250 | running, stopped and silent time never overlap |
| Reports.StopRow | api/repository.py:1060-1071 | a stop gap joins the group the query numbers it with |
| Reports.OtherRow | api/repository.py:1060-1071 | any other gap closes the group and starts the next number |
| Reports.RowAgrees | api/repository.py:1030-1059 | the query's CASE, end and clipping of a gap agree with the loop's |
| Reports.Classify | api/reports.py:232-242 | the kind of gap a fix opens, which RowAgrees ties to the query's CASE |
| Reports.DoClose | api/reports.py:227-229 | a finished stop is filed under halts or short stops and adds to their sum |
| Reports.TrackLength | api/reports.py:213-216 | the sum of distances between neighbours |
| Reports.MeasureGaps | api/reports.py:221-251 | running and stopped time are exact measures, and halts and short stops are those of the query's grouping, in order |
| Reports.MeasureWindow | api/reports.py:253-254 | the remainder is exactly the rest of the window, so the clamp never bites |
| Reports.PlausibleTopSpeed | api/reports.py:140-157 | the greatest reading that survives the three rules, and none only if none does |
| Reports.SummarizeDevice | api/reports.py:198-267 | running, halts, short stops and no data are exact and add up to the window; the positions counted are those in the window; halt count, sums and longest are the query's |
| Driving.IgnitionOnSpans | api/driving.py:120-143 | ordered, disjoint spans that cover an instant of the window exactly when the last flip at or before it is on |
| Driving.Measure | api/driving.py:205-258 | driving, overspeed and night totals are exact measures of their gaps; sudden changes are counted pair by pair |
| Driving.DrivesExactly | api/driving.py:237-251 | the driving gaps hold exactly the instants after a moving fix, up to the next one at most ten minutes later |
| Driving.DarkIsNight | api/driving.py:115-117 | night is from 23:00 to 05:00 on a clock five and a half hours ahead |
| Driving.SuddenExactly | api/driving.py:212-223 | the sudden changes are the neighbours within ten seconds whose plausible speeds differ by fifty or more |
| Driving.BisectSplits | api/driving.py:266-270 | where bisection cuts the starts |
| Driving.DrivenDuring | api/driving.py:268-273 | the bisect-and-break loop gives the same sum as scanning every drive, and that sum is the measure of the overlap |
| Driving.IdleTime | api/driving.py:263-277 | idle is exactly the on-time without a driving gap, so the clamp never bites, and the long idles are the spans with a quarter of an hour of it, each with how much |
| Driving.ScoreRange | api/driving.py:279-288 | a score is 10 to 100 and its clamp never bites |
| Driving.ScoreExactly | api/driving.py:279-288 | the score is 100 less four charges, each so many points for each percent and capped, rounded to the nearest, halves to even |
| Stretches.HeldStep | api/driving.py:230-258 | an accumulator holds the current group and the closed ones |
| Stretches.GroupIsUnbroken | api/driving.py:246-255 | two gaps share a stretch exactly when nothing between them closes it |
| Stretches.Close | api/driving.py:178-203 | a closed stretch becomes an event exactly when it lasted |
| Stretches.AllGroupsAddUp | api/driving.py:173-203 | the stretches together last as long as the gaps that feed them |
| Stretches.DrivingEvents | api/driving.py:173-261 | overspeed, night and halt events are exactly the groups long enough, in order |
| Stretches.TotalsFromStretches | api/driving.py:237-251 | the overspeed and night totals are the sums of all stretches |
| Stretches.OverspeedStretches | api/driving.py:173-187 | overspeed stretches are the longest rows of speeding gaps, each with its start, length and greatest speed |
| Stretches.HaltStretches | api/driving.py:225-235 | halts are the longest rows of gaps at rest |
| Stretches.NightStretches | api/driving.py:237-258 | two night gaps are one stretch if and only if between them the vehicle never stood still for ten minutes, counted from the end of a moving gap |
| Stretches.LastingPicks | api/driving.py:178-203 | those that last are kept, in order |
| DrivingReports.ScoreDevice | api/driving.py:154-301 | the whole report: totals and idle time as instants counted, every event of the four kinds and no other, newest first, and the score |
| DrivingReports.EventsExactly | api/driving.py:178-277 | an event is reported if and only if it is a stretch or an idle span of its kind that lasts at least as long as the kind must |
| DrivingReports.ScoreFromLog | api/repository.py:247-262 | with the spans taken from the ignition log, idle is the part of the window with the ignition on and no driving gap |
| Geofences.UnionSeconds | api/geofence_report.py:74-86 | the size of the union of any intervals with start at or before end |
| Geofences.VisitsTidy | api/geofence_report.py:124-140 | visits are ordered, disjoint and inside the window |
| Geofences.VisitsRefine | api/geofence_report.py:124-140 | visits cover an instant exactly when the last crossing at or before it left the vehicle inside |
| Geofences.VisitsRight | api/geofence_report.py:113-140 | a listed pair is inside at an instant as its last crossing left it; before the first, as its last listed prior crossing did; with none, exactly when the first is an exit |
| Geofences.FiguresAreRight | api/geofence_report.py:124-142 | entries, exits, time inside and last event, from the pair's crossings |
| Geofences.TotalsAreExact | api/geofence_report.py:139-144 | a fence's entries, exits and alerts are those of its crossings in the window |
| Geofences.FollowCrossings | api/geofence_report.py:124-140 | the loop over a pair's crossings: counts, last crossing and intervals |
| Geofences.SummarizePair | api/geofence_report.py:117-142 | entries, exits, alerts and intervals; inside plus outside is the window exactly |
| Geofences.ByPair | api/geofence_report.py:105-108 | each pair's crossings in the window, in their order |
| Geofences.ReadPrior | api/geofence_report.py:109-115 | the state each pair starts in |
| Geofences.VisitPairs | api/geofence_report.py:117-148 | every listed pair's figures and every fence's totals |
| Geofences.PerVehicle | api/geofence_report.py:150-153 | each vehicle's intervals over all fences |
| Geofences.InsideAny | api/geofence_report.py:154-154 | time inside any fence, each vehicle's instants counted once |
| Geofences.SummarizeGeofences | api/geofence_report.py:89-164 | who is listed, where every pair is at every instant, every pair's figures and every fence's totals, from the crossings alone; inside plus outside as window times vehicles |
| Geofences.OrderIrrelevant | api/geofence_report.py:98-118 | permuting the events changes no result |
| Throttle.LoginThrottle.Wait | api/throttle.py:63-72 | the wait, or the error of a limit below 1, and the pruned table |
| Throttle.LoginThrottle.RetryAfter | api/throttle.py:43-50 | the longer of the two keys' waits, or an error, and the table after looking |
| Throttle.LoginThrottle.Failed | api/throttle.py:52-58 | the failure is recorded under both keys and the table swept when large |
| Throttle.LoginThrottle.Succeeded | api/throttle.py:60-61 | a success forgets the pair's failures and nothing else |
| Throttle.LoginThrottle.Sweep | api/throttle.py:74-76 | exactly the keys whose last failure left the window go |
| Throttle.SweepInvisible | api/throttle.py:74-76 | the sweep changes no later answer |
| Throttle.LookInvisible | api/throttle.py:63-69 | asking changes no later answer |
| Throttle.WaitIsTight | api/throttle.py:70-72 | a wait overshoots the true remaining time by at most a second, and the floor of one never applies |
| Throttle.WaitExactly | api/throttle.py:63-72 | a key is let through if and only if fewer than its limit of failures are less than a window old; else the wait is the first whole second by which the oldest of them is not |
| SignIns.Begin | api/routers/users.py:73-82 | the endpoint up to the password check is the asking step |
| SignIns.Finish | api/routers/users.py:83-89 | what it reports of the check's outcome is the ending step |
| SignIns.SignIn | api/routers/users.py:73-89 | a sign-in with nothing in between is the two steps, the second only after a 0 |
| SignIns.StepTallies | api/throttle.py:43-76 | after every step a key's pruned and swept list answers every later question as the failures it stands for would |
| SignIns.StepPaces | api/routers/users.py:73-89 | every step keeps the spacing of failures and the room for those still in flight |
| SignIns.RateBound | api/throttle.py:43-76 | over every interleaving with at most n of a key's sign-ins in flight, no window-long span holds more than its limit and n - 1 failures, for a username and for a pair since its last success |
| SignIns.RateExactly | api/throttle.py:43-76 | with limits of at least 1, a window above 0 and n of at least 1, b bounds every such span if and only if it is at least that limit and n - 1 |
| SignIns.TwoAtOnce | api/routers/users.py:73-89 | the run in which two overlapping sign-ins exceed a limit of one |
| SignIns.RateHoldsIff | api/throttle.py:29-76 | that rate holds over every interleaving if and only if both limits are at least 1; the exact condition for windows of 0 or less too |
| SignIns.NeverErrsIff | api/throttle.py:63-72 | no sign-in of any run raises if and only if both limits are at least 1 |
| SignIns.RetryAfterIff | api/throttle.py:43-72 | whoever waits as told is let through, whatever comes in between without a failure for that username, if and only if enough of the failures that count now leave in time |
| SignIns.RetryAfterIsEnough | api/throttle.py:43-72 | which is always so where at most one sign-in of the username is in flight at a time |
| SignIns.WaitTooShort | api/throttle.py:43-72 | a run of two overlapping sign-ins after which waiting as told is not enough |

## Left out

- Codec.DecodeCommandReply: the library's UTF-16 decoder is a parameter.
- Decoding.DecodeLocation: coordinates are exact, not rounded to six decimals; the arrival time is not part of the event, and cell-only packets are acknowledged but not decoded.
- Session.DeviceSession.FinishJob: whether a reply's words mean failure is a parameter, because the pattern's case folding is the library's.
- Postgres.PostgresSink.PublishMany: COPY is taken to be atomic, a write that raises not to have landed, and closing a pool not to raise.
- Batching.Conservation: queue order is landing order; a timed-out wait leaves its item in the queue, and puts still blocked after the leftovers were dropped are only known to be still waiting. One start to one stop.
- Connections.AckDiscipline: a frame is handled as one step, so an admission check that suspends is placed where it returns; logging and the idle timeout are left out.
- CommandStore.OneCommandAtATime: the endpoint is one step here, creations are serial, and the test hook that overwrites a status is left out.
- Reports.SummarizeDevice: distance is an uninterpreted function and seconds are whole microseconds, not floats; the query's own fix counts are not compared, because the two cap a window still running differently.
- Geofences.SummarizeGeofences: figures are kept per fence and vehicle; names, last_event_at and the final ordering are left out.
- The order of `sorted` lists with equal keys, and the order of dictionaries, are left open.
- asyncio cancellation, socket reads and writes, LISTEN and reconnecting, Web Push, WebSockets and FastAPI's validation.
- The triggers and functions of sql/schema.sql: a claim is an arbitrary list of rows, an admission an arbitrary answer.
- Users, shop, trackers, alerts, subscriptions, device listing, log files: mostly create, read and format, which would only add easy members.
