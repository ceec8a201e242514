# Proofs for the GNSS Wi-Fi streamer

The firmware reads NMEA sentences from a UART or from an HTTP upload, pairs GGA with RMC lines, publishes the best pair of
every time window, streams the publications to HTTP clients, tails its own log over HTTP, and updates itself over HTTP.
This project models those parts in Dafny and proves what they promise. `dafny verify dfyconfig.toml` checks all of it.

## How the model is built

**Sentences.** `Nmea` has the checksum rule and the encoder of the hardware test runner, `NmeaFields` the field lookup
and the HDOP number, `Framing` says which stretches of a byte stream are sentences, `Pairing` which GGA an RMC is joined
to. `NmeaParser` is the firmware's code over its 128-byte buffers: the pairing parser and the baud probe. Both keep a ghost
record of the bytes fed since the last reset, and every field is proved to be a function of that record, so nothing depends
on how the stream is cut into reads. `MockRoute` joins the runner's encoder to the firmware's parser, and `RunnerRoute` has
the runner's own three points. `Basics` holds the 32-bit words and a few things that several parts share.

**The GNSS pipeline.** `Protocol` is a transition system. Its actors are any number of callers of
`gnss_input_override_begin/feed/end`, the UART reader, the init task, the window timer, the filter task with a program
counter, and the dispatcher. One action is one section under `s_parser_mutex` or one kernel call; the two places where the
filter reads the epoch and acts on it later are split. The state also carries history (how many switches there have been,
what was fed between two parser resets, what was accepted and what was published). Actions look at no more of it than the
bytes fed since the last reset, which stand for the parser's buffers.
`Switching` proves the epoch, queue-set and flush invariants, `Windows` accounts for every accepted candidate,
`Publications` ties publications to sequence numbers and to source bytes, and `GnssRuns` draws the theorems over whole runs.
`Consecutive` adds that the published windows leave no gap, `Uploads` what the parser is fed while an upload is open,
`RouteUploads` what becomes of a route uploaded meanwhile, and `Delivery` follows it to the publications. `HandOver` says
what the dispatcher takes of them, and `EndReturns` that the end of an override can always be carried through. `LateRun` says
exactly when the UART is published after an override has begun, `Counterexamples` has streams and runs on which a comment,
or a reader, is wrong, and `UartRuns` puts such runs together. The UART is fed only after the init task's reset, as in the
code, where that task feeds it first and then starts the UART task.
`GnssStack` is the code itself on mutable fields, each method proved to be its action of `Protocol`.

**Kernel assumptions, built into the actions.** A select returns the members of a queue set in the order they were sent to.
A send that succeeds adds one marker, an overwrite of a full queue adds none, a send without waiting to a full queue does
nothing. A call that would block is an action that is not enabled. A mutex section is one action; `GnssRuns.FeedSplits`
shows that a section which feeds the parser may be cut anywhere without changing the result.

**Around it.** `FanOut` is the dispatcher, the snapshot and the stream workers, with publications numbered as
`GnssRuns.PublicationExact` proves them to be; `Pool` the bounded worker pools, for any
number of workers: `BeginFirst` with `CONFIG_STREAM_MAX_HTTP_CLIENTS` workers is `/stream` and `/view`, `PermitFirst` with
one worker is `/write`, `/log` and `/flash`. `HttpWrite` is the upload worker's receive loop and the calls it makes,
`LogRing` the log tail, `Ota` the firmware upload and `OtaServer` the handlers around it. Receive results, send
results, clocks, flash and hash answers are parameters; SHA-256 is an arbitrary function.

**Integers.** `uint32_t` and `size_t` counters wrap at 2^32 explicitly (`Increment`, `Word`). The `int` arithmetic of
the decimal parser is undefined in C when it overflows; the model wraps as the target does, and the theorems say where the
wrap cannot happen.

## Where the code does not do what it, or a reader, says

* After `gnss_input_override_begin` one publication of the UART can still be made, because the epoch read and the publication
  are two sections. It is if and only if the filter is between the two with a best candidate at the moment the override
  begins (`LateExactly`, `LateIff`); `LatePublicationIsReached` is a run in which that happens, with any point's bytes.
  (One made before and still in the one-slot queue is handed on afterwards in any case.)
* A checksum-valid GGA without a readable HDOP does not displace the GGA before it (`MatchesExact` counts it as an other
  line; `UnreadableDisplacesNothing` is a stream in which it happens).
* The comment in `gnss_init_task` says the chunk fed again after baud lock contains a valid line. It does if and only if the
  line began in that chunk (`RefedChunk`; `RefedChunkMisses`: a line on which the probe locks and which the parser never sees).
* HDOP order is not always the order of the numbers. Up to a given sentence it is if and only if the number in that sentence
  is below 2147483.648 (`OrderKeptExactly`, `HdopOrderExactly`); `LargerHdopIsPublished` is a run in which an HDOP of 2147484
  is published in place of one of 1.
* `ota_worker_task` says it closes the session of a failed upload. `ota_flash_receive` leaves its result at `ESP_OK` on a
  timeout, a disconnect, a hash failure and a mismatch, and those sessions stay open (`QuietFailures`, `SilentClient`;
  `EndsExactly` says which answers lead there).
* An upload can start after a reboot has been scheduled: one at most, and if and only if at that moment a handler has passed
  its check and not yet reached the permit, or a request is queued (`AtMostOneLateUpload`, `LateUploadExactly`). The first is
  how it happens when another upload's image has been selected (`ScheduledTooLate`, `LateUploadHappens`), the second when a
  rollback has scheduled the reboot (`RolledBackTooLate`, `LateAfterRollback`): neither the rollback handler nor the worker
  looks at the other. Such an upload, and one under way at that moment, may still select its image (`LateSelectionExactly`).
* A new `/log` client starts at the oldest byte held, except just after the 32-bit total has wrapped (`ConnectExact`; at the
  first wrap it starts at the end, `ConnectAfterWrap`).
* `gnss_init_task` resets the parser once, possibly during an upload. A route then loses the point the reset falls strictly
  inside, and no other (`CutExactly`, `RouteUpload`; `LossyRun` is a run in which a whole upload gives nothing).

## Model

| member | source | states |
|---|---|---|
| `Nmea.ChecksumOk` | main/gnss.c:148-179 | the loop accepts exactly the lines that are "$", six payload bytes or more without "*", "*", two hexadecimal digits of either case, and line terminators, where the digits' number has each bit set that an odd number of payload bytes has |
| `Nmea.ChecksumExact` | main/gnss.c:148-179 | the rule behind it, which trims and folds, is that |
| `Nmea.XorExact` | main/gnss.c:172-176 | bit k of the folded checksum is set if and only if an odd number of the bytes have bit k |
| `Nmea.SingleByteChange` | main/gnss.c:148-179 | of all changes of one byte of a valid line to another byte, the test misses exactly those that swap the case of a checksum digit or one line terminator for the other; every change strictly between "$" and "*" is caught |
| `Nmea.EncodeSentence` | tools/hardware_ota_test.py:801-805 | the runner's encoder loop, failing exactly on a byte of 128 or more |
| `Nmea.EncodedExact` | tools/hardware_ota_test.py:801-805 | it writes "$", the payload, "*", the exclusive or as two upper-case digits, CR and LF |
| `Nmea.EncodedIsValid` | tools/hardware_ota_test.py:801-805 | an encoded payload passes the firmware's test exactly when it has six bytes or more and no "*" |
| `NmeaFields.GetFieldRange` | main/gnss.c:240-274 | the scan finds the n-th comma-separated field after the address field, as defined by counting commas, and fails exactly when there is none or it is empty |
| `NmeaFields.FieldUnique` | main/gnss.c:240-274 | a line has at most one n-th field |
| `NmeaFields.ParseDecimalMilli` | main/gnss.c:276-320 | accepts exactly digits with at most one point and at least one digit, and returns the wrapped thousandths |
| `NmeaFields.DecimalExact` | main/gnss.c:276-320 | what is read are the characters '0' to '9' with at most one point among them and at least one digit, and nothing else |
| `NmeaFields.DecimalRoundTrip` | main/gnss.c:276-320 | every whole number, and every number of thousandths with its point, survives being written and read |
| `NmeaFields.MilliIsFloor` | main/gnss.c:276-320 | the exact thousandths are the floor of 1000 times the number spelled |
| `NmeaFields.MilliMonotone` | main/gnss.c:276-320 | a smaller number has no larger thousandths |
| `NmeaFields.SixDigitsFit` | main/gnss.c:276-320 | six integer digits never overflow a 32-bit int |
| `NmeaFields.ParseHdopMilli` | main/gnss.c:322-343 | the HDOP of a line is its eighth field, on GGA lines only |
| `NmeaFields.HdopOrder` | main/gnss.c:322-343 | while both fit, v <= w implies milli(v) <= milli(w), so an HDOP that parses to less is of a smaller number; numbers less than a thousandth apart may tie |
| `NmeaFields.OrderKeptExactly` | main/gnss.c:276-320 | for every decimal f, parsing keeps the order of all decimals up to f if and only if f is below 2147483.648, that is, if and only if its thousandths fit the int |
| `NmeaFields.FitsBelowLimit` | main/gnss.c:276-320 | the thousandths fit if and only if the number is below 2147483.648 |
| `Counterexamples.HdopOrderExactly` | main/gnss.c:322-343 | the same of checksum-valid sentences: the parsed HDOPs of all sentences up to s are in the order of their numbers if and only if the number in s is below 2147483.648 |
| `NmeaFields.HdopExact` | main/gnss.c:322-343 | the parsed value is exact if and only if it fits |
| `NmeaFields.HdopOrderCanFail` | main/gnss.c:302 | a concrete pair of numbers beyond the int whose order is reversed |
| `Counterexamples.LargerHdopWins` | main/gnss.c:613-636 | two points of valid sentences with these numbers as HDOP: both are parsed, and in one window the filter keeps the larger |
| `Counterexamples.LargerHdopIsPublished` | main/gnss.c:613-677 | a run from the init task's reset in which both arrive on the UART, share a window, and the one with the larger HDOP is published |
| `Framing.OpenExact` | main/gnss.c:404-434 | a sentence is being assembled from position i exactly when i holds the last "$", no newline follows it and at most 128 bytes have come since |
| `Framing.ClosedExact` | main/gnss.c:404-434 | a sentence completes at a newline exactly when the last "$" before it has no newline in between and the span is at most 128 bytes |
| `Framing.SpansExact` | main/gnss.c:404-434 | the list of completed sentences has these and no others |
| `Framing.SpansDisjoint` | main/gnss.c:404-434 | no byte belongs to two sentences, and they are in stream order |
| `Framing.FeedExact` | main/gnss.c:404-434 | memory and output of the byte machine are those the stream's structure determines, for every split into feeds |
| `Framing.EmittedVerbatim` | main/gnss.c:358-402 | each candidate is two disjoint valid sentences of the stream, verbatim, GGA first, with that GGA's HDOP |
| `Framing.EmittedApart` | main/gnss.c:358-402 | the RMC of one candidate ends at or before the byte at which the GGA of the next begins |
| `Framing.PairIsEmitted` | main/gnss.c:358-402 | a readable GGA and an RMC with neither between them are always a candidate |
| `Framing.EncodedRoundTrip` | tools/hardware_ota_test.py:801-805 | an encoded payload, fed after any bytes, completes as one valid sentence exactly when it has 6 to 122 bytes and no "$", "*" or newline |
| `Framing.EncodedIsOneSentence` | tools/hardware_ota_test.py:801-805 | and it is the only sentence those bytes complete |
| `Framing.CandidateImpliesDetection` | main/gnss.c:202-238 | a stream on which the parser emits a candidate has a prefix on which the probe succeeds |
| `Framing.TypesExact` | main/gnss.c:184-200 | the types that are paired and the six that prove a baud rate are those of these letters |
| `Framing.ClassifiedExact` | main/gnss.c:326-385 | what counts as an RMC and as a GGA: a right checksum, the type's letters and, of a GGA, a number in the eighth field |
| `Framing.RefedChunk` | main/gnss.c:571-580 | the chunk fed again after baud lock completes the locking line exactly when the line began in it |
| `Counterexamples.RefedChunkMisses` | main/gnss.c:571-580 | any point's GGA, cut anywhere: the probe locks on it, the parser fed the second part completes nothing, and the RMC after it finds no GGA |
| `Pairing.MatchesExact` | main/gnss.c:358-402 | an RMC is joined to a GGA exactly when no HDOP-readable GGA and no RMC stands between them |
| `Pairing.MatchesInOrder` | main/gnss.c:358-402 | every GGA and RMC is used at most once, and matches do not interleave |
| `Counterexamples.UnreadableDisplacesNothing` | main/gnss.c:358-402 | between a point's two sentences any checksum-valid GGA without a readable HDOP changes nothing: the point is still parsed |
| `Counterexamples.SomeUnreadable` | main/gnss.c:358-402 | there are such sentences |
| `NmeaParser.Parser.CompleteSentence` | main/gnss.c:358-402 | the in-place buffers after a line are those of judging it against the waiting GGA |
| `NmeaParser.Parser.Feed` | main/gnss.c:404-434 | feeding in any pieces gives the candidates of the whole stream, with all buffer indices in bounds |
| `NmeaParser.Probe.Feed` | main/gnss.c:202-238 | the probe stops at the first byte that completes a convincing line, and at no other |
| `NmeaParser.ScanChunks` | main/gnss.c:565-587 | the verdict over a stream is independent of the chunks it comes in |
| `MockRoute.FieldRoundTrip` | tools/hardware_ota_test.py:821-829 | field n of an encoded comma list is the n-th item of the list |
| `MockRoute.AnyTalkerArrives` | main/gnss.c:358-402 | a GGA and an RMC of any talker and with any fields, the GGA's HDOP readable, give one candidate |
| `MockRoute.RouteArrives` | tools/hardware_ota_test.py:808-835 | an encoded route, fed after anything, gives one candidate a point, in order and nothing else |
| `MockRoute.MakeRoute` | tools/hardware_ota_test.py:820-835 | for any points, the chunks to upload and the set of stripped lines to look for |
| `MockRoute.LinesExact` | tools/hardware_ota_test.py:829-831 | the lines of a point are its two sentences without the carriage return and line feed |
| `RunnerRoute.MakeMockRoute` | tools/hardware_ota_test.py:808-835 | the same for the runner's three points at the time of day and on the date given, which are good points |
| `RunnerRoute.TimestampReads` | tools/hardware_ota_test.py:823-824 | the time is written as hhmmss |
| `RunnerRoute.SitesRead` | tools/hardware_ota_test.py:812-816 | the three places read as 3723.2475, 3723.2480, 3723.2485 north and 12158.3416, 12158.3420, 12158.3425 west |
| `RunnerRoute.GgaReads` | tools/hardware_ota_test.py:820-825 | the firmware's field lookup finds the time i seconds after the clock, the place, its hemispheres and the HDOP in the GGA of point i, each in its field |
| `RunnerRoute.RmcReads` | tools/hardware_ota_test.py:820-828 | and time, status, place, hemispheres and date in its RMC |
| `RunnerRoute.RunnerPointIsGood` | tools/hardware_ota_test.py:812-830 | each of the three, at any time and date, is a pair of sentences the firmware accepts, with HDOP 1.4, 1.0 or 0.6 |
| `RunnerRoute.RunnerRouteArrives` | tools/hardware_ota_test.py:808-835 | the three, fed after anything, are parsed into three candidates of falling HDOP |
| `MockRoute.ExpectedHas` | tools/hardware_ota_test.py:832-833 | every point's lines are looked for |
| `MockRoute.ExpectedOnly` | tools/hardware_ota_test.py:832-833 | every line to look for is a line of one of the points |
| `RouteUploads.CutExactly` | main/gnss.c:557-560 | a reset between any two bytes of a route loses exactly the point it falls strictly inside, and none between two points |
| `RouteUploads.RouteUpload` | main/http_stream.c:309-366 | a route uploaded in any pieces, among whatever other tasks do, the init task's reset included, is parsed into its points' candidates, all but the point a reset falls strictly inside |
| `RouteUploads.LossyRun` | main/gnss.c:557-560 | for any point, a run in which it is uploaded whole and gives no candidate |
| `Delivery.StreamedIsExpected` | main/http_stream.c:309-366 | in every run past an upload of a route up to its session's end, whatever other tasks do, every publication of the session is one point's two sentences, both of whose lines are among those looked for |
| `Delivery.ExpectedIsStreamed` | tools/hardware_ota_test.py:832-835 | and at the session's end there is such a publication, if any of its candidates was accepted |
| `Delivery.AlwaysOlder` | main/gnss.c:447-455 | in every run no bytes are of a generation that has not begun |
| `Switching.EpochDecides` | main/gnss.c:447-455 | among the generations whose work can still be in the pipeline the wrapping epoch that skips zero tells them apart |
| `Switching.EpochCounts` | main/gnss.c:447-455 | the epoch after g switches is 1 + g modulo 2^32 - 1 |
| `Switching.ApplyKeepsCore` | main/gnss.c:679-912 | every action keeps the epoch, queue-set and flush invariants |
| `Switching.SetNeverOverflows` | main/gnss.c:744-746 | the queue set of 8 + 1 + 1 has room for every marker, and a receive after a select finds its item |
| `Windows.ChampionIsEarliestBest` | main/gnss.c:613-636 | the candidate kept is the earliest of lowest HDOP |
| `Windows.ApplyKeepsLedger` | main/gnss.c:613-732 | every action keeps the account: accepted candidates of the generation are those published for, open, in hand and queued, in that order |
| `Consecutive.PublishedInOrder` | main/gnss.c:613-677 | in every run and for every session of either source, over or not, the windows published are, one after the other, the first candidates accepted in it, with no gap and no repetition; a late window is no exception |
| `Publications.ApplyKeepsRecords` | main/gnss.c:638-677 | every action keeps the record of publications exact and bounds the late ones |
| `Publications.ApplyKeepsSource` | main/gnss.c:358-402 | every action keeps each accepted candidate traceable to its place in one source's bytes |
| `Publications.SequenceWraps` | main/gnss.c:656-657 | sequence numbers count publications modulo 2^32 |
| `GnssRuns.EpochNeverConfuses` | main/gnss.c:613-636 | in every run a candidate held in the queue, in hand or as best bears the current epoch exactly if it was parsed since the last switch; with no override active there is no other, and otherwise it is from just before |
| `GnssRuns.QueueSetConsistent` | main/gnss.c:685-732 | in every run each member's markers, with the one just selected, equal its queued items, and the set never overflows |
| `GnssRuns.EndIsComplete` | main/gnss.c:875-912 | when the end of an override has its acknowledgement the queue and the filter are empty and the session's accepted candidates are, in order, those its publications stand for |
| `GnssRuns.EveryUploadIsAnswered` | main/gnss.c:875-912 | each accepted candidate of the session has a publication of the session with no larger HDOP |
| `GnssRuns.NothingAfterTheEnd` | main/gnss.c:904-909 | once an override has ended nothing of it is published in any continuation of the run |
| `GnssRuns.PublicationExact` | main/gnss.c:638-677 | the i-th publication has number i + 1 modulo 2^32, shows the earliest candidate of lowest HDOP of its window, all of one generation, and is that candidate's two sentences from one source's bytes, at most 256 in all |
| `HandOver.TakenExact` | main/gnss.c:660-677 | in every run what the dispatcher takes from the slot is the newest publication made, with its number, and is a GGA and after it the RMC of one source's bytes |
| `HandOver.TakenInOrder` | main/gnss.c:672-676 | in every run each publication is taken at most once and in the order they were made, and the newest is in the slot unless it is the last that was taken: an overwrite replaces the older |
| `GnssRuns.AcceptedAreApart` | main/gnss.c:345-402 | no two accepted candidates share a sentence: they are from different stretches of bytes, or the RMC of one ends at or before the byte at which the GGA of the other begins |
| `GnssRuns.AtMostOneLatePublication` | main/gnss.c:638-677 | after each switch at most one publication of the source before it, and none after an override's end |
| `GnssRuns.LatePublicationHappens` | main/gnss.c:642-670 | it does happen when an override begins between the epoch read and the publication |
| `LateRun.LateExactly` | main/gnss.c:638-677 | in every continuation of a run in which an override begins, the UART's publications after it, with the one still to come, are one if the filter then stood between its epoch read and its publication with a best candidate, and none if not |
| `LateRun.LateIff` | main/gnss.c:638-677 | so there is a continuation with a late publication if and only if it stood there |
| `LateRun.LatePublicationIsReached` | main/gnss.c:642-670 | for any point of a route, a run in which it arrives on the UART after the init task's reset and is published after an override has begun |
| `LateRun.SomePoint` | tools/hardware_ota_test.py:808-835 | there are such points: the first of the runner's, for instance |
| `GnssRuns.OnlyTheOwnerFeeds` | main/gnss.c:457-471 | bytes enter the parser only from the source that owns it, at the end of the current stretch |
| `Uploads.UploadIsFedWhole` | main/gnss.c:846-873 | while an upload is open the parser gets its bytes, all, in order, and no others, in one stretch or in the two that the init task's reset makes of it |
| `Uploads.SessionIsFedWhole` | main/gnss.c:822-873 | so, from the beginning of the override, of a session |
| `Uploads.NextFeedIsTaken` | main/gnss.c:851-861 | and at every moment of it the override is active and not closing, the condition under which a feed returns OK |
| `GnssRuns.FeedAccepts` | main/gnss.c:345-356 | one feed accepts exactly the first candidates it completes, as many as a queue of eight has room for |
| `GnssRuns.FeedSplits` | main/gnss.c:863-869 | a feed and its continuation equal one feed of both, whatever happens to the queue |
| `GnssRuns.FilterProgress` | main/gnss.c:685-730 | with a flush pending the filter can always take its next step, and each brings the acknowledgement one step, each select one select, nearer |
| `GnssRuns.OthersDoNotDelay` | main/gnss.c:602-611 | no action of anyone else delays it |
| `GnssRuns.AckArrives` | main/gnss.c:899-902 | the acknowledgement comes within 45 filter steps, 10 of them selects, of the control being queued |
| `GnssRuns.AckIsNeverLost` | main/gnss.c:899-902 | the discard before a flush never removes an acknowledgement, the give never finds one there, and the control received is of the current epoch |
| `EndReturns.EndCanReturn` | main/gnss.c:875-912 | from every reachable state with an override open a call of its end can come to its last section, in at most 49 steps of the caller and the filter alone, with what was accepted unchanged |
| `EndReturns.Returns` | main/gnss.c:904-909 | and then it returns, with the parser handed back |
| `EndReturns.PointIsPublished` | main/gnss.c:822-912 | for any point, a session from its first call to its last in which it is uploaded and published |
| `GnssStack.Gnss.constructor` | main/gnss.c:734-776 | the initial state |
| `GnssStack.Gnss.InputEpochAdvance` | main/gnss.c:447-455 | the epoch after one switch, never zero and never the one before |
| `GnssStack.Gnss.UartInputFeed` | main/gnss.c:457-471 | is the UART action: fed if no override is active, dropped otherwise; its callers come after the init task's reset |
| `GnssStack.Gnss.CandidateSend` | main/gnss.c:345-356 | queues the candidate with a marker, or drops it when the queue is full |
| `GnssStack.Gnss.ParserFeed` | main/gnss.c:404-434 | feeds the shared parser and queues what it completes |
| `GnssStack.Gnss.OverrideBegin` | main/gnss.c:822-844 | is the begin action, and its status |
| `GnssStack.Gnss.OverrideFeed` | main/gnss.c:846-873 | feeding in chunks of INT_MAX is feeding at once, and its status |
| `GnssStack.Gnss.OverrideClose` | main/gnss.c:875-897 | is the closing section, giving the control to exactly one caller a session |
| `GnssStack.Gnss.InitTaskReset` | main/gnss.c:557-560 | is the init task's one reset, which leaves epoch and override flags alone |
| `GnssStack.Gnss.DiscardAck` | main/gnss.c:899-900 | is the discard before a flush |
| `GnssStack.Gnss.SendControl` | main/gnss.c:901 | queues the control with a marker |
| `GnssStack.Gnss.TakeAck` | main/gnss.c:902 | takes the acknowledgement |
| `GnssStack.Gnss.OverrideFinish` | main/gnss.c:904-909 | is the section that returns the parser to the UART |
| `GnssStack.Gnss.SelectionTimerCallback` | main/gnss.c:602-611 | an expiry adds a marker only if none is pending |
| `GnssStack.Gnss.PublicationReceive` | main/gnss.c:817-820 | empties the one-slot publication queue |
| `GnssStack.Gnss.ConsiderCandidate` | main/gnss.c:613-636 | is the filter's decision on the epoch it read |
| `GnssStack.Gnss.PublishBestCandidate` | main/gnss.c:638-677 | is the filter's publication on the epoch it read, and what it queues is the GGA followed by the RMC |
| `GnssStack.Gnss.FilterPass` | main/gnss.c:685-731 | one pass of the loop considers the oldest candidate, closes the window, or closes it and acknowledges |
| `GnssStack.PassIsSteps` | main/gnss.c:685-731 | that pass is the filter's single steps up to its next select |
| `FanOut.NoLostWakeup` | main/http_stream.c:109-147 | a worker that sleeps on an old publication has been notified or will be in the present pass |
| `FanOut.PassReaches` | main/http_stream.c:401-405 | which reaches it without blocking |
| `FanOut.StreamsIncrease` | main/http_stream.c:111-135 | each client is sent a strictly increasing selection of whole publications, wrap or no wrap |
| `FanOut.RestIsNewest` | main/http_stream.c:96-148 | when publishing stops and the worker sleeps its client has the newest, exactly unless it is behind by a multiple of 2^32 |
| `FanOut.HandsOn` | main/http_stream.c:391-406 | when publishing stops, the dispatcher has handed on the last publication after exactly the number of its own calls stated, at most 2n + 5 for n workers, and none of them blocks before |
| `FanOut.NewestArrives` | main/http_stream.c:96-148 | from then on a worker whose sends and peeks succeed has, after four of its own steps at most and for good, sent its client the newest, modulo 2^32 |
| `FanOut.RestArrives` | main/http_stream.c:96-148 | and within seven of its own steps it comes to rest |
| `FanOut.NeverBlocked` | main/http_stream.c:109-147 | until then its next call does not block |
| `FanOut.FirstIsSent` | main/http_stream.c:96-148 | a run in which a client that sleeps before the first publication is woken and sent it |
| `FanOut.LookMisses` | main/http_stream.c:60-73 | a look misses something new exactly when the numbers differ by a multiple of 2^32 |
| `FanOut.Hub.CopyIfNew` | main/http_stream.c:60-73 | is the worker's look at the snapshot |
| `FanOut.Hub.ResponseTurn` | main/http_stream.c:111-147 | one pass of the send loop sends the snapshot if its number is new, and moves last_sequence only then |
| `FanOut.Hub.StoreLatest` | main/http_stream.c:396-399 | is the dispatcher's snapshot section |
| `FanOut.Hub.NotifyGive` | main/http_stream.c:403 | notifies that worker and no other |
| `FanOut.Hub.StackTaskPass` | main/http_stream.c:395-405 | the snapshot is replaced first, then every worker is notified once |
| `Pool.PoolIsBounded` | main/http_stream.c:150-178 | in every run the permits are conserved, at most n requests are accepted and unfinished, a send with a permit finds room and a give finds the semaphore below its limit |
| `Pool.RequestsAreOwned` | main/http_stream.c:282-307 | in every run each request begun is with one handler, queued, with one worker or completed, and exactly once |
| `Pool.IdlePoolHasFinished` | main/http_stream.c:299-305 | a pool at rest has completed every request it began, once |
| `Pool.QueuedIsTaken` | main/http_stream.c:282-307 | for every queued request a worker waits, which can take it at once |
| `Pool.RequestIsServed` | main/http_stream.c:150-307 | in a pool of either style a run in which a request is accepted, served and completed |
| `Pool.Slots.StreamRequestQueue` | main/http_stream.c:150-178 | queued exactly if the request could be detached and a permit was there; refused, the copy is completed |
| `Pool.Slots.ExclusiveRequestQueue` | main/http_stream.c:221-250 | queued on the same condition; refused, nothing has changed and the request is still the server's |
| `Pool.Slots.QueueSend` | main/log_stream.c:172-176 | with a permit in hand the branch for a full queue is dead |
| `HttpWrite.WriteRequestReceive` | main/http_stream.c:309-366 | the calls made are one begin, then feeds alone, each taken, and one end on every way out of the loop; it waits only while no answer is due and none was an absence, fails exactly at the first refused piece or, with all before it fed, at an absence, and succeeds exactly if the whole body arrived and was fed |
| `HttpWrite.MadeIsParsed` | main/http_stream.c:309-366 | in every run whose feeds are those calls, whatever other tasks do in between, the parser gets what they fed |
| `HttpWrite.BodyIsParsed` | main/http_stream.c:309-366 | in every run whose feeds are those the loop makes of the answers, each feed is taken and the parser gets the bytes that arrived |
| `HttpWrite.ArrivingIsCarried` | main/http_stream.c:325-351 | what arrives is, byte for byte, what the answers before the first absence carry, up to the announced length |
| `HttpWrite.WrittenRouteIsParsed` | main/http_stream.c:309-366 | if the answers carry a route's chunks, in any cut into at most 512 bytes and with any pauses, the parser gives its points' candidates among whatever other tasks do, all but one that a reset falls strictly inside |
| `HttpWrite.PausesDoNotMatter` | main/http_stream.c:329-335 | a receive timeout anywhere changes nothing of what is fed |
| `LogRing.Ring.Capture` | main/log_stream.c:50-79 | appends the first 255 characters of the text to the log, and the ring again holds its last 4096 bytes |
| `LogRing.CapturedExact` | main/log_stream.c:50-64 | of a text its first 255 characters are logged, and all of one no longer |
| `LogRing.SlotOfWord` | main/log_stream.c:66-70 | the wrapped counters name the slots of the true positions, because 4096 divides 2^32 |
| `LogRing.Ring.Connect` | main/log_stream.c:111-113 | the cursor of a new client |
| `LogRing.ConnectExact` | main/log_stream.c:107-113 | it is the oldest byte held, exactly unless the total has wrapped and is still below 4096 |
| `LogRing.ConnectAfterWrap` | main/log_stream.c:107-113 | at a total of 2^32 a new client starts at the end and is sent nothing, with 4096 bytes held |
| `LogRing.Ring.Fetch` | main/log_stream.c:122-133 | the bytes copied are those of the log at the client's true position, after the skip |
| `LogRing.StartExact` | main/log_stream.c:123-128 | the skip leaves out exactly the overwritten bytes if and only if the lag is below 2^32 or, wrapped, at least 4096 |
| `LogRing.SessionOrdered` | main/log_stream.c:117-151 | chunks are in order, not empty, at most 512 bytes, do not overlap, and were in the ring when sent |
| `LogRing.GapIsWhatWasOverwritten` | main/log_stream.c:124-128 | between two chunks exactly the bytes overwritten meanwhile are missing, none if the lag was at most 4096 |
| `LogRing.KeepingUpIsLossless` | main/log_stream.c:117-151 | a client that keeps up is sent the log from its start, whole |
| `LogRing.TurnSends` | main/log_stream.c:117-145 | a turn sends the lesser of 512 bytes, the wrapped lag and the ring, which is something exactly if the wrapped lag is not zero |
| `LogRing.EightTurnsCatchUp` | main/log_stream.c:117-151 | while nothing is logged eight turns send a client everything from the place it reads on from, its own position if it was at most 4096 bytes behind, unless it is behind by a multiple of 2^32 |
| `LogRing.HugeLagSkips` | main/log_stream.c:123 | 2^32 + 1 bytes behind, a client is sent one byte |
| `LogRing.OneMoreEvent` | main/log_stream.c:117-151 | one more event adds to a session of a client that is there: logging nothing, a turn the chunk at its position if there is any; a turn that finds it gone ends the session for good, whatever follows |
| `LogRing.Ring.ResponseSend` | main/log_stream.c:98-152 | whatever is logged meanwhile, what a client has been sent is the log cut as the session says, up to the first failed send or peek and no further |
| `Ota.CallsBounded` | main/ota_update.c:398-439 | at most three receive calls a byte, for every client |
| `Ota.SlowestClient` | main/ota_update.c:398-411 | the bound is reached |
| `Ota.WrittenAndRemaining` | main/ota_update.c:398-439 | written and remaining make up the announced length, and the upload is complete exactly when nothing remains |
| `Ota.TimesOutExactly` | main/ota_update.c:402-411 | an upload times out on the third receive in a row without an answer, and only then |
| `Ota.EndsExactly` | main/ota_update.c:398-439 | an upload short of its length timed out, was disconnected, or failed in the hash or the flash exactly as the client's last answer and the library's answers to it say, and no answer before was of that kind |
| `Ota.ReceiveBody` | main/ota_update.c:398-439 | the loop ends, and every byte received has been hashed and written, in order, when it completes |
| `Ota.WritesWhatWasSent` | main/ota_update.c:398-439 | if no receive returns more than was asked for, what is written is, byte for byte and in order, what the receives brought, up to a last piece that the hash or the flash refused |
| `Ota.CheckAndSelect` | main/ota_update.c:441-483 | selection is tried only if the digest of the written body is the header's and the image was accepted |
| `Ota.FlashReceive` | main/ota_update.c:353-494 | a reboot is required exactly if the image was selected; on every exit each session opened is closed once, one reply has been sent, of the status its outcome calls for, and what is written is what the client sent; selection is tried exactly for whole verified accepted bodies; the result is an error exactly in the cases named |
| `Ota.OnlySuccessIsReported` | main/ota_update.c:477-482 | the client is told of success exactly when the image was selected |
| `Ota.RepliesExactly` | main/ota_update.c:353-494 | each status says what happened: 408 silence, 400 an absence, 422 a piece the flash refused, a wrong digest or an image not accepted, 200 an image selected, 500 everything else, each if and only if |
| `Ota.QuietFailures` | main/ota_update.c:402-417 | the failed uploads whose result is ESP_OK: cut short by the client or the hash, or not matching |
| `Ota.SilentClient` | main/ota_update.c:402-411 | a concrete one |
| `OtaServer.ParseDigest` | main/ota_update.c:120-141 | succeeds exactly on 64 hexadecimal digits and returns the bytes they say |
| `OtaServer.HexExact` | main/ota_update.c:100-118 | a character is the digit v exactly if it is the v-th of 0-9a-f or of 0-9A-F |
| `OtaServer.DigestRoundTrip` | main/ota_update.c:120-141 | every digest survives the header, and no header says two |
| `OtaServer.OtaUpdate.FlashPost` | main/ota_update.c:217-266 | an upload is queued exactly when every guard passes, fits its slot and carries the header's digest; otherwise the reply is that of the first guard that fails and nothing changes |
| `OtaServer.OtaUpdate.RequestQueue` | main/ota_update.c:182-215 | queued exactly if the permit was there and the request could be detached |
| `OtaServer.OtaUpdate.WorkerOffers` | main/ota_update.c:501-502 | offers the permit; the empty queue is what it requires of the loop |
| `OtaServer.OtaUpdate.WorkerTask` | main/ota_update.c:496-526 | whatever uploads and rollbacks clients ask for before and during each upload, every round serves the first upload asked for that fits, and the loop waits for good exactly when there is none, a reboot has been scheduled by a rollback or a selected image, or a confirmation is pending; at most one upload starts with a reboot scheduled |
| `OtaServer.OtaUpdate.WorkerFetch` | main/ota_update.c:502-510 | takes the request, whatever has been scheduled, which is the step of the reboot race |
| `OtaServer.OtaUpdate.WorkerFinish` | main/ota_update.c:510-525 | the upload and what follows it: what is written fits the slot, the reboot is scheduled exactly if the image was selected, the session is closed exactly if the result is an error |
| `OtaServer.OtaUpdate.OneRound` | main/ota_update.c:496-526 | one turn of the loop serves the first upload that fits, and ends with a reboot scheduled exactly if a rollback or its image asks for one; if none fits it waits for good |
| `OtaServer.OtaUpdate.RollbackPost` | main/ota_update.c:325-345 | schedules the reboot exactly if none is scheduled and an older image could be selected, and is the race's step |
| `OtaServer.OtaUpdate.HandlePost` | main/ota_update.c:217-345 | an upload is let in exactly if it fits, the permit is out and no reboot or confirmation stands against it |
| `OtaServer.OtaUpdate.HandlePosts` | main/ota_update.c:217-266 | of all the uploads asked for, the one let in is the first that fits, if the permit is out and nothing stands against it, and a reboot is scheduled exactly if a rollback could be carried out |
| `OtaServer.OtaUpdate.WorkerPass` | main/ota_update.c:496-526 | what is written fits the slot, the reboot is scheduled exactly if the image was selected, the session is closed exactly if the result is an error |
| `OtaServer.OtaUpdate.RestartSchedule` | main/ota_update.c:161-180 | only the first call starts the timer, and reboots at once if that fails |
| `OtaServer.AtMostOneLateUpload` | main/ota_update.c:217-263 | in every run at most one upload is accepted, and at most one starts, after a reboot has been scheduled |
| `OtaServer.LateUploadExactly` | main/ota_update.c:496-526 | in every reachable state with a reboot scheduled a further upload can start if and only if a handler stands between its check and the permit or a request is queued |
| `OtaServer.LateAdmissionExactly` | main/ota_update.c:182-215 | a further one can be accepted if and only if a handler stands there |
| `OtaServer.LateSelectionExactly` | main/ota_update.c:469-483 | an image can still be selected if and only if one of these holds or an upload is under way |
| `OtaServer.ScheduledTooLate` | main/ota_update.c:496-526 | so an upload can start after the worker has scheduled the reboot exactly if a handler has passed the check |
| `OtaServer.RolledBackTooLate` | main/ota_update.c:325-345 | and after a rollback has scheduled it exactly if a request is queued |
| `OtaServer.OnlyThatHandler` | main/ota_update.c:217-263 | an upload accepted late is that handler's: none is before it takes the permit |
| `OtaServer.NoneAfterwards` | main/ota_update.c:325-345 | with no handler past its check none is accepted whatever happens, and the one that may be queued is the one that starts: late starts and the queue add up to the same for good |
| `OtaServer.LateUploadHappens` | main/ota_update.c:496-526 | a run in which one is accepted and starts after another's image has been selected |
| `OtaServer.LateAfterRollback` | main/ota_update.c:313-345 | a run in which one accepted before a rollback starts after it and may select its image |

## Left out

- GnssRuns.AckArrives: counts steps of the filter task; that the scheduler runs it is assumed. No caller holds the parser mutex at a call that can block: such a call is an action of its own here.
- GnssRuns.EveryUploadIsAnswered: speaks of candidates accepted by the queue; a full queue drops the newest, as the code does (`FeedAccepts` says which).
- NmeaFields.ParseDecimalMilli: C leaves signed overflow undefined; the wrap of the target is modelled.
- GnssStack.Gnss.ParserFeed: candidates are sent after the parser has read the whole chunk, not in between; both happen under the mutex.
- GnssStack.Gnss.FilterPass: describes a pass in which no other task runs in between; its single steps are proved separately for every interleaving.
- FanOut.Hub.ResponseTurn: one undisturbed pass; interleavings are the theorems over runs.
- LogRing.Ring.ResponseSend: the loop that never ends is run over a finite script of what happens meanwhile.
- HttpWrite.WriteRequestReceive: whether the override begins and whether a feed is taken are parameters, and a script of answers stands for the socket, and no termination is claimed, because pauses are allowed without limit.
- Ota.FlashReceive: the error code is reduced to success or failure, and the answers of the flash and hash libraries are parameters; that a hash finish closes the hash session even when it fails, which the code relies on, is assumed of the library.
- OtaServer.OtaUpdate.WorkerTask: the loop that never ends is run over a finite script, and each handler call is undisturbed; its steps are proved to be those of the reboot race, whose theorems are about every interleaving.
- The restart and confirmation timers, and what the bootloader does with the selected slot, are events outside one boot.
- LED counters and their drain loop (main/generic_task.c): they would add only easy counting facts, and the LED's state after coalesced events is not promised.
- UART set-up, the baud table and its dwell times, Wi-Fi, NVS, version strings, task creation, Kconfig: no state that matters here.
- `/flash/confirm` and `/flash/status` (main/ota_update.c:274-323): short guard chains.
- Reply texts and log formatting: only status codes are kept.
- The rest of the hardware test runner.
