# Verified model of the uPMU gateway's data path

The gateway fetches files of synchronised phasor measurements over FTP, hour by hour, fans each file out to archivers,
analyses the voltages for events and publishes the results as JSON. This project models the parts of it where a
property spans many steps, and proves those properties with Dafny.

* `VoltageEvents`, `VoltageMeaning`, `VoltageDetector`, `VoltageAnalysis` - the windowed voltage-event detector: what
  an event is, read off the whole stream, and what it says of the samples; the scan of one window with its counters,
  flags and retractable log; and the reports. The main result is that the reports do not depend on how the stream is
  cut into windows.
* `PhaseUnwrap` - unwrapping of phase angles with the state kept across seconds.
* `Calendar`, `DataDirectory`, `DirectorySearch`, `DirectoryPasses`, `DirectoryProgress`, `Discovery` - calendar
  arithmetic, the hourly directory, the search for the directory to start with, the passes over directories, and the
  discovery thread with its directory table: when the clock is never passed, when the search ends, when nothing is
  read twice, and that everything listed is read.
* `ByteOrder` - the byte order of a file, detected and corrected in place.
* `Throttle`, `ThrottleProgress`, `Archiver` - buffers shared between the discovery thread and any number of archivers
  as a state machine over interleaved steps, and one archiver thread: no offer is refused, nothing gets stuck, and
  every record is stored once and in order.
* `JsonPointer`, `JsonAccess`, `JsonPatch`, `JsonPatchOutcomes`, `JsonFlatten`, `JsonFlattenOutcomes` - the JSON
  engine's pointers (RFC 6901), diff and patch (RFC 6902), flatten and unflatten, as inverse pairs, and what each
  operation of a patch, and unflatten, comes to.
* `JsonText`, `JsonLexer`, `JsonNumber`, `JsonScanner`, `JsonSerializer`, `JsonParser`, `JsonReader`, `JsonGrammar`,
  `JsonLayout` - escaping, UTF-8, the scanner, number tokens, dump and parse as one round trip, and the texts that are
  accepted beside those of RFC 7159.
* `Particulars`, `JsonResult`, `JsonValue`, `Decimal`, `StringOrder` - shared sizes and bytes, errors, values with the
  library's equality, decimal numerals, and the order of strings and of sets keyed by them.

Objects the program updates in place are classes whose methods are proved against functions on values (`Phase`,
`Analysis`, `Unwrapper`, `DataDir`, `Discovery`, `Archiver`, `Lexer`, `Parser`); loops are methods with invariants.
What comes from outside is a parameter: samples, the clock, directory and file listings, whether the server or the
database answers, the C library's `strtod` and the stream's output of floating-point numbers. The interleaving of
threads is the order of steps in `Throttle`.

Where code and documentation differ, the model follows the code; for each difference a theorem says exactly when the
promise holds, and a lemma gives an input where it does not:

* `unflatten` promises to restore everything but empty containers. An object whose first pointer goes through the key
  "0" is rebuilt as an array (`JsonFlatten.UnflattenOfFlatten`, `JsonFlatten.ZeroKeyComesBackAsArray`).
* `patch(diff(s, t)) == t` is promised "always"; array indices above 2147483647 are refused by `std::stoi`
  (`JsonPatch.PatchOfDiff`, `JsonPatch.LongArrayIsNotPatched`).
* RFC 6902 makes the "copy" of a patch an add of the value. It overwrites an array element instead of inserting, and
  differs below null and primitive values and in the tokens it refuses (`JsonPatch.CopyIsAddIff`,
  `JsonPatch.CopyOverwrites`).
* RFC 6901 has digits without a leading zero for an index; white space and a sign in front and anything behind are
  passed over (`JsonPatchOutcomes.IndexIff`, `JsonPatchOutcomes.SloppyIndex`).
* RFC 6902 wants the location of a remove and the parent of the location of an add to exist; below a primitive value a
  remove does nothing, and a missing parent is created (`JsonPatchOutcomes.RemoveBelowPrimitive`,
  `JsonPatchOutcomes.AddCreatesParent`).
* The overflow guard of `get_number` misses some wraps (`JsonNumber.IntegerIsExactIff`, `JsonNumber.GuardFiresIff`,
  `JsonNumber.OverflowsAreMissed`).
* The parser accepts more than RFC 7159 allows: raw control characters 0x10 to 0x1F and bytes that are not UTF-8
  inside strings, byte order marks before any token, and anything behind a null byte, which ends the text. It refuses
  the escape of a high surrogate alone, which the RFC allows (`JsonGrammar.AcceptedIff`, `JsonGrammar.RfcTextIff`,
  `JsonGrammar.RfcTextIsParsed`; `JsonGrammar.RawByteIsNotRfc`, `JsonGrammar.MarkIsNotRfc`,
  `JsonGrammar.NullIsNotRfc`, `JsonGrammar.LoneSurrogateIsRefused`).
* `dump` writes strings that are not UTF-8 as they are, which RFC 7159 does not allow (`JsonLayout.DumpIsRfcIff`,
  `JsonLayout.DumpOfRawByte`).
* `dump` writes floating-point numbers with fifteen digits, which its comment takes to be enough to read them back;
  doubles need seventeen (`JsonParser.ParseOfDump`, `JsonParser.OneTextForTwo`).
* Unwrapping follows the true phase only while angles, as `fmod` leaves them, are less than 540 degrees apart, which
  angles of both signs need not be (`PhaseUnwrap.ReconstructsIff`, `PhaseUnwrap.TwoTurnsAreMissed`).
* The startup search does not look at the clock before its first step, and can pass it
  (`DirectorySearch.NeverAheadIff`); from there it need not end (`DirectorySearch.SearchIsEndlessIff`,
  `DirectorySearch.SearchRunsAhead`).
* Files are to be read once. From a directory ahead of the clock they can be read twice, and only from there
  (`DirectoryPasses.ReadsOnceIff`, `DirectoryPasses.ReadTwice`; of a whole run `Discovery.RunsOnceIff`,
  `Discovery.AStartReadsTwice`).
* The byte order of a file is told from its year (`ByteOrder.DetectedIff`, `ByteOrder.AYearIsMisread`), and the loops
  that correct it step over the end of a file that does not hold whole records (`ByteOrder.StaysInsideIff`,
  `ByteOrder.OneByteMore`).

`dafny verify dfyconfig.toml` checks the whole project.


## Model

| member | source | states |
|---|---|---|
| VoltageEvents.OnePassMeaning | ftp/serviceDataArchiverRabbitMQ/serviceDataArchiverRabbitMQ.cpp:1487-1597 | Reading the samples once from left to right finds exactly the events of the maximal runs of equal class: a run is cut after every 7200 samples, each overtaken piece becomes a long event that starts one sample early, and a sag counts only from its fourth sample on. |
| VoltageEvents.CounterMeaning | ftp/serviceDataArchiverRabbitMQ/serviceDataArchiverRabbitMQ.cpp:1489-1515 | The running counter is ((L - 1) mod 7200) + 1, L being the length of the run the stream ends with. |
| VoltageMeaning.EventsInNumbers | ftp/serviceDataArchiverRabbitMQ/serviceDataArchiverRabbitMQ.cpp:1487-1597 | In per-unit voltages and numbers of samples: all samples of a reported sag or under-voltage lie from 0.1 to 0.9, of an interruption below 0.1, of a swell or over-voltage at 1.1 or above; a long event has 7200 samples and goes on, another has at most as many and a sag more than three, and what precedes and follows it is not of its band unless it goes on with a long one; events share no sample; and every sample at or below 0.9 or at or above 1.1 is in one, unless it is one of three or fewer of a sag. |
| VoltageDetector.CountersBetween | ftp/serviceDataArchiverRabbitMQ/serviceDataArchiverRabbitMQ.cpp:1478-1485 | Between two windows the flags are one-hot at the class of the last sample (all zero if it is normal), that class's counter and its saved copy are ((L - 1) mod 7200) + 1, and every other counter is zero. (also lines 1598-1602) |
| VoltageDetector.ContinuesIff | ftp/serviceDataArchiverRabbitMQ/serviceDataArchiverRabbitMQ.cpp:1502-1506 | The test on counter, saved counter and flag succeeds exactly when the run is the one the previous window ended with and that run is already in the log, so an entry is retracted when and only when it turns out to go on, and never from an empty log. (also lines 1536-1540, 1570-1574) |
| VoltageDetector.RecordLogs | ftp/serviceDataArchiverRabbitMQ/serviceDataArchiverRabbitMQ.cpp:1494-1514 | Recording a finished run adds exactly the entry of that run, keeps every entry well spaced (end minus start is the sample count plus one) with ends in nondecreasing order, and leaves the entry carried over from the previous window where the report looks for it. |
| VoltageDetector.RecordReplaces | ftp/serviceDataArchiverRabbitMQ/serviceDataArchiverRabbitMQ.cpp:1494-1514 | The entry takes the place of the last one in the log if the run continues that one and has not reached the cap, and comes behind it otherwise; a sag of at most three samples is not logged. |
| VoltageDetector.RunDone | ftp/serviceDataArchiverRabbitMQ/serviceDataArchiverRabbitMQ.cpp:1489-1521 | After any run - ended, capped at 7200 or cut by the end of the window - the invariant of the scan holds again: what is logged and what is settled make up what one pass over everything read so far finds. |
| VoltageDetector.Phase.AbnormalRun | ftp/serviceDataArchiverRabbitMQ/serviceDataArchiverRabbitMQ.cpp:1488-1521 | One abnormal branch moves the position forward, or leaves it and lowers the counter of the current class from the cap. (also lines 1522-1555, 1556-1589) |
| VoltageDetector.Phase.ScanWindow | ftp/serviceDataArchiverRabbitMQ/serviceDataArchiverRabbitMQ.cpp:1479-1602 | For every window and every history it terminates (measure: samples left, then the counter of the current class) and leaves the log such that settled events, the carried event and the entries of this window are the one-pass events of the whole stream. |
| VoltageAnalysis.PrintedEvents | ftp/serviceDataArchiverRabbitMQ/serviceDataArchiverRabbitMQ.cpp:1617-1728 | The range of log entries that is printed lies inside the log, and appended to what was settled before it gives what is settled now: nothing is reported twice, early or never. |
| VoltageAnalysis.EventOverIff | ftp/serviceDataArchiverRabbitMQ/serviceDataArchiverRabbitMQ.cpp:1626-1640 | The comparison of the last value of the previous window with the first of this one holds exactly when an event was left pending and this window does not continue it. |
| VoltageAnalysis.PrintPhase | ftp/serviceDataArchiverRabbitMQ/serviceDataArchiverRabbitMQ.cpp:1617-1685 | The three printed columns have equal length and together are the events that became settled in this window. |
| VoltageAnalysis.Analysis.VoltageLimitMain | ftp/serviceDataArchiverRabbitMQ/serviceDataArchiverRabbitMQ.cpp:1476-1615 | One window of all phases: afterwards each phase has read the window, its counters, flags and log are those of one pass, and the reports of each phase are exactly what became settled. |
| VoltageAnalysis.Analysis.ProcessRecord | ftp/serviceDataArchiverRabbitMQ/serviceDataArchiverRabbitMQ.cpp:1177-1178 | Publishing a record only appends, and keeps the published events of each phase equal to the settled ones. (also lines 1183-1261) |
| VoltageAnalysis.Run | ftp/serviceDataArchiverRabbitMQ/serviceDataArchiverRabbitMQ.cpp:1177-1261 | Window independence: for every window size and every stream, the reports of each phase are the settled events of the whole stream, and with the one still pending they are the events of its maximal runs. Their descriptions, starts and ends are true of the samples in the numbers of EventsInNumbers, and only samples of short sags and of the piece the stream ends with are left out. Every report is of phase 0, 1 or 2 and of severity 10. (also lines 1476-1728) |
| PhaseUnwrap.ReconstructsIff | ftp/serviceDataArchiverRabbitMQ/serviceDataArchiverRabbitMQ.cpp:812-848 | For any raw angles that are residues of a true phase moving less than half a turn per sample: the unwrapped angle minus the true phase is one constant multiple of 360 over the whole run if and only if successive angles, as fmod leaves them, differ by less than 540 degrees. |
| PhaseUnwrap.Reconstructs | ftp/serviceDataArchiverRabbitMQ/serviceDataArchiverRabbitMQ.cpp:812-848 | Raw angles that are kept in one window of a turn, as [0, 360) or [-180, 180), always give the phase back up to one constant multiple of 360. |
| PhaseUnwrap.Bounded | ftp/serviceDataArchiverRabbitMQ/serviceDataArchiverRabbitMQ.cpp:812-848 | For any raw angles the base stays a multiple of 360, and two successive outputs differ by at most 180 degrees if and only if the angles, as fmod leaves them, differ by at most 540. |
| PhaseUnwrap.OutputsTrace | ftp/serviceDataArchiverRabbitMQ/serviceDataArchiverRabbitMQ.cpp:812-848 | For any raw angles the outputs are these and no others: the first is the angle in the turn from 0 to 360, and each moves as the angle does, as fmod leaves it, corrected by one turn if that is a move by more than 180. |
| PhaseUnwrap.FinalAppend | ftp/serviceDataArchiverRabbitMQ/serviceDataArchiverRabbitMQ.cpp:812-848 | The state is carried from one second to the next: unwrapping two stretches in turn is unwrapping them joined. |
| PhaseUnwrap.TwoTurnsAreMissed | ftp/serviceDataArchiverRabbitMQ/serviceDataArchiverRabbitMQ.cpp:819-833 | The residues -350 and 350 of the phases 10 and -10 are unwrapped to angles that follow the phase by no constant number of turns. |
| PhaseUnwrap.Unwrapper.Second | ftp/serviceDataArchiverRabbitMQ/serviceDataArchiverRabbitMQ.cpp:812-848 | One second of 120 samples on six channels in place: each channel passes on what unwrapping its own samples from its own state gives, and ends in the state after them, whatever the other channels do. |
| PhaseUnwrap.SampleOf | ftp/serviceDataArchiverRabbitMQ/serviceDataArchiverRabbitMQ.cpp:812-848 | Sample k of second i is sample 120 * i + k of the run. |
| PhaseUnwrap.Run | ftp/serviceDataArchiverRabbitMQ/serviceDataArchiverRabbitMQ.cpp:812-848 | The whole run, second after second of 120 samples on six channels: on every channel the outputs are those of OutputsTrace for all samples of the run; and for every true phase they are the phase plus one constant number of turns if and only if successive angles of the whole run are less than 540 degrees apart. |
| Calendar.DayNumberOfDateOf | ftp/uPMUgateway/uPMUgmtime.cpp:7-32 | Walking the Gregorian calendar n days from 1970-01-01 reaches the date whose day count by the formula is n. |
| Calendar.DateOfDayNumber | ftp/uPMUgateway/uPMUgmtime.cpp:7-32 | Conversely every date from 1970 on is reached, after as many days as the formula says: the formula and the calendar are inverse. |
| Calendar.MonthsFold | ftp/uPMUgateway/uPMUgmtime.cpp:14-24 | The month is folded into the year for every month number, negative ones included, as floor division by 12 does it. |
| Calendar.MkGmTimeCountsDays | ftp/uPMUgateway/uPMUgmtime.cpp:7-32 | For every date from 1970 on and every time of day, month overflow included, the result is the number of days walked times 86400 plus the seconds of the day. |
| Calendar.MkGmTimeCarries | ftp/uPMUgateway/uPMUgmtime.cpp:7-32 | For any day of the month and any time, inside the month and the day or not, the result is the seconds from the first of the month on, and -1 if that is before the Epoch. |
| Calendar.BeforeTheEpoch | ftp/uPMUgateway/uPMUgmtime.cpp:7-32 | For every date and time of day before 1970 the result is -1. |
| Calendar.MkGmTimeIsPosix | ftp/uPMUgateway/uPMUgmtime.cpp:7-32 | On normalised dates from 1970 on the result is the "Seconds Since the Epoch" of section 4.16 of the Base Definitions of IEEE Std 1003.1-2017. |
| DataDirectory.DataDir.TimeOfHour | ftp/serviceDataDiscovery/upmuFtpAccess.cpp:139-150 | The time made from a directory name is its hour number times 3600. |
| DataDirectory.DataDir.AtPresentIff | ftp/serviceDataDiscovery/upmuFtpAccess.cpp:168-179 | The field-by-field comparison with the clock holds exactly when the directory's hour is the hour the clock shows. |
| DataDirectory.DataDir.IncDataDir | ftp/serviceDataDiscovery/upmuFtpAccess.cpp:152-166 | The directory moves on by exactly one hour (3600 seconds) over any day, month or year boundary, day count and date stay consistent, and the result tells whether it caught up with the clock. |
| DirectorySearch.BehindStaysBehind | ftp/serviceDataDiscovery/serviceDataDiscovery.cpp:381-441 | A search that starts before the hour the clock shows never passes the clock, whatever the server answers and however the clock advances. |
| DirectorySearch.NeverAheadIff | ftp/serviceDataDiscovery/serviceDataDiscovery.cpp:381-441 | From any start and however the clock advances: the search stays behind the clock if and only if it starts before the hour shown, or the hour its first turn ends on - one on if the start is processed, one more if the directory is absent - has been reached by then. |
| DirectorySearch.SearchEndsBehind | ftp/serviceDataDiscovery/serviceDataDiscovery.cpp:381-443 | From every start from which the search stays behind the clock, it ends on a directory that is not ahead of it. |
| DirectorySearch.SearchIsBounded | ftp/serviceDataDiscovery/serviceDataDiscovery.cpp:381-441 | From every start from which the search stays behind the clock, a search still under way has taken at most as many turns as it moved hours on and is in the past: the hours left to the clock bound it. |
| DirectorySearch.SearchRunsAhead | ftp/serviceDataDiscovery/serviceDataDiscovery.cpp:381-441 | A search in or after the hour of a standing clock that finds every directory absent is still under way after any number of turns, that many hours further on. |
| DirectorySearch.SearchIsEndlessIff | ftp/serviceDataDiscovery/serviceDataDiscovery.cpp:381-441 | After a first turn from any start, a search to which the server goes on answering absent at a standing clock never ends if and only if that turn found nothing and took it past the clock. |
| Discovery.StartRowIs | ftp/serviceDataDiscovery/serviceDataDiscovery.cpp:303-376 | The search starts from the current row, or else the last processed one, or else 2018-07-05 22:00. |
| DirectoryPasses.AtMostOneFile | ftp/serviceDataDiscovery/serviceDataDiscovery.cpp:498-622 | One pass reads at most one file, from the directory it found open, and none while more than five buffers are outstanding or the file is still being written. |
| DirectoryPasses.NextKept | ftp/serviceDataDiscovery/serviceDataDiscovery.cpp:498-622 | Every pass keeps: the directory is not ahead of the clock, hours are added in increasing order, no file is read twice, and what was read from the open directory is marked as processed. |
| DirectoryProgress.FirstIsRead | ftp/serviceDataDiscovery/serviceDataDiscovery.cpp:498-560 | In an open directory a pass reads the least of the files that are left - listed before, or listed now and not processed - if there is one, it is complete and at most five buffers are outstanding; otherwise nothing. |
| DirectoryProgress.LeavesIff | ftp/serviceDataDiscovery/serviceDataDiscovery.cpp:561-622 | An open directory not ahead of the clock is left if and only if it began more than an hour ago and no file is left after the pass; then the next hour is proposed, and opened if and only if it is there. Otherwise the thread stays. |
| DirectoryProgress.WaitsOrMoves | ftp/serviceDataDiscovery/serviceDataDiscovery.cpp:578-622 | Without an open directory the thread waits in the hour of the clock, and otherwise moves on by one, also past a directory that is absent; the one it comes to is opened and added if and only if it is there. |
| DirectoryProgress.DirectoryIsRead | ftp/serviceDataDiscovery/serviceDataDiscovery.cpp:498-622 | In as many passes as a directory lists files, all complete, every file is read once, in the order of the names, and the next directory is opened; an empty one takes one pass. |
| DirectoryProgress.CatchesUp | ftp/serviceDataDiscovery/serviceDataDiscovery.cpp:498-622 | Over any number of directories the thread reads all that is listed, hour after hour and name after name and nothing else, and ends with the directory of the hour after the last one open. |
| DirectoryPasses.ReadTwice | ftp/serviceDataDiscovery/serviceDataDiscovery.cpp:498-622 | A directory ahead of the clock that is open is left at once, as its unsigned age wraps around; when the clock then reaches its hour it counts as present, is added and opened again, and the same file is read a second time. Two passes around that moment do it, for every hour ahead and every new file. |
| DirectoryPasses.ReadsOnceIff | ftp/serviceDataDiscovery/serviceDataDiscovery.cpp:498-622 | From any place with nothing read yet: no file is read twice, whatever the server lists and answers and however the clock advances, if and only if the directory is not ahead of the clock. |
| Discovery.Discovery.OneTurn | ftp/serviceDataDiscovery/serviceDataDiscovery.cpp:381-441 | One turn of the search on the real fields does what the turn on hours says, closes an absent current directory as abandoned and no other row, and keeps the table: exactly the open directory's row is current, and every row added matches the directory it was added for. |
| Discovery.Discovery.GetCurrentDirectory | ftp/serviceDataDiscovery/serviceDataDiscovery.cpp:303-449 | The search from the row of an earlier run, wherever the clock is: it ends as the search on hours does, and with an open directory exactly when one was found. |
| Discovery.Discovery.GetDataFileList | ftp/serviceDataDiscovery/upmuFtpAccess.cpp:255-271 | Exactly the listed names that are not processed yet are kept. |
| Discovery.Discovery.ReadFile | ftp/serviceDataDiscovery/serviceDataDiscovery.cpp:519-526 | The least file name is read and moves from the pending to the processed set, in which it was not before. |
| Discovery.Discovery.MoveOn | ftp/serviceDataDiscovery/serviceDataDiscovery.cpp:566-622 | The closed directory's row is released, the next hour is proposed unless the clock shows this one, and a row is added exactly when the next directory is there. |
| Discovery.Discovery.ProcessUPMUdata | ftp/serviceDataDiscovery/serviceDataDiscovery.cpp:498-622 | One pass on the real fields, wherever the clock is, does what the pass on values says and keeps the table in step with the directory. |
| Discovery.RunsOnce | ftp/serviceDataDiscovery/serviceDataDiscovery.cpp:303-622 | From every start from which the search stays behind the clock, and however the clock advances: the directory never passes the clock, rows are added in increasing hours, and no file of a directory is read twice. |
| Discovery.RunsOnceIff | ftp/serviceDataDiscovery/serviceDataDiscovery.cpp:303-622 | From any start: the passes after the search read every file once, whatever the server answers, if and only if the search did not end ahead of the clock. |
| Discovery.AStartReadsTwice | ftp/serviceDataDiscovery/serviceDataDiscovery.cpp:303-622 | A run whose start row is processed and of the hour the clock shows, while the next directory is there already, opens that directory ahead of the clock and can read its files twice. |
| Discovery.Thread | ftp/serviceDataDiscovery/serviceDataDiscovery.cpp:303-622 | A whole run on the real fields, from any start and with any clock: at most the open directory's row is current and it matches the directory, every row added stands for a directory opened and is processed in its turn, no row of an earlier run is changed but the current one, which is abandoned if and only if its directory is absent at the first look and processed otherwise once it is left; pending and processed files are disjoint, and the run is the one on values, so that it reads nothing twice if the search stays behind the clock. It does not start on a row whose month is not 1 to 12 or whose day is not positive, nor when the search finds no directory or has not ended. (also lines 199-213, 268-280) |
| ByteOrder.DetectedIff | ftp/serviceDataDiscovery/serviceDataDiscovery.cpp:663-668 | Looking at two bytes of the year finds the byte order of the data if and only if the year is below 65536 in a big-endian file, or not a multiple of 65536 in a little-endian one. |
| ByteOrder.AYearIsMisread | ftp/serviceDataDiscovery/serviceDataDiscovery.cpp:663-668 | The year 65536 in a little-endian file is taken for the year 256 in a big-endian one. |
| ByteOrder.SwapRecords | ftp/serviceDataDiscovery/serviceDataDiscovery.cpp:669-682 | The two nested loops reverse the bytes of every 32-bit word up to the next whole record behind the end of the data, each exactly once and in place, and leave the rest of the buffer as it is. |
| ByteOrder.StaysInsideIff | ftp/serviceDataDiscovery/serviceDataDiscovery.cpp:669-682 | The loops stay inside the data if and only if it is a whole number of records. |
| ByteOrder.OneByteMore | ftp/serviceDataDiscovery/serviceDataDiscovery.cpp:669-682 | In a file of one byte more than a record the loops reach the end of a second record. |
| ByteOrder.CorrectOrder | ftp/serviceDataDiscovery/serviceDataDiscovery.cpp:659-683 | For data of any length: afterwards every word up to the end of the data reads, in the platform's order, the value it had in the order that was detected. |
| Throttle.CountKept | ftp/uPMUgateway/serviceDataBuffer.h:35-66 | Every step keeps the in-memory counter equal to the number of buffers still referenced, and only creating a buffer raises it. |
| Throttle.QueueIsShort | ftp/serviceDataArchiver/serviceDataArchiver.cpp:111-146 | No queue is longer than the number of live buffers, which is at most six and so below the queue limit of sixteen. |
| Throttle.OrderKept | ftp/serviceDataArchiver/serviceDataArchiver.cpp:111-146 | Every archiver has taken the buffers it was offered in the order they were made, and its queue and current buffer are the end of that sequence. (also lines 224-253) |
| Throttle.RefusalIsUnreachable | ftp/serviceDataDiscovery/serviceDataDiscovery.cpp:513 | In every interleaving of any number of archivers: the counter is the number of referenced buffers and at most six, no offer is ever refused, and every archiver has taken every buffer it was offered, in order. (also lines 684-701) |
| ThrottleProgress.StepsGetOn | ftp/uPMUgateway/serviceDataBuffer.h:35-66 | Every step of any thread but the look at the counter lowers a measure - what the discovery thread has still to offer, then what the archivers hold - so that without further looks every interleaving comes to an end; a look succeeds if and only if at most five buffers are in memory. |
| ThrottleProgress.OfferIff | ftp/serviceDataArchiver/serviceDataArchiver.cpp:111-146 | From any state, an offer puts the buffer at the end of the archiver's queue unless that holds sixteen; then it is refused, and the next archiver is offered the buffer either way. |
| ThrottleProgress.OneMade | ftp/serviceDataDiscovery/serviceDataDiscovery.cpp:684-701 | One step, and no other, makes a buffer, which is then offered to the first archiver. |
| ThrottleProgress.RestIsDelivered | ftp/serviceDataDiscovery/serviceDataDiscovery.cpp:513 | Where nothing is left to do but to look at the counter, every archiver has taken every buffer in order, none is referenced, the counter is zero and another buffer can be made. (also lines 684-701) |
| ThrottleProgress.AlwaysGetsOn | ftp/serviceDataDiscovery/serviceDataDiscovery.cpp:513 | From every state of every run such a state can be reached: there is no deadlock. (also lines 684-701) |
| Particulars.RecordLayout | ftp/uPMUgateway/uPMUparticulars.h:14-46 | The record length of 6312 bytes is that of the rate, the time, 120 lock states and six channels of 120 angles and magnitudes, and 44 bytes more. |
| Archiver.RecordAt | ftp/serviceDataArchiver/serviceDataArchiver.cpp:374-402 | Record i of a buffer is the 6312 bytes from 6312 * i on, inside the buffer. (also lines 405-430) |
| Archiver.RecordsAreBytes | ftp/uPMUgateway/uPMUparticulars.h:16-46 | The records of a well-formed buffer, put together, are its bytes. |
| Archiver.Archiver.DataBufferOffer | ftp/serviceDataArchiver/serviceDataArchiver.cpp:111-146 | An offer is refused exactly when sixteen buffers are queued, and otherwise goes to the end of the queue. |
| Archiver.Archiver.PreProcessData | ftp/serviceDataArchiver/serviceDataArchiver.cpp:374-402 | A buffer is taken on exactly when it holds a whole number of records and the database is connected. |
| Archiver.Archiver.ProcessData | ftp/serviceDataArchiver/serviceDataArchiver.cpp:405-500 | One call stores exactly the next record of the buffer, passes over it if no memory can be had, or does nothing when the buffer is done or the database is not connected. |
| Archiver.Archiver.StoredIsPrefix | ftp/serviceDataArchiver/serviceDataArchiver.cpp:170-266 | With nothing abandoned and no record passed over, the stored records are at every moment a prefix of the records of all accepted buffers in the order of acceptance, and all of them once the archiver is idle. |
| Archiver.Archiver.Drain | ftp/serviceDataArchiver/serviceDataArchiver.cpp:170-266 | With the database connected and memory to be had the thread loop ends with every accepted record stored exactly once, in order; measure: queue, then records left of the current buffer. |
| Decimal.NumeralOfToString | ftp/serviceDataArchiverRabbitMQ/json.hpp:9235 | The decimal text of an index stands for the index. (also lines 9838) |
| Decimal.StoiOfToString | ftp/serviceDataArchiverRabbitMQ/json.hpp:8868 | Reading the decimal text of an index back gives the index up to 2147483647, and out_of_range above. (also lines 8963, 9600) |
| Decimal.StoiReads | ftp/serviceDataArchiverRabbitMQ/json.hpp:8868 | White space, a sign or none, and digits are read as the number they stand for, whatever follows that is no digit; out_of_range beyond 32 bits. (also lines 8963, 9600) |
| Decimal.StoiIff | ftp/serviceDataArchiverRabbitMQ/json.hpp:8868 | A string is taken for a number if and only if it begins like that. (also lines 8963, 9600) |
| StringOrder.LessIff | ftp/serviceDataArchiverRabbitMQ/json.hpp:9266-9281 | The order of strings is that of the first character that differs, a prefix coming first. |
| StringOrder.SortedAscends | ftp/serviceDataArchiverRabbitMQ/json.hpp:9266-9281 | Iterating over a set of strings gives each element before the greater ones. |
| JsonValue.EqReflexive | ftp/serviceDataArchiverRabbitMQ/json.hpp:5280-5359 | operator== holds between any value and itself (NaN excluded). |
| JsonValue.EqSymmetric | ftp/serviceDataArchiverRabbitMQ/json.hpp:5280-5359 | operator== does not depend on the order of its operands. |
| JsonValue.EqIff | ftp/serviceDataArchiverRabbitMQ/json.hpp:5280-5359 | Values without floating-point numbers are equal under operator== if and only if they are the same once every unsigned number is cast to a signed one of 64 bits. |
| JsonValue.FloatEqIff | ftp/serviceDataArchiverRabbitMQ/json.hpp:5280-5359 | A floating-point number equals exactly the numbers of any kind that stand for the same real number. |
| JsonValue.EqIsNotTransitive | ftp/serviceDataArchiverRabbitMQ/json.hpp:5333-5356 | -1.0 equals -1, and -1 equals 18446744073709551615, which -1.0 does not equal. |
| JsonPointer.ReplaceSubstring | ftp/serviceDataArchiverRabbitMQ/json.hpp:9161-9173 | The find-and-replace loop on the string replaces every occurrence, left to right, and never looks inside a replacement. |
| JsonPointer.EscapeIsEncode | ftp/serviceDataArchiverRabbitMQ/json.hpp:9176-9182 | The two ordered replacement passes escape character by character as section 3 of RFC 6901 says. |
| JsonPointer.UnescapeEscape | ftp/serviceDataArchiverRabbitMQ/json.hpp:9176-9191 | Unescaping undoes escaping, for every string. |
| JsonPointer.EscapeUnescape | ftp/serviceDataArchiverRabbitMQ/json.hpp:9176-9191 | Escaping undoes unescaping, for every properly escaped token, which holds no slash. |
| JsonPointer.CheckEscapes | ftp/serviceDataArchiverRabbitMQ/json.hpp:9122-9137 | The scan for tildes accepts a token exactly when every tilde is followed by 0 or 1. |
| JsonPointer.SplitString | ftp/serviceDataArchiverRabbitMQ/json.hpp:9086-9144 | The loop over slashes, whose start wraps to zero after the last token, returns the tokens of the reference string or domain_error. |
| JsonPointer.SplitOfPrinted | ftp/serviceDataArchiverRabbitMQ/json.hpp:8779-8789 | split(to_string(p)) == p for every token list p. (also lines 9086-9144) |
| JsonPointer.PrintedOfSplit | ftp/serviceDataArchiverRabbitMQ/json.hpp:8779-8789 | to_string(split(s)) == s for every string s that is accepted. (also lines 9086-9144) |
| JsonPointer.SplitAccepts | ftp/serviceDataArchiverRabbitMQ/json.hpp:9086-9144 | A string is accepted if and only if it is empty, or begins with a slash and is properly escaped; otherwise domain_error is thrown. |
| JsonPointer.Print | ftp/serviceDataArchiverRabbitMQ/json.hpp:8779-8789 | The printing loop joins the escaped tokens, each behind a slash. |
| JsonAccess.Grow | ftp/serviceDataArchiverRabbitMQ/json.hpp:3226-3251 | Indexing beyond the end fills the array up with nulls to the index, and changes nothing else. |
| JsonPatch.PutExists | ftp/serviceDataArchiverRabbitMQ/json.hpp:8945-8984 | Assigning through at() to a location that exists succeeds, and the location then holds the value. |
| JsonPatch.PutTwice | ftp/serviceDataArchiverRabbitMQ/json.hpp:8945-8984 | A second assignment to the same location replaces the first, and assigning what is there changes nothing. |
| JsonPatch.AddDeeper | ftp/serviceDataArchiverRabbitMQ/json.hpp:8901-8943 | Adding below a location through operator[] changes the document there as adding to the value at that location changes the value, and fails with the same error. (also lines 9558-9620) |
| JsonPatch.RemoveLast | ftp/serviceDataArchiverRabbitMQ/json.hpp:9622-9650 | A remove of the last element of an array at any location takes just that element away, unless its index is above 2147483647: then patch throws out_of_range. (also lines 9852-9862) |
| JsonPatch.AddLast | ftp/serviceDataArchiverRabbitMQ/json.hpp:9587-9612 | An add at the size of an array at any location appends the value, with the same exception. (also lines 9864-9874) |
| JsonPatch.RemoveElement | ftp/serviceDataArchiverRabbitMQ/json.hpp:9621-9648 | A remove of any index of an array at any location takes that element away: those in front of it stay, those behind move up; out_of_range from the size on and above 2147483647. |
| JsonPatch.AddElement | ftp/serviceDataArchiverRabbitMQ/json.hpp:9588-9610 | An add at any index up to the size puts the value there, those in front stay and those behind move on; out_of_range beyond. |
| JsonPatchOutcomes.AtMember | ftp/serviceDataArchiverRabbitMQ/json.hpp:8945-8984 | at() finds the member of the name in an object, and throws out_of_range if there is none. |
| JsonPatchOutcomes.AtElement | ftp/serviceDataArchiverRabbitMQ/json.hpp:8945-8984 | at() finds the element of the index in an array, and throws out_of_range beyond the end and above 2147483647. |
| JsonPatchOutcomes.AtPrimitive | ftp/serviceDataArchiverRabbitMQ/json.hpp:8945-8984 | Below a primitive value at() throws out_of_range. |
| JsonPatchOutcomes.IndexIff | ftp/serviceDataArchiverRabbitMQ/json.hpp:8954-8975 | A token selects element n of an array if and only if it is not "-", has no leading zero before other characters, and begins, after white space and a sign, with digits that stand for n; what follows them is ignored. |
| JsonPatchOutcomes.RefusedIndex | ftp/serviceDataArchiverRabbitMQ/json.hpp:8950-8975 | In an array at() throws out_of_range for "-", domain_error for a leading zero and invalid_argument for what is no number. |
| JsonPatchOutcomes.SloppyIndex | ftp/serviceDataArchiverRabbitMQ/json.hpp:8954-8975 | "+1x" selects element 1, though it is no index of section 4 of RFC 6901. |
| JsonPatchOutcomes.RemoveAnyToken | ftp/serviceDataArchiverRabbitMQ/json.hpp:9644-9648 | A remove takes every token that stands for an index, with a leading zero as well, and throws out_of_range for a negative number and invalid_argument for what is none. |
| JsonPatchOutcomes.AddAnyToken | ftp/serviceDataArchiverRabbitMQ/json.hpp:9588-9610 | So does an add. |
| JsonPatchOutcomes.RemoveMember | ftp/serviceDataArchiverRabbitMQ/json.hpp:9621-9643 | A remove of a member takes it and no other away, with out_of_range if there is none. |
| JsonPatchOutcomes.RemoveBelowPrimitive | ftp/serviceDataArchiverRabbitMQ/json.hpp:9621-9648 | A remove below a primitive value succeeds and changes nothing. |
| JsonPatchOutcomes.RemoveRoot | ftp/serviceDataArchiverRabbitMQ/json.hpp:9621-9625 | A remove of the root throws domain_error. |
| JsonPatchOutcomes.AddMember | ftp/serviceDataArchiverRabbitMQ/json.hpp:9578-9586 | An add to an object writes the one member and keeps the others. |
| JsonPatchOutcomes.AddBelowPrimitive | ftp/serviceDataArchiverRabbitMQ/json.hpp:9578-9617 | An add below null makes an object of the one member; below another primitive value it fails the assertion. |
| JsonPatchOutcomes.AddAtEnd | ftp/serviceDataArchiverRabbitMQ/json.hpp:9588-9594 | An add at "-" appends to the array. |
| JsonPatchOutcomes.AddRoot | ftp/serviceDataArchiverRabbitMQ/json.hpp:9558-9564 | An add at the root replaces the document. |
| JsonPatchOutcomes.AddCreatesParent | ftp/serviceDataArchiverRabbitMQ/json.hpp:9566-9576 | An add below a member that does not exist creates it as an object, unless it would be a member of the document itself: then out_of_range. |
| JsonPatchOutcomes.AssignedIff | ftp/serviceDataArchiverRabbitMQ/json.hpp:8945-8984 | An assignment through at() succeeds if and only if its location exists, and fails with the same error as reading there. |
| JsonPatchOutcomes.ReplaceIff | ftp/serviceDataArchiverRabbitMQ/json.hpp:9711-9716 | A replace succeeds if and only if its location exists, and fails with the error of at(). |
| JsonPatchOutcomes.CopyToIndex | ftp/serviceDataArchiverRabbitMQ/json.hpp:9735-9743 | A copy to an index of an array overwrites the element, or fills the array up with nulls to the index. |
| JsonPatchOutcomes.CopyToToken | ftp/serviceDataArchiverRabbitMQ/json.hpp:9735-9743 | A copy to "-" appends; a leading zero is a domain_error, what is no number an invalid_argument, and a negative number runs out of memory. (also lines 8911-8938) |
| JsonPatchOutcomes.CopyBelowPrimitive | ftp/serviceDataArchiverRabbitMQ/json.hpp:9735-9743 | A copy below a primitive value, null included, throws out_of_range. |
| JsonPatchOutcomes.NoOperation | ftp/serviceDataArchiverRabbitMQ/json.hpp:9660-9697 | An operation that is no object, has no string for its name or its path, or has an unknown name is refused with invalid_argument, and one whose path is no pointer with the error of the pointer. (also lines 9768-9773) |
| JsonPatchOutcomes.NothingToPut | ftp/serviceDataArchiverRabbitMQ/json.hpp:9662-9716 | An add, a test and a replace of a location that exists are refused without a value. |
| JsonPatchOutcomes.NothingToTake | ftp/serviceDataArchiverRabbitMQ/json.hpp:9662-9684 | A move and a copy are refused without a string to copy from. (also lines 9718-9743) |
| JsonPatch.DiffIsEmptyIff | ftp/serviceDataArchiverRabbitMQ/json.hpp:9819-9822 | A diff is empty if and only if the two values are equal under operator==. |
| JsonPatch.DiffActsBelow | ftp/serviceDataArchiverRabbitMQ/json.hpp:9824-9938 | Every operation of a diff is an add, remove or replace at or below the path it was made for. |
| JsonPatch.Blocked | ftp/serviceDataArchiverRabbitMQ/json.hpp:8963 | An operation that goes through an array index above 2147483647 fails with out_of_range. (also lines 8979, 9600) |
| JsonPatch.DiffApplies | ftp/serviceDataArchiverRabbitMQ/json.hpp:9519-9778 | At any location of any document that holds the source, applying the diff made for that location puts the patched source there and touches nothing else, or fails with out_of_range exactly when it needs an index above 2147483647. (also lines 9812-9942) |
| JsonPatch.PatchedEqualsTarget | ftp/serviceDataArchiverRabbitMQ/json.hpp:9812-9942 | The source in which only what differs is replaced by the target's is equal to the target under operator==. |
| JsonPatch.PatchOfDiff | ftp/serviceDataArchiverRabbitMQ/json.hpp:9519-9778 | source.patch(diff(source, target)) succeeds and equals target if and only if no element above index 2147483647 has to be compared, added or removed; otherwise it throws out_of_range. (also lines 9812-9942) |
| JsonPatch.LongArrayIsNotPatched | ftp/serviceDataArchiverRabbitMQ/json.hpp:9622-9650 | The diff of an array of 2147483649 nulls against an empty one cannot be applied. |
| JsonPatch.TestIff | ftp/serviceDataArchiverRabbitMQ/json.hpp:9745-9766 | A test succeeds if and only if its location exists and holds a value equal under operator==, and leaves the document as it is; else it throws domain_error, unless at() throws something other than out_of_range. |
| JsonPatch.MoveIsRemoveAndAdd | ftp/serviceDataArchiverRabbitMQ/json.hpp:9718-9733 | A move has the outcome, document or error, of a remove followed by an add of what was removed (section 4.4 of RFC 6902). |
| JsonPatch.CopyIsAddIff | ftp/serviceDataArchiverRabbitMQ/json.hpp:9735-9743 | Below any value that exists and for any token, a copy has the outcome of an add of the value (section 4.5 of RFC 6902) if and only if that value is an object, or an array and the token is its end or is refused by both; a null or primitive value, an element that exists, a position past the end, a negative one and a numeral with a leading zero all make a difference. |
| JsonPatch.CopyOverElement | ftp/serviceDataArchiverRabbitMQ/json.hpp:9735-9743 | A copy to an element of an array that exists overwrites it. |
| JsonPatch.CopyToRoot | ftp/serviceDataArchiverRabbitMQ/json.hpp:9735-9743 | A copy to the root replaces the document, as an add does. |
| JsonPatch.CopyOverwrites | ftp/serviceDataArchiverRabbitMQ/json.hpp:9735-9743 | A copy from the first to the second of two elements leaves two elements, where an add makes three. |
| JsonPatch.PatchDocument | ftp/serviceDataArchiverRabbitMQ/json.hpp:9653-9777 | The loop over the operations stops at the first error and otherwise leaves the document with all of them applied in order. |
| JsonPatch.ResizeArray | ftp/serviceDataArchiverRabbitMQ/json.hpp:9845-9874 | Removals are inserted in front of those already there, so the last element goes first; additions follow in order. |
| JsonPatch.DiffValues | ftp/serviceDataArchiverRabbitMQ/json.hpp:9812-9942 | The recursive method with its loops and insertions returns the diff that the theorems are about. |
| JsonFlatten.FlattenIsLeaves | ftp/serviceDataArchiverRabbitMQ/json.hpp:9200-9252 | The flat object has, for every leaf of the value, one member under the leaf's pointer, and no others; empty containers are leaves with null. (also lines 9435-9440) |
| JsonFlatten.BuildObject | ftp/serviceDataArchiverRabbitMQ/json.hpp:8832-8886 | Assignments through get_and_create into an object build each member from the assignments below it alone; the whole fails exactly when one member does. |
| JsonFlatten.BuildArray | ftp/serviceDataArchiverRabbitMQ/json.hpp:8832-8886 | The same for the elements of an array, in whatever order the indices come: null-filling does no harm. (also lines 3226-3251) |
| JsonFlatten.KeyOrder | ftp/serviceDataArchiverRabbitMQ/json.hpp:9266-9281 | In the order of the flat object, the pointers through a key come before those through "0" exactly when the key is empty, begins with a character below '0' other than the slash, or - where "0" holds a container - goes on after a 0 with a character below the slash. |
| JsonFlatten.FirstOfArray | ftp/serviceDataArchiverRabbitMQ/json.hpp:9258-9284 | The first pointer below an array always goes through index 0. |
| JsonFlatten.FirstOfObject | ftp/serviceDataArchiverRabbitMQ/json.hpp:9258-9284 | The first pointer below an object goes through "0" exactly when the object has that key and no key that comes before it. |
| JsonFlatten.UnflattenOfFlatten | ftp/serviceDataArchiverRabbitMQ/json.hpp:9200-9284 | j.flatten().unflatten() == j for every j if and only if there is no empty container inside, no object whose first pointer goes through "0" and no array of more than 2147483648 elements; otherwise it throws or gives a value that is not equal. (also lines 9455-9458) |
| JsonFlatten.ZeroKeyComesBackAsArray | ftp/serviceDataArchiverRabbitMQ/json.hpp:8843-8855 | An object whose only key is "0" is flattened and comes back as an array of its one member. (also lines 9455-9458) |
| JsonFlatten.FlattenValue | ftp/serviceDataArchiverRabbitMQ/json.hpp:9200-9252 | The recursive method that writes into one result object writes what the theorems are about. |
| JsonFlatten.UnflattenValue | ftp/serviceDataArchiverRabbitMQ/json.hpp:9258-9284 | The loop over the members in key order stops at the first error: a value that is not an object, a member that is not primitive, a name that is no pointer, or a place that cannot be made. |
| JsonFlattenOutcomes.NoObject | ftp/serviceDataArchiverRabbitMQ/json.hpp:9258-9263 | What is no object cannot be unflattened: domain_error. |
| JsonFlattenOutcomes.AcceptedObject | ftp/serviceDataArchiverRabbitMQ/json.hpp:9258-9284 | An object that unflatten accepts has primitive values only, under names that are pointers. |
| JsonFlattenOutcomes.OneMember | ftp/serviceDataArchiverRabbitMQ/json.hpp:8832-8886 | An object of one member: domain_error if the value is not primitive, the error of the pointer if the name is none, and else the value alone at its place, a token "0" making an array and any other an object. (also lines 9258-9284) |
| JsonFlattenOutcomes.NoPlaceBelowPrimitive | ftp/serviceDataArchiverRabbitMQ/json.hpp:8868-8881 | Below a value that is primitive and not null there is no place: domain_error. |
| JsonFlattenOutcomes.PlaceInArray | ftp/serviceDataArchiverRabbitMQ/json.hpp:8863-8870 | A token that stands for an index fills the array up with nulls to it, and goes on with what stands there; a leading zero is passed over. (also lines 3226-3251) |
| JsonFlattenOutcomes.NoPlaceInArray | ftp/serviceDataArchiverRabbitMQ/json.hpp:8863-8870 | A token that is no number throws invalid_argument, one beyond 32 bits out_of_range, and a negative one runs out of memory. |
| JsonText.ExtraSpaceOf | ftp/serviceDataArchiverRabbitMQ/json.hpp:5833-5867 | The counting loop returns the number of cells that escaping adds. |
| JsonText.EscapedLength | ftp/serviceDataArchiverRabbitMQ/json.hpp:5882-5892 | The buffer's size, length plus extra space, is exactly the length of the escaped text, and without extra space nothing needs escaping. |
| JsonText.WriteChar | ftp/serviceDataArchiverRabbitMQ/json.hpp:5894-5985 | One turn writes the escape of one character inside the buffer, relying on the backslashes that are already there, and leaves the unwritten part untouched. |
| JsonText.EscapeString | ftp/serviceDataArchiverRabbitMQ/json.hpp:5882-5988 | All index writes are in bounds and fill the whole buffer with the escaped text of the string. |
| JsonText.EncodedDecodes | ftp/serviceDataArchiverRabbitMQ/json.hpp:7249-7283 | The bytes made for a code point are valid UTF-8 (section 4 of RFC 3629) exactly when it is no surrogate, and decode to it; above 0x10FFFF there are none. |
| JsonText.DecodedEncodes | ftp/serviceDataArchiverRabbitMQ/json.hpp:7249-7283 | Every valid UTF-8 sequence is what its character number is encoded to. |
| JsonText.Utf8TextIff | ftp/serviceDataArchiverRabbitMQ/json.hpp:7249-7283 | A byte string is UTF-8 if and only if it is the encodings, one after the other, of some character numbers that are no surrogates. |
| JsonText.ToUnicodeDecodes | ftp/serviceDataArchiverRabbitMQ/json.hpp:7224-7286 | Every code point that is no surrogate, and every surrogate pair, becomes valid UTF-8 of its character number; a high surrogate without a low one is rejected, and a lone low surrogate gives bytes that are not UTF-8. |
| JsonText.UnquotedEscaped | ftp/serviceDataArchiverRabbitMQ/json.hpp:5882-5988 | Reading the escaped form of any byte string gives the string back. (also lines 8159-8260) |
| JsonText.EscapedCharIs | ftp/serviceDataArchiverRabbitMQ/json.hpp:5894-5985 | What each byte is escaped to: two characters for the quotation mark, the backslash and five control characters, \u00 and two lower-case hexadecimal digits for the other control characters, itself otherwise. |
| JsonText.SimpleEscapeIs | ftp/serviceDataArchiverRabbitMQ/json.hpp:8172-8223 | What each escape of two characters stands for, and that there are only these eight. |
| JsonText.HexValues | ftp/serviceDataArchiverRabbitMQ/json.hpp:7249-7283 | What each hexadecimal digit of either case is worth. |
| JsonText.EscapedIsRfcIff | ftp/serviceDataArchiverRabbitMQ/json.hpp:5882-5988 | The escaped form of a byte string is content of section 7 of RFC 7159 if and only if the string is UTF-8. |
| JsonText.ContentIsRfcIff | ftp/serviceDataArchiverRabbitMQ/json.hpp:7346-7382 | What the scanner accepts inside a string is section 7 of RFC 7159 for text in UTF-8, and more: content is that of the RFC if and only if it is accepted, holds no byte below 0x20 and is UTF-8 throughout. (also lines 7673-7787) |
| JsonText.ContentAboveNull | ftp/serviceDataArchiverRabbitMQ/json.hpp:7346-7382 | Accepted content holds no byte below 0x10. (also lines 7673-7787) |
| JsonText.RawByteAccepted | ftp/serviceDataArchiverRabbitMQ/json.hpp:7346-7382 | Each raw byte from 0x10 to 0x1F, and the byte 0xFF, which is no UTF-8, is accepted inside a string and not allowed by the RFC. |
| JsonLexer.ContentEnds | ftp/serviceDataArchiverRabbitMQ/json.hpp:7673-7787 | What the scanner takes for the content of a string ends at a quote and consists of accepted characters and escapes only. |
| JsonLexer.StringFoundIff | ftp/serviceDataArchiverRabbitMQ/json.hpp:7531-7538 | At a quote a string token is found if and only if accepted content and another quote follow. (also lines 7673-7787) |
| JsonLexer.SkipsGap | ftp/serviceDataArchiverRabbitMQ/json.hpp:7517-7530 | What is passed over in front of a token is blanks and byte order marks only, and is the whitespace of section 2 of RFC 7159 if and only if there is no mark in it. (also lines 7846-7852, 7967-7971) |
| JsonLexer.GapSkipped | ftp/serviceDataArchiverRabbitMQ/json.hpp:7517-7530 | Blanks and byte order marks in any number and order, in front of any token, do not change which token is found. (also lines 7967-7971) |
| JsonLexer.EscapedIsOneToken | ftp/serviceDataArchiverRabbitMQ/json.hpp:7531-7538 | The quoted result of escaping any byte string is scanned as one string token, whatever follows it. (also lines 7673-7787, 7853-8098) |
| JsonLexer.IntegerIsOneToken | ftp/serviceDataArchiverRabbitMQ/json.hpp:7544-7615 | The text of any integer is scanned as one number token if what follows is no digit, point or exponent letter. |
| JsonLexer.NumberIsOneToken | ftp/serviceDataArchiverRabbitMQ/json.hpp:7544-7615 | Every number of section 6 of RFC 7159, with fraction and exponent, is scanned as one number token if what follows is no digit, point or exponent letter. (also lines 7788-7824, 7888-7945) |
| JsonLexer.NumberIs | ftp/serviceDataArchiverRabbitMQ/json.hpp:7544-7615 | What is scanned as a number is always one of section 6 of RFC 7159. (also lines 7788-7824, 7888-7945) |
| JsonNumber.GetNumber | ftp/serviceDataArchiverRabbitMQ/json.hpp:8348-8431 | The accumulating loop with its overflow guard returns the number of the token; after the guard has fired, or at a point or exponent, the value comes from strtod. |
| JsonNumber.FractionIsFloat | ftp/serviceDataArchiverRabbitMQ/json.hpp:8379-8393 | A token with a point or an exponent letter is read as the floating-point number that strtod makes of the whole token. (also lines 8420) |
| JsonNumber.IntegerIsExactIff | ftp/serviceDataArchiverRabbitMQ/json.hpp:8348-8431 | An integer token is read exactly if and only if it fits 64 bits unsigned, or with a minus sign 64 bits signed. |
| JsonNumber.GuardFiresIff | ftp/serviceDataArchiverRabbitMQ/json.hpp:8397-8411 | An integer token of any length and either sign is read as a floating-point number if and only if at some digit the number, wrapped in 64 bits, becomes smaller than before or larger than the limit of its sign; otherwise as the integer it wraps to. |
| JsonNumber.OverflowIsMissedIff | ftp/serviceDataArchiverRabbitMQ/json.hpp:8397-8411 | For either sign, the first digit beyond the limit is noticed unless the wrapped number lies between the number before it and the limit; then the token is read as the wrapped integer. |
| JsonNumber.OverflowsAreMissed | ftp/serviceDataArchiverRabbitMQ/json.hpp:8397-8411 | 30000000000000000000 is read as 11553255926290448384, and -62000000000000000000 as -6659767778871345152. |
| JsonScanner.Lexer.ScanUnit | ftp/serviceDataArchiverRabbitMQ/json.hpp:7673-7787 | The states for one character or escape of a string advance over exactly the escapes that are allowed, and never read past the end of the buffer. (also lines 7853-8098) |
| JsonScanner.Lexer.ScanString | ftp/serviceDataArchiverRabbitMQ/json.hpp:7531-7538 | The loop ends behind the closing quote of the token that the content rules give; without one the cursor goes back to just behind the opening quote and the token is an error. (also lines 7673-7787) |
| JsonScanner.Lexer.ScanNumber | ftp/serviceDataArchiverRabbitMQ/json.hpp:7544-7615 | The longest number is scanned; a fraction or exponent that does not go on is given back to the marker. (also lines 7788-7824, 7888-7945) |
| JsonScanner.Lexer.Scan | ftp/serviceDataArchiverRabbitMQ/json.hpp:7339-8101 | The cursor moves over blanks and byte order marks and behind the next token, which is the one the grammar gives for the remaining input; it stays inside the buffer up to the end-of-input token. |
| JsonScanner.Lexer.GetString | ftp/serviceDataArchiverRabbitMQ/json.hpp:8159-8260 | The loop over a string token, reading escapes where they stand in the buffer, returns the unescaped content or the error of a missing low surrogate. |
| JsonSerializer.DumpValue | ftp/serviceDataArchiverRabbitMQ/json.hpp:6007-6156 | The recursive method with its loops appends to the output exactly the text the theorems are about. |
| JsonLayout.DumpLayout | ftp/serviceDataArchiverRabbitMQ/json.hpp:6007-6156 | The text of a dump, at every indent: a line for every element and member, indented by the step times its depth modulo 4294967296, the closing bracket on a line of its own, members in the order of their names with one blank behind the colon; or all without any blanks for a negative indent; empty containers as two brackets and 0.0 for a floating-point zero. |
| JsonLayout.DumpOfRawByte | ftp/serviceDataArchiverRabbitMQ/json.hpp:5882-5988 | The dump of a string of the byte 0xFF is no JSON text of the RFC. (also lines 6007-6156) |
| JsonLayout.DumpIsRfcIff | ftp/serviceDataArchiverRabbitMQ/json.hpp:6007-6156 | A dump is JSON text of RFC 7159 if and only if all strings and names are UTF-8. |
| JsonReader.Parser.ParseArray | ftp/serviceDataArchiverRabbitMQ/json.hpp:8572-8616 | The do-while loop over elements returns what the grammar gives for the token it was called at, with the next token read, and terminates. |
| JsonReader.Parser.ParseObject | ftp/serviceDataArchiverRabbitMQ/json.hpp:8493-8570 | The same for members: key, colon, value; a later member of the same name replaces an earlier one. |
| JsonReader.Parser.ParseInternal | ftp/serviceDataArchiverRabbitMQ/json.hpp:8488-8678 | From any token the parser returns the value and next token the grammar gives, or invalid_argument. |
| JsonReader.ParseText | ftp/serviceDataArchiverRabbitMQ/json.hpp:8460-8485 | A new parser run on any text returns what the grammar gives for the text: the value if end of input follows, else an error. |
| JsonParser.DumpRead | ftp/serviceDataArchiverRabbitMQ/json.hpp:6007-6156 | The dump of any value at any indentation, if the texts of its floating-point numbers are numbers, followed by anything that cannot continue a number, is parsed as one value and nothing more. (also lines 8488-8678) |
| JsonParser.ParseOfDump | ftp/serviceDataArchiverRabbitMQ/json.hpp:2097-2113 | parse(dump(j, indent)) succeeds for every j, the texts of whose floating-point numbers are numbers, and every indent, -1 included; the result equals j under operator== if and only if every floating-point number is read from its text as it was. Besides those, the only difference is that a nonnegative signed number comes back unsigned, so pretty and compact text give the same value. (also lines 6007-6156, 7339-8101, 8475-8677) |
| JsonParser.OneTextForTwo | ftp/serviceDataArchiverRabbitMQ/json.hpp:6124-6143 | Of two floating-point numbers that dump writes alike at least one is not read back as it was. |
| JsonParser.FloatFreeComesBack | ftp/serviceDataArchiverRabbitMQ/json.hpp:2097-2113 | For every j without floating-point numbers and every indent parse(dump(j, indent)) equals j under operator==. (also lines 6007-6156, 7339-8101, 8475-8677) |
| JsonGrammar.WrittenValue | ftp/serviceDataArchiverRabbitMQ/json.hpp:7339-8101 | A value written by the grammar of RFC 7159, with byte order marks among its blanks and the scanner's content in its strings, is parsed as what it means before anything that cannot continue a number, or with the error of its first unpaired surrogate. (also lines 8488-8678) |
| JsonGrammar.FoundValue | ftp/serviceDataArchiverRabbitMQ/json.hpp:7339-8101 | Conversely whatever is parsed as a value is written by that grammar, and means the value it is parsed as. (also lines 8488-8678) |
| JsonGrammar.OneValue | ftp/serviceDataArchiverRabbitMQ/json.hpp:7339-8101 | The grammar is unambiguous: no text can be read as two values, or as one with two rests. (also lines 8488-8678) |
| JsonGrammar.WrittenDocument | ftp/serviceDataArchiverRabbitMQ/json.hpp:7339-8101 | For every text of the grammar, parse returns what the text means, value or error; of members with one name the last is kept. (also lines 8475-8485) |
| JsonGrammar.AcceptedIff | ftp/serviceDataArchiverRabbitMQ/json.hpp:7339-8101 | parse accepts a text if and only if it is one value of the grammar between gaps, with nothing or a null byte and anything behind it, and every escape for a high surrogate in it is followed by one for a low surrogate. (also lines 8475-8485) |
| JsonGrammar.RefusedAsInvalid | ftp/serviceDataArchiverRabbitMQ/json.hpp:8475-8485 | Whatever the text, parse returns a value or throws invalid_argument. (also lines 8686-8706) |
| JsonGrammar.RfcTextIff | ftp/serviceDataArchiverRabbitMQ/json.hpp:7339-8101 | A text of the grammar is a JSON text of RFC 7159 if and only if it holds no byte order mark in a gap, no raw control character and no byte that is not UTF-8 in a string, and nothing from a null byte on. (also lines 8475-8485) |
| JsonGrammar.RfcTextIsParsed | ftp/serviceDataArchiverRabbitMQ/json.hpp:7339-8101 | Every JSON text of RFC 7159 is read as what it means, and accepted if and only if its surrogates are paired. (also lines 8475-8485) |
| JsonGrammar.NumberIsParsed | ftp/serviceDataArchiverRabbitMQ/json.hpp:8348-8431 | A text that is a number of section 6 of RFC 7159 is parsed as what get_number makes of it, and with a point or an exponent letter as what strtod makes of all of it. (also lines 8475-8485) |
| JsonGrammar.MarkIsNotRfc | ftp/serviceDataArchiverRabbitMQ/json.hpp:7967-7971 | An opening bracket, a byte order mark and a closing bracket are parsed as an empty array and are no text of the RFC. |
| JsonGrammar.RawByteIsNotRfc | ftp/serviceDataArchiverRabbitMQ/json.hpp:7346-7382 | A quoted raw control character from 0x10 to 0x1F, or the byte 0xFF, is parsed as the string that holds it and is no text of the RFC. (also lines 8488-8678) |
| JsonGrammar.NullIsNotRfc | ftp/serviceDataArchiverRabbitMQ/json.hpp:7846-7852 | A pair of brackets, a null byte and anything behind it are parsed as an empty array and are no text of the RFC. (also lines 8475-8485) |
| JsonGrammar.LoneSurrogateIsRefused | ftp/serviceDataArchiverRabbitMQ/json.hpp:8159-8260 | The quoted escape of one high surrogate is a text of the RFC and is refused. |

## Left out

- Calendar.MkGmTimeCountsDays: integers are unbounded; the program's `int` arithmetic is exact only up to 2147483647 seconds, in January 2038.
- VoltageAnalysis.Run: three phases, as in the only call; positions in the stream are unbounded integers, the conversion of report times to microseconds is not modelled, and samples are reals without NaN.
- VoltageDetector.Phase.AbnormalRun: the three branches for sag, interruption and swell, alike but for their class, are one method with the class as parameter.
- PhaseUnwrap.ReconstructsIff: angles are reals; rounding of floats is not modelled.
- Discovery.Thread: failures of the directory table and of a file transfer are not modelled. A start row whose day is not one of its month, whose hour is not 0 to 23 or whose year is before 1970 passes the program's checks and is not modelled either. File names are strings and the listing is a sequence of them.
- Throttle.RefusalIsUnreachable: a buffer is its number; creating one never fails.
- ThrottleProgress.AlwaysGetsOn: that every thread is given its turn is not modelled; what is proved holds for whichever goes first.
- DirectoryProgress.CatchesUp: the server lists the same files in every pass over a directory and has the next one ready at its end, and every file is complete when its turn comes.
- Archiver.Archiver.Drain: the database stays connected and memory allocation succeeds, as the promise needs; insert statistics are left out.
- ByteOrder.CorrectOrder: the buffer has six bytes and reaches as far as the loops do; the program allocates just the length of the file.
- JsonPatch.PatchDocument: the document is a value; updating it through references in place, and aliasing, are not modelled. Arguments evaluated in an order C++ leaves open (the value and the location of "test", "replace" and "copy") have one order here.
- JsonFlatten.UnflattenValue: as for patches, the result is a value, not a tree reached through pointers.
- JsonText.ToUnicodeDecodes: shifts and masks are written as division, remainder and addition of disjoint bits.
- JsonNumber.GetNumber: the cast and negation of the largest negative magnitude is taken to wrap to -9223372036854775808.
- JsonSerializer.DumpValue: the text of a nonzero floating-point number is a parameter and negative zero does not exist.
- JsonParser.ParseOfDump: that the stream writes every floating-point number as a number of the RFC, and which of them `strtod` reads back as they were, depends on the C library and is a condition here.
- JsonScanner.Lexer.Scan: input is one string; refilling the buffer from a stream is not modelled.
- JsonReader.Parser.ParseInternal: parser callbacks and discarded values are not modelled, nor is the depth of recursion.
- JSON template machinery, iterators, ordering operators, hashing, and the comparison of NaN.
- The derivative, summary means and published annotation fields of the analysis.
- Start-up availability: an FTP timeout can release a directory that is not processed, so no claim is made that every directory is.
- FTP, PostgreSQL, Cassandra and AMQP access, logging, sleeping, statistics, the command queue, plugin loading and generated protobuf code.
