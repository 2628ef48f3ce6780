# Verified models of Amanda

Dafny models of seven parts of Amanda, with proofs of what they keep in every run.

**The archive format** (`amar-src/amar.c`).  `AmarFormat` is the byte format and a pure parser.
`AmarSemantics` is a reference reader over whole items, with no buffers and no fragments: what an archive
says.  `AmarWriter.Archive` is the writer with its 512 KiB buffer and the bypass for large data.
`AmarWindow.Window` is the reader's sliding, growing buffer with skips by seek or by reading.
`AmarMachine` is `amar_read` as a function of the input and of how many bytes of each record were in the
buffer: open files, the remembered attribute, and every callback; `AmarReader.Reader` is the code with its
window, proved to compute that function.  `AmarDelivery` joins the callbacks' fragments and says item by
item what is delivered, also where a record is taken for another file's attribute; `AmarRefinement`,
`AmarReading` and `AmarSizes` prove that the function delivers that, on every input and for every minimum
size, and that it is what the reference reader reports where no record is mistaken.  `AmarConfusion`,
`AmarMisreading` and `AmarShapes` say what comes of mistaken records.  `AmarRoundTrip`, `AmarArchive` and
`AmarWhole` give the round trip, `AmarTruncation` reading of every byte prefix, `AmarOffset` reading from
the offset of a header, `AmarStops` how a read ends behind the last good record (padding, records that
cannot be, other versions), `AmarExamples` archives that show why conditions are there.

**The link lock** (`common-src/amflock-lnlock.c`).  `LockProtocol` interleaves any number of processes,
with exits, over one directory of lock files and all steal levels; `LockProgress` says what a process that
is left alone comes to hold; `LnLock.LockDir` is the code as one process runs it.

**The estimates of a client** (`client-src/sendsize.c`).  `SchedulePolicy` says which logs of starts and
finishes are legal and what follows; `EstimateScheduler` is the loop with forks and waits;
`EstimateRequests` merges requests and computes since-dates.

**amandad's services** (`amandad-src/amandad.c`).  `ServiceProtocol` is the behaviour of a service as a
function of its inputs, with the theorems over all runs; `ServiceHistory` tells everything that it sends,
and when it ends, from the sequence of its inputs alone; `ActiveService.ActiveService` is the record
that the event handlers update, proved to do the same; `InfoEndScan`, `ErrorLines` and `ConnectReply` are
the stream scanners, the reply buffer and the CONNECT line; `ServiceQueue` accepts requests.

**The table of dump dates** (`client-src/amandates.c`).  `Quoting` is string quoting and line reading,
`AmandatesStore` the sorted table, `AmandatesFile` its text, `Amandates` sessions on the file.

**The semaphore** (`common-src/amsemaphore.c`) is `Semaphore`; **feature sets**
(`common-src/amfeatures.c`) are `Features`.

## Where the code does less than one might expect

Each of these is kept as it is in the code, with the exact condition under which it matters.

- A zero-length last buffer, or a descriptor whose length is a multiple of 4 MiB, ends an attribute
  without a record that says so; the reader then reports the attribute truncated.  The round trip holds
  if and only if no call of that kind ends an attribute that the reading caller receives
  (`AmarRoundTrip.ReadsAsAsked`, `AmarWhole.ArchiveRoundTrip`).
- The reader keeps a pointer to the last attribute and compares only its number, so a record may be taken
  for another file's attribute.  Memory is misused (an attribute is freed that its file still lists) if and
  only if such a record ends the attribute (`AmarConfusion.FreedExactly`).  Otherwise, under minimum sizes
  that keep no such record's data back, the caller is told the right things about every file and attribute
  if and only if no file is closed while an attribute of it has begun but has no state
  (`AmarMisreading.RightExactly`).  An archive is read right for all data, minimum sizes, buffers and cuts
  if and only if neither happens and no mistaken record has data that is wanted
  (`AmarShapes.AlwaysRightExactly`).  Files that are open at the same time and share no attribute numbers
  are enough for that (`AmarWhole.ApartIsRight`).
- The attribute in whose data the input ends is reported as truncated, unless the record is its only one, it
  has no state, and the bytes in the buffer are no fewer than the minimum size: then those bytes are handed
  over and no end is told (`AmarTruncation.MissingEnd`).
- The search for an unused file number is left after one step: numbers are fresh if and only if no more than
  0x414c files are made (`AmarRoundTrip.FreshNumbers`); a read of an archive with more ends at the name of
  the 0x414d-th file, with an error if enough bytes follow (`AmarWhole.MagicFileUnreadable`).
- A process that releases its lock and exits between a stealer's reading its pid and probing it makes the
  stealer delete the lock of a process that has locked in the meantime, or locks before the deletion.
  Without exits that leave a prober with a lock file that has gone or is another live process's, exclusion
  holds at every level (`LockProtocol.MutualExclusion`); an exit that leaves another live process's file
  leads to two holders (`LockProtocol.UnguardedExitRobs`), and so does one that leaves no file, with any
  third process on its way to the lock (`LockProtocol.AbsentFileRobs`); three processes are enough
  (`LockProtocol.TwoInside`).
- The since-date of calcsize is an `int`: it agrees with the other two exactly when the date is below
  2^31 (`EstimateRequests.SinceDatesAgree`).
- A service with open streams can come to an end if and only if a pipe with an open stream is read
  (`ServiceProtocol.EndsExactly`).  It is stuck exactly if it is a sendbackup whose message and index streams
  have ended, or were never named, before its information was seen to end: nothing reads its data pipe
  (`ServiceProtocol.StuckExactly`).
- A NUL in the message stream hides what follows it in the same read and, among the last 21 bytes, all of
  the next read (`InfoEndScan.NulHides`); an occurrence is seen if and only if some read holds it, with the
  bytes kept from before, and no NUL before it there (`InfoEndScan.SeenExactly`).
- An increment of 2^31 or more takes away from the semaphore (`Semaphore.LargeIncrement`).
- The comment above `am_string_to_feature` says that an odd number of digits gives NULL and that
  conversion stops at the first other character; the code drops the odd digit, and gives NULL for a
  character that is no digit among those it would use (`Features.RefusedExactly`).

## Model

| member | source | states |
|---|---|---|
| AmarFormat.RecordHeaderRoundTrip | amar-src/amar.c:51-72 | Every record header (file, attribute, size, EOA bit in the top bit of the size) reads back as written, whatever follows it. |
| AmarFormat.RecordHeaderOnto | amar-src/amar.c:51-72 | Every eight bytes are the encoding of exactly the header they decode to. |
| AmarFormat.ParseEncode | amar-src/amar.c:849-990 | Parsing the bytes of any sequence of well-formed headers and records gives that sequence and end of file. |
| AmarFormat.ParsePrefix | amar-src/amar.c:849-990 | Every byte prefix of a well-formed archive parses to exactly the items wholly inside it, then to end of file or to part of one application record; never to an error. |
| AmarFormat.MagicFilenumUnreadable | amar-src/amar.c:856-868 | A record of file number 0x414d is never read back as a record, with enough bytes after it; parsing stops with an invalid header unless its attribute number goes on with the header's text. |
| AmarStops.NoArchive | amar-src/amar.c:838-847 | An input is refused at once, with no call made, exactly if it has eight bytes and the first two are not those of a header. |
| AmarStops.PaddedArchive | amar-src/amar.c:932-948 | For every archive, caller and number n: followed by n zero bytes it is read with the same calls and result as alone, if it leaves no file of number 0 open; with the same result in any case. |
| AmarStops.NotPadding | amar-src/amar.c:932-953 | Eight zero bytes followed by 504 bytes that are not all zero end the read with the error for an empty filename. |
| AmarStops.NamelessEnds | amar-src/amar.c:932-953 | A filename record without a filename, of any file, after any items: the read ends as at the end of the input if fewer than 504 bytes follow or the next 504 are zero, and with an error otherwise. |
| AmarStops.EmptyNameFinishes | amar-src/amar.c:921-953 | In that error case, the last call of the read finishes the file of that number as truncated, if it was open and not ignored. |
| AmarStops.WrongRecordEnds | amar-src/amar.c:880-983 | After any items, a record of more than 4 MiB, an end of file with data, a filename without the end mark, or an attribute of a reserved number ends the read with the error that says so; no other record but one without a filename is an error. |
| AmarStops.OtherVersions | amar-src/amar.c:856-877 | After any items, a header of a later version is an error that names the version; one of version 0 is read over like one of version 1. |
| AmarSemantics.NoOverlapNoClash | amar-src/amar.c:992-1001 | If no record's attribute number is open in another file at that time, the remembered attribute is never the wrong one. |
| AmarSemantics.AddDataInParts | amar-src/amar.c:760-802 | Data handed on in two parts has the same effect as the data at once. |
| AmarWindow.Window.AtLeast | amar-src/amar.c:597-654 | Succeeds exactly when that many bytes remain, leaves the remaining bytes the same, and never makes the buffer larger than the old one and the request. |
| AmarWindow.Window.Skip | amar-src/amar.c:661-707 | Leaves exactly the bytes after the skipped ones, by moving the window, seeking or reading, also past the end of the input. |
| AmarWindow.Window.MakeRoom | amar-src/amar.c:610-632 | Growing or sliding keeps the bytes in memory and makes room for the request. |
| AmarWindow.Window.Discard | amar-src/amar.c:686-697 | Reading and discarding ends at the same place as seeking would. |
| AmarReader.Reader.HandleHunk | amar-src/amar.c:760-802 | Makes exactly the calls, and keeps exactly the bytes, that HunkJoins speaks of. |
| AmarRefinement.HunkJoins | amar-src/amar.c:760-802 | Data passed on and data kept make up what there was and the new data; the end passes on everything. |
| AmarReader.Reader.FinishAttr | amar-src/amar.c:716-732 | An attribute that was not ended is ended once, with exactly what was kept of it. |
| AmarReader.Reader.FinishFile | amar-src/amar.c:735-756 | Ends the file's open attributes in the order of its list, then calls for the file unless it is ignored, and takes it off the list. |
| AmarReading.FileFinishes | amar-src/amar.c:735-756 | Joined, that reports each open attribute truncated with all its data, then the file; no other file or attribute changes. |
| AmarReader.Reader.LookupFile | amar-src/amar.c:889-898 | Finds the first open file of that number, if there is one. |
| AmarReader.Reader.NameRecord | amar-src/amar.c:917-976 | An unfinished file of the same number is closed as truncated; then the file is started, or the name is padding or an error: the rest of the read is the same. |
| AmarReader.Reader.Nameless | amar-src/amar.c:932-953 | A filename of no bytes is padding exactly if the input ends within the block or the rest of the block is zero. |
| AmarReader.Reader.EofRecord | amar-src/amar.c:902-916 | The file is finished untruncated if it is open, and nothing happens otherwise: the rest of the read is the same. |
| AmarReader.Reader.DirectRecord | amar-src/amar.c:1014-1057 | An attribute in a single record without a state is passed on whole or in two fragments; if the input ends inside it, exactly the bytes in the buffer are passed on, without an end. |
| AmarReader.Reader.RecordHunks | amar-src/amar.c:1067-1091 | A record of an attribute with a state is used as one hunk or two; if the input ends inside it, exactly the bytes in the buffer are used. |
| AmarReader.Reader.AcceptedRecord | amar-src/amar.c:992-1100 | A record is used for the remembered attribute if the number agrees, whichever file has it, and otherwise for its own file's. |
| AmarReader.Reader.AppRecord | amar-src/amar.c:985-1100 | Records of unknown or ignored files change nothing but the position; for all records the rest of the read is the same, or it ends as the whole read does. |
| AmarReader.Reader.ReadOne | amar-src/amar.c:849-1100 | After one turn of the loop, reading on is the rest of the same read, for every input. |
| AmarReader.Reader.FinishAll | amar-src/amar.c:1103-1112 | All open files are closed as truncated, in list order. |
| AmarReader.Reader.Read | amar-src/amar.c:805-1113 | For every input, seekable or not: the callbacks made and the result are exactly those of the read as a function of the same bytes, for some numbers of bytes in the buffer. |
| AmarMachine.SoundTurn | amar-src/amar.c:992-1001 | The remembered attribute is always in the list of its own, open file. |
| AmarReading.TurnRefines | amar-src/amar.c:849-1100 | After every item, kept and delivered bytes together are exactly what is delivered item by item, also where a record is taken for another file's attribute and does no harm to the bytes. |
| AmarReading.ReadReports | amar-src/amar.c:805-1113 | For every input in which no record is mistaken, all minimum sizes and all cuts: the joined callbacks and the result are those of the reference read; without an end is handed over only the part of a single record in which the input ends, and after an error beginnings of what is held. |
| AmarSizes.AlwaysLarge | amar-src/amar.c:772-799 | For every input, every fragment but an attribute's last has at least the minimum size. |
| AmarDelivery.NoClashDelivers | amar-src/amar.c:992-1001 | Where no record is mistaken, what is delivered item by item is the reference reader's fold of the items. |
| AmarWriter.Archive.WriteHeader | amar-src/amar.c:139-154 | Written and buffered bytes together grow by exactly one header, and a record header's room stays free. |
| AmarWriter.Archive.WriteRecord | amar-src/amar.c:157-195 | Written and buffered bytes together grow by exactly the encoded record, through the buffer or past it, and a record header's room stays free. |
| AmarWriter.Archive.NewFile | amar-src/amar.c:269-341 | Refused, with nothing written, exactly if the name is longer than 4 MiB or 65535 files are open; otherwise the next number is given, the open files are the old ones and the new one without attributes, and the header (if asked for) and the filename record are written; the offset returned is where that header starts. |
| AmarWriter.Archive.CloseAttr | amar-src/amar.c:429-447 | Writes an empty last record exactly if the attribute has not ended. |
| AmarWriter.Archive.AddBuffer | amar-src/amar.c:450-487 | Appends the data as records of at most 4 MiB whose concatenation is the data, the last with the end mark. |
| AmarWriter.Archive.AddFd | amar-src/amar.c:490-545 | Appends the descriptor's data in blocks of 4 MiB until a short one; only a short one carries the end mark; returns how much there was. |
| AmarWriter.ChunksAre | amar-src/amar.c:450-487 | A buffer becomes one record for each 4 MiB that it begins: all but the last full and without the end mark, the last with it if it was asked for. |
| AmarWriter.FdChunksAre | amar-src/amar.c:501-530 | A descriptor's data becomes as many full records as there is data for, none with the end mark, and one more for what is left, with it if it was asked for. |
| AmarWriter.Archive.CloseFile | amar-src/amar.c:370-397 | Ends each attribute that has not ended once, in some order, then writes the end of file. |
| AmarWriter.EndRecordsAre | amar-src/amar.c:354-368 | Closing a file writes one empty last record for each attribute that has not ended, in the order of the table. |
| AmarWriter.Archive.Close | amar-src/amar.c:245-262 | The file holds exactly the encoding of all headers and records, in call order. |
| AmarArchive.ManyFilesOpen | amar-src/amar.c:286-341 | Up to 0x414c files, with any names of at most 4 MiB, are made without a close between: they get the numbers from 1 on, all are open then, and the reader starts each in order. |
| AmarArchive.LastStartedFirstFinished | amar-src/amar.c:1103-1112 | Files that are open when the archive ends are finished as truncated in the reverse order of their starts. |
| AmarArchive.LastBegunFirstEnded | amar-src/amar.c:735-756 | Attributes that a finished file leaves open are reported truncated, the one begun last first. |
| AmarRoundTrip.FreshNumbers | amar-src/amar.c:300-315 | Each new file's number is unused and not 0x414d if and only if no more than 0x414c files are made, refused calls not counted. |
| AmarRoundTrip.RunRead | amar-src/amar.c:849-1100 | After every legal run of writer calls whose numbers are fresh and whose ends are written, the reference reader has the same open files and data, and has reported exactly what was asked for. |
| AmarRoundTrip.RunEnds | amar-src/amar.c:462-542 | A run in which a received attribute's end is lost makes the reader report fewer complete attributes than were asked for. |
| AmarRoundTrip.ReadsAsAsked | amar-src/amar.c:269-545 | Reading reports exactly what was asked for (starts with exact names, each attribute's data and one end, one finish per file) if and only if no call ends a received attribute without a record that says so. |
| AmarWhole.ArchiveRoundTrip | amar-src/amar.c:269-545 | Over the bytes that were written, for every caller, minimum sizes and cuts, and every run that closes its files and in which no record is mistaken: the joined callbacks are what was asked for, in order, if and only if no received end is lost. |
| AmarWhole.MistakenRoundTrip | amar-src/amar.c:269-545 | The same where records are mistaken, as long as none ends an attribute or has data that would be kept back: every file and attribute is told what was asked for it if and only if no received end is lost. |
| AmarWhole.MagicFileUnreadable | amar-src/amar.c:300-315 | Every run that makes 0x414d files writes an archive whose read ends at that file's name: with an invalid header if the bytes from there on are as many as a header's, else as at the end of the archive. |
| AmarConfusion.FreedExactly | amar-src/amar.c:1093-1100 | For every input, minimum sizes and cuts: an attribute is freed while another file still lists it if and only if a record that ends an attribute carries the remembered attribute's number and is another file's. |
| AmarConfusion.StillListed | amar-src/amar.c:1093-1100 | The freed attribute is still in the list of its own, open file. |
| AmarMisreading.RightExactly | amar-src/amar.c:992-1100 | Where no mistaken record ends an attribute or has data that is kept back: every file and attribute is told the right things if and only if no file is closed with an attribute that has begun and has no state. |
| AmarMisreading.PassedOnAtOnce | amar-src/amar.c:769-776 | For callers with minimum sizes of at most one byte: memory is safe and every file and attribute is told the right things if and only if no mistaken record ends an attribute and no file is closed with one stranded. |
| AmarShapes.AlwaysRightExactly | amar-src/amar.c:992-1100 | An archive is read right for all data of the same sizes, minimum sizes, buffers and cuts if and only if no mistaken record ends an attribute or has wanted data and no file is closed with an attribute stranded. |
| AmarShapes.NoClashSafe | amar-src/amar.c:992-1001 | An archive in which no record is mistaken is read right for all of them. |
| AmarWhole.ArchiveFrees | amar-src/amar.c:1093-1100 | Reading a written archive misuses memory if and only if a mistaken record ends an attribute. |
| AmarWhole.ApartIsRight | amar-src/amar.c:992-1001 | When files open at the same time do not share attribute numbers, no record is mistaken and the archive is always read right. |
| AmarExamples.SharedAttribute | amar-src/amar.c:992-1100 | For any two files and any wanted attribute number that both use while open, one record each: memory is misused if the second record is an end, and the second attribute's end is never told if it is not. |
| AmarExamples.MistakenButRight | amar-src/amar.c:992-1100 | Alternating records of two files' attribute of one number, with the ends in the same order: a record is mistaken, yet nothing is freed or stranded. |
| AmarExamples.ConfusedOnlyFromOffset | amar-src/amar.c:992-1100 | Archives whose full read mistakes no record but whose read from the second header misuses memory. |
| AmarTruncation.FinishedOnce | amar-src/amar.c:1103-1112 | For every input that is read without error, each file number is finished as often as files of it were started and not ignored. |
| AmarTruncation.OpenExactly | amar-src/amar.c:889-976 | After any items, a file is open exactly if its last filename record has no end-of-file record after it, and ignored as that name says. |
| AmarTruncation.Grows | amar-src/amar.c:760-802 | Whatever follows, at least the data that an open attribute has so far is reported of it. |
| AmarTruncation.TruncatedRead | amar-src/amar.c:849-1112 | For every archive, every byte at which it is cut, all minimum sizes and all cuts: no error; the whole records are reported as in the full read; each file whose end-of-file record is missing is finished once and flagged truncated; what is reported of an attribute, or handed over without an end, once at most, begins what the full read reports next of it. |
| AmarTruncation.MissingEnd | amar-src/amar.c:1014-1057 | Where the input ends inside wanted data, the end of the attribute is told exactly once, except exactly if the record is its only one, it has no state and the bytes in the buffer are at least the minimum size. |
| AmarTruncation.BufferingInvisible | amar-src/amar.c:597-802 | Two reads of the same bytes for the same caller, whatever the minimum sizes, buffers and cuts, end alike and deliver the same; where the input ends inside wanted data, they differ only in how much of it is handed over (one a beginning of the other) and whether its end is told. |
| AmarOffset.ReadFromHeader | amar-src/amar.c:328-338 | Reading from the offset of any header delivers exactly what the full read reports of the files whose filename record lies after that offset, in order, for all minimum sizes and cuts, if no record is mistaken from there on. |
| AmarOffset.ConfusionFromHeader | amar-src/amar.c:992-1100 | Such a read misuses memory if and only if a mistaken record from there on ends an attribute; otherwise, with no data kept back, it tells every file and attribute what the full read reports of it if and only if no attribute is stranded. |
| AmarOffset.WrittenArchives | amar-src/amar.c:269-341 | What the writer writes, when open files do not share attribute numbers, meets the conditions of the truncation and offset theorems at every header. |
| LockProtocol.MutualExclusion | common-src/amflock-lnlock.c:108-240 | In every interleaving, at every steal level, two live processes never hold the same lock, if no process exits while a stealer is about to probe it and the lock file has gone or is another live process's. |
| LockProtocol.UnlockNeverFails | common-src/amflock-lnlock.c:204-210 | The assertion that the lock file holds one's own pid never fails. |
| LockProtocol.OnlyDeadAreRobbed | common-src/amflock-lnlock.c:139-186 | No step of another process takes a live process's lock file away. |
| LockProgress.TakesExactly | common-src/amflock-lnlock.c:139-240 | In every state that the protocol can be in, a process on its way to a lock, at whatever step, comes to hold it when it runs alone if and only if no live process holds a lock from that level upwards, up to the first that is free or its own. |
| LockProgress.StaleLocksAreTaken | common-src/amflock-lnlock.c:139-240 | So in every guarded run and at every level: locks that dead processes have left behind are taken, and one with a live holder is not. |
| LockProgress.StaleTaken | common-src/amflock-lnlock.c:152-174 | The steps with which d stale locks in a row are stolen, 7d + 1, and the state they lead to: the wanted lock is the process's own, the others are gone. |
| LockProgress.BacksOff | common-src/amflock-lnlock.c:146-186 | A stealer that finds no lock file, or a live process's pid in it, gives back the guarding lock and tries again, with nothing else changed. |
| LockProgress.GivesBack | common-src/amflock-lnlock.c:204-210 | A process that has the resource gives it back in three steps. |
| LockProtocol.UnguardedExitRobs | common-src/amflock-lnlock.c:152-174 | Wherever the excluded exit happens while another live process has the lock file, five steps of the stealer make two processes hold the lock. |
| LockProtocol.AbsentFileRobs | common-src/amflock-lnlock.c:152-174 | Wherever it happens while there is no lock file, at any level, any third process on its way to that lock ends up holding it together with the stealer. |
| LockProtocol.TwoInside | common-src/amflock-lnlock.c:139-240 | A run of three processes with one such exit that puts two of them into the critical section. |
| LnLock.LockDir.LinkLock | common-src/amflock-lnlock.c:108-134 | Takes the lock exactly if there is no lock file, and changes nothing otherwise. |
| LnLock.LockDir.StealLock | common-src/amflock-lnlock.c:139-186 | Comes back exactly if no live process holds a lock that guards the stealing, and then removes the lock file exactly if its owner is gone or is the process itself; stale guarding locks are gone afterwards and nothing else changes. |
| LnLock.LockDir.Lock | common-src/amflock-lnlock.c:188-240 | Takes the lock exactly if nobody alive holds it or one that guards its stealing, with only the stale chain removed and the new lock added; otherwise waits, having removed only the stale locks above the highest held one. |
| SchedulePolicy.NeverTooMany | client-src/sendsize.c:509-545 | At every moment no more estimates run than allowed, and no two of them share a spindle other than -1. |
| SchedulePolicy.EachOnce | client-src/sendsize.c:517-563 | At the end each estimate has been started exactly once and has finished exactly once. |
| SchedulePolicy.NoDeadlock | client-src/sendsize.c:517-549 | With nothing running and something left to do, an estimate can start. |
| SchedulePolicy.OneStart | client-src/sendsize.c:517-545 | When an estimate can start, the first such in list order starts and nothing is waited for. |
| SchedulePolicy.Progress | client-src/sendsize.c:466-563 | As long as not all is done, some start or some finish is allowed next. |
| SchedulePolicy.StartsInOrder | client-src/sendsize.c:517-545 | Every start is made while there is room, of an estimate not started before, whose spindle, if it is not -1, no running estimate has; every earlier one in the list that has not started has a spindle that a running one has. |
| SchedulePolicy.WaitsForReason | client-src/sendsize.c:509-549 | Whenever a finish is waited for, as many estimates run as may, or each that has not begun has a spindle other than -1 that a different running one has. |
| SchedulePolicy.NoSpindlesAtOnce | client-src/sendsize.c:527-527 | Estimates without spindles are started in list order without a wait, as many as may run. |
| SchedulePolicy.RunsFromStartToFinish | client-src/sendsize.c:495-504 | An estimate counts as running exactly from its start to its finish. |
| EstimateScheduler.RunEstimates | client-src/sendsize.c:457-564 | For every order in which children exit (also children that are none of the list's), the loop ends with all estimates done, and its log is one that the policy allows. |
| EstimateScheduler.AwaitChild | client-src/sendsize.c:466-504 | A wait is made only with a child running and nothing to start, and enters its estimate as done, once. |
| EstimateScheduler.StartNext | client-src/sendsize.c:505-563 | Starts the first estimate that is not held up if there is room; says that all is done exactly then, and that it must wait only if something runs. |
| EstimateScheduler.Conflict | client-src/sendsize.c:524-543 | Finds a spindle conflict exactly if another started, unfinished estimate has the same spindle, not -1. |
| EstimateRequests.MaxBelowIsMax | client-src/sendsize.c:711-718 | The since-date is the latest dump date of a lower level, or the epoch. |
| EstimateRequests.EstimateSince | client-src/sendsize.c:707-718 | The loops fill in that date for every level. |
| EstimateRequests.BackupSince | client-src/sendbackup-gnutar.c:330-334 | The loop of a backup computes the same date. |
| EstimateRequests.CalcsizeSince | client-src/client_util.c:1529-1533 | The loop of calcsize computes it in an int. |
| EstimateRequests.SinceDatesAgree | client-src/client_util.c:1525-1533 | The three agree, for every level and table, exactly when the date is below 2^31. |
| EstimateRequests.CalcsizeOtherwise | client-src/client_util.c:1529-1533 | Otherwise calcsize's date is the later of the last date that does not fit, cut to an int, and the dates after it. |
| EstimateRequests.ParseMaxdumps | amandad-src/amandad_util.c:109-168 | The limit is that of the last usable maxdumps option, cut to 16, or 1; always from 1 to 16. |
| EstimateRequests.LastUsable | amandad-src/amandad_util.c:116-130 | The last value that is a positive number counts, at most 16; without one it is 1. |
| EstimateRequests.EstimateList.AddDiskEstimate | client-src/sendsize.c:606-727 | A new disk is put in front with its levels and dates; a known disk only gets more levels; true exactly for a new disk with levels. |
| EstimateRequests.RequestsMerged | client-src/sendsize.c:658-705 | After all requests each disk has one entry, and its levels are exactly those asked for in any request, cut to the valid range. |
| EstimateRequests.MergedDates | client-src/sendsize.c:707-724 | An entry's dates are those of the disk's first request: for each level the latest dump of a lower one if dates are used, and 0 if not. |
| EstimateRequests.LastServer | client-src/sendsize.c:668-705 | Whether the server could do an estimate is what the last request for that disk and level says. |
| EstimateRequests.NewestInFront | client-src/sendsize.c:680-683 | Of two disks, the one that was asked for first comes later in the list. |
| InfoEndScan.ScanExact | amandad-src/amandad.c:1461-1487 | For every way of cutting a NUL-free stream into reads, the text is seen exactly when the stream so far contains it. |
| InfoEndScan.ScanSound | amandad-src/amandad.c:1461-1487 | In any stream it is seen only if it is there. |
| InfoEndScan.CutsDoNotMatter | amandad-src/amandad.c:1461-1487 | Two ways of cutting the same NUL-free stream give the same answer. |
| InfoEndScan.SeenExactly | amandad-src/amandad.c:1461-1487 | For any bytes and any cuts: the text is seen if and only if some read has an occurrence in its own bytes and the 21 before, with no NUL before it there. |
| InfoEndScan.NulHides | amandad-src/amandad.c:1467-1476 | A NUL in a read or in the bytes kept from before it hides all text that does not end before it; one kept from before hides everything from that read. |
| ErrorLines.SplitUnique | amandad-src/amandad.c:1342-1367 | Lines and an unfinished rest are the only way to cut a text at its newlines. |
| ErrorLines.RelayExact | amandad-src/amandad.c:1300-1368 | For every way of cutting a NUL-free stream into reads, the reply gets one error line for each complete line, in order, and the unfinished line is kept. |
| ErrorLines.MessagesAre | amandad-src/amandad.c:1346-1357 | Each line makes one message: the prefix, the line, a newline, in order. |
| ErrorLines.ReplyBuffer.Expand | amandad-src/amandad.c:867-889 | Keeps the contents, leaves room for the request and a terminator, reports exactly whether it grew, and grows to the first doubling that is enough. |
| ErrorLines.ReplyBuffer.Append | amandad-src/amandad.c:1353-1357 | The contents grow by the data and a byte stays spare. |
| ConnectReply.ConnectTranslated | amandad-src/amandad.c:1078-1122 | For every list of tags and handles, the CONNECT line is sent with each handle replaced by its stream's number or -1, and all that follows is unchanged. |
| ConnectReply.GivenOnce | amandad-src/amandad.c:1536-1573 | A handle that is named again gets -1: no stream is given out twice. |
| ConnectReply.AssignedExactly | amandad-src/amandad.c:1536-1573 | Each handle becomes the number of its stream exactly if it is one of 50 to 52, the security layer has a stream for it, and no earlier pair names it, and -1 otherwise; exactly the streams so named are set up. |
| ConnectReply.ConnectBroken | amandad-src/amandad.c:1100-1119 | A line that ends with a tag without a handle is sent as far as it goes, followed by the whole reply as it was. |
| ConnectReply.ConnectReplies | amandad-src/amandad.c:1074-1116 | A reply with a CONNECT line, whatever blanks and newlines come before and within it, is sent as CONNECT, what becomes of the line, and what follows it. |
| ConnectReply.OtherReplies | amandad-src/amandad.c:1082-1119 | Any other reply is sent unchanged and sets up no stream. |
| ServiceProtocol.StreamsAfterAck | amandad-src/amandad.c:1189-1225 | In every run a stream is accepted or written to only after an ACK that came after a REP. |
| ServiceProtocol.RepsIdentical | amandad-src/amandad.c:1138-1153 | All REPs of a service are the same. |
| ServiceProtocol.RepsBounded | amandad-src/amandad.c:1168-1187 | At most max(1, rep-tries) REPs plus one per request repeated while the ACK is awaited; while it is, exactly one more than timeouts and such requests. |
| ServiceProtocol.DataAfterInfo | amandad-src/amandad.c:1211-1221 | No byte of a sendbackup's data is passed on before its messages passed on contain the end of the information. |
| ServiceProtocol.DataReadExactly | amandad-src/amandad.c:1478-1483 | While its data stream is open, a sendbackup's data is read exactly if NUL-free messages passed on contain that. |
| ServiceProtocol.EndsExactly | amandad-src/amandad.c:1420-1459 | In every run, a service with open streams can still come to an end if and only if a pipe with an open stream is read. |
| ServiceProtocol.StuckExactly | amandad-src/amandad.c:1446-1483 | It cannot exactly if it is a sendbackup whose message and index streams have ended or were never there before its information was seen to end; its data stream is open and unread then. |
| ServiceProtocol.AlwaysSpare | amandad-src/amandad.c:867-889 | In every run a byte stays spare in the reply buffer. |
| ServiceProtocol.ReadErrorIsReceive | amandad-src/amandad.c:1300-1368 | Reading stderr line by line into the reply is the relay that does not depend on how the stream is cut. |
| ServiceHistory.SaysWhatItHeard | amandad-src/amandad.c:948-1257 | In every run, from the inputs alone: the reply collected is the data read, a prefixed line for each line finished on standard error, and the failure message, in order; and the whole sequence of acknowledgements, refusals, partial replies, REPs, accepted streams and forwarded data is what these inputs make the service send. |
| ServiceHistory.RepSays | amandad-src/amandad.c:1055-1153 | Every REP of a run is made from the reply that was collected by the end of the reply pipe. |
| ServiceHistory.RepIsWhatWasWritten | amandad-src/amandad.c:1082-1121 | Where the service writes nothing on standard error, does not fail and asks for no streams, every REP is the data read from its reply pipe as a C string. |
| ServiceHistory.GoneExactly | amandad-src/amandad.c:1168-1257 | In every run a service is given up with exactly these inputs: a broken or late reply, the last timeout, an ACK with no stream left, the last stream's end, or a pipe or stream that breaks. |
| ServiceHistory.OpenExactly | amandad-src/amandad.c:1199-1245 | Its open streams are exactly those that the REP names, that were accepted, and that have not ended. |
| ServiceHistory.StreamsUnchanged | amandad-src/amandad.c:1432-1493 | What is passed on of each stream is what was read from its pipe and could be written, in order. |
| ServiceHistory.DataReadFor | amandad-src/amandad.c:1461-1487 | While its data stream is open, a sendbackup's data is read exactly if the end of its information was seen in the reads of its messages, whatever bytes they have. |
| ActiveService.ActiveService.StateMachine | amandad-src/amandad.c:747-810 | The loop over states does exactly what the protocol function says for a packet, a timeout or something on the reply pipe. |
| ActiveService.ActiveService.SRepWait | amandad-src/amandad.c:897-1048 | A repeated request is acknowledged, other packets refused; data is collected; at the end errors and the failure message are added. |
| ActiveService.ActiveService.SProcessRep | amandad-src/amandad.c:1055-1132 | The REP is made from the collected reply and the number of tries is set. |
| ActiveService.ActiveService.SAckWait | amandad-src/amandad.c:1160-1257 | A timeout or a repeated request leads to another REP or the end; the ACK opens the streams. |
| ActiveService.ActiveService.ErrfdRecv | amandad-src/amandad.c:1300-1368 | Adds each complete line on stderr to the reply. |
| ActiveService.ActiveService.ProcessReadNetFd | amandad-src/amandad.c:1420-1502 | Data, an end or an error on a pipe has exactly the effect of the protocol function. |
| ActiveService.Search | amandad-src/amandad.c:1472-1472 | Finds the text exactly if it occurs. |
| ServiceQueue.RequestUnderstood | amandad-src/amandad.c:646-663 | Every request with a service name and arguments is parsed to exactly these. |
| ServiceQueue.ParseExactly | amandad-src/amandad.c:643-663 | A text is taken for a request exactly if it is the word SERVICE, a name and arguments, with blanks before and between as the code passes over them. |
| ServiceQueue.AnsweredExactly | amandad-src/amandad.c:665-740 | After any events, every request is answered as the code says: invalid, not allowed, not executable, acknowledged exactly if it is running already, or started; only a start changes the queue. |
| ServiceQueue.RepeatAcknowledged | amandad-src/amandad.c:684-694 | A request that was started is acknowledged when it comes again, and does not start a second time. |
| ServiceQueue.Server.ProtocolAccept | amandad-src/amandad.c:557-740 | A request that repeats a running one is acknowledged and starts nothing; others are refused or started as the code says, and the queue stays without duplicates. |
| ServiceQueue.NoTwoAlike | amandad-src/amandad.c:684-694 | Whatever arrives and ends, no two services run with the same program and arguments, and only allowed ones run. |
| Quoting.QuoteRoundTrip | common-src/util.c:448-642 | Unquoting inverts quoting for every string. |
| Quoting.QuotedFound | common-src/amanda.h:567-578 | Skipping a quoted string stops exactly behind it. |
| Quoting.LineRead | common-src/file.c:413-478 | A line with a quoted string is read whole, whatever bytes the string had. |
| Quoting.QuotedExactly | common-src/util.c:448-545 | A string is written without quotes exactly if it is not empty and has only visible ASCII characters other than colons, quotes and backslashes; nothing that is written has a newline. |
| Quoting.OctalRead | common-src/util.c:622-634 | Three octal digits stand for one char, left out if it is 0, and the byte after them is copied whatever it is. |
| Quoting.LinesJoined | common-src/file.c:428-440 | A newline after a backslash outside quotes joins two lines. |
| AmandatesStore.LookupFinds | client-src/amandates.c:204-241 | Looking a name up keeps the list strictly sorted and makes the name be found. |
| AmandatesStore.EnterDates | client-src/amandates.c:251-278 | The date of that name and level becomes the later of the known and the given one; no other date differs. |
| AmandatesStore.DatesAreLatest | client-src/amandates.c:251-312 | After any records each name's date for a level is the latest that was given or imported, in whatever order. |
| AmandatesStore.ImportedIsLatest | client-src/amandates.c:364-371 | The imported date is the latest that was recorded for the level, or the epoch. |
| AmandatesStore.LessExactly | client-src/amandates.c:217-223 | The order of the list is that of the first byte in which two names differ, or of which ends first. |
| AmandatesFile.WrittenIsRead | client-src/amandates.c:112-140 | Every sequence of records reads back from its text as the same sequence. |
| AmandatesFile.OneDateText | client-src/amandates.c:166-176 | A date is written as one line: the quoted name, the level and the date, with a blank between. |
| AmandatesFile.LineUnderstood | client-src/amandates.c:112-140 | A line of a name, a level and a date is read with any white space before and between them, whatever follows; one whose level is out of range is passed over. |
| AmandatesFile.LinePassedOver | client-src/amandates.c:116-135 | A line with fewer fields is passed over. |
| AmandatesFile.LoadedDates | client-src/amandates.c:112-176 | What is loaded from a saved table: the same dates, or later imported ones for a name that has any. |
| AmandatesFile.LoadInvertsSave | client-src/amandates.c:112-176 | A saved table with all imported dates in it loads to the same dates. |
| Amandates.SerializeGrows | client-src/amandates.c:167-176 | A table with no date earlier is not shorter when written. |
| Amandates.SessionSaves | client-src/amandates.c:161-177 | A session on a saved table leaves exactly a saved table: rewriting in place without truncation leaves nothing of the old text. |
| Amandates.ReloadedSession | client-src/amandates.c:112-188 | Loading the file that a session left, with the same dump records, gives exactly the dates in memory at the session's end. |
| Amandates.ChangesExactly | client-src/amandates.c:282-312 | A session writes the file exactly if one of its updates, when it came, had a good level and a date no earlier than the known one, or a new name for which dump had recorded something. |
| Amandates.FileAlwaysSaved | client-src/amandates.c:48-188 | After any sessions on an empty file it is exactly the text of one table, with no date earlier than after fewer sessions. |
| Amandates.Store.Start | client-src/amandates.c:48-149 | Loads any file as the parser and the table say, and clears the flag. |
| Amandates.Store.LookupEntry | client-src/amandates.c:204-241 | Finds or inserts the entry and sets the flag exactly if dates were imported. |
| Amandates.Store.ImportDumpdates | client-src/amandates.c:318-374 | A new entry's dates are the latest that dump recorded. |
| Amandates.Store.UpdateOne | client-src/amandates.c:282-312 | Updates the table and sets the flag exactly if the date was accepted or dates were imported. |
| Amandates.Store.Finish | client-src/amandates.c:152-188 | Writes the table over the beginning of the file exactly if the flag is set. |
| Semaphore.NoLostWakeups | common-src/amsemaphore.c:59-123 | In every interleaving a thread that waits without having been signalled has nothing to be signalled for. |
| Semaphore.AllServed | common-src/amsemaphore.c:72-123 | Where the value covers what waiting threads want together, each has been woken and goes through, in whatever order they run; afterwards exactly their total is gone. |
| Semaphore.ServedInEveryRun | common-src/amsemaphore.c:72-123 | So in every run from a semaphore that nobody waits for. |
| Semaphore.EmptyServed | common-src/amsemaphore.c:115-123 | A thread inside wait_empty goes through whenever it tests while the value is at most 0. |
| Semaphore.ReturnsExactly | common-src/amsemaphore.c:72-123 | A thread leaves wait_empty exactly if the value is at most 0 when it tests, and decrement exactly if its amount is there, which it takes then; nothing else lets a thread in or out. |
| Semaphore.ValueExactly | common-src/amsemaphore.c:65-113 | What each event makes of the value; an increment of 2^31 or more takes 2^32 less than it. |
| Semaphore.ValueAccounted | common-src/amsemaphore.c:65-98 | With increments and decrements alone, the value is the start plus increments less completed decrements, and never negative. |
| Semaphore.LargeIncrement | common-src/amsemaphore.c:65-70 | An increment adds its amount exactly if that is below 2^31. |
| Semaphore.Sem.AdjustBy | common-src/amsemaphore.c:87-98 | Changes the value and wakes exactly those threads that the code broadcasts to. |
| Semaphore.Sem.Take | common-src/amsemaphore.c:78-84 | One pass of decrement: waits if the amount is not there, else takes it and wakes those that wait for empty. |
| Features.Exchange | common-src/amfeatures.c:378-463 | A set printed by a version with m bytes and read by one with k has feature n exactly if n < 8 min(m, k) and the sender had it. |
| Features.RefusedExactly | common-src/amfeatures.c:417-463 | A text is refused exactly if it is UNKNOWNFEATURE or has a character that is not hexadecimal among those used. |
| Features.ReadExactly | common-src/amfeatures.c:417-463 | What is read from a text that is not refused, byte by byte: two digits each, the higher first; bytes without two digits are 0. |
| Features.CapitalsToo | common-src/amfeatures.c:417-463 | Capital letters are read like small ones. |
| Features.MaskIsShift | common-src/amfeatures.c:282-300 | Feature n is bit n % 8 of byte n / 8, counted from the lowest. |
| Features.FeatureSet.Add | common-src/amfeatures.c:282-300 | Adds exactly the feature named, if it is in range, and changes no other. |
| Features.FeatureSet.Remove | common-src/amfeatures.c:315-333 | Removes exactly the feature named and changes no other. |
| Features.FeatureSet.Has | common-src/amfeatures.c:347-364 | True exactly for the features in the set. |
| Features.FeatureSet.ReadString | common-src/amfeatures.c:417-463 | Reads a text into an empty set as the parser says. |

## Left out

- Real I/O errors, memory, signals, fork and exec, sockets and file descriptors: files and pipes are byte sequences, waiting and probing are steps.
- Archive reading: callbacks are assumed to return TRUE (a result is dropped in the code), and start and finish callbacks to be given; which files are ignored is a function of number and name; after an attribute has been freed too early the read is not followed further.
- Archive header versions: `sscanf` is modelled for the magic text, one space and a decimal number, without signs or runs of blanks.
- The file pointer that the reader keeps between records is looked up anew in the model; it is always the file of that number.
- The read-ahead choice after a seek: its flag is never set.
- AmarOffset.ReadFromHeader: is stated for reads that mistake no record from the offset on; ConfusionFromHeader says what the others do.
- AmarMisreading.RightExactly: for minimum sizes that keep back data of mistaken records, whether the caller is told the right things depends on the data; AlwaysRightExactly says when it is for all data.
- Link lock: the temporary file of each process and the second look at inodes after a failed link, which finds nothing when nobody locks twice; reuse of pids; more than one resource.
- LnLock.LockDir.Lock: is for a directory that other processes leave alone in the meantime, and sleeps only so often; what others do while it waits is part of LockProtocol.
- The estimate programs that a child runs, scripts, and the error exit when wait or fork fails.
- EstimateRequests.EstimateList.AddDiskEstimate: the failure to open the amandates file is left out, and the device and quoting fields.
- amandad: data from the server to a service's pipes, authentication of accepted streams (the code releases handles there that were never registered), the KENCRYPT state beyond dropping its line before a CONNECT line, and killing the process of a deleted service.
- Requests: configuration errors, closed connections and packets other than requests, which are refused or dropped before anything is parsed.
- The reply is a byte sequence with a length: the code appends error lines without a terminator and later prints the buffer as a C string.
- Stray reads of the data pipe of a sendbackup that named no DATA stream.
- EstimateRequests.ParseMaxdumps: takes the numbers that `sscanf` finds in the options; the options' text is not scanned.
- Amandates.Store.ImportDumpdates: /etc/dumpdates and the dates in it are not parsed (see amandates below).
- `atoi` with leading blanks or a plus sign, and numbers beyond the C types.
- amandates: locking, the parsing of /etc/dumpdates and of dates in it, and of names into device names; what dump recorded is a function of the name that stays the same during a session.
- A table line that was not written by this code is parsed as the code does, but rewriting in place is proved only for files that hold a saved table.
- The semaphore's value is unbounded; overflow of int is not modelled.
- Semaphore.Sem.Take: is one pass of the loop in decrement; the interleaving of passes is in Semaphore.Step.
- `quote_string` takes bytes of 128 and more as negative, as on machines with signed char.
- `file_lock_*` in amflock.c, the amarchiver command, amstar and amgtar, security drivers, selfcheck, the dump-output tables.
