# A verified model of USBPcap

USBPcap captures USB traffic: a filter driver stores packets in a ring inside the kernel, a
worker process reads the ring, filters what it reads and writes a capture file, and a service
runs captures on request and analyzes the files. This project models the parts of it that carry
its guarantees and proves those guarantees in Dafny.

The main results:

- **Packets to records.** For every interleaving of packet stores, reads, resizes, cancellations
  and handle operations, and for every way the worker's reads are split, the capture file reads
  back as the injected descriptor records followed by exactly the wanted packets among those fully
  delivered, in store order and as supplied (`CaptureFile.StoredPacketsAreRead`). With a filter,
  or when output waits for a match, the worker parses, writes whole records only, and the file
  ends cleanly (`Pipeline.EndToEnd`). With neither it passes bytes through, and the file may end
  in part of a record; then the end is clean exactly when that part is empty or a bare record
  header (`Pipeline.EndToEndPassThrough`). The worker as a class, run over all chunks, writes that
  file on either path, with no 32-bit arithmetic wrapping around (`WorkerRun.WriteCapture`). Where
  the output cannot be opened, no path writes anything (`Pipeline.NoFile`). A packet is accepted
  exactly when its record fits (`PacketStore.StoredWhenItFits`, `CaptureFile.AcceptedWhenItFits`),
  and `SessionLaws` says what every request to the device moves.
- **Argument permutation.** `getopt_long` in permute mode sorts every argument vector exactly when
  there are long options or `-` is among the option letters, and then a run reports what a plain
  scan of the untouched vector reports (`Getopt.PromiseExactly`, `Getopt.RunIsScan`), on top of
  the number theory of the in-place block exchange (`Permute.PermuteArgs`). What is reported is
  what was written: any command line of options in their several forms, operands and a double dash
  reads back as itself (`GetoptWritten.RunReadsWritten`).
- **Device tree.** The iterative walks equal recursive preorder numbering
  (`DeviceTree.ListingIsPreorder`, `DeviceTree.PrintDeviceDesc`).
- **Capture tasks.** Over all interleavings of requests, shutdowns included, the history lists the
  last ended tasks without a gap (`CaptureService.ProtocolSafety`), and unless a shutdown comes
  over an active capture, one capture runs at a time (`CaptureService.OneAtATime`), with the exact
  role of shutdown, of stale monitors and of forgotten tasks. Every ended task has the status and
  the error code of what its run came to (`CaptureService.EndsAsItRan`).
- **Isochronous compaction**, **file statistics** and the **address list** keep what they are for
  (`Isochronous.CompactionExact`, `Analysis.AnalysisConserves`, `AnalysisLaws.LineMeaning`,
  `AddressFilter.FilterMatches`).

## Layout

| files | part of the program |
|---|---|
| `Bytes`, `Pcap`, `Sequences`, `Wrappers` | bytes, the capture file layout, sequence facts, shared datatypes |
| `PacketStore`, `RingBuffer` | what storing a packet means; the ring as a class |
| `CaptureSession`, `SessionLaws`, `ControlDevice` | the control device as a state machine; what each request does; its handlers as a class |
| `Isochronous`, `TransferCapture`, `Descriptors` | producers of packets and records |
| `StreamFilter`, `StreamLaws`, `Worker` | the stream parser, its laws, and `process_data` as a class |
| `Pipeline`, `WorkerRun` | driver and worker composed; the worker run on what a session delivers |
| `CaptureReader`, `CaptureFile` | the file reader; packets to records |
| `Tally`, `Analysis`, `AnalysisLaws` | counting into maps; the statistics of a file; what they count |
| `Permute`, `Getopt`, `GetoptScanner` | the block exchange; the scanner's meaning; the scanner as a class |
| `GetoptWritten` | command lines as written, and that a run reads them back |
| `DeviceTree` | the device tree walks |
| `CaptureService`, `CaptureServer` | the task protocol; the service's locked methods as a class |
| `AddressFilter` | the address filter, its list and its printer |

Code that updates state in place is a class whose methods are proved against functions of the
state; the theorems are about those functions. `dafny verify dfyconfig.toml` checks everything.

## Premises

- Each dispatch routine, and each critical section under the ring's spin lock or the service's
  mutex, is one step. A cleanup is two, the queue and then the filter and ring.
- The I/O manager: a file object is created once, cleaned up before it is closed, and receives no
  further requests after cleanup; request ids are fresh. Whether a request's memory can be mapped,
  whether an allocation succeeds and whether an output file opens are parameters. In immediate
  mode the file is opened by `start_capture` before the worker starts.
- `CaptureSession.Honest`: packets supply at least the payload bytes they announce.
  `TransferCapture.HonestExactly` shows when the driver's control, bulk and interrupt transfers
  do, `Isochronous.CompactedHonest` that compacted isochronous transfers do. Without it the ring
  accepts incomplete records, as the check subtracts the record header's 16 bytes too
  (`PacketStore.ShortfallExactly`).
- `RunStaysAwake` needs a single outstanding read, as the worker keeps to. `RunStarvesExactly` says
  when a read is left waiting otherwise, and `TwoReadersStarve` is a run in which one is.
- `StoredPacketsAreRead` asks that every accepted packet's included length be at most the reader's
  64 MiB. A snapshot length of at most 64 MiB, such as the default 65535, implies it.
  `CaptureFile.OnePacketRun` is a run that meets the premises, for any honest packet.
- `atoi` on a number beyond `int` does not come out as an address from 0 to 127, as when it
  saturates; the C standard leaves the result open. Lists whose numbers fit an `int` need no such
  premise.
- No long option has the value -1, which `getopt_long` reserves for the end of the options
  (`Getopt.NoReservedValue`).
- The device tree does not change during a walk, and sibling and parent queries fail only for a
  missing node. Reading the driver property may fail in any way.
- `HistoryOk` rests on a clock that does not go back. Task counters, packet counters and file
  offsets of 64 bits do not wrap. `int` is 64 bits wide in the reader.
- In `Isochronous` the transfer buffer is mapped and the packets' source ranges lie inside it. The
  driver does not test the mapping there and would add the offsets to a null pointer.

Where the code does not do what one would expect, the model follows the code and a lemma says so:
a file that ends right after a record header ends cleanly (`CaptureReader.CleanEndExactly`), an
endpoint's least length is taken after its last empty packet (`Analysis.AccumMeaning`), a
comment in `USBPcapCMD/thread.c:492-495` says output handles are opened lazily in both store
modes, but the pass-through path writes without opening one, a monitor may stop a later capture
(`CaptureService.StaleMonitor`), and a task that has to wait can be forgotten by the server and
run all the same (`CaptureService.ForgottenCapture`).

## Model

| member | source | states |
|---|---|---|
| `CaptureFile.StoredPacketsAreRead` | USBPcapAI/internal/pcap/reader.go:105-145 | after any run of stores, reads and resizes from boot, and however the worker's reads are split, the worker's file opens and reads back as the descriptor records followed by exactly the wanted ones of the first k accepted packets, as supplied, k being the records delivered in full; on the parsing path to a clean end, on the pass-through path exactly when what is delivered of the next record is nothing or a bare record header |
| `Pipeline.EndToEnd` | USBPcapCMD/thread.c:328-457 | with a filter or in on-match mode: the worker's output is the session's global header, the descriptors and exactly the matching ones of the fully delivered records, in store order; k is fixed by the bytes delivered; nothing if the output cannot be opened |
| `Pipeline.EndToEndPassThrough` | USBPcapCMD/thread.c:332-365 | without a filter in immediate mode, over any split into chunks: the header, the descriptors, the fully delivered records and the delivered part of the next; nothing if the file could not be created beforehand |
| `Pipeline.NoFile` | USBPcapCMD/thread.c:285-315 | a worker whose output cannot be opened writes nothing, on either path and over any split |
| `Pipeline.PendingBounded` | USBPcapCMD/thread.c:29-65 | before every read of at most the largest ring size: pending and chunk together stay below twice that size, and no announced length overflows 32 bits |
| `WorkerRun.RunIsBounded` | USBPcapCMD/thread.c:29-65 | so the bounds hold before each read of any session, however it is split into reads no longer than the largest ring |
| `WorkerRun.WriteCapture` | USBPcapCMD/thread.c:563-582 | the worker class, started afresh and run over the chunks of a session, writes the file of either path, output opened or not; it ends early only on the parsing path, in front of a chunk for which the buffer cannot grow |
| `CaptureFile.RecordsAreAccepted` | USBPcapDriver/USBPcapBuffer.c:580-618 | the records in the ring are those of the accepted packets since it was created, in order |
| `CaptureFile.TracksStep` | USBPcapDriver/USBPcapBuffer.c:544-619 | each single event keeps that correspondence |
| `CaptureFile.AcceptedWhenItFits` | USBPcapDriver/USBPcapBuffer.c:580-588 | an honest packet is among the accepted exactly when there is a ring with room for its record; no packet that fits is dropped |
| `CaptureFile.OnePacketRun` | USBPcapDriver/USBPcapBuffer.c:393-457 | a run the theorem applies to, in which one packet of any kind is stored and read |
| `CaptureFile.MatchesIsWanted` | USBPcapCMD/thread.c:99-156 | the application filter on a stored record decides as it would on the packet handed to the driver, cut included, and the record decodes to that packet |
| `CaptureFile.KeptAreWanted` | USBPcapCMD/thread.c:414-449 | filtering records and then parsing them equals filtering packets and then describing them |
| `CaptureFile.FileOfRecords` | USBPcapAI/internal/pcap/reader.go:105-145 | descriptor records and capture records in one file read back as both lists |
| `CaptureFile.ReadWhole` | USBPcapAI/internal/pcap/reader.go:105-145 | a stream of whole records that are short enough reads back record for record to a clean end |
| `RingBuffer.RootHubData.GetBufferFree` | USBPcapDriver/USBPcapBuffer.c:13-52 | free plus unread is the size minus one, zero without a buffer |
| `RingBuffer.RootHubData.GetBufferAllocated` | USBPcapDriver/USBPcapBuffer.c:54-80 | the number of unread bytes |
| `RingBuffer.AppendStraight` | USBPcapDriver/USBPcapBuffer.c:89-97 | a write that stays before the end appends to the unread window |
| `RingBuffer.AppendAround` | USBPcapDriver/USBPcapBuffer.c:98-116 | a write in two copies around the end appends to the unread window |
| `RingBuffer.TakeStraight` | USBPcapDriver/USBPcapBuffer.c:176-201 | a contiguous read takes the front of the window |
| `RingBuffer.TakeAround` | USBPcapDriver/USBPcapBuffer.c:202-218 | a read in two copies around the end takes the front of the window |
| `RingBuffer.RootHubData.WriteUnsafe` | USBPcapDriver/USBPcapBuffer.c:82-117 | the data is appended to the unread bytes |
| `RingBuffer.RootHubData.Write` | USBPcapDriver/USBPcapBuffer.c:124-142 | all of the data is appended or none, with the status of each case |
| `RingBuffer.RootHubData.Read` | USBPcapDriver/USBPcapBuffer.c:149-222 | the oldest bytes, as many as fit, move to the destination and leave the ring |
| `RingBuffer.RootHubData.SetUp` | USBPcapDriver/USBPcapBuffer.c:247-308 | size limits, creation with the global header, resizing that keeps the unread bytes |
| `RingBuffer.RootHubData.SetSnaplen` | USBPcapDriver/USBPcapBuffer.c:310-334 | only a non-zero length and only while no ring exists |
| `RingBuffer.RootHubData.RemoveBuffer` | USBPcapDriver/USBPcapBuffer.c:340-363 | the ring is gone |
| `RingBuffer.RootHubData.CountMissing` | USBPcapDriver/USBPcapBuffer.c:566-571 | how many wanted payload bytes the entries do not supply |
| `RingBuffer.RootHubData.WriteEntries` | USBPcapDriver/USBPcapBuffer.c:605-616 | the leading payload bytes, as many as asked for or supplied, are appended |
| `RingBuffer.RootHubData.WriteRecord` | USBPcapDriver/USBPcapBuffer.c:590-616 | record header, cut packet header and cut payload are appended as one record |
| `RingBuffer.RootHubData.StorePacket` | USBPcapDriver/USBPcapBuffer.c:544-619 | one record is appended or nothing, as PacketStore.StoreInRing says, which PacketStore.StoreExactly explains |
| `RingBuffer.RootHubData.StoreIfRoom` | USBPcapDriver/USBPcapBuffer.c:580-618 | its part behind the check: the record is appended when there is room for it |
| `PacketStore.StoredFraming` | USBPcapDriver/USBPcapBuffer.c:519-538 | a stored record is whole exactly when the payload is long enough; included length and original length are as announced |
| `PacketStore.StoreExactly` | USBPcapDriver/USBPcapBuffer.c:544-619 | which packets are stored and why others are refused, by the lengths their records announce; a refused one changes nothing and a stored one adds its record and nothing else |
| `PacketStore.StoredWhenItFits` | USBPcapDriver/USBPcapBuffer.c:580-588 | a packet that supplies its payload is stored exactly when there is a ring and its record leaves a byte of it free |
| `PacketStore.TimestampParts` | USBPcapDriver/USBPcapBuffer.c:525-526 | seconds and microseconds since the Unix epoch, from ticks of 100 ns since 1601 |
| `PacketStore.AnnouncedLengths` | USBPcapDriver/USBPcapBuffer.c:528-538 | the original length is that of header and payload, the included length as much of it as the snapshot length allows |
| `PacketStore.StoredBytes` | USBPcapDriver/USBPcapBuffer.c:590-616 | the stored bytes are the leading ones of header and payload, as many as announced |
| `PacketStore.SetUpExactly` | USBPcapDriver/USBPcapBuffer.c:247-308 | a ring is created or resized exactly for 4 KiB to 128 MiB, with memory and with room for what is unread; every other case and its status |
| `PacketStore.DataLengthSuffices` | USBPcapDriver/USBPcapBuffer.c:563-578 | entries supplying the data length supply enough under every snapshot length |
| `PacketStore.CheckMissesShortfall` | USBPcapDriver/USBPcapBuffer.c:564-566 | a packet that passes the check and is stored as an incomplete record |
| `PacketStore.ShortfallExactly` | USBPcapDriver/USBPcapBuffer.c:563-578 | a packet n bytes short passes the check exactly when n is at most 16, and is never stored whole |
| `PacketStore.GatherNext` | USBPcapDriver/USBPcapBuffer.c:568-571 | one step of the loops over the payload entries |
| `PacketStore.GatherIsJoin` | USBPcapDriver/USBPcapBuffer.c:605-616 | the payload is that of the entries before the NULL one, end to end |
| `CaptureSession.RunKeepsInv` | USBPcapDriver/USBPcapGenReq.c:72-91 | session, reads and stream stay in order along every legal run |
| `CaptureSession.RunFromBoot` | USBPcapDriver/USBPcapGenReq.c:45-91 | hence they hold after every run from power-up |
| `CaptureSession.SessionStep` | USBPcapDriver/USBPcapGenReq.c:45-91 | a ring and pended reads exist only while their capture handle is open |
| `CaptureSession.ReadsStep` | USBPcapDriver/USBPcapGenReq.c:141-175 | every read issued is completed once or still pended, never both |
| `CaptureSession.StreamStep` | USBPcapDriver/USBPcapBuffer.c:149-222 | delivered bytes and unread bytes together are the global header and all accepted records |
| `CaptureSession.CaptureHandle` | USBPcapDriver/USBPcapGenReq.c:45-91 | the handle is taken while free and freed when its owner closes it, and changes hands in no other way; other files' requests change nothing |
| `CaptureSession.SnaplenFixed` | USBPcapDriver/USBPcapBuffer.c:310-334 | while a ring exists its snapshot length is fixed and its stream only grows |
| `CaptureSession.RunStaysAwake` | USBPcapDriver/USBPcapBuffer.c:462-517 | with one read outstanding at a time no reachable state leaves a read waiting while the ring holds data |
| `CaptureSession.StarvesExactly` | USBPcapDriver/USBPcapBuffer.c:462-517 | a packet stored while reads wait on an empty ring leaves one waiting beside data exactly when there are two and the first fails or is shorter than the record |
| `CaptureSession.StarvesNext` | USBPcapDriver/USBPcapBuffer.c:462-517 | no other event does, from any state in which none waits beside data |
| `CaptureSession.RunStarvesExactly` | USBPcapDriver/USBPcapBuffer.c:462-517 | so a whole run leaves no read waiting beside data exactly when none of its stores meets that condition |
| `CaptureSession.TwoReadersStarve` | USBPcapDriver/USBPcapBuffer.c:474-480 | a run from power-up, with any packet that is accepted, after which a second read waits beside data |
| `CaptureSession.RunKeepsWhole` | USBPcapDriver/USBPcapBuffer.c:580-618 | with honest producers every record in the ring is whole |
| `CaptureSession.DeliveredRecords` | USBPcapDriver/USBPcapBuffer.c:149-222 | the delivered bytes are the header, the first k records and part of the next |
| `SessionLaws.OnlyTheOwner` | USBPcapDriver/USBPcapDeviceControl.c:54-126 | control requests and reads of a handle that does not own the capture are denied and change nothing |
| `SessionLaws.SnaplenRule` | USBPcapDriver/USBPcapBuffer.c:310-334 | the snapshot length is set by a request of the owner for a non-zero one while there is no ring, and by nothing else |
| `SessionLaws.ReadExactly` | USBPcapDriver/USBPcapBuffer.c:393-457 | what becomes of a read of the owner: served at once from the front of the ring with as much as fits, put behind the waiting ones, or failed |
| `SessionLaws.StoreWakesOldest` | USBPcapDriver/USBPcapBuffer.c:462-517 | a stored packet completes the oldest waiting read, with as much of the unread bytes as fits or, where its memory cannot be mapped, with none, and takes what it was given off the ring |
| `SessionLaws.RefusedStore` | USBPcapDriver/USBPcapBuffer.c:621-641 | a packet that is not stored completes no read |
| `SessionLaws.CancelExactly` | USBPcapDriver/USBPcapQueue.c:104-111 | a cancelled read that waits leaves the queue alone; another is left alone |
| `SessionLaws.CleanupExactly` | USBPcapDriver/USBPcapGenReq.c:72-84 | cleanup of the owner cancels every waiting read, oldest first, and then removes filter and ring; that of another does nothing |
| `SessionLaws.FilterInForce` | USBPcapDriver/USBPcapDeviceControl.c:80-108 | over any run a filter that was set is in force until the owner sets or clears it again |
| `ControlDevice.ControlDevice.HandleCreate` | USBPcapDriver/USBPcapGenReq.c:45-69 | only one handle with read access |
| `ControlDevice.ControlDevice.PeekNextIrp` | USBPcapDriver/USBPcapQueue.c:32-75 | the first pended request of the file |
| `ControlDevice.ControlDevice.CleanUpQueue` | USBPcapDriver/USBPcapQueue.c:113-139 | the file's requests, and only those, are removed and cancelled in order |
| `ControlDevice.ControlDevice.HandleCleanupQueue` | USBPcapDriver/USBPcapGenReq.c:72-77 | cleanup of the capture handle cancels its pended reads |
| `ControlDevice.ControlDevice.HandleCleanupBuffer` | USBPcapDriver/USBPcapGenReq.c:78-84 | and clears the filter and removes the ring |
| `ControlDevice.ControlDevice.HandleClose` | USBPcapDriver/USBPcapGenReq.c:88-91 | closing the owner frees the handle |
| `ControlDevice.ControlDevice.HandleSetupBuffer` | USBPcapDriver/USBPcapDeviceControl.c:54-78 | only the capture handle, then as USBPcapSetUpBuffer |
| `ControlDevice.ControlDevice.HandleStartFiltering` | USBPcapDriver/USBPcapDeviceControl.c:80-102 | only the capture handle; the filter is replaced |
| `ControlDevice.ControlDevice.HandleStopFiltering` | USBPcapDriver/USBPcapDeviceControl.c:104-108 | only the capture handle; the filter is cleared |
| `ControlDevice.ControlDevice.HandleSetSnaplen` | USBPcapDriver/USBPcapDeviceControl.c:110-126 | only the capture handle, then as USBPcapSetSnaplenSize |
| `ControlDevice.ControlDevice.HandleRead` | USBPcapDriver/USBPcapBuffer.c:393-457 | denied, empty, failed, served or pended, with the ring and the queue after it |
| `ControlDevice.ControlDevice.CompletePendedRead` | USBPcapDriver/USBPcapBuffer.c:462-517 | the oldest pended read, and only that one, is completed |
| `ControlDevice.ControlDevice.HandleCancelRead` | USBPcapDriver/USBPcapQueue.c:104-111 | a pended read is removed and cancelled; one no longer pended is left alone |
| `ControlDevice.ControlDevice.WritePayload` | USBPcapDriver/USBPcapBuffer.c:621-641 | store, then complete one pended read if it was stored |
| `ControlDevice.ControlDevice.Dispatch` | USBPcapDriver/USBPcapGenReq.c:13-165 | each dispatch does the step of the state machine |
| `ControlDevice.ControlDevice.DispatchAll` | USBPcapDriver/USBPcapMain.c:31-49 | and a whole run of them leaves the driver, and gives the completions, that the theorems speak of |
| `Pcap.GlobalHeaderFields` | USBPcapDriver/USBPcapBuffer.c:229-245 | magic number, snapshot length and link type of the header read back |
| `Pcap.GlobalHeaderBytes` | USBPcapDriver/USBPcapBuffer.c:229-245 | the global header byte by byte |
| `Pcap.RecordHeaderFields` | USBPcapDriver/USBPcapBuffer.c:519-538 | the four fields of a record header read back |
| `Pcap.PacketHeaderLayout` | USBPcapDriver/include/USBPcap.h:99-113 | where the fields of a packet header lie |
| `Bytes.LittleEndian` | USBPcapDriver/USBPcapBuffer.c:234-240 | numbers are stored least significant byte first |
| `Pcap.CutIsExact` | USBPcapCMD/thread.c:402-418 | cutting a stream loses nothing: whole records and a leftover without one |
| `Pcap.CutAppend` | USBPcapCMD/thread.c:374-375 | cutting what is left together with more input continues the cutting of the whole |
| `Pcap.CutJoin` | USBPcapCMD/thread.c:413-418 | cutting undoes joining |
| `Pcap.CutPrefix` | USBPcapCMD/thread.c:413-418 | of a stream cut short exactly the fully delivered records are found |
| `StreamFilter.FeedOnce` | USBPcapCMD/thread.c:377-456 | the loop on a whole input does what the input means |
| `StreamFilter.FeedIsOutcome` | USBPcapCMD/thread.c:367-456 | feeding x and then y is feeding x + y |
| `StreamFilter.ChunkIndependence` | USBPcapCMD/thread.c:367-456 | any way of splitting an input gives the same output, dropped count, trigger flag and leftover |
| `StreamFilter.LoopStarted` | USBPcapCMD/thread.c:423-454 | once output has begun the matching records are written in order and the others counted |
| `StreamFilter.LoopWaiting` | USBPcapCMD/thread.c:425-431 | before the first match everything is dropped; there output begins, or the parser stops in front of it |
| `StreamLaws.OutputIsFiltered` | USBPcapCMD/thread.c:423-454 | output is empty until triggered, then header, descriptors and every match in order; written plus dropped equals consumed modulo the counter's width |
| `StreamLaws.InjectedExactly` | USBPcapCMD/thread.c:179-184 | descriptors follow a global header that begins D4 C3 B2 A1 and names link type 249, and no other |
| `StreamLaws.NoOutput` | USBPcapCMD/thread.c:172-176 | a worker that cannot open its output writes nothing and keeps what it has not dropped |
| `StreamLaws.OutputIsWhole` | USBPcapCMD/thread.c:158-189 | the file holds whole records only: the injected ones, then the kept ones |
| `StreamLaws.PassIsPassed` | USBPcapCMD/thread.c:332-365 | the pass-through path is independent of the split of its input |
| `StreamLaws.PassAllIsPassed` | USBPcapCMD/thread.c:332-365 | passing any chunks on is passing their concatenation |
| `StreamLaws.PassThroughRefinesParser` | USBPcapCMD/thread.c:332-456 | the pass-through output equals the parser's output and what it still holds exactly when every record matches |
| `StreamLaws.PassThroughAgrees` | USBPcapCMD/thread.c:332-365 | so the two agree wherever the fast path is taken |
| `StreamLaws.SanePrefix` | USBPcapCMD/thread.c:413-418 | no prefix of a stream of whole records announces an overflowing length |
| `Worker.Worker.EnsurePendingCapacity` | USBPcapCMD/thread.c:29-65 | room for the chunk, contents kept, capacity below twice the need and no 32-bit overflow |
| `Worker.Worker.BeginOutput` | USBPcapCMD/thread.c:158-189 | header and descriptors once, or a stop |
| `Worker.Worker.TakeGlobalHeader` | USBPcapCMD/thread.c:379-395 | the first 24 bytes are taken off |
| `Worker.Worker.WriteMatch` | USBPcapCMD/thread.c:423-441 | what a matching record does to the output, or the stop in front of it |
| `Worker.Worker.TakePendingRecord` | USBPcapCMD/thread.c:420-454 | a record is written, dropped or skipped and shifted out |
| `Worker.Worker.ParseOnce` | USBPcapCMD/thread.c:377-456 | one turn of the loop, in terms of the whole loop |
| `Worker.Worker.ParseChunk` | USBPcapCMD/thread.c:367-456 | the parsing path equals StreamFilter.Feed, or stops when there is no memory |
| `Worker.Worker.PassChunk` | USBPcapCMD/thread.c:332-365 | the pass-through path equals StreamLaws.Pass, the stop at a failed write included |
| `Worker.Worker.ProcessData` | USBPcapCMD/thread.c:328-457 | which path is taken, and what it does |
| `Worker.Worker.ReadLoop` | USBPcapCMD/thread.c:563-582 | the parser's outcome of the chunks handed over, or the stop that want of memory caused; on the pass-through path the outcome of all of them, as a failed write ends it for good |
| `CaptureReader.Reader.Next` | USBPcapAI/internal/pcap/reader.go:103-145 | the record or error of each case, and where the cursor is left |
| `CaptureReader.Reader.ReadFull` | USBPcapAI/internal/pcap/reader.go:114-116 | the bytes asked for, or the end of file that fits what was there |
| `CaptureReader.OpenReader` | USBPcapAI/internal/pcap/reader.go:64-93 | which files are accepted and with which error others are refused |
| `CaptureReader.HeaderAccepted` | USBPcapAI/internal/pcap/reader.go:75-87 | exactly the files that begin with the magic number in either byte order and name link type 249 are accepted, by their bytes |
| `CaptureReader.LongestRecord` | USBPcapAI/internal/pcap/reader.go:110-116 | a record is too long exactly beyond 64 MiB, and read exactly when it is not and is whole |
| `CaptureReader.ParsedFields` | USBPcapAI/internal/pcap/reader.go:117-145 | every field of any record, and its payload where the header says it lies, whatever lengths the header claims |
| `CaptureReader.ReadAllIsCut` | USBPcapAI/internal/pcap/reader.go:103-145 | reading yields the whole records in order, up to the first that is too long, and reports how the stream ends |
| `CaptureReader.CleanEndExactly` | USBPcapAI/internal/pcap/reader.go:105-116 | the end is clean exactly when no record is too long and nothing, or a record header alone, follows the whole records |
| `CaptureReader.HeaderAloneIsCleanEnd` | USBPcapAI/internal/pcap/reader.go:114-116 | a file that ends right after a record header ends cleanly, one byte earlier it does not |
| `CaptureReader.RecordRoundTrip` | USBPcapAI/internal/pcap/reader.go:117-145 | device, endpoint, transfer and data length as stored; payload cut to the data length and to what fits behind the header |
| `Analysis.AccumMeaning` | USBPcapAI/internal/pcap/analyze.go:78-85 | an endpoint's count, bytes and maximum; its minimum is that of the packets after the last empty one |
| `Analysis.EndpointsStep` | USBPcapAI/internal/pcap/analyze.go:59-85 | one packet updates exactly its endpoint's entry |
| `Analysis.Accumulate` | USBPcapAI/internal/pcap/analyze.go:35-96 | the loop over the file computes the counters of the records kept, or the reader's error |
| `Analysis.ListEndpoints` | USBPcapAI/internal/pcap/analyze.go:106-129 | every endpoint once, in ascending order |
| `Analysis.Analyze` | USBPcapAI/internal/pcap/analyze.go:16-160 | header error, read error or the statistics of the records read |
| `Analysis.AnalysisConserves` | USBPcapAI/internal/pcap/analyze.go:35-159 | packet counts, histogram and buckets each sum to the records kept, endpoint bytes to the payload total; average and minimum never exceed the maximum |
| `Analysis.StatBounds` | USBPcapAI/internal/pcap/analyze.go:108-121 | average and minimum of an endpoint are at most its maximum |
| `AnalysisLaws.KeptMeaning` | USBPcapAI/internal/pcap/analyze.go:51-57 | the records counted are those with a packet header and of the device asked for |
| `AnalysisLaws.GroupMeaning` | USBPcapAI/internal/pcap/analyze.go:59-63 | those of one line are those of its endpoint and device |
| `AnalysisLaws.LineMeaning` | USBPcapAI/internal/pcap/analyze.go:106-122 | each line states number, bytes, largest and least length, direction and transfer type of its group, and the whole part of bytes over number |
| `AnalysisLaws.LengthsCounted` | USBPcapAI/internal/pcap/analyze.go:88 | the length statistics count the packets of each payload length |
| `AnalysisLaws.BucketsCounted` | USBPcapAI/internal/pcap/analyze.go:131-136 | the buckets count the packets whose length is in them |
| `AnalysisLaws.BucketBounds` | USBPcapAI/internal/pcap/analyze.go:237-256 | a length is in the bucket whose name bounds it, zero in the first |
| `AnalysisLaws.FirstBytesCounted` | USBPcapAI/internal/pcap/analyze.go:90-95 | the byte pattern counts the packets whose payload begins with each byte |
| `AnalysisLaws.TransferTypes` | USBPcapAI/internal/pcap/analyze.go:218-235 | the name of each transfer type |
| `AnalysisLaws.DurationMeaning` | USBPcapAI/internal/pcap/analyze.go:44-49 | the time from the first record to the last, each in whole milliseconds, zero if the clock went back |
| `Tally.TallyMeaning` | USBPcapAI/internal/pcap/analyze.go:87-95 | a counter holds what was added under its key |
| `Tally.TallySum` | USBPcapAI/internal/pcap/analyze.go:87-95 | all counters together hold all that was added |
| `Tally.Regroup` | USBPcapAI/internal/pcap/analyze.go:131-136 | adding each length's count to its bucket, in any order of the map |
| `Tally.RegroupedIsTally` | USBPcapAI/internal/pcap/analyze.go:131-136 | gives what counting by bucket would have given |
| `Permute.Gcd` | USBPcapCMD/getopt.c:139-152 | the loop computes Euclid's function |
| `Permute.GcdIsGreatest` | USBPcapCMD/getopt.c:139-152 | a common divisor, and every common divisor divides it |
| `Permute.OrbitDistinct` | USBPcapCMD/getopt.c:174-188 | a cycle meets no position twice before it closes |
| `Permute.OrbitCloses` | USBPcapCMD/getopt.c:172-188 | a cycle closes after (m + n) / gcd steps |
| `Permute.OrbitCovers` | USBPcapCMD/getopt.c:174-188 | a cycle reaches every position of its residue class |
| `Permute.CycleOfClass` | USBPcapCMD/getopt.c:174-188 | each residue class modulo the gcd is one cycle through its start |
| `Permute.RunCycle` | USBPcapCMD/getopt.c:175-187 | one cycle of swaps moves each entry on it one step and nothing else |
| `Permute.PermuteArgs` | USBPcapCMD/getopt.c:159-189 | the two blocks are exchanged, each in its order, and nothing else moves |
| `Getopt.MatchLongMeaning` | USBPcapCMD/getopt.c:222-245 | the first exact name wins; failing that the first abbreviation, unless another one means something else |
| `Getopt.ElementProgress` | USBPcapCMD/getopt.c:437-514 | each option uses up an argument or shortens its cluster, and when it may end the run |
| `Getopt.ScanPartitions` | USBPcapCMD/getopt.c:358-515 | a scan sorts every entry passed into options or non-options, keeping the order of each |
| `Getopt.NeverStray` | USBPcapCMD/getopt.c:459-468 | with long options or '-' among the letters no scan ends at a dash inside a cluster |
| `Getopt.FetchIsScan` | USBPcapCMD/getopt.c:361-435 | advancing over a vector that is permuted on the way agrees with a scan of the untouched one |
| `Getopt.RunIsScanFrom` | USBPcapCMD/getopt.c:324-515 | the rest of a run from any state agrees with the scan of what it has not read |
| `Getopt.RunIsScan` | USBPcapCMD/getopt.c:324-515 | a whole run reports what the plain scan reports and leaves options, non-options and rest in order with optind between them |
| `Getopt.RunIsPermutation` | USBPcapCMD/getopt.c:366-371 | no argument is lost or doubled |
| `Getopt.StrayDash` | USBPcapCMD/getopt.c:459-468 | a vector the run leaves unsorted when there are no long options and no '-' among the letters |
| `Getopt.PromiseExactly` | USBPcapCMD/getopt.c:324-515 | every vector is sorted exactly when there are long options or '-' is among the letters |
| `Getopt.GetoptLongSorts` | USBPcapCMD/getopt.c:544-551 | getopt_long, which always passes long options, sorts every vector unless the options string or POSIXLY_CORRECT turns permutation off |
| `GetoptWritten.RunReadsWritten` | USBPcapCMD/getopt.c:324-515 | round trip: a run over any command line of options, written in any of their forms, and operands reports exactly those options in order, each with the argument written, and sorts the words; after a double dash all are operands |
| `GetoptWritten.ScanWritten` | USBPcapCMD/getopt.c:358-515 | the same of a scan, whatever follows |
| `GetoptWritten.LongForms` | USBPcapCMD/getopt.c:215-218 | name=value reports value without the equals sign; name alone takes the next entry if it needs an argument, and lacks one at the end; an unwanted argument is complained of |
| `GetoptWritten.LongUnknown` | USBPcapCMD/getopt.c:246-309 | an unknown or ambiguous name is complained of, unless letters may be meant |
| `GetoptWritten.LetterForms` | USBPcapCMD/getopt.c:493-514 | a letter by the colons behind it: no argument, the rest of its word, the next word, or none left |
| `GetoptWritten.LetterUnknown` | USBPcapCMD/getopt.c:459-475 | other letters are complained of one by one; a lone dash ends the options |
| `GetoptWritten.LongBehindW` | USBPcapCMD/getopt.c:476-492 | -Wtext means what --text means |
| `GetoptWritten.LongAfterW` | USBPcapCMD/getopt.c:480-491 | so does -W text, with a word more, and -W at the end lacks its argument |
| `GetoptWritten.OneDashIsTwo` | USBPcapCMD/getopt.c:443-457 | for getopt_long_only a word that cannot be letters means after one dash what it means after two |
| `GetoptWritten.NeverPermuted` | USBPcapCMD/getopt.c:393-399 | without permutation a run leaves the vector as it is |
| `GetoptWritten.OperandInPlace` | USBPcapCMD/getopt.c:382-399 | then an operand is reported as the argument of option 1, or ends the options where it stands |
| `GetoptWritten.Configured` | USBPcapCMD/getopt.c:342-356 | what a leading plus, a leading minus and POSIXLY_CORRECT do |
| `GetoptWritten.ResetStartsAfresh` | USBPcapCMD/getopt.c:335-365 | a call after a reset is the first on what is left |
| `GetoptScanner.Scanner.FindLongOption` | USBPcapCMD/getopt.c:222-245 | the matching loop computes MatchLong |
| `GetoptScanner.Scanner.ParseLongOptions` | USBPcapCMD/getopt.c:196-318 | return value, variables set and optind as ParseLong says, which GetoptWritten.LongForms explains |
| `GetoptScanner.Scanner.TakeLongOption` | USBPcapCMD/getopt.c:254-316 | arguments, complaints and flags of the row chosen |
| `GetoptScanner.Scanner.ParseShortOption` | USBPcapCMD/getopt.c:459-514 | return value and variables as ShortOption says |
| `GetoptScanner.Scanner.ParseOption` | USBPcapCMD/getopt.c:437-514 | long or short, as Element says |
| `GetoptScanner.Scanner.FetchOption` | USBPcapCMD/getopt.c:361-435 | the scan position and the vector as Fetch says |
| `GetoptScanner.Scanner.GetoptInternal` | USBPcapCMD/getopt.c:324-515 | one call, as Call says |
| `GetoptScanner.Scanner.GetoptLong` | USBPcapCMD/getopt.c:544-551 | one call in permute mode, under the configuration its options string makes |
| `GetoptScanner.Scanner.ScanOne` | USBPcapCMD/getopt.c:358-515 | one call after the reset has been dealt with |
| `GetoptScanner.Scanner.ParseAll` | USBPcapCMD/cmd.c:2440 | the option loop of a program: the run, the values it returns and the arguments it sees |
| `Isochronous.SumLengths` | USBPcapDriver/USBPcapURB.c:1076-1082 | the 32-bit sum of the packet lengths |
| `Isochronous.CloseGaps` | USBPcapDriver/USBPcapURB.c:1110-1123 | the rewritten table and the payload entries |
| `Isochronous.Compact` | USBPcapDriver/USBPcapURB.c:1071-1124 | refused when the sum exceeds the transfer length, else table, entries and data length |
| `Isochronous.GatherSources` | USBPcapDriver/USBPcapURB.c:1110-1123 | each packet's data lies at its prefix sum in the gathered payload |
| `Isochronous.CompactionExact` | USBPcapDriver/USBPcapURB.c:1071-1124 | the table recovers every packet from what is stored exactly when the lengths do not overflow 32 bits; then offsets are prefix sums and there are no gaps |
| `Isochronous.StoredPacketsRecoverable` | USBPcapDriver/USBPcapURB.c:1110-1146 | from the stored bytes alone, when not cut: each entry decoded from the record cuts its payload into the original packet |
| `Isochronous.IsoHeaderFields` | USBPcapDriver/USBPcapURB.c:1004-1020 | header length, data length and table of the packet header |
| `Isochronous.IsoHeaderLayout` | USBPcapDriver/USBPcapURB.c:1136-1138 | the common fields, start frame, number of packets and error count, where they lie |
| `Isochronous.CompactedHonest` | USBPcapDriver/USBPcapURB.c:1071-1146 | a compacted transfer with its buffer mapped supplies the data length it announces, overflowing or not |
| `TransferCapture.AnalyzeControlTransfer` | USBPcapDriver/USBPcapURB.c:170-298 | a header of 28 bytes with the given fields; stage 0 with setup and outgoing data on submission, stage 3 with incoming data on completion |
| `TransferCapture.AnalyzeBulkTransfer` | USBPcapDriver/USBPcapURB.c:889-976 | a header of 27 bytes with the given fields; outgoing data on submission, incoming data on completion |
| `TransferCapture.HonestExactly` | USBPcapDriver/USBPcapURB.c:247-297 | a packet supplies what it announces exactly when it carries no data, its data was mapped, or the announced length wraps around |
| `TransferCapture.StoredOnce` | USBPcapDriver/USBPcapURB.c:942-959 | of submission and completion one carries all of the data and the other none |
| `TransferCapture.UnmappedExactly` | USBPcapDriver/USBPcapBuffer.c:563-578 | unmapped data of at most sixteen bytes passes the ring's check and leaves an incomplete record; more is refused |
| `TransferCapture.UrbIrpTable.AddURBIRPInfo` | USBPcapDriver/USBPcapTables.c:234-251 | a new entry, or the old one kept |
| `TransferCapture.UrbIrpTable.ObtainURBIRPInfo` | USBPcapDriver/USBPcapTables.c:343-368 | the entry, which leaves the table |
| `TransferCapture.UnknownRequests` | USBPcapDriver/USBPcapURB.c:1241-1265 | over any run the table holds exactly the noted requests in flight, and each is logged once when it returns while captured |
| `Descriptors.ControlPacketFits` | USBPcapCMD/descriptors.c:132-151 | a control packet's header fields read back and its payload follows |
| `Descriptors.PacketsOfDevice` | USBPcapCMD/descriptors.c:276-320 | every packet made for a device is such a packet of that device |
| `Descriptors.ControlPacketDescribes` | USBPcapCMD/descriptors.c:132-151 | every field of a control packet, where it lies |
| `Descriptors.SetupBytes` | USBPcapCMD/descriptors.c:207-214 | the eight setup bytes: request, value, index and length, low byte first |
| `Descriptors.PacketsMeaning` | USBPcapCMD/descriptors.c:276-320 | which packets a device gets, byte by byte: its descriptor asked for and given, and, if its configuration was read, those of the next two rows |
| `Descriptors.ConfigAsked` | USBPcapCMD/descriptors.c:299-311 | the configuration descriptor asked for as it was, and given |
| `Descriptors.ConfigSet` | USBPcapCMD/descriptors.c:313-317 | and the configuration it describes set |
| `Descriptors.Context.DescriptorCallback` | USBPcapCMD/descriptors.c:276-320 | the device's packets are appended in order, if its address is captured |
| `Descriptors.GeneratePcapPackets` | USBPcapCMD/descriptors.c:322-361 | the block holds exactly the records of the list, end to end |
| `Descriptors.DescriptorRoundTrip` | USBPcapCMD/descriptors.c:338-358 | a descriptor record is whole and reads back as the packet, with its time |
| `Descriptors.DescriptorsAreRecords` | USBPcapCMD/descriptors.c:322-361 | the block cuts into its records and reads back to a clean end |
| `DeviceTree.WalkIsPreorder` | USBPcapCMD/enum.c:559-653 | the recursive walk visits every node below the start in preorder |
| `DeviceTree.WalkNumbers` | USBPcapCMD/enum.c:590-608 | a visit's number is its place in the order, its parent number its parent's, its level its depth |
| `DeviceTree.BelowDistinct` | USBPcapCMD/enum.c:559-653 | no node comes twice |
| `DeviceTree.Advance` | USBPcapCMD/enum.c:615-652 | going across or up reaches the next node of the walk, or its end |
| `DeviceTree.Forward` | USBPcapCMD/enum.c:599-652 | the move to the next node |
| `DeviceTree.PrintDevinstChildren` | USBPcapCMD/enum.c:534-654 | the iterative walk reports the first nodes of the recursive one that have a name |
| `DeviceTree.ListingIsPreorder` | USBPcapCMD/enum.c:534-654 | each named node among the first 10000 once, in preorder, numbered by its place, with its parent's place and its depth |
| `DeviceTree.DisplayMeaning` | USBPcapCMD/enum.c:570-592 | a node is listed under its friendly name or, failing that, its description |
| `DeviceTree.NextAfter` | USBPcapCMD/enum.c:749-785 | the node after a subtree; the inner counter cannot trip while the depth is below the limit |
| `DeviceTree.FirstStopMeaning` | USBPcapCMD/enum.c:692-735 | the search ends at the first node of the wanted driver when all before it have another driver or none, and otherwise only at one whose driver cannot be read |
| `DeviceTree.SameNameMeaning` | USBPcapCMD/enum.c:704 | names are the same up to the case of letters |
| `DeviceTree.Search` | USBPcapCMD/enum.c:680-786 | the search stops at the first node in preorder that ends it, among the first 10000 |
| `DeviceTree.PrintDeviceDesc` | USBPcapCMD/enum.c:656-787 | reported is the first preorder node of the wanted driver, with its children if asked for, when it is among the first 10000 and all before it have another driver or none; nothing is when there is no such node |
| `CaptureService.InvStep` | USBPcapAI/internal/service/server.go:324-430 | every step but a shutdown over an active capture keeps the books and the one capture at a time |
| `CaptureService.BooksStep` | USBPcapAI/internal/service/server.go:324-430 | every step keeps log, history, states and active task in order |
| `CaptureService.RunKeepsInv` | USBPcapAI/internal/service/server.go:324-430 | so does every interleaving without one |
| `CaptureService.ProtocolSafety` | USBPcapAI/internal/service/server.go:324-430 | after every interleaving, shutdowns included: the active task is between begin and end; each ended task enters the history once; the history is the last ended tasks without a gap, newest first and bounded; done means final status and entry made; only a cancelled capture is stopped and only an unsuccessful one carries an error code |
| `CaptureService.EndsAsItRan` | USBPcapAI/internal/service/server.go:523-609 | after every interleaving an ended task is completed exactly if its run captured a packet, idle exactly if it captured none, and so on for each way a run can end, with the error code of each |
| `CaptureService.HistoryComplete` | USBPcapAI/internal/service/server.go:355-397 | and the history misses none of the last ended tasks it may hold but those past their time to live |
| `CaptureService.OneAtATime` | USBPcapAI/internal/service/server.go:324-353 | unless a shutdown came over an active capture, at most one task is between begin and end, and it is the active one |
| `CaptureService.CloseOnce` | USBPcapAI/internal/service/server.go:523-524 | the done channel is closed once, after the final status and the history entry |
| `CaptureService.ShutdownExactly` | USBPcapAI/internal/service/server.go:176-185 | shutdown keeps active tied to the capture exactly when there is none |
| `CaptureService.ShutdownOverlaps` | USBPcapAI/internal/service/server.go:176-185 | otherwise a second task can begin beside the first |
| `CaptureService.TwoRequests` | USBPcapAI/internal/service/server.go:805-819 | a reachable state in which that applies |
| `CaptureService.MonitorStopHits` | USBPcapAI/internal/service/server.go:467-491 | a monitor's stop cancels the active capture, its own exactly when that is the active one |
| `CaptureService.StaleMonitor` | USBPcapAI/internal/service/server.go:467-491 | so one that outlives its capture stops the next |
| `CaptureService.StopByIdHits` | USBPcapAI/internal/service/server.go:448-465 | a stop by number cancels the task of that number if it is the active one, and no other |
| `CaptureService.ShutdownHits` | USBPcapAI/internal/service/server.go:176-185 | a shutdown cancels the active task, tells it why if it is known, and changes nothing else |
| `CaptureService.MadeAndBegun` | USBPcapAI/internal/service/server.go:305-353 | a new task has a number of its own and pends; a task begins exactly when none is active, and is the active one then |
| `CaptureService.KnownExactly` | USBPcapAI/internal/service/server.go:364-372 | an unfinished task is forgotten exactly when another capture ends while its own does not run; with one capture at a time, before it has begun |
| `CaptureService.ForgottenCapture` | USBPcapAI/internal/service/server.go:364-372 | a reachable state in which the active capture is unknown to the server |
| `CaptureService.KnownOtherwise` | USBPcapAI/internal/service/server.go:318-322 | registration makes a task known and dropping it unknown; no other step but an end or a cleanup changes what is known |
| `CaptureService.KnownFinished` | USBPcapAI/internal/service/server.go:355-397 | a finished task stays known after an end exactly as long as it is among the first of the history and not past its time to live |
| `CaptureService.ListedOnce` | USBPcapAI/internal/service/server.go:637-648 | no task is listed twice, and at most one more than the history holds |
| `CaptureService.ListedExactly` | USBPcapAI/internal/service/server.go:637-648 | listed are the active task, first and if it is known, and those of the history |
| `CaptureService.CleaningExactly` | USBPcapAI/internal/service/server.go:379-397 | which entries cleaning drops and which tasks it forgets, at the cutoff too |
| `CaptureService.FreshIsPrefix` | USBPcapAI/internal/service/server.go:386-396 | cleaning keeps a front part of the history |
| `CaptureServer.Server.NewTaskState` | USBPcapAI/internal/service/server.go:305-316 | a pending task under the next number |
| `CaptureServer.Server.RegisterTask` | USBPcapAI/internal/service/server.go:318-322 | the task is known |
| `CaptureServer.Server.BeginCapture` | USBPcapAI/internal/service/server.go:324-353 | refused while a capture is active, else running and active |
| `CaptureServer.Server.RecordHistory` | USBPcapAI/internal/service/server.go:355-375 | the new entry in front, the bound, and which tasks stay known |
| `CaptureServer.Server.ForgetOthers` | USBPcapAI/internal/service/server.go:360-372 | the loop over the task map, in any order |
| `CaptureServer.Server.CleanupHistory` | USBPcapAI/internal/service/server.go:379-397 | nothing without a time to live, else the sorted-out history |
| `CaptureServer.Server.SortOut` | USBPcapAI/internal/service/server.go:386-396 | entries kept and tasks forgotten by the loop |
| `CaptureServer.Server.EndCapture` | USBPcapAI/internal/service/server.go:420-430 | active cleared if it was this task, finish time, history |
| `CaptureServer.Server.CloseChannel` | USBPcapAI/internal/service/server.go:524 | the done channel is closed |
| `CaptureServer.Server.StopCapture` | USBPcapAI/internal/service/server.go:432-445 | the active capture is cancelled and, if known, told why |
| `CaptureServer.Server.StopCaptureByTaskID` | USBPcapAI/internal/service/server.go:448-465 | only if it is the active one |
| `CaptureServer.Server.SetFinalStatus` | USBPcapAI/internal/service/server.go:523-609 | status and error code by what the capture came to, as CaptureService.EndsAsItRan explains |
| `CaptureServer.Server.DropTask` | USBPcapAI/internal/service/server.go:621-625 | the task is unknown |
| `CaptureServer.Server.ShutDown` | USBPcapAI/internal/service/server.go:176-185 | the active capture is cancelled and no longer active |
| `CaptureServer.Server.ListAll` | USBPcapAI/internal/service/server.go:637-648 | the active task, if known, and the history |
| `CaptureServer.Server.Dispatch` | USBPcapAI/internal/service/server.go:305-465 | each locked method does its step of the protocol |
| `CaptureServer.Server.DispatchAll` | USBPcapAI/internal/service/server.go:305-465 | and any interleaving of them leaves the server the theorems speak of |
| `AddressFilter.WithBitHas` | USBPcapCMD/iocontrol.c:66 | setting a bit changes that bit only |
| `AddressFilter.WithBitValue` | USBPcapCMD/iocontrol.c:66 | bit i is worth 2 to the power i |
| `AddressFilter.Filter.IsDeviceFiltered` | USBPcapCMD/iocontrol.c:30-54 | all, invalid addresses, or the bit |
| `AddressFilter.Filter.SetDeviceFiltered` | USBPcapCMD/iocontrol.c:56-68 | exactly one more address, or a refusal that changes nothing |
| `AddressFilter.ParseList` | USBPcapCMD/iocontrol.c:89-119 | accepted exactly when well formed, and then exactly the listed addresses are marked |
| `AddressFilter.InitAddressFilter` | USBPcapCMD/iocontrol.c:75-125 | the target becomes the list's filter, or is left as it was |
| `AddressFilter.AddressListRoundTrip` | USBPcapCMD/cmd.c:770-786 | a printed list is accepted exactly when all its addresses are in range, and reads back as the same addresses |
| `AddressFilter.DecimalDigits` | USBPcapCMD/cmd.c:772-775 | numbers are printed in decimal |
| `AddressFilter.PrintList` | USBPcapCMD/cmd.c:756-787 | the list, exactly when it fits the buffer |
| `AddressFilter.MatchingMeaning` | USBPcapCMD/cmd.c:737-753 | the matches are exactly the devices of the vendor and the product asked for, in order |
| `AddressFilter.ResolveFilterMatches` | USBPcapCMD/cmd.c:737-787 | the matching addresses; no list without a match, else the list exactly when five bytes for each suffice, and failure otherwise |
| `AddressFilter.FilterMatches` | USBPcapCMD/cmd.c:2667-2711 | from the devices through the printed list to the filter: it succeeds exactly when there is a match and all addresses are in range, and then holds the matching devices and no others |
| `AddressFilter.AddressesFit` | USBPcapCMD/cmd.c:752-759 | device addresses always fit |
| `AddressFilter.LargeNumbersOverflow` | USBPcapCMD/cmd.c:752-759 | two five-digit numbers do not |

## Left out

- Kernel and user interfaces of Windows: IRP plumbing, remove locks, pool allocation, overlapped I/O, registry and SetupAPI appear as premises, parameters or atomic steps.
- Attach and detach, power, root hub devices and driver installation are calls into libraries that are not part of this model.
- `USBPcapParseInterfaceInformation` and the endpoint table: pointer walks over memory the bus driver lays out; transfers are modelled with their direction and endpoint known.
- Setup packets per URB function, pipe requests and the frame number request: constant tables without payload logic.
- `USBPcapBufferInitializeBuffer` has no callers and is not modelled.
- Writes that fail on an open output, disk flushing and broken pipes: the worker's output is an append-only sequence of the bytes handed to `write_data`.
- `process_data` after it has cleared the `process` flag: the worker's loop does not call it again.
- Device metadata gathering and interactive use in `USBPcapCMD/cmd.c`, except the list of matching addresses.
- `getopt` without long options as `REPLACE_GETOPT` builds it, and the warnings printed to standard error.
- The string form of endpoint keys in the statistics: two hexadecimal digits of a byte, kept as the byte.
- Analysis.SortByEndpoint: stands for the library's sort; the order among devices with the same endpoint is left open there.
- `ExportPayload` and `SummarizeReader` read files as `Analyze` does and count less.
- AddressFilter.ParseList: does not model what `atoi` returns beyond `int`; that it is no address is a premise.
- Descriptors.Context.DescriptorCallback: does not model the links of the packet list, which is kept as a sequence.
- DeviceTree.PrintDevinstChildren: does not model a failing allocation of a stack entry; numbers stay below the limit of 10000, so 16 bits hold them.
- CaptureServer.Server.SetFinalStatus: does not model the summary, hint and message texts stored with the status, nor the moments between its partial updates.
- The service's monitors stop whichever capture is active at any time; their file size and idle tests are not modelled. A cancelled run is final only after its context was cancelled.
- JSON, named pipes, the service installer, configuration loading and file deletion.
