# GramsReadout: model and proofs

GramsReadout reads detector data over PCIe. A read thread moves DMA blocks through a lock-free ring to a write
thread, which cuts the word stream into events and writes them to numbered files; two side threads record triggers
and PPS edges; files can fail over between two disks; a controller starts, stops and resets runs; and a mirror daemon
copies the files to backup disks. This project models those parts and proves what they promise.

| file | models |
|---|---|
| `Basics.dfy` | an optional value and a few facts about sequences and division |
| `Readout.dfy` | the word stream with its gaps, what a complete event is, and a whole-stream parser |
| `Framer.dfy`, `FramerProofs.dfy`, `FramerRefinement.dfy`, `FramerResults.dfy` | the word loop of `DataWrite` on its fixed buffer, a list form of it, the refinement between the two, and the results for all streams |
| `FramerLimits.dfy` | the exact event sizes for losing nothing and for writing only whole events |
| `FramerFiles.dfy` | which events each readout file holds |
| `EventWriter.dfy` | `DataWrite` in place, block by block |
| `Ring.dfy` | the single-producer single-consumer queue, as an object and interleaved at every shared access |
| `Resync.dfy` | read thread, ring, resync slot and write thread interleaved, joined to the framer |
| `Failover.dfy` | file switching and disk failover, and the trigger and PPS threads that follow it |
| `TriggerLog.dfy`, `TriggerReader.dfy` | the trigger counter and files: what the thread should do, and the buffered thread in place |
| `TriggerHandOver.dfy` | the trigger thread's whole run joined to the failover |
| `RunControl.dfy`, `RunFiles.dfy` | controller commands, run-id file, automatic stop and `Reset`; and when readout file names collide |
| `Mirror.dfy`, `MirrorResults.dfy`, `MirrorDaemon.dfy` | the mirror's scheduler: rules, whole runs, and the object |
| `Names.dfy`, `NameClasses.dfy`, `Storage.dfy` | file names printed and parsed; TOF files, run logs and other names; and where a file goes on the backup |
| `Firmware.dfy` | packing a bitfile into packets |

Sizes stay symbolic: the event buffer has `EVENTCHUNK * bound` words for any `bound`, and a block has any number of
words. Shared accesses interleave one at a time, in one total order.

## Where the code and its comments part

- A comment (`src/data/data_handler.cpp:494`) says only the event being built can overflow. The test at line 493 does not
  look at `event_start`, so a complete event that ends in the last slot of the buffer is taken back by the next word and
  `event_words` stays behind it. `ExactFillTearsTheFlush` shows the torn flush; `UndoneGrowsIff` gives the guard; and
  `OutputIsWholeEventsIff` gives the exact size: everything written is whole events, for all streams, if and only if
  nine events of the largest size leave room in the buffer. That is a wider bound than the one for losing nothing,
  `DATABUFFSIZE` words to an event (`LosslessIffEventsFit`): between the two, events can be dropped but never torn.
- A comment (`src/data/data_handler.h:157-160`) says the head of a cut event can never be glued to the tail of a later one.
  The slot holds one index, so that needs the slot to be free at every post: `StepIsExactIff` and `GapSafety` say so
  exactly, `OverwritingPostLosesGap` and `TwoUndeliveredGapsGlueEvents` show what happens otherwise. A post that falls
  between the write thread's load and its store of kNoResync is wiped out by that store, unless it is repeated in time
  (`WindowPostIsMarkedIff`).
- A comment (`src/control/controller.cpp:125`) ties the run-id file to the system disk so that the id does not change
  with the data disk. When the file cannot be read, parsed or written the run still starts, with id 0, and truncates the
  file of an earlier run 0 (`BadRunIdTruncates`). A file without a number is also rewritten with 0, so later runs count
  up again and truncate runs 1, 2 and on, even if the file behaves from then on (`OneUnparsedAnswerTruncates`).
- An exception in the data handler's configuration only sets an error bit (`src/control/controller.cpp:456-460`). If it
  strikes before the name prefix is built, the run goes on and opens `0.dat` in the working directory, and so does the next
  process that fares the same (`ThrownConfigurationTruncates`). `NoTruncationIff` gives the exact condition for both.

## Model

| member | source | states |
|---|---|---|
| Readout.ParseIsExact | src/data/data_handler.cpp:502-527 | The reference parser finds a span exactly when it is a start marker, an end marker and only body words between; its list is in stream order without overlap; and it knows whether an event is open. |
| Framer.TakeWord | src/data/data_handler.cpp:491-549 | For any word, every index into the event buffer stays in bounds and the buffer keeps its size. |
| Framer.Run | src/data/data_handler.cpp:451-551 | The same over any whole stream, with the event tally below EVENTCHUNK. |
| FramerProofs.ShelfIsGenuine | src/data/data_handler.cpp:482-527 | For any stream and any buffer size, the events kept are complete events of the stream, in order, and the open one really is open. |
| FramerRefinement.RunRefinesShelf | src/data/data_handler.cpp:476-551 | For any stream, the live words are the waiting events followed by the open one, every chunk written is the words of its group of events, and the counters agree. |
| FramerResults.EveryChunkIsWholeEvents | src/data/data_handler.cpp:528-548 | Even with oversized events, chunk k is whole events of the stream, none in two chunks, written at event count 10(k+1); and the event count is ten per chunk plus the tally. |
| FramerResults.OverflowChangesNothing | src/data/data_handler.cpp:493-501 | When every attempt fits, the overflow test never changes the outcome of a word. |
| FramerResults.FittingStreamIsKept | src/data/data_handler.cpp:476-527 | When every attempt fits, the events kept and the open event are those of the reference parser, and every chunk has ten. |
| FramerResults.FlushIsWaitingEventsIff | src/data/data_handler.cpp:553-556 | The final flush is the complete events waiting in the buffer whenever no event was taken back; in general exactly when `event_words` is still their length. |
| FramerResults.OutputIsWholeEvents | src/data/data_handler.cpp:491-556 | While nine attempts of the largest size leave room in the buffer, no complete event is taken back, and chunks and final flush together are whole events of the stream, in order. |
| FramerResults.FittingStreamIsLossless | src/data/data_handler.cpp:476-556 | When every attempt has at most DATABUFFSIZE words, chunk writes and final flush together are exactly the complete events of the stream, in order, and the count is their number. |
| FramerLimits.OversizedConvoyLosesWords | src/data/data_handler.cpp:493-501 | Up to ten back-to-back events of any sizes that together exceed the buffer are not all written. |
| FramerLimits.LosslessIffEventsFit | src/data/data_handler.h:99-101 | With a buffer of EVENTCHUNK times DATABUFFSIZE, every stream with attempts of at most `size` words is written without loss if and only if `size` is at most DATABUFFSIZE. |
| FramerLimits.ExactFillTearsTheFlush | src/data/data_handler.cpp:493-501 | Up to nine back-to-back events of any sizes that fill the buffer exactly, then a start marker and one word, make the output something that is not whole events of the stream. |
| FramerLimits.OutputIsWholeEventsIff | src/data/data_handler.cpp:491-556 | With a buffer of EVENTCHUNK times DATABUFFSIZE, for every stream with attempts of at most `size` words all output is whole events of the stream if and only if nine times `size` is below the buffer size. |
| FramerResults.MarkersBalance | src/data/data_handler.cpp:482-524 | Start markers in the stream = counted events + dropped partials + 1 if an event is open, less the events taken back; the events kept are the counted ones less those. |
| FramerResults.UndoneGrowsIff | src/data/data_handler.cpp:493-501 | A complete event is taken back exactly when a word arrives while the buffer is full and no event is open. |
| FramerFiles.FilesPartitionEvents | src/data/data_handler.cpp:540-547 | When events fit and writes and switches succeed, file i holds exactly events 5000i+1 to 5000(i+1). |
| EventWriter.EventWriter.constructor | src/data/data_handler.cpp:451-473 | A fresh writer has taken the empty stream. |
| EventWriter.EventWriter.Resync | src/data/data_handler.cpp:482-488 | In place: the writer's fields are those of the framer after one more gap. |
| EventWriter.EventWriter.TakeWord | src/data/data_handler.cpp:491-548 | In place: the fields and the buffer are those of the framer after one more word. |
| EventWriter.EventWriter.TakeBlock | src/data/data_handler.cpp:477-549 | In place: the same after a block, with a gap before it when resync fires. |
| EventWriter.EventWriter.WriteChunk | src/data/data_handler.cpp:528-548 | In place: the chunk goes to the open file, a new file follows at every 5000 events, and the tally starts over. |
| EventWriter.EventWriter.Finish | src/data/data_handler.cpp:553-556 | In place: the last file gets the framer's flush. |
| FramerFiles.FilesHoldOutput | src/data/data_handler.cpp:528-556 | Whatever the stream, the files one after the other hold exactly what was written, in order. |
| EventWriter.DataWrite | src/data/data_handler.cpp:433-571 | Over any blocks the files hold the framer's output; when attempts fit, exactly the complete events of the stream, 5000 to a file, and it counts them. |
| EventWriter.BlockCutIsInvisible | src/data/data_handler.cpp:477-549 | Cutting a block in two anywhere in a run changes nothing the framer does. |
| Ring.ProducerConsumerQueue.Write | lib/folly/ProducerConsumerQueue.h:90-104 | Appends the record exactly when fewer than size - 1 are inside, else changes nothing. |
| Ring.ProducerConsumerQueue.Read | lib/folly/ProducerConsumerQueue.h:107-122 | Takes the oldest record exactly when there is one. |
| Ring.ProducerConsumerQueue.FrontPtr | lib/folly/ProducerConsumerQueue.h:126-133 | Shows the oldest record, or nothing when empty. |
| Ring.ProducerConsumerQueue.PopFront | lib/folly/ProducerConsumerQueue.h:136-146 | Drops the oldest record. |
| Ring.ProducerConsumerQueue.IsEmpty | lib/folly/ProducerConsumerQueue.h:148-151 | True exactly when nothing is inside. |
| Ring.ProducerConsumerQueue.IsFull | lib/folly/ProducerConsumerQueue.h:153-163 | True exactly when size - 1 records are inside. |
| Ring.ProducerConsumerQueue.SizeGuess | lib/folly/ProducerConsumerQueue.h:170-177 | Without interference, the number of records inside. |
| Ring.StepIsSafe | lib/folly/ProducerConsumerQueue.h:90-122 | Each shared access of either side keeps the queue a FIFO, keeps the side that holds a slot its only holder, and keeps guesses safe. |
| Ring.RingRefinesFifo | lib/folly/ProducerConsumerQueue.h:90-177 | Under every interleaving the n-th successful read returns the n-th successful write, at most size - 1 records wait, no slot is held by both sides, and sizeGuess is at most the true size for the consumer and at least it for the producer. |
| Ring.RefusalsAreExact | lib/folly/ProducerConsumerQueue.h:96-112 | write refuses exactly when full, read finds nothing exactly when empty, at the load that decides. |
| Ring.GuessesAreExact | lib/folly/ProducerConsumerQueue.h:165-177 | At its load, a size guess of either side is the true number of records inside. |
| Resync.StepIsConsistent | src/data/data_handler.cpp:477-490 | Under every interleaving, block numbers of the two threads name the same blocks. |
| Resync.StepIsExactIff | src/data/data_handler.cpp:690-714 | A post keeps every pending gap deliverable if and only if the slot is free or already holds the same index; every other step always does. |
| Resync.CutsAreLosses | src/data/data_handler.cpp:682-714 | Over every run the indices posted, with the post still owed after a refusal, are exactly the blocks before which words were lost: a DMA timeout or a block the queue refused, read off the run itself. |
| Resync.GapSafety | src/data/data_handler.cpp:477-490 | Over every run whose posts find the slot free, resync fires at the first block after each loss (a timeout or a refused block) and at no other, so the framer gets the true stream. |
| Resync.DoomedForever | src/data/data_handler.cpp:480-481 | A gap the slot no longer says stays undelivered, whatever follows. |
| Resync.OverwritingPostLosesGap | src/data/data_handler.cpp:690-714 | Posting over another pending index, outside the write thread's load-store window, loses the earlier gap in every continuation. |
| Resync.WindowPostIsWipedOut | src/data/data_handler.cpp:480-481 | A post inside that window is lost in every continuation that does not post the same index again after the store. |
| Resync.WindowPostIsMarkedIff | src/data/data_handler.cpp:480-481 | After a post inside the window and guarded posts from then on, every block is marked exactly when words were lost before it, but the block of that post if and only if it is posted again. |
| Resync.NoEventSpansAGap | src/data/data_handler.h:157-162 | Read thread, ring and framer together: with free slots, every chunk is whole events of the true stream, with a gap at each loss; so is the final flush while nine events of the largest size leave room in the buffer; and when ten fit the output is all of them. |
| Resync.TwoUndeliveredGapsGlueEvents | src/data/data_handler.cpp:690-714 | A run in which two gaps are posted before either is delivered writes one event out of two, though the true stream has none. |
| Failover.NextFileHasRoom | src/data/data_handler.cpp:253-347 | With two disks, a new readout file is never opened on a disk known to be below the reserve; the disk is left exactly when it is not known to have room and the other can take the file; no file is opened exactly when neither can or the stop was requested; and the stop is requested exactly then or when the open finds the disk full. |
| Failover.FailoverLeavesDisk | src/data/data_handler.cpp:253-305 | A failover goes to another of the disks, and only a failover does. |
| Failover.FilesChangeDiskAtSegments | src/data/data_handler.cpp:291-343 | Over every interleaving, from one readout file to the next the disk changes exactly at the numbers stored as segments, and the active index names the current disk. |
| Failover.FailedWriteOpensNoMore | src/data/data_handler.cpp:531-547 | Once a write has failed on a full disk, no further readout file is opened, whatever follows. |
| Failover.FileSwitcher.constructor | src/data/data_handler.cpp:161-204 | A run starts with file 0 on the base directory and segment 0. |
| Failover.FileSwitcher.RequestDiskStop | src/data/data_handler.cpp:245-251 | Sets the stop request and both run flags and nothing else the switch reads. |
| Failover.FileSwitcher.MaybeSwitchDataDisk | src/data/data_handler.cpp:253-305 | In place: stays, requests the stop, or moves base, name prefix and segment together; returns whether it moved. |
| Failover.FileSwitcher.SwitchWriteFile | src/data/data_handler.cpp:307-347 | In place: the whole switch; every name opened is the built name of its disk, run and number; returns whether a file is open. |
| Failover.StepsMakeSwitchFile | src/data/data_handler.cpp:307-347 | The interleaved steps of the write thread add up to one SwitchWriteFile. |
| Failover.StepKeepsInv | src/data/data_handler.cpp:253-347 | Every step of the write thread, the trigger reader and the PPS poller keeps what each side knows true. |
| Failover.HandOver | src/data/data_handler.cpp:930-979 | Under every interleaving, outside a half-done failover: the open trigger or PPS path is the built name of the current disk and segment if and only if its segment is current, and it is when the thread believes so; segments strictly increase; and from file number `segment` on, the readout files are on the current disk. |
| Failover.UndisturbedCheckCatchesUp | src/data/data_handler.cpp:1149-1183 | A check the write thread does not disturb ends with the current file open. |
| TriggerLog.CounterIsExactIff | src/data/data_handler.cpp:984-990 | The pending-record test is right for all counts up to `limit` if and only if `limit` is at most 1,048,575. |
| TriggerLog.RunIsExact | src/data/data_handler.cpp:981-1068 | While the counter lasts, the whole run of the thread is what it would be if the thread knew how many records are pending. |
| TriggerLog.DrainIsTimely | src/data/data_handler.cpp:990-1064 | While the counter lasts, a drain takes no record before it is produced, and one that ends while the run goes on leaves none. |
| TriggerLog.DrainTakes | src/data/data_handler.cpp:990-1064 | A drain takes the records of its turns, all of them, in order. |
| TriggerLog.DrainFollowsLooks | src/data/data_handler.cpp:990-1028 | A drain looks for a new disk before each record: it ends on the segment and file of its last look; each record is in the file the looks up to its own lead to; and one is lost exactly when that file did not open. |
| TriggerLog.RunEndsOnLastLook | src/data/data_handler.cpp:981-991 | The outer loop looks at the start of each turn, too: the run ends on the segment shown by its last look. |
| TriggerLog.ReplayIsSound | src/data/data_handler.cpp:997-1028 | Whatever the thread does, records on disk and records lost add up to those taken; when none is lost the disk holds them in order; and none is lost while every open succeeds. |
| TriggerReader.TriggerReader.constructor | src/data/data_handler.cpp:876-905 | The thread starts on the file of segment 0, with nothing taken. |
| TriggerReader.TriggerReader.Flush | src/data/data_handler.cpp:913-928 | In place: the live buffer goes to the open file, in order, or is dropped when none is open; the disk is then that of the reader without a buffer. |
| TriggerReader.TriggerReader.HandleDiskSwitch | src/data/data_handler.cpp:930-979 | In place: nothing while the segment is unchanged; otherwise the buffer goes to the old file before the new one is opened. |
| TriggerReader.TriggerReader.TakeRecord | src/data/data_handler.cpp:997-1061 | In place: one record more, which counts as in the file open now; the buffer is written when 250 are in it. |
| TriggerReader.TriggerReader.Drain | src/data/data_handler.cpp:990-1064 | In place: the inner loop does what the reader without a buffer does, on the same looks and records, and each record is in the file the looks up to its own lead to. |
| TriggerReader.TriggerReader.ReadRounds | src/data/data_handler.cpp:981-1068 | In place: the same for the outer loop, which ends on the segment shown by its last look. |
| TriggerReader.TriggerReader.Close | src/data/data_handler.cpp:1070-1086 | In place: after the last flush the disk is that of the reader without a buffer. |
| TriggerReader.TriggerRead | src/data/data_handler.cpp:873-1088 | The whole thread: the buffer never shows; the disk holds each record in the file that was open when it was taken, in order. |
| TriggerHandOver.TurnsOpenCurrentPairs | src/data/data_handler.cpp:930-979 | In any interleaving the trigger thread's checks open only files named after a disk and segment that were current together, with segments that never go down. |
| TriggerHandOver.TriggerFilesFollow | src/data/data_handler.cpp:873-1088 | Over the thread's whole run, interleaved in any way with the write thread and the PPS poller, its records are on disk in order, each in a file named after a disk and segment that were current together, segments never going down; none is lost while every open succeeds; and the open file is the one the failover model gives the thread. |
| RunControl.EveryRestartIsClean | src/control/controller.cpp:495-514 | Over any commands, polls, thread steps and restarts, a Configured state has an empty queue and clear flags and counts, and a running run is stopped automatically if and only if a stop was asked for in that very run. |
| RunControl.CommandsFollowTheCycle | src/control/controller.cpp:590-636 | A command succeeds in its own state only (a configuration unless refused), moves one step along Idle, Configured, Running, Stopped, Configured, and only a run whose thread starts opens a file; any other command leaves everything alone. |
| RunControl.StatesFollowTheCycle | src/control/controller.cpp:495-514 | No command or automatic stop skips a state, and none touches the handler of a running run. |
| RunControl.WritingStopsIff | src/data/data_handler.cpp:245-251 | In a run, writing is stopped exactly when the write thread or a disk stop ended it. |
| RunControl.WorkIsNotClean | src/data/data_handler.cpp:1250-1277 | All work of a run leaves something that only a reset clears. |
| RunFiles.RunIdIsFreshIff | src/control/controller.cpp:123-155 | A new run id exceeds the stored one if and only if the file reads, parses and writes and the number does not wrap. |
| RunFiles.RunIdIsWhatTheFileHolds | src/control/controller.cpp:123-155 | The run-id file changes only when it can be read and written, and then holds the id the run gets; else, and when it held no number, the id is 0; and a good answer gives the next number modulo 2^32. |
| RunFiles.NoReadoutFileIsTruncated | src/data/data_handler.cpp:332-335 | While the run-id file behaves and configuration does not throw, no readout file name is opened twice over any commands, stops, failovers, resets and restarts of the process, wherever the id starts and also when it wraps, as long as fewer than 2^32 ids are drawn. |
| RunFiles.BadRunIdTruncates | src/control/controller.cpp:123-155 | With a run-id file that cannot be read, parsed or written, two runs open the same file with id 0. |
| RunFiles.ThrownConfigurationTruncates | src/data/data_handler.cpp:146-182 | With an exception before the name prefix is built, two processes open `0.dat`, whatever the run-id file answers. |
| RunFiles.BareNamesStandApart | src/data/data_handler.cpp:436 | A name without a prefix has no directory and differs from every other name. |
| RunControl.BareRunStaysBare | src/data/data_handler.cpp:253-256 | A run without a prefix stays without one, and on no disk the handler knows. |
| RunFiles.NextFileIsSwitch | src/data/data_handler.cpp:307-347 | The next file of the run life cycle and the switch of the failover model are one step of one object: same disk, number, segment, stop and file name. |
| RunFiles.OneUnparsedAnswerTruncates | src/control/controller.cpp:130-143 | After one answer without a number and good ones from then on, the first file of every earlier run `k` on the disk is truncated `k` runs later. |
| RunFiles.NoTruncationIff | src/control/controller.cpp:123-155 | For any set of answers, changing along the run, and any set of configuration outcomes: no readout file is ever opened twice, over all runs, if and only if configuration never throws and, if it ever completes, the run-id file always reads, parses and writes. |
| RunControl.Controller.constructor | src/control/controller.cpp:123-138 | A new process keeps the run-id file and the readout files and nothing else. |
| RunControl.RunHandler.Configure | src/data/data_handler.cpp:146-182 | In place: run number, base directory, file count and name prefix, or as many of them as are set before an exception; returns whether it got through. |
| RunControl.RunHandler.Reset | src/data/data_handler.cpp:1250-1277 | In place: empties the queue, clears counts, flags and segment, and builds the name prefix anew. |
| RunControl.Controller.DoPersist | src/control/controller.cpp:123-155 | In place: the new run id and file content for every way the file can answer. |
| RunControl.Controller.HandleCommand | src/control/controller.cpp:590-636 | In place: each command acts only in its state, with its answer. |
| RunControl.Controller.ApplyPendingRunStop | src/control/controller.cpp:495-514 | In place: polls, stops a running run when asked, and leaves no reason pending. |
| Mirror.PathLessIff | daemon/mirror_engine.cpp:666-681 | The path order is by the first difference. |
| Mirror.BetterIsLexicographic | daemon/mirror_engine.cpp:666-681 | The comparator is the order by (priority, segment, disk), for TOF files by mtime, then by path. |
| Mirror.BetterIsStrict | daemon/mirror_engine.cpp:666-681 | The comparator is transitive and decides between any two different paths. |
| Mirror.EnqueueIsCoherent | daemon/mirror_engine.cpp:452-460 | Adding a file keeps the pending set exact and every path held once. |
| Mirror.EnqueueAdds | daemon/mirror_engine.cpp:452-460 | Adding a file whose path is not pending queues that file and nothing else and marks its path; a pending path is left alone. |
| Mirror.PopIsCoherent | daemon/mirror_engine.cpp:657-752 | A pop keeps it too, leaves the pending set alone, finds a job exactly when one is queued, and remembers its run, or none. |
| Mirror.FinishIsCoherent | daemon/mirror_engine.cpp:539-549 | Finishing a job keeps it too. |
| MirrorResults.EveryReachableStateIsFair | daemon/mirror_engine.cpp:723-737 | In every reachable state the queues are coherent and the copied bytes of TOF and TPC differ by at most the largest job. |
| MirrorResults.ContendedBytesAreSplitFairly | daemon/mirror_engine.cpp:730-737 | Over any stretch where both sides stay pending, the bytes copied for them differ by at most two of the largest jobs. |
| MirrorResults.PopTakesFirst | daemon/mirror_engine.cpp:660-695 | With one side pending, a pop takes the first of all waiting files in the drain order. |
| MirrorResults.DrainHandlesEachPathOnce | daemon/mirror_engine.cpp:521-551 | With nothing added any more the drain ends and handles exactly the queued files, each path once. |
| MirrorResults.EveryAddedFileIsHandled | daemon/mirror_engine.cpp:452-551 | Every file added at any point of any run is worked on: a job for its path is finished later in the run or is among those the worker handles in the end. |
| MirrorResults.PopUnderContention | daemon/mirror_engine.cpp:708-737 | While both sides wait, a pop takes TOF exactly when TOF is not ahead in bytes, so also on a tie; else the active run if it has files, else the first run. |
| MirrorResults.OneSidedDrainIsSorted | daemon/mirror_engine.cpp:739-750 | With files of one side only, the drain exhausts the active run, then runs by ascending id, each in the comparator's order. |
| MirrorResults.EveryDrainIsSortedInRuns | daemon/mirror_engine.cpp:660-695 | Also with both sides pending, the files of each run, and of TOF, leave in the comparator's order. |
| MirrorDaemon.MirrorDaemon.RequestStop | daemon/mirror_engine.cpp:420-426 | In place: clears the running flag only. |
| MirrorDaemon.MirrorDaemon.Enqueue | daemon/mirror_engine.cpp:452-460 | In place: queues a file whose path is not pending, and nothing else, and marks its path. |
| MirrorDaemon.MirrorDaemon.HasPending | daemon/mirror_engine.cpp:647-655 | True exactly when some file waits. |
| MirrorDaemon.MirrorDaemon.LeastKey | daemon/mirror_engine.cpp:715-719 | The first key of an ordered map. |
| MirrorDaemon.MirrorDaemon.PickFromRun | daemon/mirror_engine.cpp:660-695 | In place: takes the best file of a run out, drops an emptied entry, and remembers the run. |
| MirrorDaemon.MirrorDaemon.PopNext | daemon/mirror_engine.cpp:657-752 | In place: the scheduling rule; nothing is returned exactly when nothing is queued. |
| MirrorDaemon.MirrorDaemon.Complete | daemon/mirror_engine.cpp:539-549 | In place: books the bytes of a copied job on its side and ends its pending time. |
| MirrorDaemon.MirrorDaemon.RunWorker | daemon/mirror_engine.cpp:521-551 | After the stop request the worker ends, has handled the whole drain in order, and leaves nothing pending. |
| Names.ValueOfDecimal | src/data/data_handler.cpp:333 | A printed number reads back as itself. |
| Names.ReadoutNameIsInjective | src/data/data_handler.cpp:332-333 | A readout file name determines base directory, run and file number. |
| Names.SegmentNameIsInjective | src/data/data_handler.cpp:227-243 | Within a run, a trigger or PPS name determines disk and segment. |
| Names.ParseUintAfter | daemon/mirror_engine.cpp:207-225 | The digit loop, in wrapping 64-bit arithmetic, is the parser that `ParseUintIff` describes. |
| Names.ParseUintIff | daemon/mirror_engine.cpp:207-225 | A number is accepted if and only if there are digits at the offset and their value modulo 2^64 fits in 32 bits; that remainder and the end of the digits are the result. |
| Names.PrintedNumberIsParsed | daemon/mirror_engine.cpp:207-225 | A printed number is parsed back, up to the first character that is no digit, if it fits in 32 bits; from 2^64 on, it is taken modulo 2^64. |
| Names.ReadoutRoundTrip | daemon/mirror_engine.cpp:227-246 | Every readout name on a base directory free of the markers is parsed back to its run, file number and kind; numbers from 2^31 up come back as the signed 32-bit or wrapped value the parser makes of them. |
| Names.TriggerRoundTrip | daemon/mirror_engine.cpp:248-260 | The same for trigger names, with or without a segment. |
| Names.PpsRoundTrip | daemon/mirror_engine.cpp:262-274 | The same for PPS names. |
| NameClasses.LogRoundTrip | daemon/mirror_engine.cpp:276-283 | The configuration log and the storage log of a run are parsed back to their run, with the last rank. |
| NameClasses.TofPathIff | daemon/mirror_engine.cpp:52-55 | A path is a TOF path if and only if it contains the TOF directory or ends in it. |
| NameClasses.TofFileIsUnranked | daemon/mirror_engine.cpp:231-233 | Every file below a TOF directory gets the TOF run and no rank, whatever its name looks like. |
| NameClasses.UnmarkedFileIsUnranked | daemon/mirror_engine.cpp:285 | A path with no marker gets the TOF run, too. |
| NameClasses.HalfReadoutNameIsUnranked | daemon/mirror_engine.cpp:235-246 | A number behind the first readout marker that no underscore follows gives the run, but no rank. |
| NameClasses.ReadoutFilesAreWatched | daemon/mirror_engine.cpp:48-50 | Every readout file is put directly in a directory the mirror watches. |
| NameClasses.SegmentFilesAreWatched | daemon/mirror_engine.cpp:48-50 | So is every trigger and PPS file. |
| Storage.DestinationIsInBackup | src/data/storage_utils.cpp:272-288 | A copy lands in the backup, in a directory named after its disk, at the path it has on that disk; there is none exactly when the path is on no disk with a name or there is no backup. |
| Storage.FirstRootIsFound | src/data/storage_utils.cpp:196-209 | The root of a path is the first candidate that holds it. |
| Storage.DestinationsAgreeIff | src/data/storage_utils.cpp:272-288 | Two paths below the disks get the same backup path if and only if they have the same root and relative path. |
| Storage.FilesKeepApart | src/data/storage_utils.cpp:272-288 | Different files strictly below the disks get different backup paths. |
| Firmware.HeaderKeepsByteIff | src/hardware/hardware_device.cpp:39 | The header word keeps its file byte if and only if the slot number leaves bits 16 to 23 alone. |
| Firmware.HeaderFields | src/hardware/hardware_device.cpp:39 | For every slot below 32, the header's lower half addresses the module and chip 7, with command byte 0. |
| Firmware.CommandFields | src/hardware/hardware_device.cpp:79 | A command word's fields are its slot, its chip and command byte 0. |
| Firmware.PcieBuffers.FillWords | src/hardware/hardware_device.cpp:45-53 | The loop packs two bytes to a word, with the closing value in the upper half of the last. |
| Firmware.PcieBuffers.Tail | src/hardware/hardware_device.cpp:64-94 | The tail packet carries the bytes left over, has a known length, and its closing command stands behind all of them. |
| Firmware.LoadFirmware | src/hardware/hardware_device.cpp:32-94 | For every bitfile, whatever the buffers held, decoding the packets and trimming to the file length gives the bytes back in order if and only if the slot number fits the header, as every slot below 32 does; every packet is addressed to the module with chip 7; only the last ends in a command, whose fields are the module and the chip, behind all bytes. |

## Left out

- EventWriter.DataWrite: writes and file switches succeed; what a failed write, a failed open or a closed descriptor does to the files is not modelled; the blocks are those the thread reads, so blocks still queued when the stop flag is seen are not claimed to be framed.
- FramerFiles.FilesPartitionEvents: takes writes and file switches to succeed.
- Resync.GapSafety: starts after the write thread has stored kNoResync (the read thread first sleeps half a second), and takes shared accesses in one total order instead of the acquire and release orders of C++.
- Ring.RingRefinesFifo: indices are unbounded numbers below the size; object construction and destruction in a slot are one step with the access.
- RunFiles.NoReadoutFileIsTruncated: a power cut inside the write of the run-id file itself shows only as a file that holds no number next time.
- RunControl.EveryRestartIsClean: a command and an automatic stop are each one step; a command that arrives while the status thread is inside a stop is not modelled.
- RunControl.Controller.HandleCommand: what comes before the data handler's configuration is one accepted or refused answer; an exception in the boards' configuration is not modelled.
- Names.ReadoutRoundTrip: base directories that contain a marker are excluded, because the first marker found wins.
- Firmware.LoadFirmware: the undefined signed shift for slots of 16 and above is taken to wrap in 32 bits; debug logging of the last words is not modelled.
- MirrorDaemon.MirrorDaemon.Enqueue: the file system checks before the lock decide which files arrive; that the backup is eventually up to date is not claimed, since a file changed while in flight is not added again.
- PPS edge detection, parsed trigger sidecar files, and the rate limit of the mirror: straight-line bookkeeping.
- Choice of the disk at run start (`PickMaxFree`, `PickSsd0First`, `SelectNvmeDataDirForRun`): easy selections; the chosen directory is a parameter.
- DMA registers, board configuration, TCP, telemetry, JSON, systemd, inotify and file copying: foreign calls.
- `ReadoutViaController` and `FastDataWrite`: marked as not working or as a benchmark.
