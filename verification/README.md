# Formal models of the acquisition chain and the server kernels

This project models the parts of the repository that carry its logic and proves
properties of them in Dafny. Each module follows one file, or one component of a file;
classes have the fields that the original updates, methods do what the original methods
do, and every method is tied to a function of the inputs or of the old state about which
the laws below are proved. Ghost fields hold histories (the stream accepted so far, the
outputs so far), so an invariant of a class is a statement about every run of it.

`dafny verify dfyconfig.toml` takes in the whole project.

## The parts

- **RAM writer, ESL** (`BurstPlan`, `Fifo`, `RamWriter`, `WriterSim`): samples go through
  a FIFO with packet marks and are cut into bursts that stay inside 4 KB pages
  (section A3.4.1 of ARM IHI 0022) and inside a wrapping buffer. The drain refines an
  abstract ring, no other legal cut uses fewer bursts, and the simulation succeeds under
  an exact condition, in closed form for most configurations.
- **Trigger** (`TriggerLaw`, `Trigger`, `TriggerTlm`): threshold crossings through a
  two-stage pipeline with re-arming, in a closed form, and the agreement of the two
  models.
- **Scope** (`Samples`, `Scope`, `ScopeTlm`): pre-trigger ring and window capture in the
  ESL model; the five-state machine with output replay in the SystemC model; how the
  windows of the two differ, over any sequence of triggers.
- **Acquisition** (`AcquisitionSpec`, `Acquisition`): triggers, scope and writer composed
  over whole signals, from samples to windows to bursts to memory.
- **RAM writer, SystemC** (`Packing`, `RamWriterTlm`): four samples to a 64-bit word,
  conservation of the stream on every run, the shape of all transactions, and what one
  and two flushes leave.
- **Pulser** (`Pulser`, `LowerBound`, `Sampler`): a fixed-point recurrence that must stop
  at its peak, and drawing amplitudes by inverse cumulative distribution.
- **Configuration driver** (`Bitstream`, `Devcfg`): header stripping, residue and byte
  order across writes.
- **Transceiver server** (`KeyerTiming`, `KeyerPaddles`, `KeyerPtt`, `Keyer`; `RadioWords`,
  `RadioFrames`, `RadioCache`): the CW keyer tick by tick, its RF and PTT lines decided by
  the paddle history; the filter and accessory registers that are recomputed only when a flag says so.
- **Receiver server** (`Ep6Format`, `Ep6`): EP6 framing in place in one buffer, and its
  inverse.
- **Uploader** (`IpfixFormat`, `UploadFormat`, `Splicing`, `Uploader`): IPFIX messages
  (RFC 7011) written with a cursor and patched lengths, against an independent reader.

`Widths` has the fixed-width numbers, and `Arith` padding and small facts of division used
by several modules.

## Where code and description disagree

The model follows the code.

- The comment on the batch trigger run speaks of compensating the pipeline latency, but
  the pipeline compares the newest two samples, so an index is one early and a trigger on
  sample 0 is dropped: no report ever names a firing sample (`ReportIsNeverRight`), and all
  firing samples are reported exactly when sample 0 does not fire (`AllReportedIff`).
  `ExampleStream` and `FirstSampleIsLost` are streams that show it.
- Mode BOTH is described as firing on rising and falling crossings; after one edge an
  edge on the very next sample is not reported (`BothFiresOnEveryEdge`,
  `BothMissesAnEdge`).
- The SystemC scope calls the trigger sample the first post-trigger one but has already
  stored it as the newest pre-trigger sample (`WindowsAlign`), and a trigger while the
  buffer fills is lost (`FirstWindow`, `TriggerWhileFilling`). Re-arming after a window does not fill the buffer
  again, so a later window's trigger index is wrong unless enough samples were armed
  (`IndexRightIff`), which a setting guarantees exactly if pre is at most 1
  (`SettingIndexesRight`, `SecondIndexIsWrong`).
- The comment in the SystemC writer leaves the rest of a split burst to the next cycle;
  a flush has no next cycle (`Flush`, `FlushTwice`, `OneFlushLeavesAWord`).
- `run_acquisition` ignores what `axis_write` returns, so a window longer than the
  512-word FIFO is stored in part (`SettingKeepsAll`, an if-and-only-if on the setting;
  `LongWindowLosesSamples`).
- The buffer is said to wrap; bursts stay inside it only if it ends on a page, or where
  an unaligned base gets stuck, or words are written one by one (`StaysInsideIff`,
  `BurstLeavesBuffer`).
- The uploader's sequence number counts messages; section 3.1 of RFC 7011 counts data
  records (`SequenceCountsRecords`, `ElevenLines`).
- The uploader's options template has a scope field count of zero, which section 3.4.2.2
  of RFC 7011 rules out (`ReceiverTemplateDeclares` records the count).
- The uploader accepts strings of up to 86 bytes in all, while room for any ten reports
  is left exactly up to 26 (`RoomForAnyBatch`, `TenLongReports`).
- A sync word in the last four bytes of a write is not looked at, so a first write that
  ends inside the sync word is taken as a bitstream without header (`SplitSyncIsMissed`).
- A dash keeps its weight only under a condition on the delay (`DashIsExact`,
  `LongDelayCutsDash`); a dot always does. With neither delay nor weight a dash has no
  length and brings PTT without RF (`PttFollowsRfIff`, `SilentDash`).
- The top bit of the upper filter byte of a control frame selects manual filters as well
  as the bit meant for it (`ManualAfter`, `ManualWithoutItsBit`).

## Model

| member | source | states |
|---|---|---|
| `BurstPlan.BurstFacts` | models/python/ram_writer_model.py:361-386 | From an aligned address every planned burst has at least one beat, ends by the end of its page, and leaves the next address aligned. |
| `BurstPlan.DrainShape` | models/python/ram_writer_model.py:303-386 | From a beat-aligned address the bursts carry every pending word, in order; none is longer than the limit, empty, or on two pages. |
| `BurstPlan.DrainWellShaped` | models/python/ram_writer_model.py:361-386 | Whatever the alignment and the settings, no burst of a drain is empty, too long, or on two pages. |
| `BurstPlan.WriteBeatsAt` | models/python/ram_writer_model.py:388-398 | A burst puts beat i at address + 4*i and leaves every other address alone. |
| `BurstPlan.DrainIsLinear` | models/python/ram_writer_model.py:313-398 | While the run fits before the end of the buffer, cutting it into bursts leaves the same memory as one linear write. |
| `BurstPlan.RingContents` | models/python/ram_writer_model.py:347-398 | Slot k of the ring holds the newest beat whose index is k modulo the capacity; slots not reached and every other address are absent. |
| `BurstPlan.BurstIntoRing` | models/python/ram_writer_model.py:347-398 | One burst that stays inside the buffer turns the ring of a stream into the ring of the stream with the burst appended. |
| `BurstPlan.BurstStaysInside` | models/python/ram_writer_model.py:347-386 | In a buffer that ends on a page a burst cut at the page never passes the end of the buffer. |
| `BurstPlan.AddressInside` | models/python/ram_writer_model.py:347-353 | After any bursts the write address is a whole number of words past the base, and inside the buffer if that is not empty. |
| `BurstPlan.StaysInsideIff` | models/python/ram_writer_model.py:347-386 | For every configuration, the bursts of every run stay inside the buffer if and only if there are none, or the buffer is a whole number of words written one by one, or it ends where bursts end: from a word-aligned base on a page, from any other base not before the address where less than a word is left to the page end. |
| `BurstPlan.StuckIsNotPassed` | models/python/ram_writer_model.py:347-386 | From a base between two words no run gets past the last address of its page with room for less than a word. |
| `BurstPlan.BurstLeavesBuffer` | models/python/ram_writer_model.py:347-386 | A concrete buffer of 250 words whose first full burst ends behind it. |
| `BurstPlan.DrainRefinesRing` | models/python/ram_writer_model.py:303-398 | For every buffer of whole words that ends on a page, earlier stream and pending data: the drain empties, memory is the ring of the longer stream, the address is base + 4*(N mod capacity), every burst is inside the buffer. |
| `BurstPlan.LegalBurstIsNoLonger` | models/python/ram_writer_model.py:361-386 | Any burst that stays on one page has at most the beats left in the page: the greedy cut is the longest legal one. |
| `BurstPlan.FurtherIsNoWorse` | models/python/ram_writer_model.py:361-386 | Starting the rest of a run further along never costs an extra burst. |
| `BurstPlan.GreedyIsOptimal` | models/python/ram_writer_model.py:313-386 | No way of cutting a contiguous run into bursts within the length limit and the page rule uses fewer bursts than the greedy plan. |
| `BurstPlan.AlignedBurstCount` | models/python/ram_writer_model.py:313-386 | From a multiple of 1024 with bursts of at most 256 the plan uses exactly ceil(N / 256) bursts. |
| `BurstPlan.DrainUsesBurstCount` | models/python/ram_writer_model.py:313-386 | The bursts of a drain into a page-aligned buffer are themselves a legal split of the contiguous run, of the counted number. |
| `BurstPlan.DrainIsOptimal` | models/python/ram_writer_model.py:313-386 | The drain of a page-aligned buffer needs no more bursts than any legal split of the same beats, wrap-around included. |
| `Fifo.MarkedPositionsExact` | models/python/ram_writer_model.py:118-144 | The positions kept beside the queue are strictly increasing and are exactly those of the queued words marked last. |
| `Fifo.ShiftDownMarks` | models/python/ram_writer_model.py:157-158 | Lowering every position and dropping a zero keeps them exact when the front word leaves. |
| `Fifo.FifoModel.constructor` | models/python/ram_writer_model.py:108-119 | A new FIFO is empty and has its depth. |
| `Fifo.FifoModel.Reset` | models/python/ram_writer_model.py:121-125 | Empties the queue and the log of traffic. |
| `Fifo.FifoModel.Write` | models/python/ram_writer_model.py:127-144 | Refuses exactly when full and then changes nothing; otherwise the word and its mark join the back. |
| `Fifo.FifoModel.Read` | models/python/ram_writer_model.py:146-160 | Empty exactly when nothing is queued; otherwise the front word leaves and everything accepted stays delivered or queued, in order. |
| `Fifo.FifoModel.ReadBurst` | models/python/ram_writer_model.py:162-174 | Takes the first min(count, level) words, in order. |
| `Fifo.FifoModel.HasCompletePacket` | models/python/ram_writer_model.py:191-194 | True exactly when some queued word is marked last. |
| `RamWriter.DrainConserves` | models/python/ram_writer_model.py:303-359 | Words drained followed by words left are the pending words: nothing lost, repeated or reordered, for every configuration. |
| `RamWriter.NothingLeft` | models/python/ram_writer_model.py:303-386 | With an aligned address and base and a positive limit, nothing is left. |
| `RamWriter.MemoryAfterLinearWrite` | models/python/ram_writer_model.py:388-422 | Reading back what one linear write left gives the stream. |
| `RamWriter.RamWriterModel.constructor` | models/python/ram_writer_model.py:234-255 | Starts empty, with the default configuration, at its base address. |
| `RamWriter.RamWriterModel.Reset` | models/python/ram_writer_model.py:257-270 | Clears queue, memory and transactions; keeps the configuration and the byte counter. |
| `RamWriter.RamWriterModel.Configure` | models/python/ram_writer_model.py:272-280 | Moves the address to the new base; a writer with no history and a buffer that ends on a page starts on its ring. |
| `RamWriter.RamWriterModel.AxisWrite` | models/python/ram_writer_model.py:282-301 | Accepts exactly when enabled and the FIFO has room; the ring is untouched. |
| `RamWriter.RamWriterModel.CalculateBurstLength` | models/python/ram_writer_model.py:361-386 | The planned burst length, never more than is available. |
| `RamWriter.RamWriterModel.WriteToMemory` | models/python/ram_writer_model.py:388-398 | Memory is the old one with the burst written; the byte counter grows by four a beat. |
| `RamWriter.RamWriterModel.TakeBurst` | models/python/ram_writer_model.py:326-333 | The first words of the queue, pending samples first, leave in order. |
| `RamWriter.RamWriterModel.ProcessPending` | models/python/ram_writer_model.py:303-359 | Transactions, memory, counter, address and remaining queue are those of the drain; a writer on its ring stays on it, ends empty, and writes inside its buffer only. |
| `RamWriter.RamWriterModel.VerifyData` | models/python/ram_writer_model.py:424-453 | Succeeds exactly when memory from the base holds the expected words. |
| `RamWriter.RamWriterModel.GetMemoryContents` | models/python/ram_writer_model.py:411-422 | One word per four bytes, zero where nothing was written. |
| `WriterSim.SendPacket` | models/python/ram_writer_model.py:506-515 | Fails exactly when the packet does not fit behind what is queued; otherwise it is queued whole; a writer on its ring stays on it. |
| `WriterSim.PacketDrained` | models/python/ram_writer_model.py:504-518 | Draining one more packet of a stream that fits extends the linear image in memory by it. |
| `WriterSim.FittingRun` | models/python/ram_writer_model.py:504-518 | A stream that fits an aligned buffer is written linearly by any packets, with nothing left queued. |
| `WriterSim.RingRun` | models/python/ram_writer_model.py:504-518 | Into a buffer that ends on a page any packets of any stream are written round and round, with nothing left queued. |
| `WriterSim.DrainGetsStuck` | models/python/ram_writer_model.py:313-386 | From a base between two words a drain writes up to the address where the writer gets stuck and leaves exactly the rest. |
| `WriterSim.StuckRun` | models/python/ram_writer_model.py:504-518 | So does a whole run: memory holds the first words in line, the FIFO exactly the others. |
| `WriterSim.NoneRefusedIff` | models/python/ram_writer_model.py:506-515 | Where nothing stays queued, no packet is refused if and only if each fits the FIFO. |
| `WriterSim.RunPacket` | models/python/ram_writer_model.py:504-518 | One packet is written exactly when it fits the FIFO behind what is still queued; memory, address and queue are then those of the drain of both together. |
| `WriterSim.RunPackets` | models/python/ram_writer_model.py:504-518 | All packets are sent exactly when none is refused, and the writer then holds what draining after each packet leaves. |
| `WriterSim.RingReadBack` | models/python/ram_writer_model.py:411-453 | Reading a ring back linearly gives the stream if and only if `ReadsBack`: every overwritten sample equals the newest one in its place, and every sample behind the buffer is zero. |
| `WriterSim.ShortStreamReadsBack` | models/python/ram_writer_model.py:411-453 | A stream no longer than the buffer meets `ReadsBack`. |
| `WriterSim.PartReadBack` | models/python/ram_writer_model.py:411-453 | Of a stream of which only the first words were written, reading back gives the stream if and only if the others are zeros. |
| `WriterSim.SimulateRamWriter` | models/python/ram_writer_model.py:471-523 | For every base, buffer size, FIFO depth and packets: success if and only if the packet sizes add up to the stream, no packet is refused behind what stays queued, and the memory that draining after each packet leaves reads back as the stream. |
| `WriterSim.SucceedsIfItFits` | models/python/ram_writer_model.py:471-523 | A stream that fits an aligned buffer succeeds if and only if the packet sizes add up to it and each packet fits the FIFO. |
| `WriterSim.SucceedsOnRing` | models/python/ram_writer_model.py:471-523 | Into a buffer that ends on a page a stream of any length succeeds if and only if, moreover, it meets `ReadsBack`. |
| `WriterSim.SucceedsIfStuck` | models/python/ram_writer_model.py:471-523 | From a base between two words, with the stuck address inside the buffer, a run succeeds if and only if the sizes add up, every packet fits behind the words stuck before it, and all stuck words are zeros. |
| `TriggerLaw.ArmedLooksAtLastValid` | models/python/trigger_model.py:200-204 | Being armed depends on the last valid beat only: armed exactly when it was no event, or there was none. |
| `Trigger.TriggerModel.constructor` | models/python/trigger_model.py:98-116 | Starts with an empty history, armed. |
| `Trigger.TriggerModel.Reset` | models/python/trigger_model.py:107-116 | Forgets the history, keeps the configuration. |
| `Trigger.TriggerModel.Configure` | models/python/trigger_model.py:118-124 | Only the configuration changes; pipeline and arming survive. |
| `Trigger.TriggerModel.ProcessSample` | models/python/trigger_model.py:166-206 | Disabled: nothing moves. Enabled: the beat joins the history and the output is the fresh-trigger law applied to it, absent for an invalid sample. |
| `Trigger.TriggerModel.ProcessSamples` | models/python/trigger_model.py:208-235 | The batch run reports exactly the reports of its firing samples. |
| `Trigger.FiresClosedForm` | models/python/trigger_model.py:126-206 | With all samples valid, sample i fires if and only if it is an event and sample i - 1 is not. |
| `Trigger.OneSidedFiresOnEveryEdge` | models/python/trigger_model.py:152-164 | RISING and FALLING fire on every edge. |
| `Trigger.LevelFiresLikeRising` | models/python/trigger_model.py:152-164 | LEVEL and RISING fire at the same samples from sample 1 on. |
| `Trigger.LevelAndRisingOnFirstSample` | models/python/trigger_model.py:113-164 | On the first sample they agree except exactly when zero reaches the threshold and the sample reaches it too. |
| `Trigger.BothFiresOnEveryEdge` | models/python/trigger_model.py:152-204 | BOTH fires on every edge if and only if no two adjacent samples are edges. |
| `Trigger.BothMissesAnEdge` | models/python/trigger_model.py:152-204 | A stream whose second edge BOTH does not report. |
| `Trigger.EventIs` | models/python/trigger_model.py:152-164 | Which samples of a stream of signed numbers are events, in terms of the threshold, for every mode. |
| `Trigger.CrossingsTelescope` | models/python/trigger_model.py:152-206 | Over samples 1..n, rising triggers minus falling triggers are [s_n >= threshold] - [s_0 >= threshold]. |
| `Trigger.CountIs` | models/python/trigger_model.py:166-206 | The count of triggers is the number of samples that fire. |
| `Trigger.ReportSound` | models/python/trigger_model.py:220-233 | Every report belongs to a firing sample, the one after the index it gives, and carries the values around that index. |
| `Trigger.ReportsInOrder` | models/python/trigger_model.py:220-233 | Reports come in strictly increasing index order. |
| `Trigger.ReportsComplete` | models/python/trigger_model.py:220-233 | Every firing sample but sample 0 is reported. |
| `Trigger.ReportIsOneEarly` | models/python/trigger_model.py:224-232 | A reported rising crossing names the last sample below the threshold, not the one that reaches it. |
| `Trigger.ReportIsNeverRight` | models/python/trigger_model.py:220-233 | In every mode the sample that a report names does not fire; the next one does. |
| `Trigger.AllReportedIff` | models/python/trigger_model.py:220-233 | Every firing sample is reported if and only if sample 0 does not fire. |
| `Trigger.FirstSampleIsLost` | models/python/trigger_model.py:220-233 | A concrete stream whose sample 0 fires and that has no report. |
| `Trigger.ExampleStream` | models/python/trigger_model.py:84-93 | On the stream of the class documentation sample 3, and no other, fires, and the one report says 2. |
| `TriggerTlm.TriggerTlm.constructor` | models/systemc/trigger/trigger_tlm.h:70-86 | Starts armed and steady with no history, events or count. |
| `TriggerTlm.TriggerTlm.Configure` | models/systemc/trigger/trigger_tlm.h:92-98 | Only the configuration changes. |
| `TriggerTlm.TriggerTlm.Reset` | models/systemc/trigger/trigger_tlm.h:103-112 | Clears history and events, not the trigger counter. |
| `TriggerTlm.TriggerTlm.ProcessSample` | models/systemc/trigger/trigger_tlm.h:228-277 | Output, counter and event list follow the fresh-trigger law over the whole history; with valid samples only, the history stays that of the configured comparison; a recorded event carries the given index, the sample and the one before. |
| `TriggerTlm.ModelsAgree` | models/systemc/trigger/trigger_tlm.h:228-306 | On 16-bit inputs, signed or as raw patterns, both models see the same events. |
| `TriggerTlm.TlmEventIs` | models/systemc/trigger/trigger_tlm.h:288-306 | Which pairs of samples are events, in terms of the threshold, for the mode bytes 0 to 3. |
| `TriggerTlm.UnknownModeIsSilent` | models/systemc/trigger/trigger_tlm.h:288-306 | A mode byte over 3 fires at nothing. |
| `TriggerTlm.RunStream` | models/systemc/trigger/trigger_tlm.h:228-306 | Run over any 16-bit stream, the SystemC trigger fires exactly where the ESL trigger does and records exactly those samples. |
| `Scope.PreTrigger` | models/python/scope_model.py:222-227 | What is taken from the bounded buffer is the last min(pre, depth) samples ever armed, as far as they go. |
| `Scope.ScopeModel.constructor` | models/python/scope_model.py:114-134 | Starts idle and empty. |
| `Scope.ScopeModel.Reset` | models/python/scope_model.py:125-134 | Idle and empty; keeps the configuration. |
| `Scope.ScopeModel.Configure` | models/python/scope_model.py:136-160 | Fails exactly when more pre-trigger samples are asked for than the buffer holds, keeping the configuration all the same; else the state follows enable and arm. |
| `Scope.ScopeModel.ProcessSample` | models/python/scope_model.py:162-186 | Accepts exactly while armed or triggered; the sample joins that part of the history; the capture completes at the asked number, at least one. |
| `Scope.ScopeModel.Trigger` | models/python/scope_model.py:188-209 | Accepted exactly while armed; records how many samples the buffer holds and starts an empty post-trigger part. |
| `Scope.ScopeModel.GetCapturedData` | models/python/scope_model.py:211-241 | A window exactly in TRANSFER or DONE: the last pre armed samples, then the post-trigger ones. |
| `Scope.ScopeModel.Arm` | models/python/scope_model.py:243-253 | Re-arms with empty buffers exactly when enabled and idle or done. |
| `Scope.CaptureAround` | models/python/scope_model.py:302-334 | For every signal, trigger position, pre, post and buffer depth: a fresh scope started a buffer's length before the trigger captures exactly the window around it, or nothing if the signal ends too soon. |
| `Scope.SimulateAcquisition` | models/python/scope_model.py:283-339 | For every signal and list of trigger positions: exactly the windows around them that the signal does not cut short, in order; fails exactly when there is a trigger and pre exceeds the buffer. |
| `Scope.WindowFromStart` | models/python/scope_model.py:317-334 | Starting a buffer's length before the trigger loses nothing of the window. |
| `Scope.WindowIsStretch` | models/python/scope_model.py:302-334 | A window is one stretch of the signal, from pre samples up to the trigger to max(1, post) after it, and is missing only if the signal ends first. |
| `Scope.WindowsInOrder` | models/python/scope_model.py:283-339 | Where the signal is long enough for all triggers, each has its window, in order. |
| `ScopeTlm.ScopeTlm.constructor` | models/systemc/scope/scope_tlm.h:66-72 | Idle, with no windows or outputs. |
| `ScopeTlm.ScopeTlm.Configure` | models/systemc/scope/scope_tlm.h:77-81 | Sets the configuration; the invariant survives when idle with no windows. |
| `ScopeTlm.ScopeTlm.Reset` | models/systemc/scope/scope_tlm.h:86-93 | Idle, with no windows or outputs, configuration kept. |
| `ScopeTlm.ScopeTlm.Enable` | models/systemc/scope/scope_tlm.h:98-104 | Only an idle scope starts filling, from an empty buffer. |
| `ScopeTlm.ScopeTlm.Fill` | models/systemc/scope/scope_tlm.h:123-134 | The sample joins the history; armed once the pre-trigger length is reached. |
| `ScopeTlm.ScopeTlm.Watch` | models/systemc/scope/scope_tlm.h:136-156 | The sample joins the history; a trigger starts a capture. |
| `ScopeTlm.ScopeTlm.StartCapture` | models/systemc/scope/scope_tlm.h:145-153 | The capture is the last pre samples followed by the trigger sample once more. |
| `ScopeTlm.ScopeTlm.ContinueCapture` | models/systemc/scope/scope_tlm.h:158-176 | One more sample after the trigger; complete after max(1, post - 1) of them, with exactly the window of the history. |
| `ScopeTlm.ScopeTlm.Output` | models/systemc/scope/scope_tlm.h:178-190 | The next sample of the window; re-armed with an empty buffer exactly after the last. |
| `ScopeTlm.ScopeTlm.ProcessSample` | models/systemc/scope/scope_tlm.h:112-195 | Every state's transition, the empty buffer on re-arming included; with the invariant: at all times the valid outputs are the completed earlier windows followed by the part of the current one already sent, each window once and in order. |
| `ScopeTlm.SpanShape` | models/systemc/scope/scope_tlm.h:136-190 | Every capture takes the first trigger since it was armed; the next is armed, empty, when the window has been played back, so that what comes meanwhile is dropped. |
| `ScopeTlm.FirstWindow` | models/systemc/scope/scope_tlm.h:123-176 | The first window of any run is the one around the first trigger after the filling, whatever triggers were lost before or come later. |
| `ScopeTlm.IndexRightIff` | models/systemc/scope/scope_tlm.h:164-168 | The recorded trigger index is right if and only if the buffer was armed for at least pre samples up to the trigger. |
| `ScopeTlm.FirstIndexIsRight` | models/systemc/scope/scope_tlm.h:123-168 | The first window of a run always meets that. |
| `ScopeTlm.SettingIndexesRight` | models/systemc/scope/scope_tlm.h:123-190 | A setting records right indexes for all windows of all runs if and only if pre is at most 1. |
| `ScopeTlm.Run` | models/systemc/scope/scope_tlm.h:112-195 | For any stream, any triggers and any configuration: the windows are exactly those of the captures, and the outputs are those windows in order, as far as the run goes. |
| `ScopeTlm.SecondIndexIsWrong` | models/systemc/scope/scope_tlm.h:164-190 | A concrete run whose second window records a wrong trigger index. |
| `ScopeTlm.RunOneTrigger` | models/systemc/scope/scope_tlm.h:112-195 | With one trigger at most one window, exactly the one defined by the stream; a trigger while filling is lost. |
| `ScopeTlm.TriggerWhileFilling` | models/systemc/scope/scope_tlm.h:123-134 | A concrete run whose only trigger comes while the buffer fills: no window. |
| `ScopeTlm.WindowsAlign` | models/systemc/scope/scope_tlm.h:123-176 | With pre >= 1 and post >= 2 the window is the ESL window with the trigger sample repeated and its last post-trigger sample dropped. |
| `AcquisitionSpec.SpanShape` | models/python/acquisition_sim.py:351-377 | Every window of a run lies after the end of the one before, has at most pre samples up to its trigger and exactly max(1, post) after it, and its trigger is the first combined trigger since then. |
| `AcquisitionSpec.SpansDisjoint` | models/python/acquisition_sim.py:351-377 | At most max_triggers windows, disjoint and in signal order. |
| `AcquisitionSpec.SpansComplete` | models/python/acquisition_sim.py:351-377 | Fewer windows than allowed means no trigger was left, or one too late for its window to fit. |
| `AcquisitionSpec.WrittenIsNoLonger` | models/python/acquisition_sim.py:367-372 | Memory never receives more than was captured. |
| `AcquisitionSpec.WrittenInFull` | models/python/acquisition_sim.py:367-372 | Memory receives the captured samples in full if and only if every window fits the 512-word FIFO. |
| `AcquisitionSpec.SmallWindowsFit` | models/python/acquisition_sim.py:367-372 | Windows fit whenever pre + max(1, post) is at most 512. |
| `AcquisitionSpec.SettingKeepsAll` | models/python/acquisition_sim.py:367-372 | A setting keeps every captured sample, of every signal and all triggers, if and only if pre + max(1, post) is at most 512. |
| `AcquisitionSpec.StoreOne` | models/python/acquisition_sim.py:367-372 | What was stored and what is stuck are what was there before and what the FIFO takes of the window, in order, for any alignment. |
| `AcquisitionSpec.StuckForEver` | models/python/acquisition_sim.py:367-372 | Where no beat fits before the end of the page, nothing is ever stored again. |
| `AcquisitionSpec.AlignedStores` | models/python/acquisition_sim.py:367-372 | From a word-aligned base nothing gets stuck and all that the FIFO takes is stored. |
| `AcquisitionSpec.AndModeTakesBoth` | models/python/acquisition_sim.py:326-356 | In and-mode both triggers fire at the trigger of every window, no sample at which both fire was passed over while the scope was armed, and none for which there was room is left at the end. |
| `AcquisitionSpec.OrModeTakesEither` | models/python/acquisition_sim.py:326-356 | In or-mode the same of at least one of the two triggers. |
| `AcquisitionSpec.SilentChannel` | models/python/acquisition_sim.py:326-356 | With one channel silent there is no window in and-mode, and in or-mode the combined trigger is that of the other channel alone. |
| `AcquisitionSpec.DisabledIsSilent` | models/python/acquisition_sim.py:323-331 | A disabled trigger makes its channel silent. |
| `AcquisitionSpec.LogComplete` | models/python/acquisition_sim.py:333-349 | Every firing sample of either channel has its event in the log, with that sample, the one before it and the mode of the channel. |
| `AcquisitionSpec.LogSound` | models/python/acquisition_sim.py:333-349 | The log holds no other event. |
| `Acquisition.SendWindow` | models/python/acquisition_sim.py:367-370 | The window, or as much as there is room for, joins the queue; refusals go unnoticed. |
| `Acquisition.StoreWindow` | models/python/acquisition_sim.py:367-372 | After each window the writer has stored, and holds back, exactly what is specified, in legal bursts, for any base address. |
| `Acquisition.TriggerStep` | models/python/acquisition_sim.py:323-324 | Each channel's trigger fires as its closed form says. |
| `Acquisition.ArmedStep` | models/python/acquisition_sim.py:352-356 | While armed, a trigger counts only below the limit; the spans still to come are unchanged. |
| `Acquisition.TriggeredStep` | models/python/acquisition_sim.py:358-365 | A window is complete exactly when its span ends, and is the window of that span. |
| `Acquisition.AcquisitionSystem.constructor` | models/python/acquisition_sim.py:240-278 | A system is fresh when the scope accepts its configuration. |
| `Acquisition.AcquisitionSystem.Create` | models/python/acquisition_sim.py:240-278 | Construction fails exactly when scope_pre exceeds the scope buffer. |
| `Acquisition.AcquisitionSystem.RunAcquisition` | models/python/acquisition_sim.py:290-385 | End to end, for any two signals, limit and base address: the windows are the spans of the combined trigger over signal 1, the event log is that of both channels, the concatenated burst data is what the writer stores of the windows, in order, bytes_written is four times its length and every burst is legal. From a word-aligned base it is what the FIFO takes, and with pre + max(1, post) at most 512 it is the concatenated windows; a buffer of whole words that ends on a page ends as its ring. With a silent channel there are no windows in and-mode, and with the second one silent those of the first alone in or-mode. |
| `Acquisition.MissingChannelIsSilent` | models/python/acquisition_sim.py:308-331 | A second channel that is not given is silent in every mode but LEVEL. |
| `Acquisition.LongWindowLosesSamples` | models/python/acquisition_sim.py:290-385 | A concrete run that captures 600 samples and stores 512. |
| `Packing.UnpackPack` | models/systemc/ram_writer/ram_writer_tlm.h:220-231 | Unpacking a packed word gives back its four samples, sign included. |
| `Packing.SamplesInOrder` | models/systemc/ram_writer/ram_writer_tlm.h:224-228 | Sample i is the pattern in bits 16 * i and up of the word. |
| `Packing.PrefixIsPack` | models/systemc/ram_writer/ram_writer_tlm.h:224-228 | The packing loop builds the word with sample i in lane i. |
| `RamWriterTlm.PackedWord` | models/systemc/ram_writer/ram_writer_tlm.h:220-231 | Packing four samples at the end of the queue keeps the unpacked stream. |
| `Packing.PaddedWithZeros` | models/systemc/ram_writer/ram_writer_tlm.h:160-165 | Padding keeps the samples and adds at most three zeros. |
| `RamWriterTlm.BurstStaysInPage` | models/systemc/ram_writer/ram_writer_tlm.h:236-258 | A generated burst never crosses a 4 KB boundary. |
| `RamWriterTlm.SplitEndsOnPage` | models/systemc/ram_writer/ram_writer_tlm.h:236-258 | From an aligned pointer a burst takes all it wants or ends on a page boundary. |
| `RamWriterTlm.BurstIsLegal` | models/systemc/ram_writer/ram_writer_tlm.h:53-56 | Legal transactions stay legal when the next burst is added: one to burst_len words, as many as it says, on one page. |
| `RamWriterTlm.RamWriterTlm.constructor` | models/systemc/ram_writer/ram_writer_tlm.h:76-83 | Idle and empty, write pointer at zero. |
| `RamWriterTlm.RamWriterTlm.Configure` | models/systemc/ram_writer/ram_writer_tlm.h:88-94 | Moves the write pointer; starts a new contiguous run of transactions; keeps everything queued. |
| `RamWriterTlm.RamWriterTlm.Reset` | models/systemc/ram_writer/ram_writer_tlm.h:99-106 | Drops exactly the samples not yet packed and the transaction log; packed words and memory stay. |
| `RamWriterTlm.RamWriterTlm.Enable` | models/systemc/ram_writer/ram_writer_tlm.h:111-116 | Collecting afterwards. |
| `RamWriterTlm.RamWriterTlm.PackAndQueue` | models/systemc/ram_writer/ram_writer_tlm.h:220-231 | Four samples become one word; nothing of the stream is lost. |
| `RamWriterTlm.RamWriterTlm.CreateTransaction` | models/systemc/ram_writer/ram_writer_tlm.h:263-280 | The first words move, in order, into one transaction at the write pointer and into memory. |
| `RamWriterTlm.RamWriterTlm.GenerateBurst` | models/systemc/ram_writer/ram_writer_tlm.h:236-258 | One burst, cut at the page; what does not fit stays queued; legal if all before were. |
| `RamWriterTlm.RamWriterTlm.Flush` | models/systemc/ram_writer/ram_writer_tlm.h:153-173 | The stream is padded with zeros to a multiple of four and all packed; the exact number of words left and the pointer; words remain if and only if they do not fit before the next page, and then the write pointer is on a page boundary. |
| `RamWriterTlm.RamWriterTlm.PackRest` | models/systemc/ram_writer/ram_writer_tlm.h:153-165 | Everything is packed, the last samples padded with zeros. |
| `RamWriterTlm.RamWriterTlm.WriteSample` | models/systemc/ram_writer/ram_writer_tlm.h:124-148 | Refused exactly while idle; otherwise the stream grows by the sample (and padding on TLAST); the exact queue length and pointer, with and without TLAST; fewer than burst_len words stay queued, transactions stay contiguous, on one page, and exactly as long as they say. |
| `RamWriterTlm.RamWriterTlm.TakeSample` | models/systemc/ram_writer/ram_writer_tlm.h:129-140 | The same for the sample alone. |
| `RamWriterTlm.RamWriterTlm.SendFullBurst` | models/systemc/ram_writer/ram_writer_tlm.h:137-140 | A burst is sent exactly when a full burst length is queued. |
| `RamWriterTlm.RamWriterTlm.FlushTwice` | models/systemc/ram_writer/ram_writer_tlm.h:153-173 | On every orderly state two flushes leave both queues empty, and memory unpacks to the padded stream. |
| `RamWriterTlm.OneFlushLeavesAWord` | models/systemc/ram_writer/ram_writer_tlm.h:248-254 | A concrete run after which one flush leaves a word queued. |
| `Pulser.InputFalls` | projects/mcpha/server/mcpha-server.c:518 | The decaying input strictly falls until it is zero, within 4095*512 steps. |
| `Pulser.PotentialFalls` | projects/mcpha/server/mcpha-server.c:517-518 | Output + 65536 * input never grows, so no product of the recurrence leaves int64. |
| `Pulser.NeverRisesAgain` | projects/mcpha/server/mcpha-server.c:517-518 | Once the output does not rise it never rises again. |
| `Pulser.FallsForEver` | projects/mcpha/server/mcpha-server.c:517-518 | From the first step without a rise on the output only falls: the recurrence has one peak. |
| `Pulser.PeakBounds` | projects/mcpha/server/mcpha-server.c:511-520 | The peak is at least 4095 * 512, so the divisor is at least 4095. |
| `Pulser.ScaleFactorFits` | projects/mcpha/server/mcpha-server.c:520 | The quotient fits 16 bits and is the floor. |
| `Pulser.SinglePeak` | projects/mcpha/server/mcpha-server.c:514-519 | The value at the first fall bounds the whole infinite recurrence. |
| `Pulser.Filter` | projects/mcpha/server/mcpha-server.c:517-518 | One product and division in 64-bit arithmetic, without overflow: the result is the whole part of y * k / 65536. |
| `Pulser.StepLoss` | projects/mcpha/server/mcpha-server.c:517-518 | Every step of input and output takes the exact fractions and loses less than one unit, downwards. |
| `Pulser.RoundingLoss` | projects/mcpha/server/mcpha-server.c:514-519 | After n steps the input is at most n below that of the recurrence without rounding, and the output at most n * n; neither is above. |
| `Pulser.NormalisePulse` | projects/mcpha/server/mcpha-server.c:511-520 | For all 16-bit f and r: the loop terminates, its exit value is the maximum of the infinite recurrence, and s is the largest factor that brings the peak to at most full scale, untruncated. |
| `LowerBound.FirstAtLeastIs` | projects/mcpha/server/mcpha-server.c:32-42 | In a sorted array only one index separates the smaller elements from the rest. |
| `LowerBound.Search` | projects/mcpha/server/mcpha-server.c:32-42 | The halving search returns that index, the length included. |
| `Sampler.TableSorted` | projects/mcpha/server/mcpha-server.c:502-506 | The cumulative table is sorted, so the search applies. |
| `Sampler.DrawsBin` | projects/mcpha/server/mcpha-server.c:502-506 | A random value draws bin k if and only if it lies between the bin's two cuts. |
| `Sampler.DrawIsABin` | projects/mcpha/server/mcpha-server.c:502-506 | Every random value below RAND_MAX draws some bin, never an empty one. |
| `Sampler.DrawCount` | projects/mcpha/server/mcpha-server.c:502-506 | Bin k is drawn by exactly floor(C_k * RAND_MAX / total) - floor(C_(k-1) * RAND_MAX / total) values. |
| `Sampler.DrawShare` | projects/mcpha/server/mcpha-server.c:502-506 | That count is less than one away from spectrum[k] * RAND_MAX / total. |
| `Sampler.CountsSum` | projects/mcpha/server/mcpha-server.c:502-506 | The counts of all bins add up to RAND_MAX. |
| `Sampler.SumSpectrum` | projects/mcpha/server/mcpha-server.c:493-497 | The total, without overflow. |
| `Sampler.BuildTable` | projects/mcpha/server/mcpha-server.c:493-506 | Starts exactly when the total is at least one, with the whole table; otherwise the old table stays. |
| `Sampler.DrawAmplitude` | projects/mcpha/server/mcpha-server.c:574 | The bin of rand() % RAND_MAX: in range and not empty. |
| `Bitstream.FoundEarly` | patches/xilinx_devcfg.c:331-350 | A sync word that a first part shows is the one, with the same header and byte order, that the whole shows. |
| `Bitstream.SwapWordsAppend` | patches/xilinx_devcfg.c:357-363 | Swapping words chunk by chunk is swapping the whole stream. |
| `Bitstream.SwapTwice` | patches/xilinx_devcfg.c:357-363 | Swapping twice gives the words back. |
| `Bitstream.ThroughMore` | patches/xilinx_devcfg.c:318-363 | A later write continues the body: words and residue are those of the longer body. |
| `Bitstream.RunClosedForm` | patches/xilinx_devcfg.c:311-421 | The state after any run of successful writes, in closed form: residue, byte order, offset and all words sent. |
| `Bitstream.ResidueLength` | patches/xilinx_devcfg.c:352-355 | The residue is always the length of the stripped stream modulo four. |
| `Bitstream.ChunkInvariance` | patches/xilinx_devcfg.c:311-363 | A split into writes ends in exactly the state of one single write if and only if the first chunk shows the sync word, or the whole shows none, or the header is empty and unswapped. |
| `Bitstream.FoundIs` | patches/xilinx_devcfg.c:331-350 | Where a sync word has a byte behind it, the first one is found. |
| `Bitstream.NormalSyncFirst` | patches/xilinx_devcfg.c:331-363 | Whichever of the two sync words the first chunk shows, the bytes handed to the DMA by any run begin with 66 55 99 AA. |
| `Bitstream.OrderDoesNotMatter` | patches/xilinx_devcfg.c:331-363 | Two streams, in any chunks, whose bodies differ by the order of the bytes in each word have opposite sync words, hand over the same words and keep the same bytes. |
| `Bitstream.SplitSyncIsMissed` | patches/xilinx_devcfg.c:333-346 | A split through the sync word that ends differently from one write. |
| `Devcfg.XdevcfgDevice.Open` | patches/xilinx_devcfg.c:571-574 | No residue, normal byte order, offset zero. |
| `Devcfg.XdevcfgDevice.Write` | patches/xilinx_devcfg.c:288-431 | One successful write takes the device from state to state as specified. |
| `Devcfg.XdevcfgDevice.Prepare` | patches/xilinx_devcfg.c:318-350 | Stragglers and new data, without the header when at offset zero a sync word is seen, with its byte order. |
| `Devcfg.XdevcfgDevice.StripHeader` | patches/xilinx_devcfg.c:330-350 | The data from the sync word on moves to the front of the buffer, exactly when one is seen. |
| `Devcfg.XdevcfgDevice.FindSync` | patches/xilinx_devcfg.c:333-344 | The first sync word of either order that starts before the last four bytes, and whether it asks for swapping. |
| `Devcfg.XdevcfgDevice.SaveStragglers` | patches/xilinx_devcfg.c:352-355 | Keeps the last count mod 4 bytes. |
| `Devcfg.XdevcfgDevice.Send` | patches/xilinx_devcfg.c:352-394 | Whole words go out in the right byte order, the rest is kept. |
| `Devcfg.XdevcfgDevice.SwapInPlace` | patches/xilinx_devcfg.c:357-363 | The buffer's words are swapped in place, nothing else. |
| `KeyerTiming.DotIsOneUnit` | projects/sdr_transceiver_hpsdr/server/sdr-transceiver-hpsdr.c:1500-1566 | A dot keys RF for exactly one unit, 1200 / cw_speed ticks, for any delay. |
| `KeyerTiming.PauseIsOneUnit` | projects/sdr_transceiver_hpsdr/server/sdr-transceiver-hpsdr.c:1523-1579 | The pause between elements is exactly one unit, for any delay. |
| `KeyerTiming.DashIsExact` | projects/sdr_transceiver_hpsdr/server/sdr-transceiver-hpsdr.c:1500-1566 | A dash lasts exactly its nominal time if and only if the delay exceeds neither dash nor unit, or both are equal. |
| `KeyerTiming.WholeTicks` | projects/sdr_transceiver_hpsdr/server/sdr-transceiver-hpsdr.c:1502-1571 | Unit, letter space and dash are the whole parts of 1200 / speed, 2400 / speed and 3600 * weight / (50 * speed). |
| `KeyerTiming.UsualDash` | projects/sdr_transceiver_hpsdr/server/sdr-transceiver-hpsdr.c:1554-1557 | A dash of weight 50 is three units, up to two ticks more. |
| `KeyerTiming.LetterSpaceIsTwoUnits` | projects/sdr_transceiver_hpsdr/server/sdr-transceiver-hpsdr.c:1568-1571 | The letter space is two units, or one tick more. |
| `KeyerTiming.LongDelayCutsDash` | projects/sdr_transceiver_hpsdr/server/sdr-transceiver-hpsdr.c:1554-1566 | At speed 25 and weight 50 a delay of 255 leaves 48 ticks of a dash of 144. |
| `KeyerTiming.BackToBack` | projects/sdr_transceiver_hpsdr/server/sdr-transceiver-hpsdr.c:1500-1579 | In any run of elements and letter spaces RF is on for each element's time and off for exactly one unit in between, plus the letter space where there is one. |
| `KeyerPaddles.HoldRemembers` | projects/sdr_transceiver_hpsdr/server/sdr-transceiver-hpsdr.c:1514-1520 | After a stretch of sampling a contact is remembered if and only if it was closed at some sampled tick, or before, and not forgotten since. |
| `KeyerPaddles.ElementRemembers` | projects/sdr_transceiver_hpsdr/server/sdr-transceiver-hpsdr.c:1618-1627 | After an element its own contact is remembered if and only if it is closed at the end; the other one if and only if it was closed at some sampled tick, in mode 1 not followed by a release while keying. |
| `KeyerPaddles.BurstFollows` | projects/sdr_transceiver_hpsdr/server/sdr-transceiver-hpsdr.c:1612-1643 | A burst is made of the items that the paddle history asks for, to the end. |
| `KeyerPaddles.BurstIsUnique` | projects/sdr_transceiver_hpsdr/server/sdr-transceiver-hpsdr.c:1612-1643 | No other list of items is. |
| `KeyerPaddles.BurstShape` | projects/sdr_transceiver_hpsdr/server/sdr-transceiver-hpsdr.c:1614-1642 | A burst begins with an element; a space needs spacing and follows an element; with spacing, and only then, it ends with one; nothing is remembered at its end. |
| `KeyerPaddles.DotFirst` | projects/sdr_transceiver_hpsdr/server/sdr-transceiver-hpsdr.c:1614-1621 | A burst begins with a dot exactly if the dot contact is closed. |
| `KeyerPaddles.DotAfterSpace` | projects/sdr_transceiver_hpsdr/server/sdr-transceiver-hpsdr.c:1632-1638 | After a space comes a dot exactly if the dot contact was closed in some tick of it. |
| `KeyerPaddles.ElementFollows` | projects/sdr_transceiver_hpsdr/server/sdr-transceiver-hpsdr.c:1616-1643 | After an element comes the other one exactly if its contact was closed meanwhile and not forgotten; the same again exactly if that is not so and its own contact is closed at the end. |
| `KeyerPaddles.SqueezeAlternates` | projects/sdr_transceiver_hpsdr/server/sdr-transceiver-hpsdr.c:1612-1643 | As long as both contacts stay closed, dots and dashes alternate, a dot first, without end or space. |
| `KeyerPaddles.TapSendsOne` | projects/sdr_transceiver_hpsdr/server/sdr-transceiver-hpsdr.c:1491-1643 | A contact closed for one tick sends its one element, the reversal deciding which, and a space with spacing. |
| `KeyerPaddles.KeyHeldIs` | projects/sdr_transceiver_hpsdr/server/sdr-transceiver-hpsdr.c:1596-1600 | The key is held up to the first tick at which its contact is read open. |
| `KeyerPaddles.StraightOnTime` | projects/sdr_transceiver_hpsdr/server/sdr-transceiver-hpsdr.c:1593-1602 | A key closed for k ticks, and not again before the trail is over, keys RF for max(k, trail) ticks. |
| `KeyerPaddles.IambicPass` | projects/sdr_transceiver_hpsdr/server/sdr-transceiver-hpsdr.c:1585-1643 | A pass in an iambic mode keys the elements of its burst one unit, or a unit and a letter space, apart. |
| `KeyerPaddles.StraightPass` | projects/sdr_transceiver_hpsdr/server/sdr-transceiver-hpsdr.c:1591-1610 | A straight pass keys for max(k, trail) ticks for a key closed k ticks, and for one unit for the dot contact alone. |
| `KeyerPaddles.IdlePass` | projects/sdr_transceiver_hpsdr/server/sdr-transceiver-hpsdr.c:1585-1589 | A pass that finds no contact closed is one tick without RF. |
| `KeyerPtt.PttIsNearRf` | projects/sdr_transceiver_hpsdr/server/sdr-transceiver-hpsdr.c:1500-1579 | In any run of waits and keyings, each with some RF, PTT is on in exactly the ticks from the trail before RF to the hang time after it, and stays on after the run for exactly what is left of that. |
| `KeyerPtt.RunOfRf` | projects/sdr_transceiver_hpsdr/server/sdr-transceiver-hpsdr.c:1581-1647 | The waits and keyings of a run, decided by the paddle history, make up its RF line. |
| `KeyerPtt.PttFollowsRfIff` | projects/sdr_transceiver_hpsdr/server/sdr-transceiver-hpsdr.c:1500-1647 | For every setting: PTT follows RF in that way in all runs if and only if the keyer is off, the mode is straight, or delay or weight is not zero. |
| `KeyerPtt.SilentDash` | projects/sdr_transceiver_hpsdr/server/sdr-transceiver-hpsdr.c:1554-1579 | Otherwise a concrete paddle history brings PTT without RF: a dash of no length. |
| `Keyer.KeyerThread.HoldSampling` | projects/sdr_transceiver_hpsdr/server/sdr-transceiver-hpsdr.c:1514-1520 | n ticks with the lines held; the paddle memory is that of the n samples. |
| `Keyer.KeyerThread.CwOn` | projects/sdr_transceiver_hpsdr/server/sdr-transceiver-hpsdr.c:1500-1521 | PTT and the muxes are on for the whole trail, and only then RF; the memory is that of the samples meanwhile. |
| `Keyer.KeyerThread.CwOff` | projects/sdr_transceiver_hpsdr/server/sdr-transceiver-hpsdr.c:1523-1539 | RF stays on for the trail; the hang time starts when it goes off; the memory is that of the samples meanwhile. |
| `Keyer.KeyerThread.CwPttOff` | projects/sdr_transceiver_hpsdr/server/sdr-transceiver-hpsdr.c:1541-1552 | The hang time falls by one; PTT, muxes and cw_ptt go together, only while RF is off and when it is over. |
| `Keyer.KeyerThread.CwSignalDelay` | projects/sdr_transceiver_hpsdr/server/sdr-transceiver-hpsdr.c:1554-1566 | RF on for the element less the delay, never negative; the memory is that of the samples meanwhile. |
| `Keyer.KeyerThread.CwSpaceDelay` | projects/sdr_transceiver_hpsdr/server/sdr-transceiver-hpsdr.c:1568-1579 | RF off for the pause or the letter space, PTT for as much of it as the hang time lasts, tick by tick; the memory is that of the samples. |
| `Keyer.KeyerThread.PlayElement` | projects/sdr_transceiver_hpsdr/server/sdr-transceiver-hpsdr.c:1620-1626 | The RF and PTT lines, the ticks and the memory of one element. |
| `Keyer.KeyerThread.PlaySpace` | projects/sdr_transceiver_hpsdr/server/sdr-transceiver-hpsdr.c:1634-1638 | The RF and PTT lines, the ticks and the memory of a letter space. |
| `Keyer.KeyerThread.Iambic` | projects/sdr_transceiver_hpsdr/server/sdr-transceiver-hpsdr.c:1612-1643 | For every paddle history the burst terminates and its RF and PTT lines are those of exactly the items the history asks for. |
| `Keyer.KeyerThread.HoldKey` | projects/sdr_transceiver_hpsdr/server/sdr-transceiver-hpsdr.c:1596-1600 | RF on for as long as the key contact is read closed. |
| `Keyer.KeyerThread.StraightKey` | projects/sdr_transceiver_hpsdr/server/sdr-transceiver-hpsdr.c:1593-1602 | RF off for the trail, then on until a trail after the first tick, from the end of the trail on, at which the contact is read open. |
| `Keyer.KeyerThread.StraightDot` | projects/sdr_transceiver_hpsdr/server/sdr-transceiver-hpsdr.c:1603-1610 | The other contact sends one exact dot. |
| `Keyer.KeyerThread.Pass` | projects/sdr_transceiver_hpsdr/server/sdr-transceiver-hpsdr.c:1585-1644 | The RF and PTT lines of one pass of the endless loop are the ones that the paddle history decides. |
| `Keyer.Run` | projects/sdr_transceiver_hpsdr/server/sdr-transceiver-hpsdr.c:1581-1647 | For every paddle history, settings and number of passes: the RF and PTT lines are exactly the ones that the history decides; PTT is on in exactly the ticks from the trail before RF to the hang time after it, unless a dash may have no length; RF on implies PTT, both muxes and cw_ptt on in every tick. |
| `RadioWords.BandCodeIs` | projects/sdr_transceiver_hpsdr/server/sdr-transceiver-hpsdr.c:286-305 | The code is k + 1 if and only if freqs[2k] < f <= freqs[2k+1], for every frequency. |
| `RadioWords.NoBand` | projects/sdr_transceiver_hpsdr/server/sdr-transceiver-hpsdr.c:286-305 | The code is 0 if and only if the frequency is in no band. |
| `RadioWords.MiscFields` | projects/sdr_transceiver_hpsdr/server/sdr-transceiver-hpsdr.c:302-309 | No two fields of the accessory word overlap; each is read back. |
| `RadioWords.RxFields` | projects/sdr_transceiver_hpsdr/server/sdr-transceiver-hpsdr.c:210-231 | The receive word is never zero and gives back everything it is made of: transmit bit, filter, preamplifier, the three single bits and a one-hot antenna. |
| `RadioWords.FiltersAreTightest` | projects/sdr_transceiver_hpsdr/server/sdr-transceiver-hpsdr.c:199-247 | Left to itself the choice is the highest high-pass corner and the lowest low-pass corner that still pass both receive frequencies, or the transmit frequency while transmitting. |
| `RadioWords.AutomaticPreamp` | projects/sdr_transceiver_hpsdr/server/sdr-transceiver-hpsdr.c:199-201 | Left to itself the preamplifier is on exactly with a receiver above 50 MHz. |
| `RadioWords.TxFields` | projects/sdr_transceiver_hpsdr/server/sdr-transceiver-hpsdr.c:239-258 | The transmit word is never zero and gives back filter, transmit bit and a one-hot antenna; the relay bit is set exactly with the transmit bit unless disabled. |
| `RadioFrames.PttAdded` | projects/sdr_transceiver_hpsdr/server/sdr-transceiver-hpsdr.c:826-831 | The key can only add the transmit bit and changes nothing else. |
| `RadioFrames.KeyReachesBoards` | projects/sdr_transceiver_hpsdr/server/sdr-transceiver-hpsdr.c:197-265 | With the key down both filter words carry the transmit bit. |
| `RadioFrames.FrequencyIs` | projects/sdr_transceiver_hpsdr/server/sdr-transceiver-hpsdr.c:1004 | A frame carries one number in network order, and its frequency is that number. |
| `RadioFrames.FrequencyPlaces` | projects/sdr_transceiver_hpsdr/server/sdr-transceiver-hpsdr.c:1004 | The bytes of the frequency are those of the frame, the first the highest. |
| `RadioFrames.TunesExactly` | projects/sdr_transceiver_hpsdr/server/sdr-transceiver-hpsdr.c:1001-1109 | A frame of type 2 to 9 that carries a frequency in range sets exactly that one, for its channel, where it may; any other number changes nothing. |
| `RadioFrames.AntennaFrame` | projects/sdr_transceiver_hpsdr/server/sdr-transceiver-hpsdr.c:870-919 | After a frame of type 0 or 1 both filter words carry its antennas, attenuator and transmit bit, each in its place, and synchronous tuning is what its top bit says. |
| `RadioFrames.FilterFrame` | projects/sdr_transceiver_hpsdr/server/sdr-transceiver-hpsdr.c:1124-1140 | After a frame of type 18 or 19 the filter words carry its preamplifier, high-pass and low-pass bits if it asks for manual filters; the relay and accessory bits are its own. |
| `RadioFrames.AttenuatorFrame` | projects/sdr_transceiver_hpsdr/server/sdr-transceiver-hpsdr.c:1219-1267 | After a frame of type 20 to 23 the accessory word carries the attenuator of its receiver. |
| `RadioFrames.LastFrameWins` | projects/sdr_transceiver_hpsdr/server/sdr-transceiver-hpsdr.c:785-1043 | The transmit and the first receive frequency are the numbers carried by the last frame in range for them, whatever else was received. |
| `RadioFrames.LastSecondWins` | projects/sdr_transceiver_hpsdr/server/sdr-transceiver-hpsdr.c:803-1109 | The second receive frequency is the number carried by the last in-range frame that came while synchronous tuning was off; a start turns that off. |
| `RadioFrames.LastSyncWins` | projects/sdr_transceiver_hpsdr/server/sdr-transceiver-hpsdr.c:806-881 | Synchronous tuning is what the last start or frame of type 0 or 1 made it. |
| `RadioFrames.ManualAfter` | projects/sdr_transceiver_hpsdr/server/sdr-transceiver-hpsdr.c:1124-1131 | After a filter frame manual filters are on if and only if bit 6 of byte 2 or bit 7 of byte 4 is set. |
| `RadioFrames.ManualWithoutItsBit` | projects/sdr_transceiver_hpsdr/server/sdr-transceiver-hpsdr.c:1124-1131 | A frame with bit 6 of byte 2 clear that turns them on. |
| `RadioCache.Radio.constructor` | projects/sdr_transceiver_hpsdr/server/sdr-transceiver-hpsdr.c:166-172 | Reset settings, nothing written. |
| `RadioCache.Radio.AlexWrite` | projects/sdr_transceiver_hpsdr/server/sdr-transceiver-hpsdr.c:197-265 | Caches and boards hold the words recomputed from the settings, without a repeated write; with a codec nothing happens. |
| `RadioCache.Radio.MiscWrite` | projects/sdr_transceiver_hpsdr/server/sdr-transceiver-hpsdr.c:284-317 | The cache and the bus hold the word recomputed from the settings, without a repeated write. |
| `RadioCache.Radio.FindBand` | projects/sdr_transceiver_hpsdr/server/sdr-transceiver-hpsdr.c:301-305 | The binary search gives the band code. |
| `RadioCache.Radio.Tune` | projects/sdr_transceiver_hpsdr/server/sdr-transceiver-hpsdr.c:1007-1012 | A new frequency, and only a new one, marks the filter words stale, and the accessory word where there is one; the settings change in that frequency only. |
| `RadioCache.Radio.ProcessEp2` | projects/sdr_transceiver_hpsdr/server/sdr-transceiver-hpsdr.c:863-1299 | Every frame changes the settings as specified and keeps: a clear flag means the cached words are those of the settings. |
| `RadioCache.Radio.Pass` | projects/sdr_transceiver_hpsdr/server/sdr-transceiver-hpsdr.c:785-843 | For any control frames, start commands and key: after a pass of the main loop the bus holds the recomputed accessory word, both boards hold the recomputed filter words (or nothing relevant was ever set), and at most two filter writes and one bus write were made. |
| `Ep6Format.RoundFits` | projects/sdr_receiver_hpsdr/server/sdr-receiver-hpsdr.c:288-300 | For 1..8 receivers a frame's slots fit 504 bytes, a round 12 datagrams and 12288 sample bytes. |
| `Ep6Format.RoundIsFull` | projects/sdr_receiver_hpsdr/server/sdr-receiver-hpsdr.c:286-288 | As many slots go into a frame, and datagrams into a round, as there is room for. |
| `Ep6Format.FramesTile` | projects/sdr_receiver_hpsdr/server/sdr-receiver-hpsdr.c:309-315 | The frames tile bytes 8..1031 of every datagram, without gap or overlap. |
| `Ep6Format.FramesApart` | projects/sdr_receiver_hpsdr/server/sdr-receiver-hpsdr.c:309-315 | No two frames of a round overlap. |
| `Ep6Format.SlotAt` | projects/sdr_receiver_hpsdr/server/sdr-receiver-hpsdr.c:315-322 | Slot j of a run of slots holds sample j and two zero bytes. |
| `Ep6Format.DecodeUndoesFrame` | projects/sdr_receiver_hpsdr/server/sdr-receiver-hpsdr.c:311-322 | Slot j of a frame gives back the used bytes of sample k + j. |
| `Ep6Format.ReceiverReads` | projects/sdr_receiver_hpsdr/server/sdr-receiver-hpsdr.c:315-322 | Receiver q reads in slot j the six bytes that it has in sample k + j. |
| `Ep6Format.HeadersCycle` | projects/sdr_receiver_hpsdr/server/sdr-receiver-hpsdr.c:255-262 | Headers repeat with period five, each with its own index byte. |
| `Ep6Format.CounterStep` | projects/sdr_receiver_hpsdr/server/sdr-receiver-hpsdr.c:303-307 | Counters are consecutive modulo 2^32. |
| `Ep6Format.DatagramStarts` | projects/sdr_receiver_hpsdr/server/sdr-receiver-hpsdr.c:303-313 | Datagram d starts with EF FE 01 06 and d modulo 2^32 in network order, and has the next two of the five headers. |
| `Ep6Format.DatagramDecodes` | projects/sdr_receiver_hpsdr/server/sdr-receiver-hpsdr.c:303-323 | A datagram gives back its two frames' samples in order. |
| `Ep6Format.RoundDecodes` | projects/sdr_receiver_hpsdr/server/sdr-receiver-hpsdr.c:284-326 | For every number of receivers and block: the datagrams of a round give back every sample of the round, in order, none lost or repeated. |
| `Ep6.OneFrame` | projects/sdr_receiver_hpsdr/server/sdr-receiver-hpsdr.c:309-323 | Writing frame i leaves all earlier frames of the round in place. |
| `Ep6.HeadersKept` | projects/sdr_receiver_hpsdr/server/sdr-receiver-hpsdr.c:309-323 | Frames leave every datagram's magic word and counter alone. |
| `Ep6.DatagramIs` | projects/sdr_receiver_hpsdr/server/sdr-receiver-hpsdr.c:303-325 | Magic word, counter and two frames in place make up the datagram. |
| `Ep6.CutIsRound` | projects/sdr_receiver_hpsdr/server/sdr-receiver-hpsdr.c:303-325 | What is in the buffer is the round as specified. |
| `Ep6.HeaderStep` | projects/sdr_receiver_hpsdr/server/sdr-receiver-hpsdr.c:278-313 | The header offset always selects the header of the next frame. |
| `Ep6.Ep6Sender.constructor` | projects/sdr_receiver_hpsdr/server/sdr-receiver-hpsdr.c:267-279 | Every datagram of the buffer starts with the magic word. |
| `Ep6.Ep6Sender.WriteFrame` | projects/sdr_receiver_hpsdr/server/sdr-receiver-hpsdr.c:311-322 | The buffer changes by exactly one complete frame. |
| `Ep6.Ep6Sender.StampCounters` | projects/sdr_receiver_hpsdr/server/sdr-receiver-hpsdr.c:303-307 | The datagrams of the round carry the next counters. |
| `Ep6.Ep6Sender.NextFrame` | projects/sdr_receiver_hpsdr/server/sdr-receiver-hpsdr.c:309-323 | One more frame in place, with the next header. |
| `Ep6.Ep6Sender.WriteFrames` | projects/sdr_receiver_hpsdr/server/sdr-receiver-hpsdr.c:302-323 | All frames of the round in place. |
| `Ep6.Ep6Sender.Round` | projects/sdr_receiver_hpsdr/server/sdr-receiver-hpsdr.c:284-326 | What is sent is the next datagrams over the samples taken; counters and headers go on where they were. |
| `IpfixFormat.ReadEncodedSets` | projects/sdr_transceiver_ft8/app/upload-to-pskreporter.c:74-95 | A reader of sets (section 3.3.2 of RFC 7011) gets back any sequence of sets, consuming all bytes. |
| `IpfixFormat.ReadMessageOf` | projects/sdr_transceiver_ft8/app/upload-to-pskreporter.c:211-219 | A reader of messages (section 3.1) accepts exactly the length written and finds the sets. |
| `IpfixFormat.ReadEncodedField` | projects/sdr_transceiver_ft8/app/upload-to-pskreporter.c:34-61 | A fixed or variable-length field (section 7) reads back with what follows it. |
| `IpfixFormat.ReadEncodedRecord` | projects/sdr_transceiver_ft8/app/upload-to-pskreporter.c:189-197 | A record reads back field by field. |
| `IpfixFormat.ReadEncodedRecords` | projects/sdr_transceiver_ft8/app/upload-to-pskreporter.c:189-209 | A reader of data records gets back all records of a set, and as padding what is shorter than any record. |
| `UploadFormat.ReceiverTemplateDeclares` | projects/sdr_transceiver_ft8/app/upload-to-pskreporter.c:79-85 | The options template declares exactly the fields in which the station's record is written. |
| `UploadFormat.ReportTemplateDeclares` | projects/sdr_transceiver_ft8/app/upload-to-pskreporter.c:87-94 | The template declares exactly the fields in which reports are written. |
| `UploadFormat.TemplatesAreSets` | projects/sdr_transceiver_ft8/app/upload-to-pskreporter.c:74-95 | The constant bytes are two well-formed sets. |
| `UploadFormat.SnrSurvives` | projects/sdr_transceiver_ft8/app/upload-to-pskreporter.c:43-47 | The signal report reads back if and only if it fits a signed octet. |
| `UploadFormat.StationFields` | projects/sdr_transceiver_ft8/app/upload-to-pskreporter.c:79-85 | Each value of the station is the one whose element number the template has in its place. |
| `UploadFormat.ReportFields` | projects/sdr_transceiver_ft8/app/upload-to-pskreporter.c:87-94 | Each value of a report likewise; frequency and time, 15 seconds on, in network order. |
| `UploadFormat.RecordBytes` | projects/sdr_transceiver_ft8/app/upload-to-pskreporter.c:191-197 | A report byte by byte: the strings with their lengths in front, then the numbers, mode and source. |
| `UploadFormat.MessageReads` | projects/sdr_transceiver_ft8/app/upload-to-pskreporter.c:151-221 | Every message is consumed exactly and holds four sets: both templates, the station, the batch. |
| `UploadFormat.MessageIsWhole` | projects/sdr_transceiver_ft8/app/upload-to-pskreporter.c:160-221 | The length of every message is a multiple of four. |
| `UploadFormat.HeaderPlaces` | projects/sdr_transceiver_ft8/app/upload-to-pskreporter.c:74-77 | The first sixteen bytes: version 10, the length, then time, sequence number and domain in network order. |
| `UploadFormat.RecordsRead` | projects/sdr_transceiver_ft8/app/upload-to-pskreporter.c:154-209 | The data sets hold exactly the station's record and the batch's records, with at most three bytes of padding. |
| `UploadFormat.TemplateHeads` | projects/sdr_transceiver_ft8/app/upload-to-pskreporter.c:78-95 | Read back, the templates name the two data sets and declare exactly the fields in which they are written. |
| `UploadFormat.CollectorReads` | projects/sdr_transceiver_ft8/app/upload-to-pskreporter.c:74-209 | A collector that knows nothing but the templates in the message finds exactly the station's record and the batch's. |
| `UploadFormat.CountsAgree` | projects/sdr_transceiver_ft8/app/upload-to-pskreporter.c:219-224 | Counting messages and counting their records agree modulo 2^32 only at multiples of 2^31. |
| `UploadFormat.BatchesCover` | projects/sdr_transceiver_ft8/app/upload-to-pskreporter.c:171-227 | Batches of ten, and the rest, cover every report once, in order. |
| `UploadFormat.PartFits` | projects/sdr_transceiver_ft8/app/upload-to-pskreporter.c:204-221 | A message in the making fits whenever the complete batch does. |
| `UploadFormat.RoomForAnyBatch` | projects/sdr_transceiver_ft8/app/upload-to-pskreporter.c:73 | Every possible batch of strings as a scan delivers them fits the 512-byte buffer if and only if the station's three strings have at most 26 bytes together. |
| `UploadFormat.TenLongReports` | projects/sdr_transceiver_ft8/app/upload-to-pskreporter.c:73 | Accepted strings of 27 letters and ten reports with a message of 516 bytes. |
| `Uploader.Buffer.CopyChar` | projects/sdr_transceiver_ft8/app/upload-to-pskreporter.c:34-41 | A string goes out as a variable-length field. |
| `Uploader.Buffer.CopyInt1` | projects/sdr_transceiver_ft8/app/upload-to-pskreporter.c:43-47 | One octet, two's complement. |
| `Uploader.Buffer.CopyInt2` | projects/sdr_transceiver_ft8/app/upload-to-pskreporter.c:49-54 | Two octets in network order. |
| `Uploader.Buffer.CopyInt4` | projects/sdr_transceiver_ft8/app/upload-to-pskreporter.c:56-61 | Four octets in network order. |
| `Uploader.Buffer.CloseSet` | projects/sdr_transceiver_ft8/app/upload-to-pskreporter.c:204-213 | Padding and the patched header make the bytes since `start` one well-formed set; nothing before it changes. |
| `Uploader.Buffer.WriteReport` | projects/sdr_transceiver_ft8/app/upload-to-pskreporter.c:191-197 | One encoded report at the cursor, nothing else. |
| `Uploader.Buffer.WriteReceiver` | projects/sdr_transceiver_ft8/app/upload-to-pskreporter.c:154-158 | The encoded station record at the cursor, nothing else. |
| `Uploader.Prepare` | projects/sdr_transceiver_ft8/app/upload-to-pskreporter.c:147-169 | The buffer holds everything that is the same in every message. |
| `Uploader.AddReport` | projects/sdr_transceiver_ft8/app/upload-to-pskreporter.c:189-199 | One more report; the constant part survives. |
| `Uploader.Send` | projects/sdr_transceiver_ft8/app/upload-to-pskreporter.c:204-221 | The bytes sent are the encoded message of the batch; the constant part survives. |
| `Uploader.MessageSizeIs` | projects/sdr_transceiver_ft8/app/upload-to-pskreporter.c:204-221 | The length of a message as sent, from the lengths of its strings. |
| `Uploader.Upload` | projects/sdr_transceiver_ft8/app/upload-to-pskreporter.c:102-228 | Accepted exactly when the three strings are short enough; then one message for every ten lines that parse and one for the rest, message k holding batch k and sequence number k. |
| `Uploader.RoundTrip` | projects/sdr_transceiver_ft8/app/upload-to-pskreporter.c:174-228 | Reading all messages back by their own templates gives the lines that parse, each once, in order. |
| `Uploader.SequenceAt` | projects/sdr_transceiver_ft8/app/upload-to-pskreporter.c:171-224 | Message k carries k after 11 * k data records, which is right if and only if k is a multiple of 2^31. |
| `Uploader.SequenceCountsRecords` | projects/sdr_transceiver_ft8/app/upload-to-pskreporter.c:171-224 | Every sequence number counts the data records sent before it if and only if there are at most ten reports. |
| `Uploader.ElevenLines` | projects/sdr_transceiver_ft8/app/upload-to-pskreporter.c:171-224 | A concrete run of eleven lines whose second message carries 1 after eleven records. |

## Left out

- RamWriterTlm.RamWriterTlm.CreateTransaction: addresses and the byte and burst counters are unbounded, so their wrap-around at 64 and 32 bits is not modelled.
- RamWriterTlm.RamWriterTlm.FlushTwice: needs a base that is a multiple of 8 and a burst length of 1 to 512 words, that is at most one page; conservation holds for any setting.
- RamWriterTlm.RamWriterTlm.Configure: after transactions under another setting legality is not claimed again until the next reset.
- RamWriter.RamWriterModel.ProcessPending: the data width is the 32 bits that the fixed burst size of the code implies; the status record that mirrors other fields is not kept.
- WriterSim.SucceedsOnRing: for a stream longer than a buffer that ends off a page, or a base off a word boundary whose buffer ends by the stuck address, success is characterised by the drains themselves (`SimulateRamWriter`) and not in closed form.
- Acquisition.AcquisitionSystem.RunAcquisition: sample rate, decimation and ADC width do not enter the run.
- ScopeTlm.ScopeTlm.Configure: a change of configuration in the middle of a run keeps nothing promised.
- TriggerTlm.TriggerTlm.ProcessSample: the trigger counter and the sample index are unbounded; the channel mask, which no code reads, is absent.
- Pulser.NormalisePulse: the two coefficients are arbitrary 16-bit values; how they come from the time constants in floating point is not modelled.
- Sampler.BuildTable: needs total * RAND_MAX to fit 64 bits, without which the C code has no defined value; RAND_MAX is 2^31 - 1 and the spectrum may have any length.
- Devcfg.XdevcfgDevice.Write: only writes that succeed; allocation, copy, DMA and time-out errors, and the register traffic, are absent.
- Bitstream.ChunkInvariance: the first write has at least one byte; an empty one changes nothing in the driver.
- Keyer.Run: settings stay fixed during a run, cw_speed is at least 1 (the code divides by it), a paddle history is finite and followed by released paddles, and one tick stands for one millisecond; the transmit FIFO reset pulse and the sidetone are not lines of the log.
- RadioCache.Radio.ProcessEp2: only what the filter and accessory registers depend on; the phase increments, sample rates, output pins and the other I2C devices have their own caches of the same kind.
- UploadFormat.CollectorReads: the collector reads the first template of a template set; the sets written hold one each.
- RadioCache.Radio.Pass: the board registers are what was last written to them; the key state is read once a pass.
- Ep6.Ep6Sender.Round: the block of samples is a parameter with the length that the loop waits for; resetting an overfull FIFO and the waiting itself are absent.
- Uploader.Upload: lines arrive parsed, with strings of the lengths that the scan format allows and without zero bytes; every message must fit the 512-byte buffer, which the code does not check; time and the observation domain are parameters.
- UploadFormat.RoomForAnyBatch: what happens past the end of the buffer is not modelled.
- Sockets, memory-mapped registers and threads: inputs are sequences, outputs are logs, and a handler is a method.
- Signal generation, plotting, vector files and test-bench loaders: no state worth a claim.
- SystemC sockets, payloads and delays around the three SystemC models.
- The oscilloscope readout of the mcpha server, whose wrapped case is not a slice of the ring.
- The servers for other boards that repeat the same kernels with other constants.
