# Models of the pigfx terminal firmware and its USB host stack

Each module models one piece of the firmware and proves what the piece is relied on for. Code that
works in place is modelled by classes, arrays and loops; every method is tied to a function of the
old state, and the lemmas are about those functions and about whole runs of them.

| file | piece |
|---|---|
| Basics.dfy | words, options and small arithmetic |
| UsbEndpoint.dfy | data toggle of an endpoint |
| SplitScheduler.dfy | periodic and non-periodic split-transaction schedulers |
| TransferStage.dfy | byte and packet accounting of one stage, and what each wake-up does to it |
| StageOutcomes.dfy | what each report makes of a stage, and what a run reports as transferred |
| EndpointToggle.dfy | data toggle of bulk and interrupt endpoints over histories of stages |
| SplitRuns.dfy | the complete-splits a stage issues, with those issued without asking the scheduler |
| HostController.dfy | all channels as a transition system over submissions, interrupts and timers |
| HostDevice.dfy | the driver in place: stage objects, channel bits, masks, handlers |
| ControlRequest.dfy | data toggle across whole control requests and histories of them |
| RequestExamples.dfy | control requests that go right, and two that succeed with the wrong toggle |
| Nmalloc.dfy | the free-list heap, as a tiling of its area and as linked headers in memory |
| LineMoves.dfy | scrolling, inserting and deleting lines inside the framebuffer |
| TerminalSpec.dfy | a reference terminal that never draws a cursor |
| Terminal.dfy | the terminal that draws its cursor into the framebuffer |
| TerminalProperties.dfy | whole strings: parameters, position reports, inserted and deleted lines |
| TerminalLaws.dfy, TerminalScreenLaws.dfy, TerminalStateLaws.dfy | what each control sequence and character does, said of strings, cells and colours |
| LineRaster.dfy, CircleRaster.dfy, PolygonScan.dfy | lines, circles, polygon scanlines |
| UartRing.dfy | receive ring with RTS hysteresis, in the build without STANDALONE_TERMINAL |
| ConfigParser.dfy | USB configuration descriptors: validation and iteration |
| KeyRepeat.dfy | key repeat over the shared timer table |
| Divide.dfy | shift-and-subtract division |

`dafny verify dfyconfig.toml` checks the project.

## Assumptions

The USB controller is a nondeterministic environment. A report is bounded by what was programmed, also when
the channel has only halted; a start-split is acknowledged and moves nothing unless it fails; a complete-split that does not fail
carries XFER_COMPLETE, NYET, ACK or NAK (the schedulers assert this); and no packet is accounted for
after the last one, which by `AssertionsHoldIff` is exactly what the driver asserts. Interrupts arrive
only on channels whose interrupts are on, and a free kernel timer exists when the driver asks for one.
`TransferStage.Tolerable` and `HostController.Admissible` state these, and everything about channels,
handlers and the endpoint's toggle needs no more. That a complete-split which moves a packet reports
XFER_COMPLETE (`TransferStage.Plausible`) is assumed in addition where the DMA window, the number of
split cycles and control requests are concerned. Each interrupt, timer and submission handler is one step.

A control endpoint takes packets of at least eight bytes (USB 2.0 section 5.5.3), so a setup packet is
one packet. Requests have at least one byte and less than 2^32 bytes after rounding up to packets. The sum of a
heap request and its overhead fits in 32 bits. A pushed or popped byte of the UART ring is one step.
A control sequence has at most 644 parameters, ESC [ n L asks for no more lines than the screen has,
ESC [ n M for a number of lines whose address fits (`LineMoves.SourceFits`), and the window geometry
does not change. The framebuffer ends below 4 GB and its lines are whole words of four bytes.

## What was found

- The accounting assertion (uspi/lib/dwhcixferstagedata.c:185) does not follow from the four status
  answers alone: a complete-split that answers ACK, moves the last packet and does not report
  completion is retried, and a packet moved by the retry is one too many. `AckWithoutCompletionRun`
  is such a run of any new split stage of one packet, `AssertionsHoldIff` the exact condition.
- The toggle of a bulk or interrupt endpoint is the parity of the packets moved exactly when the packets
  that reports have moved without being accounted for add up to an even number
  (`EndpointToggle.ParityIff`). An unsplit OUT transfer whose last packet is answered with NYET, an
  ordinary ending at high speed, succeeds, reports a length of zero and does not toggle
  (`NyetIsMissed`, `NyetHistory`). Packets moved in front of a bare halt are such packets too, because the
  driver starts the transaction over: the transfer succeeds with its full length, and the toggle counts its
  own packets only (`HaltIsMissed`, `HaltHistory`).
- The schedulers' bound of four complete-splits in a cycle (three after a periodic start-split in microframe
  5) does not hold of the driver. When the controller only halts the channel, the driver issues the same
  complete-split again without asking the scheduler (uspi/lib/dwhcidevice.c:966-971). Behind every
  acknowledged start-split, all runs with at most h bare halts in the cycle keep to a number exactly when it
  is at least the schedulers' bound plus h (`SplitRuns.CycleBoundIff`), so the schedulers' bound exactly when
  h is zero (`BoundHoldsIff`); the first cycle of every new split stage can break it with a single bare
  halt (`OneHalt`).
- A control request with data begins its data stage with DATA1 and leaves the endpoint at SETUP exactly
  when the setup stage told the endpoint about acknowledged packets once and the status stage at least
  once. It can be otherwise: an unsplit success with NAK or NYET set is not accounted, and a complete-split
  that is acknowledged without moving the setup packet is told to the endpoint as well. `RequestToggle` is
  the equivalence, in terms of the reports, and `OrderlyIsClean` shows that a controller that does neither
  always gets it right. `RequestExamples` has a request of each kind: a clean one, one that succeeds after
  it sent its setup packet twice, and one that succeeds with data beginning at DATA0.
- BeginSplitCycle cannot fail (uspi/lib/dwhcixferstagedata.c:228-231), so its two error branches in
  uspi/lib/dwhcidevice.c:757-766 and 1094-1106 are dead.
- Inserting lines that do not fit below the cursor also clears lines above it
  (`LineMoves.InsertKeepsFrontIff`).
- ESC [ n M computes an address in 32 bits (src/gfx.c:330). A count so large that it is cut to one inside
  or in front of the screen does not delete lines: `LineMoves.DeletesIff` is the exact condition, for all
  contents of memory, and `LineMoves.WrapExample` a count that fails it at the usual line length.
- ESC [ ? 25 h while the cursor is shown keeps the drawn cursor as if it were text. `Screen.ShowCursor`
  is transparent exactly when the framebuffer holds the kept cell, as it does while the cursor is hidden.
- A reported cursor coordinate comes back exactly when it is below 255, counted from zero, or when it is
  255 modulo 256 and the last of its line or column (`TerminalProperties.ReportReturns`).
- The bound on bytes after RTS is dropped is exact: 4094 never loses one, 4095 can
  (`UartRing.NoLossIff`). Once a byte was overwritten the counter stays one above the stored bytes.
- The descriptor pass loops for ever exactly on a reachable descriptor of length zero whose kind requires
  no length (`ConfigParser.HangIff`), and accepts a total length of zero.

## Model

| member | source | states |
|---|---|---|
| UsbEndpoint.ToggleIsParity | uspi/lib/usbendpoint.c:183-231 | After any history of calls the kept identifier of a bulk or interrupt endpoint is the parity of the counts it was told since creation or reset; what stages tell it is the subject of EndpointToggle |
| UsbEndpoint.Endpoint.GetNextPid | uspi/lib/usbendpoint.c:170-181 | A status stage uses DATA1, any other stage the kept identifier |
| UsbEndpoint.Endpoint.SkipPID | uspi/lib/usbendpoint.c:183-223 | The kept identifier follows the count it is told, and for bulk and interrupt endpoints stays the parity of its history |
| UsbEndpoint.Endpoint.ResetPID | uspi/lib/usbendpoint.c:225-231 | A reset bulk endpoint starts its history again at DATA0 |
| SplitScheduler.CompletesBounded | uspi/lib/dwhciframeschedper.c:76-156 | From any waiting state a scheduler asks for at most tries + 1 complete-splits, and periodic ones follow each other microframe by microframe |
| SplitScheduler.CompletesExhausted | uspi/lib/dwhciframeschedper.c:121-139 | Not-yet answers use up every try: the bound is reached |
| SplitScheduler.SplitCycle | uspi/lib/dwhciframeschedper.c:67-181 | What a scheduler asks for in a whole cycle, whatever is reported to it: no start-split in microframe 6, at most four complete-splits (three after a periodic start in microframe 5), the k-th periodic one in microframe s + 2 + k modulo 8, and the bound is tight |
| SplitRuns.RunKeepsFramed | uspi/lib/dwhcidevice.c:939-1241 | At every point of every run of a stage a periodic split transaction that was started has its microframe, and a start-split never microframe 6 |
| SplitRuns.NewStageFramed | uspi/lib/dwhcidevice.c:735-777 | So at every point of every run of a stage from its creation, which is what the statements about cycles start from |
| SplitRuns.CycleOnRun | uspi/lib/dwhcidevice.c:939-1126 | On every run of a stage: the i-th complete-split of a cycle follows as many answers and bare halts as add up to i, at most three of them answers (two after a periodic start in microframe 5), a periodic one goes out in microframe s + 2 + answers modulo 8, and there are at most four (three) and one more for each bare halt the cycle was given |
| SplitRuns.LongestCycle | uspi/lib/dwhcidevice.c:966-971 | Behind every acknowledged start-split and for every h a run with h bare halts reaches that number |
| SplitRuns.CycleBoundIff | uspi/lib/dwhcidevice.c:939-1126 | Behind every acknowledged start-split, for every h and n: all runs with at most h bare halts in the cycle have at most n complete-splits exactly when n is at least four (three) plus h |
| SplitRuns.BoundHoldsIff | uspi/lib/dwhcidevice.c:966-971 | So the schedulers' bound holds for all runs with at most h bare halts exactly when h is zero |
| SplitRuns.OneHalt | uspi/lib/dwhcidevice.c:966-971 | The first cycle of every new split stage can have five complete-splits (four after microframe 5) with a single bare halt |
| SplitRuns.HaltsForEver | uspi/lib/dwhcidevice.c:966-971 | Any number of bare halts leaves a stage whose complete-split is out, and its tries, as they were |
| SplitScheduler.NakEndsPeriodicCycle | uspi/lib/dwhciframeschednper.c:133-144 | With tries left, a NAK is retried by the non-periodic scheduler only |
| SplitScheduler.ChosenFrame | uspi/lib/dwhciframeschedper.c:158-181 | A periodic start-split goes out in the microframe behind the counter's, or in 7 instead of 6, and keeps it |
| SplitScheduler.FrameScheduler.TryCompleteSplit | uspi/lib/dwhciframeschedper.c:76-107 | State, tries and due microframe after the question for a complete-split, and its answer; asked only in states the switch has a case for |
| SplitScheduler.FrameScheduler.TransactionComplete | uspi/lib/dwhciframeschednper.c:104-156 | The state after a report, for both schedulers; called only where neither default assertion is reached |
| SplitScheduler.FrameScheduler.WaitForFrame | uspi/lib/dwhciframeschedper.c:158-181 | The microframe chosen for a start-split |
| TransferStage.WindowInsideBuffer | uspi/lib/dwhcixferstagedata.c:53-95 | Until a stage is complete the DMA window starts right behind what was transferred, lies inside the buffer and is empty only in a status stage |
| TransferStage.AccountedProgress | uspi/lib/dwhcixferstagedata.c:142-194 | One accounted report: both assertions hold, the total passes the size only with the last packet and by less than a packet, and the counters stay sound while packets are left |
| TransferStage.AccountIn32Bits | uspi/lib/dwhcixferstagedata.c:165-193 | The 32-bit arithmetic does not wrap, except the comparison meant to fail when it does |
| TransferStage.AssertionsHoldIff | uspi/lib/dwhcixferstagedata.c:185-193 | The accounting assertions hold exactly when no packet is moved after the last one |
| TransferStage.AckWithoutCompletion | uspi/lib/dwhcidevice.c:1065-1089 | Without the completion assumption a retried complete-split can move one packet too many |
| TransferStage.AckWithoutCompletionRun | uspi/lib/dwhcidevice.c:1032-1089 | A run of any new split stage of one packet: start-split acknowledged, complete-split acknowledged with the packet moved but no completion; the stage retries, and a report of one more packet fails the assertion |
| TransferStage.NewTransferSound | uspi/lib/dwhcixferstagedata.c:47-95 | A new stage has as many packets as its size rounds up to, and sound counters |
| TransferStage.ActivateLive | uspi/lib/dwhcidevice.c:751-777 | A sound stage is live once its first transaction is begun |
| TransferStage.DrainedStays | uspi/lib/dwhcixferstagedata.c:165-193 | A retried complete-split that moves nothing after the last packet leaves the counters drained |
| TransferStage.TotalBounded | uspi/lib/dwhcixferstagedata.c:165-193 | The total passes the size only with the last packet and by less than a packet, and the bytes left need the packets left |
| TransferStage.InterruptKeepsAlive | uspi/lib/dwhcidevice.c:939-1147 | Every interrupt the accounting assertions allow leaves a stage that waits for one thing, perhaps with all packets counted, or ends it with a length that fits the buffer; no scheduler assertion is reached |
| TransferStage.WakeKeepsAlive | uspi/lib/dwhcidevice.c:939-1241 | Interrupts and timer ticks keep a stage so or end it, and never change its kind |
| TransferStage.InterruptKeepsLive | uspi/lib/dwhcidevice.c:939-1147 | If packet-moving complete-splits report completion, packets are left until the stage ends, so every DMA window lies inside the buffer |
| TransferStage.PacketEndsCycle | uspi/lib/dwhcidevice.c:1065-1126 | A report that moves a packet of a split stage is the last of its cycle, and the stage succeeds exactly with the one that moves the last packet |
| TransferStage.WakeKeepsLive | uspi/lib/dwhcidevice.c:939-1241 | Under the same assumption interrupts and timer ticks keep packets left or end the stage |
| TransferStage.OneCyclePerPacket | uspi/lib/dwhcidevice.c:1032-1141 | Over every run of a split stage the packet-moving cycles and the packets left add up |
| TransferStage.CyclesOfNewStage | uspi/lib/dwhcidevice.c:1032-1141 | A split stage that succeeds took one packet-moving cycle per packet of its size |
| StageOutcomes.OutcomeIs | uspi/lib/dwhcidevice.c:939-1141 | For every report on a stage, by its bits, the state, the kind of endpoint, the tries and the packets left: exactly when the stage fails, succeeds, waits for its next interval or goes on |
| StageOutcomes.NextIs | uspi/lib/dwhcidevice.c:1002-1126 | What is left of a stage that waits or goes on: an unsplit one keeps its transfer, and the packets left are counted |
| StageOutcomes.NextTransactionIs | uspi/lib/dwhcidevice.c:1032-1126 | Which transaction follows, with how many tries, and whether its channel is disabled first |
| StageOutcomes.RestartIs | uspi/lib/dwhcidevice.c:945-971 | A channel that was disabled is started, and one that only halted starts the same transaction over |
| StageOutcomes.ChannelReportIs | uspi/lib/dwhcidevice.c:977-1141 | What a report does to its channel: freed and completed with its success, one timer started, or interrupts on again, exactly as the outcome says; no other channel is touched |
| StageOutcomes.PollsBetweenTimers | uspi/lib/dwhcidevice.c:1002-1012 | Over every run of an unsplit stage on an interrupt endpoint its transfer stays as it was, each timer follows a NAK or NYET and each of these is followed by a timer |
| StageOutcomes.PollEndsClean | uspi/lib/dwhcidevice.c:992-1030 | It succeeds exactly with the first report without error, NAK and NYET |
| StageOutcomes.ResultIsBytes | uspi/lib/dwhcixferstagedata.c:142-194 | Over every run of any stage the reported length is the sum, over the accounted reports, of the bytes programmed less the bytes left, whole packets where a complete-split leaves them all, cut to the size of the request |
| StageOutcomes.ResultOfNewStage | uspi/lib/dwhcixferstagedata.c:434-443 | So for every data stage from its creation |
| StageOutcomes.UnsplitResult | uspi/lib/dwhcixferstagedata.c:166-176 | An unsplit data stage reports its size less what its last report leaves, and nothing if that was a NAK or NYET |
| EndpointToggle.RunToggles | uspi/lib/dwhcixferstagedata.c:155-183 | Over every run of a data stage, split or not, finished or not, the identifier advances by the packets moved less those moved without being accounted for, be it by a refused report or in front of a bare halt |
| EndpointToggle.ParityIff | uspi/lib/usbendpoint.c:183-231 | After every history of stages and resets the identifier of a bulk or interrupt endpoint is the parity of the packets moved exactly when those not accounted for add up to an even number, whether or not packets in front of an error count |
| EndpointToggle.NyetIsMissed | uspi/lib/dwhcixferstagedata.c:157-163 | An unsplit stage of one packet that ends with NYET succeeds with length zero and does not toggle, although the packet was moved |
| EndpointToggle.NyetHistory | uspi/lib/dwhcidevice.c:1013-1021 | So one such transfer leaves any new unsplit bulk endpoint at the wrong identifier |
| EndpointToggle.HaltIsMissed | uspi/lib/dwhcidevice.c:966-971 | A bare halt starts an unsplit transaction over as it was, whatever it had moved, and does not toggle |
| EndpointToggle.HaltHistory | uspi/lib/dwhcidevice.c:966-971 | A transfer on a new unsplit bulk endpoint that is halted once and then moved in full succeeds with its length; the identifier is the parity of its packets, and the packets moved are those and the ones in front of the halt |
| EndpointToggle.HaltExample | uspi/lib/dwhcidevice.c:966-971 | Two packets with a halt between them: three packets moved, and the endpoint is at DATA0 |
| TransferStage.StageData.Init | uspi/lib/dwhcixferstagedata.c:25-124 | The object holds a new stage of the request's setup, data or status transfer |
| TransferStage.StageData.TransactionComplete | uspi/lib/dwhcixferstagedata.c:142-194 | Counters, pointer and the endpoint's identifier after a report; an unsuccessful report changes none of them |
| TransferStage.StageData.BytesTransfered | uspi/lib/dwhcixferstagedata.c:165-174 | The bytes of a report in 32-bit arithmetic are those of the accounting, with a whole packet when a complete-split reports none |
| TransferStage.StageData.UpdateCounters | uspi/lib/dwhcixferstagedata.c:176-193 | The in-place update is the accounting, and its assertions hold |
| TransferStage.StageData.BeginCycle | uspi/lib/dwhcidevice.c:1110-1113 | The next transaction is a start-split, or an unsplit one |
| TransferStage.StageData.Decide | uspi/lib/dwhcidevice.c:992-1126 | The switch over the stage state decides what the reference decision does |
| TransferStage.StageData.Serve | uspi/lib/dwhcidevice.c:977-1141 | A report is accounted first and decided upon afterwards, and the endpoint is told what was acknowledged |
| TransferStage.StageData.GetResultLen | uspi/lib/dwhcixferstagedata.c:434-443 | The reported length is what was transferred, and never exceeds the size |
| HostController.LowestFreeIs | uspi/lib/dwhcidevice.c:1243-1267 | The allocated channel is the lowest free one, and none is returned exactly when all are taken |
| HostController.SubmitKeepsInv | uspi/lib/dwhcidevice.c:735-780 | A submission keeps the invariant of all channels |
| HostController.SettleKeepsInv | uspi/lib/dwhcidevice.c:992-1141 | So does whatever an interrupt or timer does to one channel |
| HostController.StepKeepsInv | uspi/lib/dwhcidevice.c:735-1282 | Every step keeps the invariant: bits, masks, timers, live stages and the history of each stage |
| HostController.EveryRun | uspi/lib/dwhcidevice.c:735-1282 | Over every interleaving: a channel bit is set exactly while a stage lives on it, a live stage has exactly one outstanding wake-up, and an ended stage was allocated, freed and completed once each, in this order |
| HostController.RefusedIffFull | uspi/lib/dwhcidevice.c:740-744 | A submission is refused exactly when every channel is busy, and then changes nothing |
| HostController.OthersStayAdmissible | uspi/lib/dwhcidevice.c:1167-1182 | Serving one channel leaves the pending interrupts of the others valid |
| HostController.PendingIsAdmissibleRun | uspi/lib/dwhcidevice.c:1160-1185 | All interrupts of one reading of the register can be served one after the other |
| HostController.PendingAre | uspi/lib/dwhcidevice.c:1160-1185 | One interrupt for each pending channel, in the order of the channels |
| HostDevice.Device.constructor | uspi/lib/dwhcidevice.c:93-101 | A new device has every channel free |
| HostDevice.Device.AllocateChannel | uspi/lib/dwhcidevice.c:1243-1267 | The loop takes the lowest free channel and sets its bit only |
| HostDevice.Device.FreeChannel | uspi/lib/dwhcidevice.c:1269-1282 | Clears the bit of the channel, which was set |
| HostDevice.Device.ProgramChannel | uspi/lib/dwhcidevice.c:817-881 | A started channel is programmed with DATA1 in a status stage and with the identifier its endpoint keeps otherwise, and the wait for the microframe has begun |
| HostDevice.Device.BeginTransaction | uspi/lib/dwhcidevice.c:782-815 | Disables a channel found enabled and waits for it, or starts it with the right identifier |
| HostDevice.Device.TransferStageAsync | uspi/lib/dwhcidevice.c:735-780 | Accepts exactly when a channel was free; the device then is as after the submission step of the transition system, and a channel that was started is programmed with the endpoint's identifier |
| HostDevice.Device.EndStage | uspi/lib/dwhcidevice.c:1023-1029 | Status and length reach the request, the channel is freed and then the completion is recorded |
| HostDevice.Device.ServeReport | uspi/lib/dwhcidevice.c:977-1141 | A report on a transaction does to the object, its masks, bits and request what the reference step does, and a transaction started again is programmed with the identifier the endpoint is at by then |
| HostDevice.Device.ServeStage | uspi/lib/dwhcidevice.c:939-1147 | So does one interrupt, whatever the stage waits for |
| HostDevice.Device.ChannelInterruptHandler | uspi/lib/dwhcidevice.c:939-1147 | The handler refines the interrupt step and touches no other channel |
| HostDevice.Device.InterruptHandler | uspi/lib/dwhcidevice.c:1149-1208 | The loop over the channels is the run of all pending interrupts |
| HostDevice.Device.ResumeStage | uspi/lib/dwhcidevice.c:1225-1238 | A delayed stage begins its next transaction, programmed with the endpoint's identifier |
| HostDevice.Device.TimerHandler | uspi/lib/dwhcidevice.c:1210-1241 | The timer handler refines the timer step; the asserted state always holds |
| ControlRequest.DataPidStaysData | uspi/lib/usbendpoint.c:190-214 | A data stage never brings the endpoint to SETUP |
| ControlRequest.PhasesAre | uspi/lib/dwhcidevice.c:282-318 | Two or three stages; the setup stage goes out, data the way of the request, and the status stage the other way |
| ControlRequest.StatusPid | uspi/lib/usbendpoint.c:217-222 | A status stage leaves the endpoint at SETUP exactly when it told it anything, otherwise where it was |
| ControlRequest.LastPacketToggles | uspi/lib/dwhcixferstagedata.c:155-183 | The last packet of a split stage toggles the identifier once, over all its retries |
| ControlRequest.SetupPid | uspi/lib/usbendpoint.c:194-211 | Where a successful setup stage leaves the endpoint, by how often it told it |
| ControlRequest.SplitStageTells | uspi/lib/dwhcixferstagedata.c:179-183 | A successful split stage of one packet always tells the endpoint |
| ControlRequest.RequestToggle | uspi/lib/dwhcidevice.c:282-318 | Every successful request of the three shapes sends its setup packet first and ends with its status stage; data begins with DATA1 and the endpoint ends at SETUP exactly under the stated condition on the reports |
| ControlRequest.OrderlyTellsOnce | uspi/lib/dwhcixferstagedata.c:157-183 | If no unsplit transaction ends with NAK or NYET and an acknowledged complete-split has moved its packet, a successful stage of one packet tells the endpoint exactly once, over all retries |
| ControlRequest.OrderlyIsClean | uspi/lib/dwhcidevice.c:282-318 | With such a controller every successful request begins its data with DATA1 and leaves the endpoint at SETUP |
| ControlRequest.HistoryToggle | uspi/lib/dwhcidevice.c:273-334 | A history of such requests leaves the endpoint at SETUP after each |
| RequestExamples.UnsplitRequest | uspi/lib/dwhcixferstagedata.c:157-183 | Every unsplit request with one packet of data, all acknowledged, is clean; if NYET ends its setup stage it succeeds all the same, after sending its setup packet twice |
| RequestExamples.SplitRequest | uspi/lib/dwhcixferstagedata.c:179-183 | Every split request with one packet of data whose setup packet is acknowledged once without being moved succeeds with its data beginning at DATA0 |
| RequestExamples.CleanRequest | uspi/lib/dwhcidevice.c:282-318 | There is a clean request with data |
| RequestExamples.NyetRequest | uspi/lib/dwhcixferstagedata.c:157-163 | A successful request whose setup stage told the endpoint nothing; its data stage sends the setup packet again |
| RequestExamples.RetriedRequest | uspi/lib/dwhcixferstagedata.c:179-183 | A successful request whose setup stage told the endpoint twice; its data stage begins with DATA0 |
| Nmalloc.FirstFitIs | src/nmalloc.c:142-153 | The chosen tile is free and large enough, and every free tile in front of it is too small |
| Nmalloc.AllocateKeepsTiling | src/nmalloc.c:156-175 | A split keeps the tiling, keeps free blocks apart and leaves a free block |
| Nmalloc.ReleaseKeepsTiling | src/nmalloc.c:179-233 | So does freeing, with merging |
| Nmalloc.ReleaseUndoesAllocate | src/nmalloc.c:120-233 | Freeing the chunk just allocated restores the tiling |
| Nmalloc.MergedIsCoalesce | src/nmalloc.c:83-105 | Merging blocks that touch, on the list, is merging neighbouring free tiles |
| Nmalloc.JoinInMemory | src/nmalloc.c:92-97 | The writes of one merge leave a correctly linked list of the joined blocks |
| Nmalloc.CarveInMemory | src/nmalloc.c:156-174 | The writes of a split leave a correctly linked list, the chunk's size in front of it, and everything outside free blocks alone |
| Nmalloc.InsertInMemory | src/nmalloc.c:187-228 | The writes of an insertion leave a correctly linked list with the block in its place |
| Nmalloc.EveryHeap | src/nmalloc.c:83-233 | In every reachable heap free blocks and chunks tile the area in order and disjointly, no two free blocks touch, one is always free, and free and allocated bytes add up |
| Nmalloc.MallocThenFree | src/nmalloc.c:120-233 | A request fails exactly when it is empty or nothing fits; otherwise it gets the lowest block that fits, and freeing at once restores the heap |
| Nmalloc.Heap.SetMemoryArea | src/nmalloc.c:108-117 | The area is one free tile, with its header in memory |
| Nmalloc.Heap.FindBlock | src/nmalloc.c:142-146 | The walk ends at the first block that is large enough, or at the last |
| Nmalloc.Heap.SplitBlock | src/nmalloc.c:156-174 | Exactly the words a split writes, and the head of the list |
| Nmalloc.Heap.ChunkSize | src/nmalloc.c:131-137 | A chunk is a multiple of the header, has room for tag and data and is at least two headers long |
| Nmalloc.Heap.Malloc | src/nmalloc.c:120-176 | Null and an unchanged heap exactly when the request is empty or nothing fits, otherwise the lowest fitting block split; no byte of a live chunk changes |
| Nmalloc.Heap.FindPlace | src/nmalloc.c:194-220 | The neighbours between which a freed block belongs |
| Nmalloc.Heap.Insert | src/nmalloc.c:187-228 | The freed block is linked in address order |
| Nmalloc.Heap.MergeAdjacentFreeBlocks | src/nmalloc.c:83-105 | The list in memory is the merged list; nothing outside its headers changes |
| Nmalloc.Heap.Free | src/nmalloc.c:179-233 | The pointer is cleared, the chunk is free and merged with free neighbours, and no byte of another chunk changes |
| Nmalloc.Heap.Store | src/nmalloc.c:174-175 | A store of the owner into its chunk keeps the heap's invariant |
| LineMoves.DeletedLine | src/gfx.c:327-340 | Line by line: above the cursor unchanged, below moved up, the last lines background |
| LineMoves.InsertedLine | src/gfx.c:343-358 | Line by line: above unchanged, the opened lines background, below moved down, when they fit |
| LineMoves.DeleteUndoesInsert | src/gfx.c:327-358 | Deleting what was inserted restores all but as many elements at the end, which are background |
| LineMoves.InsertKeepsFrontIff | src/gfx.c:343-358 | What lies in front of an insertion survives exactly when it fits or the lost part was background |
| LineMoves.DeletesIff | src/gfx.c:327-340 | In 32-bit addresses the deletion moves lines up for every content of memory exactly when the address behind the deleted lines fits, or is cut to one behind the screen |
| LineMoves.CopiedUpIsShiftUp | src/gfx.c:333-339 | The copy loop moves lines up when it begins at the right place, or behind the end when nothing is left to move |
| LineMoves.WrapExample | src/gfx.c:330-330 | With lines of 10240 bytes, 419431 lines at the top are an address inside the first line |
| LineMoves.DeleteLines | src/gfx.c:327-340 | The two loops in place, wherever the copy begins: what the copy leaves and the background behind it |
| LineMoves.InsertLines | src/gfx.c:343-358 | The overlapping copy from the end is the move down, and leaves memory behind the screen alone |
| TerminalSpec.MoveCursor | src/gfx.c:1491-1499 | The cursor is on the screen wherever it is asked to go |
| TerminalSpec.Letter | src/gfx.c:1575-1991 | Every control sequence leaves geometry, saved cursor and parameters in order |
| TerminalSpec.Step | src/gfx.c:1403-1482 | After every character the cursor and the saved cursor are on the screen, there are at most 644 parameters, and none outside the digit state |
| TerminalSpec.Run | src/gfx.c:1403-1482 | The same after every string |
| Terminal.Screen.constructor | src/gfx.c:129-200 | A new screen is a cleared reference terminal with its cursor shown at the top left |
| Terminal.Screen.RestoreCursorContent | src/gfx.c:1323-1337 | The framebuffer is the reference screen |
| Terminal.Screen.RenderCursor | src/gfx.c:1340-1383 | Whatever the framebuffer holds becomes the reference screen, and the cell at the cursor is drawn inverted if it is visible |
| Terminal.Screen.RenderCursorOnNewLine | src/gfx.c:1386-1400 | The same on a background cell, without reading it |
| Terminal.Screen.TermMoveCursor | src/gfx.c:1491-1499 | A cursor motion is that of the reference terminal |
| Terminal.Screen.PutCharacter | src/gfx.c:2190-2196 | A character over the drawn cursor is a character on the reference screen |
| Terminal.Screen.TermClearScreen | src/gfx.c:1541-1545 | Clearing without restoring clears the reference screen |
| Terminal.Screen.TermClearTillEnd | src/gfx.c:1518-1523 | Erases from the cursor to the end of its line |
| Terminal.Screen.TermClearTillCursor | src/gfx.c:1526-1531 | Erases the line up to and including the cursor |
| Terminal.Screen.TermClearLine | src/gfx.c:1534-1538 | Erases the line, the kept cell with it, without restoring first |
| Terminal.Screen.TermClearLines | src/gfx.c:1548-1561 | Erases the part of a range of lines that is on the screen |
| Terminal.Screen.TermDeleteLines | src/gfx.c:1836-1845 | Deletes lines of the reference screen at the cursor, by their address in 32 bits, whenever it fits |
| Terminal.Screen.TermInsertLines | src/gfx.c:1847-1856 | Inserts lines into the reference screen at the cursor |
| Terminal.Screen.Scroll | src/gfx.c:1470-1478 | The cursor behind the last line scrolls the reference screen and stands on the opened line |
| Terminal.Screen.TermSaveCursor | src/gfx.c:1502-1506 | Saves the cursor and nothing else |
| Terminal.Screen.HideCursor | src/gfx.c:1737-1745 | Hiding shows the reference screen everywhere |
| Terminal.Screen.ShowCursor | src/gfx.c:1747-1755 | Showing is transparent exactly when the framebuffer holds the kept cell, in particular when the cursor was hidden |
| Terminal.Screen.SelectGraphicRendition | src/gfx.c:1868-1905 | The loop over the parameters, which skips colour triples, selects what the recursive reading selects |
| Terminal.Screen.EraseInScreenSequence | src/gfx.c:1779-1802 | ESC [ J erases what the reference terminal erases |
| Terminal.Screen.MotionSequence | src/gfx.c:1804-1927 | The motion sequences in 32-bit arithmetic move the reference cursor; where to is the subject of TerminalLaws |
| Terminal.Screen.FinalLetter | src/gfx.c:1575-1991 | Every admissible control sequence does to the screen what it does to the reference terminal, and returns the parser to normal text |
| Terminal.Screen.ReadingDigit | src/gfx.c:1993-2018 | The digit state, on the parameter array, is the reference parser's |
| Terminal.Screen.SelectingEscape | src/gfx.c:2020-2048 | So is the state behind the bracket |
| Terminal.Screen.WaitingSquareBracket | src/gfx.c:2050-2072 | So is the state behind ESC |
| Terminal.Screen.PlainText | src/gfx.c:2084-2196 | So is normal text, with the alternative character set |
| Terminal.Screen.WrapAndScroll | src/gfx.c:1462-1478 | A cursor behind its line or the last line ends up on the screen |
| Terminal.Screen.PutChar | src/gfx.c:1405-1481 | One character does what it does to the reference terminal |
| Terminal.Screen.TermPutString | src/gfx.c:1403-1482 | Cursor transparency: after any admissible string, the kept cell written back gives the screen of the terminal that never draws a cursor |
| Terminal.ShowsReference | src/gfx.c:1323-1383 | The framebuffer shows the reference screen but for the cursor's cell, and all of it while the cursor is hidden |
| TerminalProperties.ParametersRoundTrip | src/gfx.c:1993-2072 | Any list of 1 to 644 values below 2^32, printed in decimal and joined by semicolons behind ESC [, is parsed back to itself, and nothing else changes |
| TerminalProperties.QueryReports | src/gfx.c:1954-1980 | ESC [ 6 n has no effect but the report |
| TerminalProperties.ReturnsIff | src/gfx.c:1907-1916 | A reported coordinate comes back exactly when it is below 255, or is 255 modulo 256 and the last |
| TerminalProperties.ReportReturns | src/gfx.c:1907-1980 | The reported position, sent back as ESC [ r ; c H to any terminal of that size, brings the cursor to the same cell exactly under that condition; always with at most 255 rows and columns |
| TerminalProperties.InsertThenDelete | src/gfx.c:1836-1856 | ESC [ n L followed by ESC [ n M restores everything but n background lines at the bottom, when they fit |
| TerminalLaws.SequenceIs | src/gfx.c:1993-2048 | Every admissible sequence, as a string with its parameters in decimal, does what its letter does to the terminal with these parameters |
| TerminalLaws.LeadingSemicolon | src/gfx.c:2027-2033 | A sequence that begins with a semicolon has two parameters of zero |
| TerminalLaws.Up | src/gfx.c:1804-1809 | ESC [ n A moves the cursor n lines up, or to the first, one if n is missing, and changes nothing else |
| TerminalLaws.Down | src/gfx.c:1811-1816 | ESC [ n B moves it down, or to the last line |
| TerminalLaws.Right | src/gfx.c:1818-1823 | ESC [ n C moves it right, or to the last column |
| TerminalLaws.Left | src/gfx.c:1825-1833 | ESC [ n D moves it left, or to the first column |
| TerminalLaws.DownUndoesUp | src/gfx.c:1804-1816 | ESC [ n B undoes ESC [ n A exactly when n lines were above or going down happens to lead back |
| TerminalLaws.RightUndoesLeft | src/gfx.c:1818-1833 | So to the sides |
| TerminalLaws.Goto | src/gfx.c:1907-1916 | ESC [ r ; c H and f go to line r and column c, counted from one, or to the last where these are zero or too large |
| TerminalLaws.BackTab | src/gfx.c:1857-1866 | ESC [ Z goes to the last multiple of eight in front of the cursor |
| TerminalLaws.SaveMotionsRestore | src/gfx.c:1918-1927 | After ESC [ s, any number of motions and ESC [ u the cursor is where it was, and nothing else has changed |
| TerminalScreenLaws.LineErased | src/gfx.c:1758-1777 | ESC [ K cell by cell: the rest of the line, its beginning with the cursor, or all of it become background, and no other cell changes |
| TerminalScreenLaws.ScreenErased | src/gfx.c:1779-1802 | ESC [ J cell by cell: from the cursor on, up to and including it, or everything with the cursor sent home |
| TerminalScreenLaws.LinesDeleted | src/gfx.c:1836-1845 | ESC [ n M cell by cell |
| TerminalScreenLaws.LinesInserted | src/gfx.c:1847-1856 | ESC [ n L cell by cell, when the lines fit |
| TerminalScreenLaws.CarriageReturn | src/gfx.c:1411-1451 | CR, BS and DEL, and the characters that do nothing |
| TerminalScreenLaws.Tab | src/gfx.c:1423-1427 | A tab goes to the next multiple of eight, or to the last column |
| TerminalScreenLaws.LineFeed | src/gfx.c:1462-1478 | A line feed keeps the column; on the last line every line moves up and the last is background |
| TerminalScreenLaws.FormFeed | src/gfx.c:1453-1457 | A form feed clears the screen and goes home |
| TerminalScreenLaws.TextIs | src/gfx.c:2084-2196 | A character changes the cell at the cursor only; the cursor goes on, wraps, and at the end of the screen everything moves up |
| TerminalStateLaws.RenditionIs | src/gfx.c:1868-1905 | ESC [ p m attribute by attribute and bit by bit, for every p |
| TerminalStateLaws.RenditionsInTurn | src/gfx.c:1868-1905 | Several parameters do what they do one after the other |
| TerminalStateLaws.ColourByNumber | src/gfx.c:1873-1878 | 38 ; 5 ; n and 48 ; 5 ; n choose colours by number, and what follows is read on |
| TerminalStateLaws.Answers | src/gfx.c:1929-1980 | Which bytes ESC [ c and ESC [ 5 n answer, and that others do not |
| TerminalStateLaws.ReportDigits | src/gfx.c:1954-1980 | The position report in decimal digits, counted from one |
| TerminalStateLaws.Visibility | src/gfx.c:1737-1755 | ESC [ ? 25 l hides the cursor and ESC [ ? 25 h shows a hidden one |
| TerminalStateLaws.DefaultColours | src/gfx.c:1706-1716 | ESC [ # 39 ; n m and ESC [ # 49 ; n m choose the default colours |
| TerminalStateLaws.DrawnByNumber | src/gfx.c:1717-1724 | ESC [ # n c draws character n mod 256 and moves on as that character does in text |
| TerminalStateLaws.OtherPrivate | src/gfx.c:1706-1731 | ESC [ # w, and # m and # c with other parameters, change nothing on the terminal |
| TerminalStateLaws.PlainLetters | src/gfx.c:1737-1755 | ESC [ n l and h change nothing without the question mark, or with it for numbers other than 25 |
| TerminalStateLaws.UnknownLetters | src/gfx.c:1983-1990 | A sequence that ends in any other character changes nothing |
| TerminalStateLaws.Charsets | src/gfx.c:2074-2082 | ESC ( 0 and ESC ( B choose the character set |
| TerminalStateLaws.Reset | src/gfx.c:2050-2072 | ESC c resets the attributes, clears the screen and goes home |
| TerminalStateLaws.BoxDrawing | src/gfx.c:2098-2188 | The codes of corners, lines and joints in the alternative set, and that other characters stay |
| LineRaster.PlotAllIs | src/gfx.c:467-473 | Drawing points changes exactly the pixels among them that are on the screen, and no other memory |
| LineRaster.ErrorTerm | src/gfx.c:435-463 | The error term, kept by additions, is dx / 2 - i * dy + k * dx and stays in [0, dx) |
| LineRaster.LineIs | src/gfx.c:416-465 | Exactly max(dx, dy) + 1 different pixels, all on the screen, from one clamped end to the other, each a neighbour of the one before in the direction of the last, with 2 * abs(k * dx - i * dy) <= dx at each |
| LineRaster.DrawLine | src/gfx.c:416-465 | The pointer loop draws these pixels and nothing else |
| LineRaster.DrawPixel | src/gfx.c:467-473 | A pixel outside the screen draws nothing |
| CircleRaster.NextInv | src/gfx.c:1044-1052 | The additions keep f = (x + 1)^2 + y^2 - y - r^2 and -y <= x^2 + y^2 - r^2 <= y, the upper bound strict while x < y |
| CircleRaster.OctantIs | src/gfx.c:1044-1061 | The octant's points miss the circle by at most y, follow column by column without a gap and reach the diagonal |
| CircleRaster.NegativeRadius | src/gfx.c:1029-1043 | A radius that is not positive draws the four tips only, all of them on the circle |
| CircleRaster.CircleIsRound | src/gfx.c:1029-1067 | For every radius, every pixel misses the circle by at most its larger distance from the centre, in squares |
| CircleRaster.CircleIsSymmetric | src/gfx.c:1054-1061 | With a pixel the circle has all its mirror images |
| CircleRaster.DrawCircle | src/gfx.c:1029-1067 | The loop draws exactly these pixels, clipped to the screen |
| PolygonScan.ClosedCrossesEvenly | src/gfx.c:963-1005 | A closed polygon crosses every scanline an even number of times |
| PolygonScan.RecordedInOrder | src/gfx.c:994-1005 | One coordinate is recorded for each edge whose ends lie on different sides of the scanline, its own, behind those of the crossed edges in front of it |
| PolygonScan.ArrangedIsSorted | src/gfx.c:1007-1015 | k - 1 passes of k - 1 comparisons leave the crossings sorted, and a permutation |
| PolygonScan.SpansAreEvenOdd | src/gfx.c:1017-1019 | The pairwise spans cover exactly the crossings and the points with an odd number of crossings to their left |
| PolygonScan.ScanlineIsEvenOdd | src/gfx.c:994-1019 | One scanline of any closed polygon fills exactly the coordinates of crossed edges and the points with an odd number of crossed edges to their left, counted as edges |
| PolygonScan.CollectCrossings | src/gfx.c:994-1005 | The array holds the coordinate of each crossed edge, in the order of the edges |
| PolygonScan.SortCrossings | src/gfx.c:1007-1015 | The nested loops in place are the passes |
| PolygonScan.ScanLine | src/gfx.c:994-1019 | The spans of a scanline, computed in place, cover exactly the crossed edges' coordinates and the points with an odd number of crossed edges to their left |
| UartRing.Counters | src/pigfx.c:219-236 | Over every run: stored <= count <= stored + 1 and count <= 16384, equal exactly until the first overwrite, and RTS on implies count <= 12288, RTS off count >= 4096 |
| UartRing.RtsChangesIff | src/pigfx.c:219-236 | In every run RTS is raised exactly when it was off and a consumed byte brings the counter below 4096, and dropped exactly when it was on and an arriving byte brings it above 12288 |
| UartRing.RtsOffIff | src/pigfx.c:477-493 | RTS is off exactly when the counter was above 12288 more recently than below 4096 |
| UartRing.RaiseAfter8194 | src/pigfx.c:477-493 | Between a drop of RTS and the next time it is on at least 8194 bytes are consumed |
| UartRing.LossIsVisible | src/pigfx.c:215-238 | Nothing was overwritten exactly when consumed and stored bytes are the received ones; the consumed are then a prefix |
| UartRing.RoomSuffices | src/pigfx.c:215-238 | With at most 4094 bytes per dropped RTS no byte is lost |
| UartRing.NoLossIff | src/pigfx.c:20-22 | 4094 is the exact bound |
| UartRing.Ring.Push | src/pigfx.c:219-236 | One byte in place: the oldest goes when the buffer is full |
| UartRing.Ring.FillQueue | src/pigfx.c:215-243 | The interrupt handler pushes all bytes it reads, in order |
| UartRing.Ring.Consume | src/pigfx.c:477-493 | The main loop gets the oldest stored byte |
| ConfigParser.BehindIsIrrelevant | uspi/lib/usbconfigparser.c:85-94 | The verdict does not depend on what lies behind the buffer, although an interface class may be read there |
| ConfigParser.AcceptIff | uspi/lib/usbconfigparser.c:38-125 | Accepted exactly when the header fits and the descriptors tile the total length, each behind a kind it may follow and of the length it requires |
| ConfigParser.TilesFollow | uspi/lib/usbconfigparser.c:58-117 | The descriptors of a tiling begin at its start and follow one another by their length bytes, up to its end |
| ConfigParser.AcceptedBytes | uspi/lib/usbconfigparser.c:38-125 | The same byte by byte: 4 to 512 bytes, beginning with 9 and 2, a total length in bytes 2 and 3, and descriptors of the kinds, lengths and order the driver asks for |
| ConfigParser.ConformsIff | uspi/lib/usbconfigparser.c:64-113 | Which length and place each kind asks for, and that an endpoint has 9 bytes exactly when byte 5 of the last interface in front of it is 1 |
| ConfigParser.RejectedAt | uspi/lib/usbconfigparser.c:46-124 | A rejected buffer goes wrong where the error position says: at the first descriptor that does not conform, or behind all that fit |
| ConfigParser.HangIff | uspi/lib/usbconfigparser.c:58-117 | The loop does not end exactly when legal descriptors lead to one of length zero whose kind requires no length |
| ConfigParser.FindIs | uspi/lib/usbconfigparser.c:154-192 | A query stays on boundaries, returns the next descriptor of its kind and passes none |
| ConfigParser.EndpointsAre | uspi/lib/usbconfigparser.c:170-174 | The endpoints of an interface are the endpoint descriptors with no interface in front of them |
| ConfigParser.QueriesAreEndpoints | uspi/lib/usbconfigparser.c:154-192 | Consecutive endpoint queries return these in order, and then nothing for ever |
| ConfigParser.EndpointsOfInterface | uspi/lib/usbconfigparser.c:154-192 | After a query returned an interface, endpoint queries return exactly its endpoints |
| ConfigParser.Parser.constructor | uspi/lib/usbconfigparser.c:26-125 | Validity and error position are the verdict's |
| ConfigParser.Parser.ScanDescriptors | uspi/lib/usbconfigparser.c:54-124 | So for the loop alone |
| ConfigParser.Parser.GetDescriptor | uspi/lib/usbconfigparser.c:154-192 | Any sequence of queries stays on boundaries of an accepted buffer; the bounds assertion never fires |
| KeyRepeat.ExpiredIff | src/stupid_timer.c:56-62 | A poll less than 2^32 microseconds after the start finds a timer expired exactly when more than its interval has passed, except in the last second when the counter has wrapped |
| KeyRepeat.KeyCodeIs | uspi/lib/usbkeyboard.c:380-394 | The key is the highest non-empty slot, and there is none exactly when all are empty |
| KeyRepeat.StepKeepsInv | uspi/lib/usbkeyboard.c:307-414 | Reports, polls and other users of the table keep the ownership invariant |
| KeyRepeat.TimerGranted | uspi/lib/usbkeyboard.c:357-361 | Every timer the keyboard asks for is granted, always in its own handler; the repeated text and key stay |
| KeyRepeat.ReportIs | uspi/lib/usbkeyboard.c:323-364 | An accepted report with the repeating key on top changes neither timer nor key; a new key with text arms the timer for 500 milliseconds; any other leaves none; timers of others stay |
| KeyRepeat.OtherReportIs | uspi/lib/usbkeyboard.c:314-321 | A report that is not accepted changes nothing |
| KeyRepeat.PollIs | uspi/lib/usbkeyboard.c:398-414 | A poll of the keyboard's expired timer sends its text and arms it for 40 milliseconds; other expired timers are freed |
| KeyRepeat.Ownership | uspi/lib/usbkeyboard.c:307-414 | Over every run at most one timer is the keyboard's, it is the one in m_hTimer, and its key is the highest slot of the last accepted report |
| KeyRepeat.Firmware.Attach | src/stupid_timer.c:26-43 | The first free slot is taken, and none when the table is full |
| KeyRepeat.Firmware.Detach | src/stupid_timer.c:46-49 | Frees the slot of a valid handle and nothing else |
| KeyRepeat.Firmware.GetKeyCode | uspi/lib/usbkeyboard.c:380-394 | The loop from the top finds the highest non-empty slot |
| KeyRepeat.Firmware.CompletionRoutine | uspi/lib/usbkeyboard.c:307-372 | A report, in place, does what the step does |
| KeyRepeat.Firmware.TimerHandler | uspi/lib/usbkeyboard.c:398-414 | The text again, and a new timer for it |
| KeyRepeat.Firmware.TimerPoll | src/stupid_timer.c:52-69 | The loop over the slots is the run of their polls |
| LongDivision.Divide | uspi/env/lib/libhelper.c:27-64 | Quotient and rest for every divisor but zero, which throws |
| LongDivision.Subtract | uspi/env/lib/libhelper.c:44-62 | From the shifted divisor back, one place of the quotient at a time, in 32 bits |
| LongDivision.DivisionIsUnique | uspi/env/lib/libhelper.c:44-62 | Only one quotient and rest fit |

## Left out

- HostDevice.Device.EndStage: a completion routine is recorded in a log and not called; what it submits next is an event of its own.
- HostDevice.Device.BeginTransaction: register fields are not modelled, so a size or packet count cut to its register field is not captured.
- HostDevice.Device.ServeStage: the assertion that a periodic transaction was not programmed with MDATA (uspi/lib/dwhcidevice.c:973-975) reads a register field and is not modelled.
- TransferStage.StageData.Decide: the assertion that a transaction status is not zero (uspi/lib/dwhcixferstagedata.c:424) is not modelled: a report in which no bit is set is served like any other.
- TransferStage.StageData.Init: the scheduler that is used without splits is not set up, because it only chooses the parity of a frame.
- SplitScheduler.FrameScheduler.WaitForFrame: the wait for the chosen microframe and the delays between tries are left out.
- ControlRequest.RequestToggle: the busy wait for each stage is the sequence of wake-ups the stage is given; other stages run on other channels.
- ControlRequest.HistoryToggle: after a failed request the endpoint may stay anywhere, because only a status stage resets it.
- Nmalloc.Heap.Store: memory is indexed by byte address and a word lives at one index; blocks start multiples of 12 bytes apart, so words never overlap in part.
- Terminal.Screen.TermPutString: leaves out GSX calls (ESC [ # ... G), showing a cursor that is shown, inserting more lines than the screen has, deleting lines from an address that does not fit, more than 644 parameters, and the Wordstar key mode.
- Terminal.Screen.FinalLetter: leaves out the same sequences, as do the methods that call it (PutChar, ReadingDigit, SelectingEscape).
- TerminalSpec.Letter: is defined for the same sequences only.
- TerminalSpec.Step: is defined for the same sequences only.
- TerminalSpec.Run: is defined for strings of such sequences only.
- Terminal.Screen.TermInsertLines: inserting more lines than the screen has writes in front of the framebuffer and is left out.
- LineMoves.InsertLines: so is a gap larger than the screen.
- Terminal.Screen.RenderCursor: a cell is one value with an arbitrary inversion. Just behind a line that fills the width of the screen the overlay starts one pixel row below the start of the same line; in the model it covers the first cell of the next line, and there is one spare line behind the last.
- Terminal.Screen.Scroll: DMA transfers are taken to be finished at once.
- Terminal.Screen.TermDeleteLines: a count whose address does not fit is not run on cells; LineMoves.DeletesIff says on words what is lost.
- CircleRaster.DrawCircle: filled circles and arc angles are left out.
- PolygonScan.CollectCrossings: a crossing's coordinate is given and not computed from the slope.
- PolygonScan.ScanLine: slopes are floating point, so crossings are arbitrary integers; how a span is painted is left out.
- LineRaster.DrawLine: the screen and its coordinates are not bounded to 32 bits.
- UartRing.Ring.Consume: an interrupt in the middle of a pop is left out.
- ConfigParser.Parser.constructor: is defined where the loop ends; ConfigParser.HangIff says where it does not.
- ConfigParser.Parser.ScanDescriptors: likewise.
- Nmalloc.Heap.Malloc: a request whose size with its overhead wraps 32 bits is left out.
- KeyRepeat.Firmware.TimerPoll: what other handlers do follows as events of other users of the table; the application's key handler does not touch the table.
- HostController.EveryRun: preemption inside a handler and isochronous transfers are left out, as is the parity the scheduler without splits chooses.
- Geometry changes by font or line toggles, glyph pixels, palettes and colour mixing.
- Ethernet, mass storage, MIDI, mouse, gamepad, hub enumeration, keymaps, logging and printing.
- The allocator and screen under uspi/env, which repeat nmalloc and the terminal in simpler form.
