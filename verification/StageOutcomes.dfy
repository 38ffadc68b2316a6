/** What becomes of a stage, in terms of the bits of a report and the counters it was programmed with
    (uspi/lib/dwhcidevice.c:939-1141), and what a whole run of wake-ups reports as transferred. */
module StageOutcomes {
  import opened Basics
  import opened SplitScheduler
  import opened TransferStage
  import HostController

  // ----- One report -----

  /** The channel has halted and nothing else. */
  predicate BareHalt(st: Status) {
    st.halted && !st.xferComplete && !st.error && !st.nak && !st.ack && !st.nyet
  }

  predicate Refused(st: Status) {
    st.nak || st.nyet
  }

  /** Packets left once the report is counted; a report with an error or a refusal is not. */
  function Left(s: Stage, r: Report): int {
    if r.status.error || Refused(r.status) then s.xfer.packets
    else s.xfer.packets - (s.xfer.packetsPerTransaction - r.packetsLeft)
  }

  /** Another complete-split follows in the same cycle. A periodic one is not repeated for a NAK. */
  predicate Repeats(s: Stage, st: Status) {
    !st.xferComplete && s.sched.tries > 0 && (st.nyet || st.ack || !s.periodic)
  }

  predicate Fails(s: Stage, st: Status) {
    st.error || (s.state == StartSplitStage && Refused(st))
  }

  predicate Waits(s: Stage, r: Report) {
    && !r.status.error && s.periodic
    && if s.state == NoSplitTransfer then Refused(r.status)
       else s.state == CompleteSplitStage && !Repeats(s, r.status) && Left(s, r) > 0
  }

  predicate Succeeds(s: Stage, r: Report) {
    && !r.status.error
    && if s.state == NoSplitTransfer then !(s.periodic && Refused(r.status))
       else s.state == CompleteSplitStage && !Repeats(s, r.status) && Left(s, r) == 0
  }

  predicate GoesOn(s: Stage, r: Report) {
    && !r.status.error
    && match s.state
       case StartSplitStage => !Refused(r.status)
       case CompleteSplitStage => Repeats(s, r.status) || (Left(s, r) > 0 && !s.periodic)
       case _ => false
  }

  /** A stage whose transaction was reported on. */
  predicate ReportedOn(s: Stage, e: Env) {
    && Alive(s) && s.state != PeriodicDelay && Tolerable(s, e.report)
    && s.subState == WaitForTransactionComplete && !BareHalt(e.report.status)
  }

  /** Exactly when a report ends the stage with or without success, delays it to the next interval, or
      starts another transaction. */
  lemma OutcomeIs(s: Stage, e: Env)
    requires ReportedOn(s, e)
    ensures var outcome := AfterInterrupt(s, e);
      && (outcome.Ended? && !outcome.ok <==> Fails(s, e.report.status))
      && (outcome.Ended? && outcome.ok <==> Succeeds(s, e.report))
      && (outcome.Delayed? <==> Waits(s, e.report))
      && (outcome.Armed? <==> GoesOn(s, e.report))
      && (outcome.Ended? ==> (outcome.resultLen.Some? <==> outcome.ok && !s.xfer.statusStage))
  {
    hide Sound, Drained, Times, BytesMoved;
  }

  /** What is left of a stage that waits for its next interval, or that goes on: an unsplit one keeps
      its transfer, a split one continues with a complete-split or a new start-split. */
  lemma NextIs(s: Stage, e: Env)
    requires ReportedOn(s, e) && !AfterInterrupt(s, e).Ended?
    ensures var u := AfterInterrupt(s, e).stage;
      && u.xfer.packets == Left(s, e.report) && u.periodic == s.periodic
      && (s.state != CompleteSplitStage ==> u.xfer == s.xfer)
      && (AfterInterrupt(s, e).Delayed? ==> u.state == PeriodicDelay)
  {
    hide Sound, Drained, Times;
    if s.state == StartSplitStage {
      LiveAtStart(s);
      StartSplitMovesNothing(s, e.report);
    }
  }

  lemma LiveAtStart(s: Stage)
    requires Alive(s) && s.state == StartSplitStage
    ensures Live(s)
  {
  }

  lemma NextTransactionIs(s: Stage, e: Env)
    requires ReportedOn(s, e) && AfterInterrupt(s, e).Armed?
    ensures var u := AfterInterrupt(s, e).stage;
      && u.subState == (if e.enabled then WaitForChannelDisable else WaitForTransactionComplete)
      && u.state == (if s.state == StartSplitStage || Repeats(s, e.report.status) then CompleteSplitStage else StartSplitStage)
      && u.splitComplete == (u.state == CompleteSplitStage)
      && (s.state == StartSplitStage ==> u.sched.tries == if s.periodic && s.sched.nextFrame == 5 then 2 else 3)
      && (s.state == CompleteSplitStage && Repeats(s, e.report.status) ==> u.sched.tries == s.sched.tries - 1)
  {
    hide Sound, Drained, BytesMoved, Times;
  }

  /** A channel that was disabled is started, and one that only halted starts the same transaction over. */
  lemma RestartIs(s: Stage, e: Env)
    requires Alive(s) && s.state != PeriodicDelay && Tolerable(s, e.report)
    requires s.subState == WaitForChannelDisable || BareHalt(e.report.status)
    ensures AfterInterrupt(s, e).Armed?
    ensures var u := AfterInterrupt(s, e).stage;
      && u.xfer == s.xfer && u.state == s.state && u.splitComplete == s.splitComplete && u.periodic == s.periodic
      && u.sched.tries == s.sched.tries
      && u.subState == if s.subState == WaitForTransactionComplete && e.enabled then WaitForChannelDisable
                       else WaitForTransactionComplete
  {
    hide Sound, Drained, React;
  }

  // ----- The same on a channel -----

  /** What a report does to its channel: a stage that ends is freed and completed with its success, one that waits
      starts one kernel timer, one that goes on has its interrupts on, and no other channel is touched. */
  lemma ChannelReportIs(h: HostController.Host, ch: nat, e: Env)
    requires HostController.Inv(h) && HostController.Admissible(h, HostController.Interrupted(ch, e))
    requires h.slots[ch].Busy? && ReportedOn(h.slots[ch].stage, e)
    ensures var s, id, k := h.slots[ch].stage, h.slots[ch].id, HostController.Step(h, HostController.Interrupted(ch, e));
      var ended := Fails(s, e.report.status) || Succeeds(s, e.report);
      && k.log == (if ended then
           h.log + [HostController.Freed(id, ch), HostController.Completed(id, Succeeds(s, e.report))] else h.log)
      && (k.slots[ch].Free? <==> ended) && k.inUse == (if ended then h.inUse - {ch} else h.inUse)
      && k.enabled == (if ended then h.enabled - {ch} else h.enabled)
      && k.timers[ch] == (if Waits(s, e.report) then h.timers[ch] + 1 else h.timers[ch])
      && (k.masks[ch] == HostController.Off <==> !GoesOn(s, e.report))
      && k.next == h.next && |k.slots| == |h.slots|
      && forall c | 0 <= c < |h.slots| && c != ch ::
           k.slots[c] == h.slots[c] && k.masks[c] == h.masks[c] && k.timers[c] == h.timers[c]
  {
    hide AfterInterrupt, Alive, Tolerable, Fails, Succeeds, Waits, GoesOn;
    OutcomeIs(h.slots[ch].stage, e);
  }

  // ----- Runs of a stage without splits on an interrupt endpoint -----

  /** Wake-ups a stage uses of those it is given: all, or those up to its end. */
  function Used(s: Stage, wakeUps: seq<WakeUp>): (n: nat)
    requires Alive(s) && FitsStage(s, wakeUps)
    ensures n <= |wakeUps|
    decreases |wakeUps|
  {
    if wakeUps == [] then 0
    else
      WakeKeepsAlive(s, wakeUps[0]);
      var outcome := Wake(s, wakeUps[0]);
      1 + if outcome.Ended? then 0 else Used(outcome.stage, wakeUps[1..])
  }

  /** The stage when it is given wake-up `i`. */
  function StageBefore(s: Stage, wakeUps: seq<WakeUp>, i: nat): (t: Stage)
    requires Alive(s) && FitsStage(s, wakeUps) && i < Used(s, wakeUps)
    ensures Alive(t) && Fits(t, wakeUps[i])
    decreases |wakeUps|
  {
    if i == 0 then s
    else
      WakeKeepsAlive(s, wakeUps[0]);
      StageBefore(Wake(s, wakeUps[0]).stage, wakeUps[1..], i - 1)
  }

  /** The stage is given a report with these bits on its transaction. */
  predicate IsReport(s: Stage, w: WakeUp) {
    w.Irq? && s.subState == WaitForTransactionComplete && !BareHalt(w.env.report.status)
  }

  predicate IsRefusal(s: Stage, w: WakeUp) {
    IsReport(s, w) && !w.env.report.status.error && Refused(w.env.report.status)
  }

  predicate IsClean(s: Stage, w: WakeUp) {
    IsReport(s, w) && !w.env.report.status.error && !Refused(w.env.report.status)
  }

  predicate Polls(s: Stage) {
    Alive(s) && s.periodic && !s.xfer.split
  }

  lemma PollWake(s: Stage, w: WakeUp)
    requires Polls(s) && Fits(s, w)
    ensures var outcome := Wake(s, w);
      && (w.Tick? <==> s.state == PeriodicDelay)
      && (outcome.Delayed? <==> IsRefusal(s, w))
      && (outcome.Ended? && outcome.ok <==> IsClean(s, w))
      && (!outcome.Ended? ==> Polls(outcome.stage) && outcome.stage.xfer == s.xfer)
      && (!outcome.Ended? ==> (outcome.stage.state == PeriodicDelay <==> outcome.Delayed?))
  {
    hide Sound, Drained, Times;
    WakeKeepsAlive(s, w);
    if IsReport(s, w) {
      UnsplitState(s, w);
      OutcomeIs(s, w.env);
      if !Wake(s, w).Ended? {
        NextIs(s, w.env);
      }
    }
  }

  lemma UnsplitState(s: Stage, w: WakeUp)
    requires Polls(s) && Fits(s, w) && w.Irq?
    ensures s.state == NoSplitTransfer
  {
  }

  /** Over every run of an unsplit stage on an interrupt endpoint its transfer stays as it was; each
      timer follows a refusal by the device, and each refusal is followed by a timer. */
  lemma {:induction false} PollsBetweenTimers(s: Stage, wakeUps: seq<WakeUp>, i: nat)
    requires Polls(s) && FitsStage(s, wakeUps) && i < Used(s, wakeUps)
    ensures StageBefore(s, wakeUps, i).xfer == s.xfer
    ensures wakeUps[i].Tick? <==>
      if i == 0 then s.state == PeriodicDelay else IsRefusal(StageBefore(s, wakeUps, i - 1), wakeUps[i - 1])
    decreases i
  {
    hide Wake, Fits, Alive, Polls, IsRefusal, IsClean;
    PollIsAlive(s);
    PollWake(s, wakeUps[0]);
    if i > 0 {
      var t := Wake(s, wakeUps[0]).stage;
      PollsBetweenTimers(t, wakeUps[1..], i - 1);
      PollsFirst(t, wakeUps[1..]);
    }
  }

  lemma PollIsAlive(s: Stage)
    requires Polls(s)
    ensures Alive(s)
  {
  }

  lemma PollsFirst(s: Stage, wakeUps: seq<WakeUp>)
    requires Polls(s) && FitsStage(s, wakeUps) && wakeUps != []
    ensures wakeUps[0].Tick? <==> s.state == PeriodicDelay
  {
    PollWake(s, wakeUps[0]);
  }

  /** It succeeds exactly with the first report that has neither an error nor a refusal. */
  lemma {:induction false} PollEndsClean(s: Stage, wakeUps: seq<WakeUp>)
    requires Polls(s) && FitsStage(s, wakeUps)
    ensures var n := Used(s, wakeUps);
      && (RunStage(s, wakeUps).Ended? && RunStage(s, wakeUps).ok <==>
            n > 0 && IsClean(StageBefore(s, wakeUps, n - 1), wakeUps[n - 1]))
      && forall i | 0 <= i < n - 1 :: !IsClean(StageBefore(s, wakeUps, i), wakeUps[i])
    decreases |wakeUps|
  {
    hide Wake, Fits, Alive, Polls, IsClean;
    PollIsAlive(s);
    if wakeUps != [] {
      PollWake(s, wakeUps[0]);
      if !Wake(s, wakeUps[0]).Ended? {
        var t := Wake(s, wakeUps[0]).stage;
        PollEndsClean(t, wakeUps[1..]);
        forall i | 0 <= i < Used(s, wakeUps) - 1
          ensures !IsClean(StageBefore(s, wakeUps, i), wakeUps[i])
        {
          if i > 0 {
            assert StageBefore(s, wakeUps, i) == StageBefore(t, wakeUps[1..], i - 1);
          }
        }
      }
    }
  }

  // ----- Bytes -----

  /** Bytes of a report, from what was programmed and what is left. The controller reports none for a
      complete-split of an OUT transaction, which counts as whole packets. */
  function Bytes(s: Stage, r: Report): int {
    var x := s.xfer;
    if s.state == CompleteSplitStage && r.bytesLeft == x.bytesPerTransaction && x.bytesPerTransaction > 0
    then x.mps * (x.packetsPerTransaction - r.packetsLeft)
    else x.bytesPerTransaction - r.bytesLeft
  }

  /** Bytes of a wake-up: only reports without error and refusal count. */
  function WakeBytes(s: Stage, w: WakeUp): int {
    if IsClean(s, w) then Bytes(s, w.env.report) else 0
  }

  function RunBytes(s: Stage, wakeUps: seq<WakeUp>): int
    requires Alive(s) && FitsStage(s, wakeUps)
    decreases |wakeUps|
  {
    if wakeUps == [] then 0
    else
      WakeKeepsAlive(s, wakeUps[0]);
      var outcome := Wake(s, wakeUps[0]);
      WakeBytes(s, wakeUps[0]) + if outcome.Ended? then 0 else RunBytes(outcome.stage, wakeUps[1..])
  }

  lemma BytesAre(s: Stage, r: Report)
    requires Alive(s) && s.state != PeriodicDelay && Bounded(s.xfer, r)
    ensures Bytes(s, r) == BytesMoved(s.xfer, s.splitComplete, r)
  {
    hide Sound, Drained;
    TimesIsProduct(s.xfer.mps, s.xfer.packetsPerTransaction - r.packetsLeft);
  }

  lemma WakeAdds(s: Stage, w: WakeUp)
    requires Alive(s) && Fits(s, w)
    ensures var outcome := Wake(s, w);
      && (!outcome.Ended? ==>
            outcome.stage.xfer.total == s.xfer.total + WakeBytes(s, w) && outcome.stage.xfer.size == s.xfer.size)
      && (outcome.Ended? && outcome.resultLen.Some? ==>
            outcome.resultLen.value == Min(s.xfer.total + WakeBytes(s, w), s.xfer.size))
  {
    hide Sound, Drained, Times, BytesMoved, Bytes, React;
    if w.Irq? && s.subState == WaitForTransactionComplete && !BareHalt(w.env.report.status) {
      BytesAre(s, w.env.report);
      ReactKeepsTransfer(Complete(s, w.env.report), w.env.report.status);
    }
  }

  lemma ReactKeepsTransfer(s: Stage, st: Status)
    requires Reacts(s, st)
    ensures React(s, st).0.xfer == s.xfer
  {
  }

  /** The reported length is the number of bytes counted over the run, cut to the size of the request. */
  lemma {:induction false} ResultIsBytes(s: Stage, wakeUps: seq<WakeUp>)
    requires Alive(s) && FitsStage(s, wakeUps)
    ensures var outcome := RunStage(s, wakeUps);
      outcome.Ended? && outcome.resultLen.Some? ==>
        outcome.resultLen.value == Min(s.xfer.total + RunBytes(s, wakeUps), s.xfer.size)
    decreases |wakeUps|
  {
    hide Wake, Fits, Sound, Drained, Scheduled, WakeBytes, Min;
    if wakeUps != [] {
      WakeKeepsAlive(s, wakeUps[0]);
      WakeAdds(s, wakeUps[0]);
      var outcome := Wake(s, wakeUps[0]);
      if !outcome.Ended? {
        ResultIsBytes(outcome.stage, wakeUps[1..]);
      }
    }
  }

  /** So it is for every data stage from its creation: nothing was transferred before. */
  lemma ResultOfNewStage(split: bool, mps: nat, size: nat, base: nat, periodic: bool, sched: Sched,
                         found: bool, frame: nat, wakeUps: seq<WakeUp>)
    requires 0 < mps < U32 && 0 < size && size + mps <= U32
    requires split ==> sched.kind == if periodic then Periodic else NonPeriodic
    requires (NewDataStageAlive(split, mps, size, base, periodic, sched, found, frame);
      FitsStage(NewDataStage(split, mps, size, base, periodic, sched, found, frame), wakeUps))
    ensures (NewDataStageAlive(split, mps, size, base, periodic, sched, found, frame);
      var s := NewDataStage(split, mps, size, base, periodic, sched, found, frame);
      var outcome := RunStage(s, wakeUps);
      outcome.Ended? && outcome.ok ==>
        outcome.resultLen.Some? && outcome.resultLen.value == Min(RunBytes(s, wakeUps), size))
  {
    hide NewDataStage, RunStage, RunBytes, FitsStage, Alive;
    NewDataStageAlive(split, mps, size, base, periodic, sched, found, frame);
    var s := NewDataStage(split, mps, size, base, periodic, sched, found, frame);
    ResultIsBytes(s, wakeUps);
    DataStageReports(s, wakeUps);
  }

  function NewDataStage(split: bool, mps: nat, size: nat, base: nat, periodic: bool, sched: Sched,
                        found: bool, frame: nat): Stage
    requires mps > 0
  {
    Activate(NewStage(NewTransfer(split, false, mps, size, base), periodic, sched), found, frame)
  }

  lemma NewDataStageAlive(split: bool, mps: nat, size: nat, base: nat, periodic: bool, sched: Sched,
                          found: bool, frame: nat)
    requires 0 < mps < U32 && 0 < size && size + mps <= U32
    requires split ==> sched.kind == if periodic then Periodic else NonPeriodic
    ensures var s := NewDataStage(split, mps, size, base, periodic, sched, found, frame);
      Alive(s) && !s.xfer.statusStage && s.xfer.total == 0 && s.xfer.size == size
  {
    NewTransferSound(split, false, mps, size, base);
    hide PacketCount;
    ActivateLive(NewStage(NewTransfer(split, false, mps, size, base), periodic, sched), found, frame);
  }

  lemma {:induction false} DataStageReports(s: Stage, wakeUps: seq<WakeUp>)
    requires Alive(s) && FitsStage(s, wakeUps) && !s.xfer.statusStage
    ensures RunStage(s, wakeUps).Ended? && RunStage(s, wakeUps).ok ==> RunStage(s, wakeUps).resultLen.Some?
    decreases |wakeUps|
  {
    hide Wake, Fits, Sound, Drained, Scheduled;
    if wakeUps != [] {
      WakeKeepsAlive(s, wakeUps[0]);
      if !Wake(s, wakeUps[0]).Ended? {
        DataStageReports(Wake(s, wakeUps[0]).stage, wakeUps[1..]);
      }
    }
  }

  /** An unsplit data stage reports what its last report has not left; nothing if it ends with a
      refusal on an endpoint that is not periodic. */
  lemma {:induction false} UnsplitResult(s: Stage, wakeUps: seq<WakeUp>)
    requires Alive(s) && FitsStage(s, wakeUps) && !s.xfer.split && !s.xfer.statusStage
    requires RunStage(s, wakeUps).Ended? && RunStage(s, wakeUps).ok
    ensures var n := Used(s, wakeUps);
      && n > 0 && wakeUps[n - 1].Irq?
      && var r := wakeUps[n - 1].env.report;
      && r.bytesLeft <= s.xfer.size
      && RunStage(s, wakeUps).resultLen == Some(if Refused(r.status) then 0 else s.xfer.size - r.bytesLeft)
    decreases |wakeUps|
  {
    hide Wake, Fits, Sound, Drained, Scheduled, Refused;
    WakeKeepsAlive(s, wakeUps[0]);
    UnsplitWakeIs(s, wakeUps[0]);
    if !Wake(s, wakeUps[0]).Ended? {
      UnsplitResult(Wake(s, wakeUps[0]).stage, wakeUps[1..]);
    }
  }

  lemma UnsplitWakeIs(s: Stage, w: WakeUp)
    requires Alive(s) && Fits(s, w) && !s.xfer.split && !s.xfer.statusStage
    ensures var outcome := Wake(s, w);
      && (!outcome.Ended? ==> outcome.stage.xfer == s.xfer)
      && (outcome.Ended? && outcome.ok ==>
            && w.Irq? && w.env.report.bytesLeft <= s.xfer.size
            && outcome.resultLen == Some(if Refused(w.env.report.status) then 0 else s.xfer.size - w.env.report.bytesLeft))
  {
    hide Times;
  }
}
