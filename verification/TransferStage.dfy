/** uspi/lib/dwhcixferstagedata.c: one stage of a request on its host channel, and the part of
    uspi/lib/dwhcidevice.c that decides what one interrupt or timer tick does to the stage. */
module TransferStage {
  import opened Basics
  import opened SplitScheduler
  import opened UsbEndpoint

  datatype StageState = NoSplitTransfer | StartSplitStage | CompleteSplitStage | PeriodicDelay

  datatype SubState = WaitForChannelDisable | WaitForTransactionComplete

  /** What the controller left in the channel registers when it raised the interrupt. */
  datatype Report = Report(status: Status, packetsLeft: nat, bytesLeft: nat)

  /** A report, whether the channel was found enabled, and the frame counter. */
  datatype Env = Env(report: Report, enabled: bool, frame: nat)

  /** Buffer and counters of the stage; nothing but accounting changes them. */
  datatype Transfer = Transfer(
    split: bool, statusStage: bool, mps: nat, size: nat, base: nat,
    packets: nat, packetsPerTransaction: nat, bytesPerTransaction: nat, total: nat, pointer: nat)

  datatype Stage = Stage(
    xfer: Transfer, periodic: bool, splitComplete: bool,
    state: StageState, subState: SubState, sched: Sched)

  datatype Outcome =
    | Armed(stage: Stage)
    | Delayed(stage: Stage)
    | Ended(ok: bool, resultLen: Option<nat>)

  // Unsigned 32-bit arithmetic on operands of that width.

  function Sub32(a: nat, b: nat): nat
    requires b < U32
  {
    if a >= b then a - b else a + U32 - b
  }

  function Add32(a: nat, b: nat): nat
    requires a < U32 && b < U32
  {
    if a + b < U32 then a + b else a + b - U32
  }

  function Mul32(a: nat, b: nat): nat {
    (a * b) % U32
  }

  function PacketCount(size: nat, mps: nat): nat
    requires mps > 0
  {
    (size + mps - 1) / mps
  }

  /** Multiplication as repeated addition, which keeps the accounting linear for the verifier. */
  function Times(a: nat, n: nat): nat {
    if n == 0 then 0 else a + Times(a, n - 1)
  }

  lemma {:induction false} TimesIsProduct(a: nat, n: nat)
    ensures Times(a, n) == a * n
  {
    if n > 0 {
      TimesIsProduct(a, n - 1);
    }
  }

  // ----- Accounting of one transaction -----

  predicate HaltedOnly(st: Status) {
    st == Status(false, true, false, false, false, false)
  }

  /** The report is one that TransactionComplete accounts for. */
  predicate Accounted(st: Status) {
    !st.error && !st.nak && !st.nyet
  }

  /** Nothing is left over beyond what was programmed, and a packet carries at most `mps` bytes. */
  predicate Bounded(x: Transfer, r: Report) {
    && r.packetsLeft <= x.packetsPerTransaction
    && r.bytesLeft <= x.bytesPerTransaction
    && x.bytesPerTransaction - r.bytesLeft <= Times(x.mps, x.packetsPerTransaction - r.packetsLeft)
  }

  function PacketsMoved(x: Transfer, r: Report): nat
    requires Bounded(x, r)
  {
    x.packetsPerTransaction - r.packetsLeft
  }

  /** The controller reports no byte count for a complete-split of an OUT transaction. */
  function BytesMoved(x: Transfer, splitComplete: bool, r: Report): nat
    requires Bounded(x, r)
  {
    if x.split && splitComplete && r.bytesLeft == x.bytesPerTransaction && x.bytesPerTransaction > 0
    then Times(x.mps, PacketsMoved(x, r))
    else x.bytesPerTransaction - r.bytesLeft
  }

  function Account(x: Transfer, splitComplete: bool, r: Report): Transfer
    requires Bounded(x, r) && PacketsMoved(x, r) <= x.packets
  {
    var bytes := BytesMoved(x, splitComplete, r);
    x.(packets := x.packets - PacketsMoved(x, r),
       total := x.total + bytes,
       pointer := x.pointer + bytes,
       bytesPerTransaction := if x.total + bytes > x.size then x.bytesPerTransaction
                              else Min(x.bytesPerTransaction, x.size - (x.total + bytes)))
  }

  function Complete(s: Stage, r: Report): Stage
    requires Bounded(s.xfer, r)
    requires Accounted(r.status) ==> PacketsMoved(s.xfer, r) <= s.xfer.packets
  {
    if Accounted(r.status) then s.(xfer := Account(s.xfer, s.splitComplete, r)) else s
  }

  function ResultLen(x: Transfer): nat {
    Min(x.total, x.size)
  }

  // ----- What one wake-up does to a stage -----

  function NewTransfer(split: bool, statusStage: bool, mps: nat, size: nat, base: nat): Transfer
    requires mps > 0
  {
    var size := if statusStage then 0 else size;
    var packets := if statusStage then 1 else PacketCount(size, mps);
    Transfer(split, statusStage, mps, size, base, packets,
             if split then 1 else packets, if split then Min(size, mps) else size, 0, base)
  }

  function NewStage(x: Transfer, periodic: bool, sched: Sched): Stage {
    Stage(x, periodic, false, NoSplitTransfer, WaitForChannelDisable, sched)
  }

  function StartChannel(s: Stage, frame: nat): Stage {
    s.(subState := WaitForTransactionComplete,
       sched := if s.xfer.split then Waited(s.sched, frame) else s.sched)
  }

  function StartTransaction(s: Stage, enabled: bool, frame: nat): Stage {
    if enabled then s.(subState := WaitForChannelDisable) else StartChannel(s, frame)
  }

  function StartCycle(s: Stage): Stage {
    if s.xfer.split then s.(state := StartSplitStage, splitComplete := false, sched := Started(s.sched))
    else s.(state := NoSplitTransfer)
  }

  /** First activation of a stage and every activation by the kernel timer. */
  function Activate(s: Stage, enabled: bool, frame: nat): Stage {
    StartTransaction(StartCycle(s), enabled, frame)
  }

  /** What the interrupt handler decides to do with a stage. */
  datatype Verdict = Restart | Delay | Finish(ok: bool)

  /** The scheduler decides between a further complete-split and the end of the split cycle. */
  function AfterSplitReport(s: Stage): (Stage, Verdict)
    requires Decides(s.sched)
  {
    var (sched, again) := Next(s.sched);
    var s' := s.(sched := sched);
    if again then (s', Restart)
    else if s'.xfer.packets == 0 then (s', Finish(true))
    else if s'.periodic then (s'.(state := PeriodicDelay), Delay)
    else (StartCycle(s'), Restart)
  }

  /** A report the state of the stage has a reaction to. */
  predicate Reacts(s: Stage, st: Status) {
    && s.state != PeriodicDelay
    && (s.state == StartSplitStage && Accounted(st) ==> Expects(s.sched, st))
    && (s.state == CompleteSplitStage && !st.error ==> Expects(s.sched, st))
  }

  function React(s: Stage, st: Status): (Stage, Verdict)
    requires Reacts(s, st)
  {
    if st.error then (s, Finish(false))
    else match s.state
      case NoSplitTransfer =>
        if (st.nak || st.nyet) && s.periodic then (s.(state := PeriodicDelay), Delay) else (s, Finish(true))
      case StartSplitStage =>
        if st.nak || st.nyet then (s, Finish(false))
        else AfterSplitReport(s.(state := CompleteSplitStage, splitComplete := true,
                                 sched := Reported(s.sched, st)))
      case CompleteSplitStage =>
        AfterSplitReport(s.(sched := Reported(s.sched, st)))
  }

  function Decided(s: Stage, verdict: Verdict, enabled: bool, frame: nat): Outcome {
    match verdict
    case Restart => Armed(StartTransaction(s, enabled, frame))
    case Delay => Delayed(s)
    case Finish(ok) => Ended(ok, if ok && !s.xfer.statusStage then Some(ResultLen(s.xfer)) else None)
  }

  function AfterInterrupt(s: Stage, e: Env): Outcome
    requires Alive(s) && s.state != PeriodicDelay && Tolerable(s, e.report)
  {
    var st := e.report.status;
    if s.subState == WaitForChannelDisable then Armed(StartChannel(s, e.frame))
    else if HaltedOnly(st) then Decided(s, Restart, e.enabled, e.frame)
    else
      var (s', verdict) := React(Complete(s, e.report), st);
      Decided(s', verdict, e.enabled, e.frame)
  }

  // ----- Invariant of a live stage, and assumptions on the controller -----

  /** The byte and packet counters of a stage that is not complete. */
  predicate Sound(x: Transfer) {
    && 0 < x.mps < U32 && x.size + x.mps <= U32
    && (x.statusStage <==> x.size == 0)
    && 0 < x.packets < U32
    && x.pointer == x.base + x.total
    && (if x.split then
          && x.packetsPerTransaction == 1
          && (if x.statusStage then x.total == 0 && x.packets == 1
              else x.size - x.total > Times(x.mps, x.packets - 1))
          && x.bytesPerTransaction == Min(x.mps, x.size - x.total)
        else
          && x.packets == x.packetsPerTransaction
          && x.bytesPerTransaction == x.size && x.total == 0)
  }

  /** All packets are accounted for although the stage has not been ended. */
  predicate Drained(x: Transfer) {
    && x.split && 0 < x.mps < U32 && x.size + x.mps <= U32
    && x.packets == 0 && x.packetsPerTransaction == 1
    && x.pointer == x.base + x.total
    && x.total < x.size + x.mps && x.bytesPerTransaction <= Min(x.mps, x.size)
  }

  /** The state of the stage and the scheduler agree. */
  predicate Scheduled(s: Stage) {
    && (s.xfer.split ==> s.sched.kind == if s.periodic then Periodic else NonPeriodic)
    && match s.state
       case NoSplitTransfer => !s.xfer.split
       case StartSplitStage => s.xfer.split && !s.splitComplete && s.sched.state == StartSplit
       case CompleteSplitStage =>
         s.xfer.split && s.splitComplete && AwaitingComplete(s.sched) && s.sched.tries <= 3
       case PeriodicDelay => s.periodic
  }

  /** A stage with packets left. */
  predicate Live(s: Stage) {
    Sound(s.xfer) && Scheduled(s)
  }

  /** A stage on its channel: with packets left, or retrying a complete-split after the last one. */
  predicate Alive(s: Stage) {
    (Sound(s.xfer) || (s.state == CompleteSplitStage && Drained(s.xfer))) && Scheduled(s)
  }

  /** What is assumed of a report on a transaction that was started (USB 2.0 sections 8.5.3 and
      11.18): it is bounded by what was programmed, also when the channel has only halted; a
      start-split is acknowledged and moves nothing, unless it fails; a complete-split that does
      not fail carries one of the four answers; and no packet is accounted for after the last one,
      as the driver asserts. */
  predicate Tolerable(s: Stage, r: Report) {
    s.subState == WaitForTransactionComplete ==>
      && Bounded(s.xfer, r)
      && (HaltedOnly(r.status) || Served(s, r))
  }

  /** A report the driver accounts for and reacts to. */
  predicate Served(s: Stage, r: Report)
    requires Bounded(s.xfer, r)
  {
    && (s.state == StartSplitStage && Accounted(r.status) ==>
          && r.status.ack
          && r.packetsLeft == s.xfer.packetsPerTransaction && r.bytesLeft == s.xfer.bytesPerTransaction)
    && (s.state == CompleteSplitStage && !r.status.error ==> CompleteStatus(r.status))
    && (Accounted(r.status) ==> PacketsMoved(s.xfer, r) <= s.xfer.packets)
  }

  /** Furthermore, a complete-split that moves a packet completes the programmed transfer. */
  predicate Plausible(s: Stage, r: Report) {
    && Tolerable(s, r)
    && (s.subState == WaitForTransactionComplete && !HaltedOnly(r.status)
        && s.state == CompleteSplitStage && Accounted(r.status) && PacketsMoved(s.xfer, r) > 0 ==>
          r.status.xferComplete)
  }

  // ----- Lemmas about the accounting -----

  /** Until a stage is complete the programmed DMA window lies inside the request buffer, starts
      right behind what has been transferred, and is empty only in a status stage. */
  lemma WindowInsideBuffer(x: Transfer)
    requires Sound(x)
    ensures x.base <= x.pointer == x.base + x.total
    ensures x.pointer + x.bytesPerTransaction <= x.base + x.size
    ensures x.bytesPerTransaction == 0 <==> x.statusStage
    ensures x.packetsPerTransaction <= x.packets
  {
  }

  /** The two accounting assertions of TransactionComplete, in the driver's 32-bit arithmetic. */
  predicate AssertionsHold(s: Stage, r: Report)
    requires Bounded(s.xfer, r)
    requires s.xfer.total + BytesMoved(s.xfer, s.splitComplete, r) < U32
  {
    Accounted(r.status) ==>
      && PacketsMoved(s.xfer, r) <= s.xfer.packets
      && (var total := s.xfer.total + BytesMoved(s.xfer, s.splitComplete, r);
          Sub32(s.xfer.size, total) < s.xfer.bytesPerTransaction ==> total <= s.xfer.size)
  }

  /** The total may pass the size only with the last packet, and by less than one packet. */
  lemma TotalBounded(x: Transfer, splitComplete: bool, r: Report)
    requires Sound(x) && Bounded(x, r)
    ensures var total, left := x.total + BytesMoved(x, splitComplete, r), x.packets - PacketsMoved(x, r);
      && total < x.size + x.mps && left >= 0
      && (x.split && left > 0 && !x.statusStage ==> x.size - total > Times(x.mps, left - 1))
      && (x.split && left > 0 && x.statusStage ==> total == 0 && left == 1)
      && (!x.split ==> total <= x.size)
  {
    if x.split {
      assert PacketsMoved(x, r) == 0 || PacketsMoved(x, r) == 1;
      assert Times(x.mps, 0) == 0 && Times(x.mps, 1) == x.mps;
      assert x.packets >= 2 ==> Times(x.mps, x.packets - 1) == x.mps + Times(x.mps, x.packets - 2);
    }
  }

  /** Effect of an accounted report on a stage that is not complete: the total may pass the size
      only with the last packet, and by less than one packet. */
  lemma AccountedProgress(s: Stage, r: Report)
    requires Sound(s.xfer) && Bounded(s.xfer, r)
    ensures s.xfer.total + BytesMoved(s.xfer, s.splitComplete, r) < s.xfer.size + s.xfer.mps
    ensures AssertionsHold(s, r)
    ensures var x := Account(s.xfer, s.splitComplete, r);
      && (x.total > x.size ==> x.packets == 0)
      && x.pointer == x.base + x.total
      && (x.split && x.packets > 0 ==> Sound(x))
      && (x.split && x.packets == 0 ==> Drained(x))
  {
    TotalBounded(s.xfer, s.splitComplete, r);
    hide BytesMoved, Times, Bounded;
  }

  lemma Mul32Exact(a: nat, n: nat)
    requires n <= 1 && a < U32
    ensures Mul32(a, n) == Times(a, n)
  {
    assert a * n == if n == 0 then 0 else a;
  }

  /** A report on a stage whose counters are in order. */
  predicate Countable(x: Transfer, r: Report) {
    (Sound(x) || Drained(x)) && Bounded(x, r)
  }

  /** The driver's 32-bit arithmetic neither wraps nor loses bits, apart from the comparison that a
      wrapped difference is meant to fail. */
  lemma AccountIn32Bits(x: Transfer, splitComplete: bool, r: Report)
    requires Countable(x, r) && PacketsMoved(x, r) <= x.packets
    ensures x.bytesPerTransaction < U32
    ensures x.split ==> Mul32(x.mps, PacketsMoved(x, r)) == Times(x.mps, PacketsMoved(x, r))
    ensures var bytes := BytesMoved(x, splitComplete, r);
      && bytes < U32 && x.total + bytes < U32
      && (Sub32(x.size, x.total + bytes) < x.bytesPerTransaction <==>
            0 <= x.size - (x.total + bytes) < x.bytesPerTransaction)
  {
    if x.split {
      assert PacketsMoved(x, r) == 0 || PacketsMoved(x, r) == 1;
      Mul32Exact(x.mps, PacketsMoved(x, r));
    }
  }

  /** After the last packet an accounted report that moves none changes nothing that matters. */
  lemma DrainedStays(s: Stage, r: Report)
    requires Drained(s.xfer) && Bounded(s.xfer, r) && PacketsMoved(s.xfer, r) == 0
    ensures var x := Account(s.xfer, s.splitComplete, r);
      Drained(x) && x.total == s.xfer.total && x.pointer == s.xfer.pointer
  {
  }

  /** The assertions hold exactly when no packet is moved after the last one. */
  lemma AssertionsHoldIff(s: Stage, r: Report)
    requires Sound(s.xfer) || Drained(s.xfer)
    requires Bounded(s.xfer, r)
    requires s.xfer.total + BytesMoved(s.xfer, s.splitComplete, r) < U32
    ensures AssertionsHold(s, r) <==> s.xfer.packets > 0 || r.packetsLeft == 1 || !Accounted(r.status)
  {
    if Sound(s.xfer) {
      AccountedProgress(s, r);
    } else if r.packetsLeft == 1 {
      assert BytesMoved(s.xfer, s.splitComplete, r) == 0;
    }
  }

  /** Without the last assumption on the controller the first assertion can fail. A complete-split
      answers ACK and moves the last packet, but does not report completion; it is retried, and a
      packet moved by the retry is one too many. */
  lemma AckWithoutCompletion(s: Stage, r: Report, retried: Report)
    requires Live(s) && s.state == CompleteSplitStage && s.sched.tries > 0 && s.xfer.packets == 1
    requires Accounted(r.status) && r.status.ack && !r.status.xferComplete
    requires Bounded(s.xfer, r) && r.packetsLeft == 0
    ensures var (s', verdict) := React(Complete(s, r), r.status);
      && verdict == Restart && s'.state == CompleteSplitStage
      && s'.xfer.packets == 0 && s'.xfer.packetsPerTransaction == 1
      && (Accounted(retried.status) && Bounded(s'.xfer, retried) && retried.packetsLeft == 0 ==>
            PacketsMoved(s'.xfer, retried) > s'.xfer.packets)
  {
    AccountedProgress(s, r);
  }

  // ----- Lemmas about wake-ups -----

  lemma NewTransferSound(split: bool, statusStage: bool, mps: nat, size: nat, base: nat)
    requires 0 < mps < U32 && size + mps <= U32 && (!statusStage ==> size > 0)
    ensures var x := NewTransfer(split, statusStage, mps, size, base);
      Sound(x) && x.split == split && x.statusStage == statusStage
  {
    if !statusStage {
      var packets := PacketCount(size, mps);
      assert packets * mps <= size + mps - 1 < packets * mps + mps;
      TimesIsProduct(mps, packets - 1);
      assert mps * (packets - 1) == packets * mps - mps;
    }
  }

  lemma ActivateLive(s: Stage, enabled: bool, frame: nat)
    requires Sound(s.xfer) && (s.xfer.split ==> s.sched.kind == if s.periodic then Periodic else NonPeriodic)
    ensures Live(Activate(s, enabled, frame)) && Activate(s, enabled, frame).state != PeriodicDelay
  {
  }

  predicate GoodOutcome(s: Stage, outcome: Outcome) {
    match outcome
    case Armed(s') => Alive(s') && s'.state != PeriodicDelay
    case Delayed(s') => Live(s') && s'.state == PeriodicDelay
    case Ended(ok, len) =>
      && (len.Some? <==> ok && !s.xfer.statusStage)
      && (len.Some? ==> len.value <= s.xfer.size)
  }

  lemma AfterSplitReportGood(s: Stage, enabled: bool, frame: nat)
    requires if s.xfer.packets > 0 then Sound(s.xfer) else Drained(s.xfer)
    requires s.xfer.split && s.splitComplete && s.state == CompleteSplitStage
    requires s.sched.kind == if s.periodic then Periodic else NonPeriodic
    requires Decides(s.sched)
    requires s.sched.state == CompleteRetry ==> s.sched.tries <= 3
    requires s.sched.state != CompleteSplit
    ensures var (s', verdict) := AfterSplitReport(s);
      GoodOutcome(s, Decided(s', verdict, enabled, frame))
  {
  }

  lemma StartSplitMovesNothing(s: Stage, r: Report)
    requires Live(s) && s.state == StartSplitStage
    requires r.packetsLeft == s.xfer.packetsPerTransaction && r.bytesLeft == s.xfer.bytesPerTransaction
    requires Bounded(s.xfer, r)
    ensures Complete(s, r) == s
  {
  }

  lemma CompleteSplitAccounts(s: Stage, r: Report)
    requires Alive(s) && s.state == CompleteSplitStage && s.subState == WaitForTransactionComplete
    requires !HaltedOnly(r.status) && Tolerable(s, r)
    ensures var s' := Complete(s, r);
      && s' == s.(xfer := s'.xfer)
      && s'.xfer.split && s'.xfer.statusStage == s.xfer.statusStage && s'.xfer.size == s.xfer.size
      && (if s'.xfer.packets > 0 then Sound(s'.xfer) else Drained(s'.xfer))
      && s'.xfer.packets == s.xfer.packets - (if Accounted(r.status) then PacketsMoved(s.xfer, r) else 0)
      && PacketsMoved(s.xfer, r) <= 1
  {
    if Accounted(r.status) {
      if Sound(s.xfer) {
        AccountedProgress(s, r);
      } else {
        DrainedStays(s, r);
      }
    }
  }

  lemma SoundHasPackets(x: Transfer)
    requires Sound(x)
    ensures x.packets > 0
  {
  }

  lemma SplitInterruptKeepsAlive(s: Stage, e: Env)
    requires Alive(s) && s.xfer.split && s.state != PeriodicDelay && Tolerable(s, e.report)
    requires s.subState == WaitForTransactionComplete && !HaltedOnly(e.report.status) && !e.report.status.error
    ensures GoodOutcome(s, AfterInterrupt(s, e))
  {
    hide Sound, Drained, BytesMoved, Times;
    var st := e.report.status;
    if s.state == StartSplitStage {
      if Accounted(st) {
        StartSplitMovesNothing(s, e.report);
        SoundHasPackets(s.xfer);
        AfterSplitReportGood(s.(state := CompleteSplitStage, splitComplete := true,
                                sched := Reported(s.sched, st)), e.enabled, e.frame);
      }
    } else {
      CompleteSplitAccounts(s, e.report);
      var s' := Complete(s, e.report);
      AfterSplitReportGood(s'.(sched := Reported(s'.sched, st)), e.enabled, e.frame);
    }
  }

  /** Every interrupt leaves a stage that waits for exactly one thing, or ends it; then the reported
      length fits the buffer. No scheduler assertion is reached, because AfterInterrupt calls the
      scheduler functions only where they are defined. */
  lemma InterruptKeepsAlive(s: Stage, e: Env)
    requires Alive(s) && s.state != PeriodicDelay && Tolerable(s, e.report)
    ensures GoodOutcome(s, AfterInterrupt(s, e))
  {
    hide BytesMoved, Times;
    var st := e.report.status;
    if s.xfer.split && s.subState == WaitForTransactionComplete && !HaltedOnly(st) && !st.error {
      SplitInterruptKeepsAlive(s, e);
    }
  }

  /** A report on a split transaction that has not failed. */
  predicate SplitReport(s: Stage, e: Env) {
    var st := e.report.status;
    && s.xfer.split && s.subState == WaitForTransactionComplete && !HaltedOnly(st) && !st.error
    && (s.state == CompleteSplitStage || (s.state == StartSplitStage && Accounted(st)))
  }

  /** Once its report is accounted for, a split stage goes on with a complete-split, begins a new
      cycle, waits for its next interval, or ends successfully with no packets left. */
  predicate CycleStep(s: Stage, x: Transfer, outcome: Outcome) {
    match outcome
    case Armed(u) =>
      && u.xfer == x && u.periodic == s.periodic
      && (u.state == CompleteSplitStage || (u.state == StartSplitStage && x.packets > 0))
    case Delayed(u) => u.xfer == x && u.periodic == s.periodic && x.packets > 0
    case Ended(ok, _) => ok && x.packets == 0
  }

  lemma SplitOutcome(s: Stage, e: Env)
    requires Alive(s) && Tolerable(s, e.report) && SplitReport(s, e)
    ensures var outcome := AfterInterrupt(s, e);
      && CycleStep(s, Complete(s, e.report).xfer, outcome)
      && (s.state == StartSplitStage ==> outcome.Armed? && outcome.stage.state == CompleteSplitStage)
      && (s.state == CompleteSplitStage && e.report.status.xferComplete ==>
            !(outcome.Armed? && outcome.stage.state == CompleteSplitStage))
  {
    hide Sound, Drained, BytesMoved, Times;
  }

  /** When packet-moving complete-splits report completion, packets are left until the stage ends,
      so by WindowInsideBuffer every transaction it starts stays inside the buffer. */
  lemma InterruptKeepsLive(s: Stage, e: Env)
    requires Live(s) && s.state != PeriodicDelay && Plausible(s, e.report)
    ensures GoodOutcome(s, AfterInterrupt(s, e))
    ensures AfterInterrupt(s, e).Armed? ==> Live(AfterInterrupt(s, e).stage)
  {
    InterruptKeepsAlive(s, e);
    if SplitReport(s, e) {
      SplitOutcome(s, e);
      if s.state == CompleteSplitStage {
        CompleteSplitAccounts(s, e.report);
      } else {
        StartSplitMovesNothing(s, e.report);
      }
      hide AfterInterrupt, Account, BytesMoved, Bounded, Complete, Sound;
    }
  }

  /** The packets an interrupt accounts for. */
  function Progress(s: Stage, e: Env): nat
    requires Tolerable(s, e.report)
  {
    if s.subState == WaitForTransactionComplete && !HaltedOnly(e.report.status) && Accounted(e.report.status)
    then PacketsMoved(s.xfer, e.report)
    else 0
  }

  /** Packets left in a stage after a wake-up; none after its end. */
  function PacketsLeft(outcome: Outcome): nat {
    match outcome
    case Armed(s) => s.xfer.packets
    case Delayed(s) => s.xfer.packets
    case Ended(_, _) => 0
  }

  /** A report that moves a packet of a split stage is the last of its split cycle, and the stage
      ends successfully with the report that moves the last packet. */
  lemma PacketEndsCycle(s: Stage, e: Env)
    requires Live(s) && s.xfer.split && s.state != PeriodicDelay && Plausible(s, e.report)
    ensures Progress(s, e) <= 1
    ensures Progress(s, e) == 1 ==> s.state == CompleteSplitStage
    ensures var outcome := AfterInterrupt(s, e);
      && (outcome != Ended(false, None) ==> PacketsLeft(outcome) == s.xfer.packets - Progress(s, e))
      && (Progress(s, e) == 1 && outcome.Armed? ==> outcome.stage.state == StartSplitStage)
      && (outcome.Ended? && outcome.ok <==> Progress(s, e) == 1 == s.xfer.packets)
  {
    if SplitReport(s, e) {
      SplitOutcome(s, e);
      if s.state == CompleteSplitStage {
        CompleteSplitAccounts(s, e.report);
      } else {
        StartSplitMovesNothing(s, e.report);
      }
      hide AfterInterrupt, Account, BytesMoved, Bounded, Complete, Sound;
    }
  }

  // ----- Whole runs of one stage -----

  datatype WakeUp = Irq(env: Env) | Tick(enabled: bool, frame: nat)

  /** A timer tick when the stage is delayed, a tolerable interrupt otherwise. */
  predicate Fits(s: Stage, w: WakeUp) {
    match w
    case Tick(_, _) => s.state == PeriodicDelay
    case Irq(e) => s.state != PeriodicDelay && Tolerable(s, e.report)
  }

  function Wake(s: Stage, w: WakeUp): Outcome
    requires Alive(s) && Fits(s, w)
  {
    match w
    case Tick(enabled, frame) => Armed(Activate(s, enabled, frame))
    case Irq(e) => AfterInterrupt(s, e)
  }

  /** A packet-moving complete-split reports completion. */
  predicate PromptWake(s: Stage, w: WakeUp) {
    w.Irq? ==> Plausible(s, w.env.report)
  }

  lemma WakeKeepsAlive(s: Stage, w: WakeUp)
    requires Alive(s) && Fits(s, w)
    ensures GoodOutcome(s, Wake(s, w))
    ensures !Wake(s, w).Ended? ==>
      && Wake(s, w).stage.xfer.split == s.xfer.split
      && Wake(s, w).stage.xfer.statusStage == s.xfer.statusStage
      && Wake(s, w).stage.periodic == s.periodic
  {
    if w.Irq? {
      InterruptKeepsAlive(s, w.env);
      InterruptKeepsKind(s, w.env);
      hide *;
    } else {
      ActivateLive(s, w.enabled, w.frame);
    }
  }

  /** What an interrupt does not change. */
  lemma InterruptKeepsKind(s: Stage, e: Env)
    requires Alive(s) && s.state != PeriodicDelay && Tolerable(s, e.report)
    ensures var outcome := AfterInterrupt(s, e);
      !outcome.Ended? ==>
        && outcome.stage.xfer.split == s.xfer.split && outcome.stage.xfer.statusStage == s.xfer.statusStage
        && outcome.stage.periodic == s.periodic
  {
    if SplitReport(s, e) {
      SplitOutcome(s, e);
      if s.state == CompleteSplitStage {
        CompleteSplitAccounts(s, e.report);
      } else {
        StartSplitMovesNothing(s, e.report);
      }
      hide AfterInterrupt, Account, BytesMoved, Bounded, Complete, Sound, Drained;
    } else {
      hide Sound, Drained, Account, BytesMoved;
    }
  }

  lemma WakeKeepsLive(s: Stage, w: WakeUp)
    requires Live(s) && Fits(s, w) && PromptWake(s, w)
    ensures GoodOutcome(s, Wake(s, w))
    ensures !Wake(s, w).Ended? ==> Live(Wake(s, w).stage)
  {
    WakeKeepsAlive(s, w);
    if w.Irq? {
      InterruptKeepsLive(s, w.env);
    }
  }

  /** Every wake-up fits, and nothing follows the end of the stage. */
  predicate FitsStage(s: Stage, wakeUps: seq<WakeUp>)
    requires Alive(s)
    decreases |wakeUps|
  {
    wakeUps == [] ||
    (Fits(s, wakeUps[0]) &&
     (WakeKeepsAlive(s, wakeUps[0]);
      var outcome := Wake(s, wakeUps[0]);
      if outcome.Ended? then |wakeUps| == 1 else FitsStage(outcome.stage, wakeUps[1..])))
  }

  function RunStage(s: Stage, wakeUps: seq<WakeUp>): Outcome
    requires Alive(s) && FitsStage(s, wakeUps)
    decreases |wakeUps|
  {
    if wakeUps == [] then (if s.state == PeriodicDelay then Delayed(s) else Armed(s))
    else
      WakeKeepsAlive(s, wakeUps[0]);
      var outcome := Wake(s, wakeUps[0]);
      if outcome.Ended? then outcome else RunStage(outcome.stage, wakeUps[1..])
  }

  /** Throughout the run packet-moving complete-splits report completion. */
  predicate Prompt(s: Stage, wakeUps: seq<WakeUp>)
    requires Alive(s) && FitsStage(s, wakeUps)
    decreases |wakeUps|
  {
    wakeUps == [] ||
    (PromptWake(s, wakeUps[0]) &&
     (WakeKeepsAlive(s, wakeUps[0]);
      var outcome := Wake(s, wakeUps[0]);
      outcome.Ended? || Prompt(outcome.stage, wakeUps[1..])))
  }

  /** An acknowledgement, with completion or without, and what it leaves of the packet. */
  function Acknowledged(complete: bool, packetsLeft: nat, bytesLeft: nat): Report {
    Report(Status(complete, true, false, false, true, false), packetsLeft, bytesLeft)
  }

  /** Such a run of any new split stage of one packet: its start-split is acknowledged, its
      complete-split is acknowledged and moves the packet without reporting completion, and then the
      retry, of which the controller reports a packet moved, fails the assertion. */
  lemma AckWithoutCompletionRun(mps: nat, size: nat, base: nat, sched: Sched, frame: nat)
    requires 0 < size <= mps && size + mps <= U32 && sched.kind == NonPeriodic
    ensures var s := Activate(NewStage(NewTransfer(true, false, mps, size, base), false, sched), false, frame);
      var run := [Irq(Env(Acknowledged(false, 1, size), false, frame)), Irq(Env(Acknowledged(false, 0, 0), false, frame))];
      var again := Acknowledged(true, 0, 0);
      && Alive(s) && FitsStage(s, run) && RunStage(s, run).Armed?
      && var u := RunStage(s, run).stage;
      && u.state == CompleteSplitStage && u.subState == WaitForTransactionComplete && CompleteStatus(again.status)
      && Bounded(u.xfer, again) && u.xfer.total + BytesMoved(u.xfer, u.splitComplete, again) < U32
      && !AssertionsHold(u, again)
  {
    var s := Activate(NewStage(NewTransfer(true, false, mps, size, base), false, sched), false, frame);
    var first := Irq(Env(Acknowledged(false, 1, size), false, frame));
    var second := Irq(Env(Acknowledged(false, 0, 0), false, frame));
    assert Alive(s) by {
      NewTransferSound(true, false, mps, size, base);
    }
    FirstAcknowledged(mps, size, base, sched, frame);
    var t := Wake(s, first).stage;
    SecondAcknowledged(t, frame);
    hide Wake, Fits, Alive, AssertionsHold, BytesMoved, Bounded, Activate, NewTransfer;
    RunOfTwo(s, first, second);
  }

  lemma RunOfTwo(s: Stage, first: WakeUp, second: WakeUp)
    requires Alive(s) && Fits(s, first) && Wake(s, first).Armed?
    requires Alive(Wake(s, first).stage) && Fits(Wake(s, first).stage, second) && Wake(Wake(s, first).stage, second).Armed?
    requires Wake(Wake(s, first).stage, second).stage.state != PeriodicDelay
    ensures FitsStage(s, [first, second]) && RunStage(s, [first, second]) == Wake(Wake(s, first).stage, second)
  {
    hide Wake, Fits, Alive;
    var t := Wake(s, first).stage;
    assert [first, second][1..] == [second] && [second][1..] == [];
    assert FitsStage(t, [second]);
    assert RunStage(t, [second]) == Wake(t, second) by {
      WakeKeepsAlive(t, second);
      assert RunStage(Wake(t, second).stage, []) == Wake(t, second);
    }
  }

  lemma FirstAcknowledged(mps: nat, size: nat, base: nat, sched: Sched, frame: nat)
    requires 0 < size <= mps && size + mps <= U32 && sched.kind == NonPeriodic
    ensures var s := Activate(NewStage(NewTransfer(true, false, mps, size, base), false, sched), false, frame);
      var first := Irq(Env(Acknowledged(false, 1, size), false, frame));
      && Alive(s) && Fits(s, first) && Wake(s, first).Armed?
      && var t := Wake(s, first).stage;
      && AwaitsLastPacket(t) && t.xfer.size == size
  {
    NewTransferSound(true, false, mps, size, base);
    var s := Activate(NewStage(NewTransfer(true, false, mps, size, base), false, sched), false, frame);
    assert s.xfer.packets == 1;
    hide PacketCount;
    StartSplitMovesNothing(s, Acknowledged(false, 1, size));
  }

  /** A stage behind its start-split, with one packet left and tries to spend. */
  predicate AwaitsLastPacket(s: Stage) {
    && Live(s) && s.state == CompleteSplitStage && s.subState == WaitForTransactionComplete && !s.periodic
    && s.sched.tries > 0 && s.xfer.packets == 1 && s.xfer.total == 0 && 0 < s.xfer.size <= s.xfer.mps
  }

  lemma SecondAcknowledged(s: Stage, frame: nat)
    requires AwaitsLastPacket(s)
    ensures var second := Irq(Env(Acknowledged(false, 0, 0), false, frame));
      var again := Acknowledged(true, 0, 0);
      && Alive(s) && Fits(s, second) && Wake(s, second).Armed?
      && var u := Wake(s, second).stage;
      && u.state == CompleteSplitStage && u.subState == WaitForTransactionComplete
      && Bounded(u.xfer, again) && u.xfer.total + BytesMoved(u.xfer, u.splitComplete, again) < U32
      && !AssertionsHold(u, again)
  {
    assert Times(s.xfer.mps, 1) == s.xfer.mps;
  }

  predicate MovesPacket(s: Stage, w: WakeUp)
    requires Fits(s, w)
  {
    w.Irq? && Progress(s, w.env) > 0
  }

  /** Number of wake-ups of a run that moved a packet; for a split stage, by PacketEndsCycle,
      the number of its split cycles that moved one. */
  function MovingCycles(s: Stage, wakeUps: seq<WakeUp>): nat
    requires Alive(s) && FitsStage(s, wakeUps)
    decreases |wakeUps|
  {
    if wakeUps == [] then 0
    else
      WakeKeepsAlive(s, wakeUps[0]);
      var outcome := Wake(s, wakeUps[0]);
      (if MovesPacket(s, wakeUps[0]) then 1 else 0)
      + if outcome.Ended? then 0 else MovingCycles(outcome.stage, wakeUps[1..])
  }

  /** A split stage ends successfully after exactly one packet-moving cycle per packet, and while
      it runs the cycles so far and the packets left add up. */
  lemma {:induction false} OneCyclePerPacket(s: Stage, wakeUps: seq<WakeUp>)
    requires Live(s) && s.xfer.split && FitsStage(s, wakeUps) && Prompt(s, wakeUps)
    ensures var outcome := RunStage(s, wakeUps);
      outcome != Ended(false, None) ==> MovingCycles(s, wakeUps) + PacketsLeft(outcome) == s.xfer.packets
    decreases |wakeUps|
  {
    if wakeUps != [] {
      var w := wakeUps[0];
      WakeKeepsLive(s, w);
      WakeKeepsAlive(s, w);
      var outcome := Wake(s, w);
      if w.Irq? {
        PacketEndsCycle(s, w.env);
      }
      if !outcome.Ended? {
        OneCyclePerPacket(outcome.stage, wakeUps[1..]);
      }
    }
  }

  /** From its creation: a stage of `size` bytes takes as many packet-moving cycles as packets. */
  lemma CyclesOfNewStage(mps: nat, size: nat, base: nat, periodic: bool, sched: Sched,
                         enabled: bool, frame: nat, wakeUps: seq<WakeUp>)
    requires 0 < mps < U32 && 0 < size && size + mps <= U32
    requires sched.kind == if periodic then Periodic else NonPeriodic
    requires var s := Activate(NewStage(NewTransfer(true, false, mps, size, base), periodic, sched), enabled, frame);
      Live(s) && FitsStage(s, wakeUps) && Prompt(s, wakeUps) && RunStage(s, wakeUps).Ended? && RunStage(s, wakeUps).ok
    ensures var s := Activate(NewStage(NewTransfer(true, false, mps, size, base), periodic, sched), enabled, frame);
      MovingCycles(s, wakeUps) == PacketCount(size, mps)
  {
    OneCyclePerPacket(Activate(NewStage(NewTransfer(true, false, mps, size, base), periodic, sched), enabled, frame),
                      wakeUps);
  }

  // ----- The stage as the driver keeps it -----

  /** uspi/lib/usbrequest.c; completion routines are recorded by the host controller. */
  class Request {
    const endpoint: Endpoint
    const setupData: nat
    const buffer: nat
    const bufLen: nat
    var status: bool
    var resultLen: nat

    constructor (endpoint: Endpoint, setupData: nat, buffer: nat, bufLen: nat)
      ensures this.endpoint == endpoint && this.bufLen == bufLen && !status
    {
      this.endpoint := endpoint;
      this.setupData := setupData;
      this.buffer := buffer;
      this.bufLen := bufLen;
      status := false;
      resultLen := 0;
    }
  }

  const SETUP_DATA_SIZE := 8

  /** Address and length of what a stage transfers; a status stage transfers nothing. */
  function StageBuffer(statusStage: bool, nextPid: Pid, setupData: nat, buffer: nat, bufLen: nat, temp: nat)
    : (nat, nat)
  {
    if statusStage then (temp, 0)
    else if nextPid == Setup then (setupData, SETUP_DATA_SIZE)
    else (buffer, bufLen)
  }

  /** The counters of a new stage of the request. */
  ghost function NewTransferFor(urb: Request, statusStage: bool, temp: nat): Transfer
    requires urb.endpoint.maxPacketSize > 0
    reads urb.endpoint
  {
    var e := urb.endpoint;
    var buffer := StageBuffer(statusStage, e.nextPid, urb.setupData, urb.buffer, urb.bufLen, temp);
    NewTransfer(e.needsSplit, statusStage, e.maxPacketSize, buffer.1, buffer.0)
  }

  /** The packet identifier of the endpoint after a report. */
  function PidAfter(s: Stage, r: Report, pid: Pid): Pid
    requires Bounded(s.xfer, r)
  {
    if Accounted(r.status) && (!s.xfer.split || s.splitComplete)
    then SkipPid(pid, PacketsMoved(s.xfer, r), s.xfer.statusStage)
    else pid
  }

  class StageData {
    const channel: nat
    const sched: FrameScheduler
    const tempBuffer: nat
    var urb: Request?
    var endpoint: Endpoint?
    var statusStage: bool
    var splitTransaction: bool
    var splitComplete: bool
    var maxPacketSize: nat
    var transferSize: nat
    var packets: nat
    var bytesPerTransaction: nat
    var packetsPerTransaction: nat
    var totalBytesTransfered: nat
    var state: StageState
    var subState: SubState
    var transactionStatus: Status
    var bufferPointer: nat
    ghost var base: nat
    // The endpoint is an interrupt endpoint (the driver asks the endpoint each time).
    var periodic: bool

    ghost function Counters(): Transfer
      reads this
    {
      Transfer(splitTransaction, statusStage, maxPacketSize, transferSize, base, packets,
               packetsPerTransaction, bytesPerTransaction, totalBytesTransfered, bufferPointer)
    }

    ghost function View(): Stage
      reads this, sched
    {
      Stage(Counters(), periodic, splitComplete, state, subState, sched.View())
    }

    constructor (channel: nat, tempBuffer: nat)
      ensures this.channel == channel && fresh(sched) && urb == null
    {
      this.channel := channel;
      sched := new FrameScheduler();
      this.tempBuffer := tempBuffer;
      urb, endpoint := null, null;
      statusStage, splitTransaction, splitComplete := false, false, false;
      maxPacketSize, transferSize, packets, bytesPerTransaction, packetsPerTransaction := 1, 0, 0, 0, 0;
      totalBytesTransfered, bufferPointer, base := 0, 0, 0;
      state, subState := NoSplitTransfer, WaitForChannelDisable;
      transactionStatus := Status(false, false, false, false, false, false);
      periodic := false;
    }

    method Init(urb: Request, statusStage: bool)
      requires urb.endpoint.maxPacketSize > 0
      requires statusStage ==> urb.endpoint.endpointType == Control
      modifies this, sched
      ensures this.urb == urb && endpoint == urb.endpoint && this.statusStage == statusStage
      ensures View() == NewStage(NewTransferFor(urb, statusStage, tempBuffer),
                                 endpoint.endpointType == Interrupt, sched.View())
      ensures endpoint.needsSplit ==>
        sched.kind == if endpoint.endpointType == Interrupt then Periodic else NonPeriodic
    {
      hide NewTransferFor;
      this.urb := urb;
      this.statusStage := statusStage;
      endpoint := urb.endpoint;
      InitCounters();
      InitState();
    }

    method InitState()
      requires endpoint != null
      modifies `splitComplete, `state, `subState, `transactionStatus, `periodic, sched
      ensures View() == NewStage(Counters(), endpoint.endpointType == Interrupt, sched.View())
      ensures splitTransaction ==>
        sched.kind == if endpoint.endpointType == Interrupt then Periodic else NonPeriodic
    {
      splitComplete := false;
      state, subState := NoSplitTransfer, WaitForChannelDisable;
      transactionStatus := Status(false, false, false, false, false, false);
      periodic := endpoint.endpointType == Interrupt;
      if splitTransaction {
        sched.Init(if endpoint.endpointType == Interrupt then Periodic else NonPeriodic);
      }
    }

    method InitCounters()
      requires urb != null && endpoint == urb.endpoint && endpoint.maxPacketSize > 0
      requires statusStage ==> endpoint.endpointType == Control
      modifies `maxPacketSize, `splitTransaction, `totalBytesTransfered, `bufferPointer, `transferSize,
        `packets, `bytesPerTransaction, `packetsPerTransaction, `base
      ensures Counters() == NewTransferFor(urb, statusStage, tempBuffer)
      ensures splitTransaction == endpoint.needsSplit
    {
      hide PacketCount;
      maxPacketSize := endpoint.maxPacketSize;
      splitTransaction := endpoint.needsSplit;
      totalBytesTransfered := 0;
      if !statusStage {
        var pid := endpoint.GetNextPid(statusStage);
        if pid == Setup {
          bufferPointer := urb.setupData;
          transferSize := SETUP_DATA_SIZE;
        } else {
          bufferPointer := urb.buffer;
          transferSize := urb.bufLen;
        }
        SizeTransactions();
      } else {
        bufferPointer := tempBuffer;
        transferSize := 0;
        bytesPerTransaction := 0;
        packets := 1;
        packetsPerTransaction := 1;
      }
      base := bufferPointer;
    }

    /** A split transaction moves one packet, an unsplit one all of them. */
    method SizeTransactions()
      requires maxPacketSize > 0
      modifies `packets, `bytesPerTransaction, `packetsPerTransaction
      ensures packets == PacketCount(transferSize, maxPacketSize)
      ensures packetsPerTransaction == if splitTransaction then 1 else packets
      ensures bytesPerTransaction == if splitTransaction then Min(transferSize, maxPacketSize) else transferSize
    {
      packets := PacketCount(transferSize, maxPacketSize);
      if splitTransaction {
        if transferSize > maxPacketSize {
          bytesPerTransaction := maxPacketSize;
        } else {
          bytesPerTransaction := transferSize;
        }
        packetsPerTransaction := 1;
      } else {
        bytesPerTransaction := transferSize;
        packetsPerTransaction := packets;
      }
    }

    method TransactionComplete(r: Report)
      requires endpoint != null && endpoint.Valid()
      requires statusStage ==> endpoint.endpointType == Control
      requires Countable(Counters(), r) && (Accounted(r.status) ==> PacketsMoved(Counters(), r) <= packets)
      modifies this, endpoint
      ensures urb == old(urb) && endpoint == old(endpoint) && endpoint.Valid()
      ensures transactionStatus == r.status
      ensures View() == Complete(old(View()), r)
      ensures endpoint.nextPid == PidAfter(old(View()), r, old(endpoint.nextPid))
    {
      hide Account, SkipPid, BytesMoved;
      transactionStatus := r.status;
      if r.status.error || r.status.nak || r.status.nyet {
        return;
      }
      var packetsTransfered := Sub32(packetsPerTransaction, r.packetsLeft);
      if !splitTransaction || splitComplete {
        endpoint.SkipPID(packetsTransfered, statusStage);
      }
      UpdateCounters(packetsTransfered, r);
    }

    method BytesTransfered(packetsTransfered: nat, r: Report) returns (bytes: nat)
      requires Countable(Counters(), r)
      requires packetsTransfered == PacketsMoved(Counters(), r) <= packets
      ensures bytes == BytesMoved(Counters(), splitComplete, r)
    {
      AccountIn32Bits(Counters(), splitComplete, r);
      bytes := Sub32(bytesPerTransaction, r.bytesLeft);
      if splitTransaction && splitComplete && bytes == 0 && bytesPerTransaction > 0 {
        bytes := Mul32(maxPacketSize, packetsTransfered);
      }
    }

    method UpdateCounters(packetsTransfered: nat, r: Report)
      requires Countable(Counters(), r)
      requires packetsTransfered == PacketsMoved(Counters(), r) <= packets
      modifies `totalBytesTransfered, `bufferPointer, `packets, `bytesPerTransaction
      ensures Counters() == Account(old(Counters()), splitComplete, r)
    {
      hide BytesMoved, Times;
      AccountIn32Bits(Counters(), splitComplete, r);
      var bytesTransfered := BytesTransfered(packetsTransfered, r);
      totalBytesTransfered := Add32(totalBytesTransfered, bytesTransfered);
      bufferPointer := bufferPointer + bytesTransfered;
      assert packetsTransfered <= packets;
      packets := packets - packetsTransfered;
      if Sub32(transferSize, totalBytesTransfered) < bytesPerTransaction {
        assert totalBytesTransfered <= transferSize;
        bytesPerTransaction := transferSize - totalBytesTransfered;
      }
    }

    /** A start-split, or an unsplit transaction, comes next. */
    method BeginCycle()
      requires splitTransaction ==> sched.kind == if periodic then Periodic else NonPeriodic
      modifies `state, `splitComplete, sched
      ensures View() == StartCycle(old(View()))
    {
      if splitTransaction {
        state := StartSplitStage;
        splitComplete := false;
        sched.BeginStartSplit();
      } else {
        state := NoSplitTransfer;
      }
    }

    /** The switch of the interrupt handler over the state of the stage. */
    method Decide() returns (verdict: Verdict)
      requires Reacts(View(), transactionStatus)
      requires splitTransaction ==> sched.kind == if periodic then Periodic else NonPeriodic
      requires state != NoSplitTransfer ==> splitTransaction
      modifies `state, `splitComplete, sched
      ensures (View(), verdict) == React(old(View()), transactionStatus)
    {
      var status := transactionStatus;
      var again;
      if status.error {
        return Finish(false);
      }
      match state {
        case NoSplitTransfer =>
          if (status.nak || status.nyet) && periodic {
            state := PeriodicDelay;
            return Delay;
          }
          return Finish(true);
        case StartSplitStage =>
          if status.nak || status.nyet {
            return Finish(false);
          }
          sched.TransactionComplete(status);
          state := CompleteSplitStage;
          splitComplete := true;
          again := sched.TryCompleteSplit();
        case CompleteSplitStage =>
          sched.TransactionComplete(status);
          again := sched.TryCompleteSplit();
      }
      if again {
        return Restart;
      }
      if packets != 0 {
        if !periodic {
          BeginCycle();
          return Restart;
        }
        state := PeriodicDelay;
        return Delay;
      }
      return Finish(true);
    }

    /** The handler's part on one report: account for it, then decide. */
    method Serve(r: Report) returns (verdict: Verdict)
      requires endpoint != null && endpoint.Valid()
      requires statusStage ==> endpoint.endpointType == Control
      requires Alive(View()) && state != PeriodicDelay && Tolerable(View(), r)
      requires subState == WaitForTransactionComplete && !HaltedOnly(r.status)
      modifies this, sched, endpoint
      ensures urb == old(urb) && endpoint == old(endpoint) && endpoint.Valid()
      ensures statusStage == old(statusStage)
      ensures Reacts(Complete(old(View()), r), r.status)
      ensures (View(), verdict) == React(Complete(old(View()), r), r.status)
      ensures endpoint.nextPid == PidAfter(old(View()), r, old(endpoint.nextPid))
    {
      TransactionComplete(r);
      verdict := Decide();
    }

    method GetResultLen() returns (len: nat)
      ensures len == ResultLen(View().xfer)
      ensures len <= transferSize
    {
      if totalBytesTransfered > transferSize {
        return transferSize;
      }
      return totalBytesTransfered;
    }
  }
}
