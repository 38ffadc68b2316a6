/** Data toggle of an endpoint through its stages: what a stage tells the endpoint, and, for bulk and
    interrupt endpoints, how the identifier follows the packets that were moved (USB 2.0 section 8.6). */
module EndpointToggle {
  import opened Basics
  import opened SplitScheduler
  import opened UsbEndpoint
  import opened TransferStage

  // ----- The packet identifier through one stage -----

  /** The report makes the stage tell the endpoint about acknowledged packets. */
  predicate TellsEndpoint(s: Stage, e: Env) {
    && s.subState == WaitForTransactionComplete && !HaltedOnly(e.report.status)
    && Accounted(e.report.status) && (!s.xfer.split || s.splitComplete)
  }

  function PidAfterInterrupt(s: Stage, e: Env, pid: Pid): Pid
    requires Tolerable(s, e.report)
  {
    if s.subState == WaitForTransactionComplete && !HaltedOnly(e.report.status)
    then PidAfter(s, e.report, pid) else pid
  }

  function PidAfterWake(s: Stage, w: WakeUp, pid: Pid): Pid
    requires Fits(s, w)
  {
    if w.Irq? then PidAfterInterrupt(s, w.env, pid) else pid
  }

  function RunPid(s: Stage, wakeUps: seq<WakeUp>, pid: Pid): Pid
    requires Alive(s) && FitsStage(s, wakeUps)
    decreases |wakeUps|
  {
    if wakeUps == [] then pid
    else
      WakeKeepsAlive(s, wakeUps[0]);
      var pid' := PidAfterWake(s, wakeUps[0], pid);
      var outcome := Wake(s, wakeUps[0]);
      if outcome.Ended? then pid' else RunPid(outcome.stage, wakeUps[1..], pid')
  }

  // ----- Packets moved, and packets the driver misses -----

  /** Packets a report says were moved, be it accounted for, refused or a bare halt, upon which the driver
      starts the same transaction over; `failing` tells whether those in front of an error count. */
  function Moved(s: Stage, w: WakeUp, failing: bool): nat
    requires Fits(s, w)
  {
    if w.Irq? && s.subState == WaitForTransactionComplete && (failing || !w.env.report.status.error)
    then PacketsMoved(s.xfer, w.env.report) else 0
  }

  /** Those the endpoint is not told about: a bare halt, or a report with an error, NAK or NYET, is not
      accounted for. */
  function Missed(s: Stage, w: WakeUp, failing: bool): (n: nat)
    requires Fits(s, w)
    ensures n <= Moved(s, w, failing)
  {
    if w.Irq? && TellsEndpoint(s, w.env) then 0 else Moved(s, w, failing)
  }

  function RunMoved(s: Stage, wakeUps: seq<WakeUp>, failing: bool): nat
    requires Alive(s) && FitsStage(s, wakeUps)
    decreases |wakeUps|
  {
    if wakeUps == [] then 0
    else
      WakeKeepsAlive(s, wakeUps[0]);
      var outcome := Wake(s, wakeUps[0]);
      Moved(s, wakeUps[0], failing)
      + if outcome.Ended? then 0 else RunMoved(outcome.stage, wakeUps[1..], failing)
  }

  function RunMissed(s: Stage, wakeUps: seq<WakeUp>, failing: bool): (n: nat)
    requires Alive(s) && FitsStage(s, wakeUps)
    ensures n <= RunMoved(s, wakeUps, failing)
    decreases |wakeUps|
  {
    if wakeUps == [] then 0
    else
      WakeKeepsAlive(s, wakeUps[0]);
      var outcome := Wake(s, wakeUps[0]);
      Missed(s, wakeUps[0], failing)
      + if outcome.Ended? then 0 else RunMissed(outcome.stage, wakeUps[1..], failing)
  }

  lemma SkipAdds(pid: Pid, a: nat, b: nat)
    requires pid != Setup
    ensures SkipPid(SkipPid(pid, a, false), b, false) == SkipPid(pid, a + b, false) != Setup
  {
  }

  lemma WakeToggles(s: Stage, w: WakeUp, pid: Pid, failing: bool)
    requires Alive(s) && Fits(s, w) && !s.xfer.statusStage && pid != Setup
    ensures PidAfterWake(s, w, pid) == SkipPid(pid, Moved(s, w, failing) - Missed(s, w, failing), false) != Setup
  {
  }

  /** Over every run of a data stage, split or not, that succeeds, fails, waits or is not finished:
      the identifier advances by the packets moved less those that were missed. */
  lemma {:induction false} RunToggles(s: Stage, wakeUps: seq<WakeUp>, pid: Pid, failing: bool)
    requires Alive(s) && FitsStage(s, wakeUps) && !s.xfer.statusStage && pid != Setup
    ensures RunPid(s, wakeUps, pid)
      == SkipPid(pid, RunMoved(s, wakeUps, failing) - RunMissed(s, wakeUps, failing), false)
    decreases |wakeUps|
  {
    hide Sound, Tolerable, Drained, Scheduled, Fits, Wake, Moved, Missed, PidAfterWake;
    if wakeUps != [] {
      var w := wakeUps[0];
      WakeKeepsAlive(s, w);
      WakeToggles(s, w, pid, failing);
      var outcome := Wake(s, w);
      var first := Moved(s, w, failing) - Missed(s, w, failing);
      if !outcome.Ended? {
        var rest := wakeUps[1..];
        RunToggles(outcome.stage, rest, PidAfterWake(s, w, pid), failing);
        SkipAdds(pid, first, RunMoved(outcome.stage, rest, failing) - RunMissed(outcome.stage, rest, failing));
      }
    }
  }

  // ----- Whole histories of a bulk or interrupt endpoint -----

  /** What stays the same about the endpoint; an interrupt endpoint is periodic. */
  datatype Pipe = Pipe(split: bool, mps: nat, periodic: bool)

  /** One stage with what it met, finished or not, or a reset of the endpoint. */
  datatype PipeOp =
    | Carry(size: nat, base: nat, sched: Sched, found: bool, frame: nat, wakeUps: seq<WakeUp>)
    | ResetPipe

  function FirstStage(k: Pipe, op: PipeOp): Stage
    requires op.Carry? && k.mps > 0
  {
    Activate(NewStage(NewTransfer(k.split, false, k.mps, op.size, op.base), k.periodic, op.sched), op.found, op.frame)
  }

  lemma FirstStageAlive(k: Pipe, op: PipeOp)
    requires op.Carry? && 0 < k.mps < U32 && 0 < op.size && op.size + k.mps <= U32
    requires k.split ==> op.sched.kind == if k.periodic then Periodic else NonPeriodic
    ensures var s := FirstStage(k, op); Alive(s) && !s.xfer.statusStage && s.xfer.split == k.split
  {
    NewTransferSound(k.split, false, k.mps, op.size, op.base);
    ActivateLive(NewStage(NewTransfer(k.split, false, k.mps, op.size, op.base), k.periodic, op.sched), op.found, op.frame);
  }

  /** Only bulk endpoints are reset. */
  predicate GoodOp(k: Pipe, op: PipeOp) {
    match op
    case Carry(size, base, sched, found, frame, wakeUps) =>
      && 0 < k.mps < U32 && 0 < size && size + k.mps <= U32
      && (k.split ==> sched.kind == if k.periodic then Periodic else NonPeriodic)
      && (FirstStageAlive(k, op); FitsStage(FirstStage(k, op), wakeUps))
    case ResetPipe => !k.periodic
  }

  predicate GoodOps(k: Pipe, ops: seq<PipeOp>) {
    ops == [] || (GoodOps(k, ops[..|ops| - 1]) && GoodOp(k, ops[|ops| - 1]))
  }

  /** The identifier after a history. A new bulk or interrupt endpoint is at DATA0. */
  function PidAfterOps(k: Pipe, ops: seq<PipeOp>): Pid
    requires GoodOps(k, ops)
  {
    if ops == [] then Data0
    else
      var op := ops[|ops| - 1];
      match op
      case Carry(_, _, _, _, _, wakeUps) =>
        FirstStageAlive(k, op);
        RunPid(FirstStage(k, op), wakeUps, PidAfterOps(k, ops[..|ops| - 1]))
      case ResetPipe => Data0
  }

  /** Packets moved since the endpoint was created or last reset. */
  function MovedSinceReset(k: Pipe, ops: seq<PipeOp>, failing: bool): nat
    requires GoodOps(k, ops)
  {
    if ops == [] then 0
    else
      var op := ops[|ops| - 1];
      match op
      case Carry(_, _, _, _, _, wakeUps) =>
        FirstStageAlive(k, op);
        MovedSinceReset(k, ops[..|ops| - 1], failing) + RunMoved(FirstStage(k, op), wakeUps, failing)
      case ResetPipe => 0
  }

  /** Those among them that the endpoint was not told about. */
  function MissedSinceReset(k: Pipe, ops: seq<PipeOp>, failing: bool): nat
    requires GoodOps(k, ops)
  {
    if ops == [] then 0
    else
      var op := ops[|ops| - 1];
      match op
      case Carry(_, _, _, _, _, wakeUps) =>
        FirstStageAlive(k, op);
        MissedSinceReset(k, ops[..|ops| - 1], failing) + RunMissed(FirstStage(k, op), wakeUps, failing)
      case ResetPipe => 0
  }

  /** A transfer behind a history. */
  lemma CarryBehind(k: Pipe, ops: seq<PipeOp>, failing: bool)
    requires ops != [] && GoodOps(k, ops) && ops[|ops| - 1].Carry?
    ensures var front, op := ops[..|ops| - 1], ops[|ops| - 1];
      && GoodOps(k, front) && GoodOp(k, op) && (FirstStageAlive(k, op);
      var s := FirstStage(k, op);
      && !s.xfer.statusStage
      && PidAfterOps(k, ops) == RunPid(s, op.wakeUps, PidAfterOps(k, front))
      && MovedSinceReset(k, ops, failing) == MovedSinceReset(k, front, failing) + RunMoved(s, op.wakeUps, failing)
      && MissedSinceReset(k, ops, failing) == MissedSinceReset(k, front, failing) + RunMissed(s, op.wakeUps, failing))
  {
    hide RunPid, RunMoved, RunMissed, FitsStage, Sound, Drained, Scheduled;
  }

  /** A history that has just begun: empty, or reset last. */
  lemma AnewToggles(k: Pipe, ops: seq<PipeOp>, failing: bool)
    requires GoodOps(k, ops) && (ops == [] || ops[|ops| - 1].ResetPipe?)
    ensures MovedSinceReset(k, ops, failing) == 0 == MissedSinceReset(k, ops, failing)
    ensures PidAfterOps(k, ops) == SkipPid(Data0, 0, false) != Setup
  {
    hide RunPid, RunMoved, RunMissed, FitsStage, FirstStage, GoodOp;
  }

  lemma {:induction false} HistoryToggles(k: Pipe, ops: seq<PipeOp>, failing: bool)
    requires GoodOps(k, ops)
    ensures MissedSinceReset(k, ops, failing) <= MovedSinceReset(k, ops, failing)
    ensures PidAfterOps(k, ops) ==
      SkipPid(Data0, MovedSinceReset(k, ops, failing) - MissedSinceReset(k, ops, failing), false) != Setup
    decreases |ops|
  {
    hide FirstStage, RunPid, RunMoved, RunMissed, PidAfterOps, MovedSinceReset, MissedSinceReset, GoodOps, SkipPid,
      Alive, FitsStage;
    if ops == [] || ops[|ops| - 1].ResetPipe? {
      AnewToggles(k, ops, failing);
    } else {
      var front, op := ops[..|ops| - 1], ops[|ops| - 1];
      CarryBehind(k, ops, failing);
      HistoryToggles(k, front, failing);
      FirstStageAlive(k, op);
      var s := FirstStage(k, op);
      var moved, missed := MovedSinceReset(k, front, failing), MissedSinceReset(k, front, failing);
      RunToggles(s, op.wakeUps, PidAfterOps(k, front), failing);
      SkipAdds(Data0, moved - missed, RunMoved(s, op.wakeUps, failing) - RunMissed(s, op.wakeUps, failing));
    }
  }

  /** The next identifier of a bulk or interrupt endpoint is the parity of the packets moved since
      it was created or reset exactly when the packets its reports moved without being accounted
      for add up to an even number; whether or not packets in front of an error are counted. */
  lemma ParityIff(k: Pipe, ops: seq<PipeOp>, failing: bool)
    requires GoodOps(k, ops)
    ensures PidAfterOps(k, ops) == Parity(MovedSinceReset(k, ops, failing))
      <==> MissedSinceReset(k, ops, failing) % 2 == 0
  {
    hide PidAfterOps, MovedSinceReset, MissedSinceReset, GoodOps, SkipPid, Parity;
    HistoryToggles(k, ops, failing);
    ParityOfRest(MovedSinceReset(k, ops, failing), MissedSinceReset(k, ops, failing));
  }

  lemma ParityOfRest(moved: nat, missed: nat)
    requires missed <= moved
    ensures SkipPid(Data0, moved - missed, false) == Parity(moved) <==> missed % 2 == 0
  {
  }

  // ----- An ordinary ending that is missed -----

  /** The last packet of a high-speed OUT transfer, answered with NYET. */
  const NYET_ENDING := Report(Status(true, true, false, false, true, true), 0, 0)

  /** Such an unsplit stage of one packet succeeds, reports that nothing was transferred, and leaves
      the endpoint where it was, although the packet was moved. */
  lemma NyetIsMissed(s: Stage, enabled: bool, frame: nat, pid: Pid)
    requires Live(s) && s.state == NoSplitTransfer && !s.periodic && s.subState == WaitForTransactionComplete
    requires s.xfer.packets == 1 && s.xfer.size <= s.xfer.mps && !s.xfer.statusStage
    ensures var e := Env(NYET_ENDING, enabled, frame);
      && Plausible(s, e.report) && PacketsMoved(s.xfer, e.report) == 1
      && AfterInterrupt(s, e) == Ended(true, Some(0)) && PidAfterInterrupt(s, e, pid) == pid
      && Alive(s) && Fits(s, Irq(e)) && Wake(s, Irq(e)) == Ended(true, Some(0))
      && PidAfterWake(s, Irq(e), pid) == pid
      && Moved(s, Irq(e), false) == 1 == Missed(s, Irq(e), false)
  {
    assert Times(s.xfer.mps, 1) == s.xfer.mps;
  }

  /** A run of one wake-up that ends the stage. */
  lemma LastWake(s: Stage, w: WakeUp, pid: Pid, failing: bool)
    requires Alive(s) && Fits(s, w) && Wake(s, w).Ended?
    ensures FitsStage(s, [w]) && RunStage(s, [w]) == Wake(s, w)
    ensures RunPid(s, [w], pid) == PidAfterWake(s, w, pid)
    ensures RunMoved(s, [w], failing) == Moved(s, w, failing) && RunMissed(s, [w], failing) == Missed(s, w, failing)
  {
    hide Alive, Fits, Wake, Moved, Missed, PidAfterWake;
  }

  /** A history of one stage. */
  lemma OneOp(k: Pipe, op: PipeOp, failing: bool)
    requires op.Carry? && GoodOp(k, op)
    ensures GoodOps(k, [op]) && (FirstStageAlive(k, op);
      var s := FirstStage(k, op);
      && PidAfterOps(k, [op]) == RunPid(s, op.wakeUps, Data0)
      && MovedSinceReset(k, [op], failing) == RunMoved(s, op.wakeUps, failing)
      && MissedSinceReset(k, [op], failing) == RunMissed(s, op.wakeUps, failing))
  {
    hide FirstStage, RunPid, RunMoved, RunMissed;
    assert [op][..0] == [];
  }

  lemma NyetRun(s: Stage, enabled: bool, frame: nat, pid: Pid)
    requires Live(s) && s.state == NoSplitTransfer && !s.periodic && s.subState == WaitForTransactionComplete
    requires s.xfer.packets == 1 && s.xfer.size <= s.xfer.mps && !s.xfer.statusStage
    ensures var run := [Irq(Env(NYET_ENDING, enabled, frame))];
      && Alive(s) && FitsStage(s, run) && RunStage(s, run) == Ended(true, Some(0))
      && RunPid(s, run, pid) == pid && RunMoved(s, run, false) == 1 == RunMissed(s, run, false)
  {
    NyetIsMissed(s, enabled, frame, pid);
    LastWake(s, Irq(Env(NYET_ENDING, enabled, frame)), pid, false);
    hide *;
  }

  lemma OnePacketStage(k: Pipe, op: PipeOp)
    requires op.Carry? && 0 < op.size <= k.mps < U32 && op.size + k.mps <= U32
    requires !k.split && !k.periodic && !op.found
    ensures var s := FirstStage(k, op);
      && Live(s) && s.state == NoSplitTransfer && !s.periodic && s.subState == WaitForTransactionComplete
      && s.xfer.packets == 1 && s.xfer.size <= s.xfer.mps && !s.xfer.statusStage
  {
    FirstStageAlive(k, op);
    OnePacket(op.size, k.mps);
    hide PacketCount;
  }

  lemma OnePacket(size: nat, mps: nat)
    requires 0 < size <= mps
    ensures PacketCount(size, mps) == 1
  {
  }

  /** So on any unsplit bulk endpoint one transfer of one packet that ends this way succeeds, reports
      that nothing was transferred, and leaves a new endpoint at DATA0 although a packet was moved. */
  lemma NyetHistory(k: Pipe, op: PipeOp)
    requires op.Carry? && 0 < op.size <= k.mps < U32 && op.size + k.mps <= U32
    requires !k.split && !k.periodic && !op.found
    requires |op.wakeUps| == 1 && op.wakeUps[0].Irq? && op.wakeUps[0].env.report == NYET_ENDING
    ensures GoodOps(k, [op]) && PidAfterOps(k, [op]) == Data0 != Parity(1)
    ensures MovedSinceReset(k, [op], false) == 1 == MissedSinceReset(k, [op], false)
  {
    var e := op.wakeUps[0].env;
    OnePacketStage(k, op);
    assert op.wakeUps == [Irq(Env(NYET_ENDING, e.enabled, e.frame))];
    hide FirstStage, Sound, Drained, Scheduled, RunPid, RunMoved, RunMissed, FitsStage, MovedSinceReset,
      MissedSinceReset, PidAfterOps, GoodOps;
    NyetRun(FirstStage(k, op), e.enabled, e.frame, Data0);
    OneOp(k, op, false);
  }

  // ----- A halt that is missed -----

  /** All packets of a transaction were moved and acknowledged. */
  const FULL_ENDING := Report(Status(true, true, false, false, true, false), 0, 0)

  /** An unsplit data stage that waits for its transaction. */
  predicate Unsplit(s: Stage) {
    && Live(s) && s.state == NoSplitTransfer && !s.periodic && s.subState == WaitForTransactionComplete
    && !s.xfer.statusStage && s.xfer.size <= Times(s.xfer.mps, s.xfer.packets)
  }

  /** After a bare halt the driver starts the whole transaction over. */
  lemma HaltIsMissed(s: Stage, halted: Report, frame: nat, pid: Pid, failing: bool)
    requires Unsplit(s) && HaltedOnly(halted.status) && Bounded(s.xfer, halted)
    ensures var w := Irq(Env(halted, false, frame));
      && Alive(s) && Fits(s, w) && Wake(s, w) == Armed(s) && PidAfterWake(s, w, pid) == pid
      && Moved(s, w, failing) == PacketsMoved(s.xfer, halted) == Missed(s, w, failing)
  {
  }

  lemma FullEnds(s: Stage, frame: nat, pid: Pid, failing: bool)
    requires Unsplit(s)
    ensures var w := Irq(Env(FULL_ENDING, false, frame));
      && Alive(s) && Fits(s, w) && Wake(s, w) == Ended(true, Some(s.xfer.size))
      && PidAfterWake(s, w, pid) == SkipPid(pid, s.xfer.packets, false)
      && Moved(s, w, failing) == s.xfer.packets && Missed(s, w, failing) == 0
  {
    TotalBounded(s.xfer, s.splitComplete, FULL_ENDING);
  }

  lemma HaltRun(s: Stage, halted: Report, f: nat, g: nat, pid: Pid, failing: bool)
    requires Unsplit(s) && HaltedOnly(halted.status) && Bounded(s.xfer, halted)
    ensures var run := [Irq(Env(halted, false, f)), Irq(Env(FULL_ENDING, false, g))];
      && Alive(s) && FitsStage(s, run) && RunStage(s, run) == Ended(true, Some(s.xfer.size))
      && RunPid(s, run, pid) == SkipPid(pid, s.xfer.packets, false)
      && RunMoved(s, run, failing) == s.xfer.packets + PacketsMoved(s.xfer, halted)
      && RunMissed(s, run, failing) == PacketsMoved(s.xfer, halted)
  {
    hide Unsplit, Wake, Fits, PidAfterWake, Moved, Missed, Alive, SkipPid, HaltedOnly;
    var first, second := Irq(Env(halted, false, f)), Irq(Env(FULL_ENDING, false, g));
    HaltIsMissed(s, halted, f, pid, failing);
    FullEnds(s, g, pid, failing);
    LastWake(s, second, pid, failing);
    assert [first, second][1..] == [second];
  }

  lemma UnsplitStage(k: Pipe, op: PipeOp)
    requires op.Carry? && 0 < k.mps < U32 && 0 < op.size && op.size + k.mps <= U32
    requires !k.split && !k.periodic && !op.found
    ensures var s := FirstStage(k, op);
      Unsplit(s) && s.xfer.packets == PacketCount(op.size, k.mps) && s.xfer.size == op.size
  {
    FirstStageAlive(k, op);
    PacketsSuffice(op.size, k.mps);
    hide PacketCount;
  }

  lemma PacketsSuffice(size: nat, mps: nat)
    requires mps > 0
    ensures size <= Times(mps, PacketCount(size, mps))
  {
    TimesIsProduct(mps, PacketCount(size, mps));
  }

  lemma SkippedFromData0(n: nat)
    ensures SkipPid(Data0, n, false) == Parity(n)
  {
  }

  /** A transfer whose first transaction halts the channel in the middle, on any unsplit bulk endpoint:
      it succeeds with its full length, and the identifier of a new endpoint is the parity of its
      packets, although the controller has moved those in front of the halt as well. */
  lemma HaltHistory(k: Pipe, op: PipeOp, halted: Report, f: nat, g: nat, failing: bool)
    requires op.Carry? && 0 < k.mps < U32 && 0 < op.size && op.size + k.mps <= U32
    requires !k.split && !k.periodic && !op.found
    requires HaltedOnly(halted.status) && Bounded(FirstStage(k, op).xfer, halted)
    requires op.wakeUps == [Irq(Env(halted, false, f)), Irq(Env(FULL_ENDING, false, g))]
    ensures GoodOps(k, [op]) && PidAfterOps(k, [op]) == Parity(PacketCount(op.size, k.mps))
    ensures var again := PacketsMoved(FirstStage(k, op).xfer, halted);
      && MovedSinceReset(k, [op], failing) == PacketCount(op.size, k.mps) + again
      && MissedSinceReset(k, [op], failing) == again
  {
    hide FirstStage, Unsplit, PacketCount, RunPid, RunMoved, RunMissed, FitsStage, MovedSinceReset, MissedSinceReset,
      PidAfterOps, GoodOps, HaltedOnly, Bounded;
    var s := FirstStage(k, op);
    UnsplitStage(k, op);
    HaltRun(s, halted, f, g, Data0, failing);
    SkippedFromData0(s.xfer.packets);
    OneOp(k, op, failing);
  }

  /** Two packets of 512 bytes, with a halt between them: three packets were moved, and the endpoint
      is at DATA0. */
  lemma HaltExample(base: nat, sched: Sched, frame: nat) returns (k: Pipe, op: PipeOp)
    ensures GoodOps(k, [op]) && PidAfterOps(k, [op]) == Data0 != Parity(3)
    ensures MovedSinceReset(k, [op], false) == 3 && MissedSinceReset(k, [op], false) == 1
  {
    var halted := Report(Status(false, true, false, false, false, false), 1, 512);
    k := Pipe(false, 512, false);
    op := Carry(1024, base, sched, false, frame, [Irq(Env(halted, false, frame)), Irq(Env(FULL_ENDING, false, frame))]);
    assert PacketCount(1024, 512) == 2;
    assert Times(512, 1) == 512;
    UnsplitStage(k, op);
    HaltHistory(k, op, halted, frame, frame, false);
    hide *;
  }
}
