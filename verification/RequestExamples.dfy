/** Control requests that show what ControlRequest.RequestToggle distinguishes: one that goes right, and
    two that succeed although the data toggle goes wrong (uspi/lib/dwhcixferstagedata.c:157-183). */
module RequestExamples {
  import opened Basics
  import opened SplitScheduler
  import opened UsbEndpoint
  import opened TransferStage
  import opened EndpointToggle
  import opened ControlRequest

  // ----- Runs of one stage -----

  /** A started stage of one packet. */
  predicate StartedOnePacket(s: Stage) {
    && Live(s) && !s.periodic && s.subState == WaitForTransactionComplete
    && s.xfer.packets == 1 && s.xfer.size <= s.xfer.mps
    && s.state == if s.xfer.split then StartSplitStage else NoSplitTransfer
  }

  /** A run that begins with a wake-up that does not end the stage. */
  lemma RunOn(s: Stage, w: WakeUp, rest: seq<WakeUp>, pid: Pid)
    requires Alive(s) && Fits(s, w) && PromptWake(s, w) && !Wake(s, w).Ended?
    requires Alive(Wake(s, w).stage) && FitsStage(Wake(s, w).stage, rest)
    ensures var u, run := Wake(s, w).stage, [w] + rest;
      && FitsStage(s, run) && RunStage(s, run) == RunStage(u, rest)
      && (Prompt(u, rest) ==> Prompt(s, run))
      && RunPid(s, run, pid) == RunPid(u, rest, PidAfterWake(s, w, pid))
      && Tellings(s, run) == Tellings(u, rest) + if w.Irq? && TellsEndpoint(s, w.env) then 1 else 0
  {
    hide Alive, Fits, Wake, PidAfterWake, TellsEndpoint, PromptWake;
    assert ([w] + rest)[1..] == rest;
  }

  lemma RunEnds(s: Stage, w: WakeUp, pid: Pid)
    requires Alive(s) && Fits(s, w) && PromptWake(s, w) && Wake(s, w).Ended?
    ensures FitsStage(s, [w]) && RunStage(s, [w]) == Wake(s, w) && Prompt(s, [w])
    ensures RunPid(s, [w], pid) == PidAfterWake(s, w, pid)
    ensures Tellings(s, [w]) == if w.Irq? && TellsEndpoint(s, w.env) then 1 else 0
    ensures Orderly(s, w) ==> OrderlyRun(s, [w])
  {
    hide Alive, Fits, Wake, PidAfterWake, TellsEndpoint, PromptWake, Orderly;
  }

  function Only(r: Report): seq<WakeUp> {
    [Irq(Env(r, false, 0))]
  }

  /** An unsplit stage whose transaction ends with ACK or with NYET succeeds either way, but only the
      first is told to the endpoint. */
  lemma UnsplitRun(s: Stage, r: Report, pid: Pid)
    requires StartedOnePacket(s) && !s.xfer.split && r in {FULL_ENDING, NYET_ENDING}
    ensures SucceedsStage(s, Only(r))
    ensures Tellings(s, Only(r)) == if r == FULL_ENDING then 1 else 0
    ensures RunPid(s, Only(r), pid) == if r == FULL_ENDING then SkipPid(pid, 1, s.xfer.statusStage) else pid
    ensures r == FULL_ENDING ==> OrderlyRun(s, Only(r))
  {
    UnsplitWake(s, r, pid);
    hide Sound, Drained, Scheduled, Fits, Wake, PidAfterWake, TellsEndpoint, PromptWake, Orderly;
    RunEnds(s, Irq(Env(r, false, 0)), pid);
  }

  lemma UnsplitWake(s: Stage, r: Report, pid: Pid)
    requires StartedOnePacket(s) && !s.xfer.split && r in {FULL_ENDING, NYET_ENDING}
    ensures var w := Irq(Env(r, false, 0));
      && Alive(s) && Fits(s, w) && PromptWake(s, w) && Wake(s, w).Ended? && Wake(s, w).ok
      && (TellsEndpoint(s, w.env) <==> r == FULL_ENDING)
      && PidAfterWake(s, w, pid) == (if r == FULL_ENDING then SkipPid(pid, 1, s.xfer.statusStage) else pid)
      && (r == FULL_ENDING ==> Orderly(s, w))
  {
    assert Times(s.xfer.mps, 1) == s.xfer.mps;
  }

  // ----- Runs of a split stage -----

  /** An acknowledgement that moves nothing: the answer to a start-split, or to a complete-split. */
  function AckOnly(bytes: nat): WakeUp {
    Irq(Env(Acknowledged(false, 1, bytes), false, 0))
  }

  /** A stage behind its start-split. */
  predicate AwaitsComplete(s: Stage) {
    && Live(s) && !s.periodic && s.subState == WaitForTransactionComplete && s.state == CompleteSplitStage
    && s.xfer.packets == 1 && s.xfer.size <= s.xfer.mps
  }

  lemma StartAcknowledged(s: Stage, bytes: nat, pid: Pid)
    requires StartedOnePacket(s) && s.xfer.split && bytes == s.xfer.bytesPerTransaction
    ensures Alive(s) && Fits(s, AckOnly(bytes)) && PromptWake(s, AckOnly(bytes)) && Wake(s, AckOnly(bytes)).Armed?
    ensures var u := Wake(s, AckOnly(bytes)).stage;
      AwaitsComplete(u) && u.sched.tries > 0 && u.xfer == s.xfer
    ensures PidAfterWake(s, AckOnly(bytes), pid) == pid && !TellsEndpoint(s, AckOnly(bytes).env)
  {
    StartSplitMovesNothing(s, AckOnly(bytes).env.report);
  }

  lemma CompleteAcknowledged(s: Stage, bytes: nat, pid: Pid)
    requires AwaitsComplete(s) && s.sched.tries > 0 && bytes == s.xfer.bytesPerTransaction
    ensures Alive(s) && Fits(s, AckOnly(bytes)) && PromptWake(s, AckOnly(bytes)) && Wake(s, AckOnly(bytes)).Armed?
    ensures var u := Wake(s, AckOnly(bytes)).stage; AwaitsComplete(u) && u.xfer == s.xfer
    ensures PidAfterWake(s, AckOnly(bytes), pid) == SkipPid(pid, 0, s.xfer.statusStage) && TellsEndpoint(s, AckOnly(bytes).env)
  {
  }

  lemma CompleteDone(s: Stage, pid: Pid)
    requires AwaitsComplete(s)
    ensures var w := Irq(Env(FULL_ENDING, false, 0));
      && Alive(s) && Fits(s, w) && PromptWake(s, w) && Wake(s, w).Ended? && Wake(s, w).ok
      && PidAfterWake(s, w, pid) == SkipPid(pid, 1, s.xfer.statusStage) && TellsEndpoint(s, w.env)
  {
    assert Times(s.xfer.mps, 1) == s.xfer.mps;
    CompleteSplitAccounts(s, FULL_ENDING);
  }

  function SplitOnce(bytes: nat): seq<WakeUp> {
    [AckOnly(bytes)] + Only(FULL_ENDING)
  }

  /** One complete-split that moves the packet. */
  lemma SplitOnceRun(s: Stage, bytes: nat, pid: Pid)
    requires StartedOnePacket(s) && s.xfer.split && bytes == s.xfer.bytesPerTransaction
    ensures SucceedsStage(s, SplitOnce(bytes)) && Tellings(s, SplitOnce(bytes)) == 1
    ensures RunPid(s, SplitOnce(bytes), pid) == SkipPid(pid, 1, s.xfer.statusStage)
  {
    StartAcknowledged(s, bytes, pid);
    hide Sound, Drained, Scheduled, Fits, Wake, PidAfterWake, TellsEndpoint, PromptWake;
    var u := Wake(s, AckOnly(bytes)).stage;
    CompleteDone(u, pid);
    RunEnds(u, Irq(Env(FULL_ENDING, false, 0)), pid);
    RunOn(s, AckOnly(bytes), Only(FULL_ENDING), pid);
  }

  function SplitTwice(bytes: nat): seq<WakeUp> {
    [AckOnly(bytes)] + ([AckOnly(bytes)] + Only(FULL_ENDING))
  }

  /** A complete-split that is acknowledged without moving the packet, and then one that moves it. */
  lemma SplitTwiceRun(s: Stage, bytes: nat, pid: Pid)
    requires StartedOnePacket(s) && s.xfer.split && bytes == s.xfer.bytesPerTransaction
    ensures SucceedsStage(s, SplitTwice(bytes)) && Tellings(s, SplitTwice(bytes)) == 2
    ensures RunPid(s, SplitTwice(bytes), pid) == SkipPid(SkipPid(pid, 0, s.xfer.statusStage), 1, s.xfer.statusStage)
  {
    StartAcknowledged(s, bytes, pid);
    hide Sound, Drained, Scheduled, Fits, Wake, PidAfterWake, TellsEndpoint, PromptWake;
    var u := Wake(s, AckOnly(bytes)).stage;
    CompleteAcknowledged(u, bytes, pid);
    var v := Wake(u, AckOnly(bytes)).stage;
    var pid' := SkipPid(pid, 0, s.xfer.statusStage);
    CompleteDone(v, pid');
    RunEnds(v, Irq(Env(FULL_ENDING, false, 0)), pid');
    RunOn(u, AckOnly(bytes), Only(FULL_ENDING), pid);
    RunOn(s, AckOnly(bytes), [AckOnly(bytes)] + Only(FULL_ENDING), pid);
  }

  // ----- Requests with one packet of data -----

  predicate OnePacketRequest(t: Transaction) {
    && WellFormed(t) && |t.traces| == 3 && 0 < t.bufLen <= t.mps && t.mps + SETUP_DATA_SIZE <= U32
    && forall tr | tr in t.traces :: !tr.found
  }

  lemma StageStarts(t: Transaction, k: nat, pid: Pid)
    requires OnePacketRequest(t) && k < 3
    ensures var s := StageAt(t, k, pid);
      && StartedOnePacket(s) && s.xfer.split == t.split && s.xfer.statusStage == (k == 2)
      && s.xfer.bytesPerTransaction == BufferAt(t, k, pid).1
  {
    var (base, size) := BufferAt(t, k, pid);
    NewTransferSound(t.split, k == 2, t.mps, size, base);
    OnePacket(if k == 2 then 1 else size, t.mps);
    hide PacketCount;
  }

  lemma ThreeStages(t: Transaction, p1: Pid, p2: Pid, p3: Pid)
    requires OnePacketRequest(t)
    requires SucceedsStage(StageAt(t, 0, Setup), t.traces[0].wakeUps)
      && RunPid(StageAt(t, 0, Setup), t.traces[0].wakeUps, Setup) == p1
    requires SucceedsStage(StageAt(t, 1, p1), t.traces[1].wakeUps)
      && RunPid(StageAt(t, 1, p1), t.traces[1].wakeUps, p1) == p2
    requires SucceedsStage(StageAt(t, 2, p2), t.traces[2].wakeUps)
      && RunPid(StageAt(t, 2, p2), t.traces[2].wakeUps, p2) == p3
    ensures Play(t, 0, Setup) == Some([Setup, p1, p2, p3])
  {
    hide StageAt, SucceedsStage, RunPid, WellFormed;
    assert Play(t, 3, p3) == Some([p3]);
    assert Play(t, 2, p2) == Some([p2] + [p3]);
    assert Play(t, 1, p1) == Some([p1] + ([p2] + [p3]));
    assert [Setup] + ([p1] + ([p2] + [p3])) == [Setup, p1, p2, p3];
  }

  /** Every transaction of the request is unsplit; the one of the setup stage ends with `r`. */
  lemma UnsplitRequest(t: Transaction, r: Report)
    requires OnePacketRequest(t) && !t.split && r in {FULL_ENDING, NYET_ENDING}
    requires t.traces[0].wakeUps == Only(r)
    requires t.traces[1].wakeUps == t.traces[2].wakeUps == Only(FULL_ENDING)
    ensures SucceedsStage(StageAt(t, 0, Setup), t.traces[0].wakeUps)
    ensures Told(t, 0, Setup) == if r == FULL_ENDING then 1 else 0
    ensures Play(t, 0, Setup) ==
      Some(if r == FULL_ENDING then [Setup, Data1, Data0, Setup] else [Setup, Setup, Data1, Setup])
    ensures r == FULL_ENDING ==> Clean(t) && OrderlyRequest(t)
  {
    var p1, p2 := if r == FULL_ENDING then Data1 else Setup, if r == FULL_ENDING then Data0 else Data1;
    StageStarts(t, 0, Setup);
    StageStarts(t, 1, p1);
    StageStarts(t, 2, p2);
    hide StageAt, SucceedsStage, RunPid, OrderlyRun, StartedOnePacket, BufferAt, Tellings;
    UnsplitRun(StageAt(t, 0, Setup), r, Setup);
    UnsplitRun(StageAt(t, 1, p1), FULL_ENDING, p1);
    UnsplitRun(StageAt(t, 2, p2), FULL_ENDING, p2);
    ThreeStages(t, p1, p2, Setup);
  }

  /** Every transaction of the request is split; in the setup stage a complete-split is acknowledged
      once without moving the packet. */
  lemma SplitRequest(t: Transaction)
    requires OnePacketRequest(t) && t.split
    requires t.traces[0].wakeUps == SplitTwice(SETUP_DATA_SIZE)
    requires t.traces[1].wakeUps == SplitOnce(t.bufLen) && t.traces[2].wakeUps == SplitOnce(0)
    ensures SucceedsStage(StageAt(t, 0, Setup), t.traces[0].wakeUps) && Told(t, 0, Setup) == 2
    ensures Play(t, 0, Setup) == Some([Setup, Data0, Data1, Setup])
  {
    StageStarts(t, 0, Setup);
    StageStarts(t, 1, Data0);
    StageStarts(t, 2, Data1);
    assert BufferAt(t, 0, Setup).1 == SETUP_DATA_SIZE && BufferAt(t, 1, Data0).1 == t.bufLen && BufferAt(t, 2, Data1).1 == 0;
    hide StageAt, SucceedsStage, RunPid, StartedOnePacket, BufferAt, Tellings, SplitOnce, SplitTwice;
    SplitTwiceRun(StageAt(t, 0, Setup), SETUP_DATA_SIZE, Setup);
    SplitOnceRun(StageAt(t, 1, Data0), t.bufLen, Data0);
    SplitOnceRun(StageAt(t, 2, Data1), 0, Data1);
    ThreeStages(t, Data0, Data1, Setup);
  }

  // ----- Three of them -----

  function Traces(setup: seq<WakeUp>, data: seq<WakeUp>, status: seq<WakeUp>): seq<StageTrace> {
    var idle := Sched(NonPeriodic, Unknown, 0, 0);
    [StageTrace(0x3000, idle, false, 0, setup), StageTrace(0x3000, idle, false, 0, data),
     StageTrace(0x3000, idle, false, 0, status)]
  }

  /** Eight bytes read from a device that acknowledges everything. */
  lemma CleanRequest() returns (t: Transaction)
    ensures WellFormed(t) && t.isIn && t.bufLen == 8 && !t.split
    ensures Clean(t) && OrderlyRequest(t) && Play(t, 0, Setup) == Some([Setup, Data1, Data0, Setup])
  {
    t := Transaction(true, 0x1000, 0x2000, 8, false, 8, Traces(Only(FULL_ENDING), Only(FULL_ENDING), Only(FULL_ENDING)));
    hide Only, StageAt, SucceedsStage, RunPid, OrderlyRequest, Play, Clean, Told;
    UnsplitRequest(t, FULL_ENDING);
  }

  /** The setup packet is answered with NYET: the request succeeds, but it has sent its setup packet
      twice instead of reading any data. */
  lemma NyetRequest() returns (t: Transaction)
    ensures WellFormed(t) && t.isIn && t.bufLen == 8 && !t.split
    ensures SucceedsStage(StageAt(t, 0, Setup), t.traces[0].wakeUps) && Told(t, 0, Setup) == 0
    ensures Play(t, 0, Setup) == Some([Setup, Setup, Data1, Setup])
    ensures BufferAt(t, 1, Setup) == (t.setupData, SETUP_DATA_SIZE)
  {
    t := Transaction(true, 0x1000, 0x2000, 8, false, 8, Traces(Only(NYET_ENDING), Only(FULL_ENDING), Only(FULL_ENDING)));
    hide Only, StageAt, SucceedsStage, RunPid, OrderlyRequest, Play, Clean, Told;
    UnsplitRequest(t, NYET_ENDING);
  }

  /** A complete-split of the setup packet is acknowledged before the packet has moved: the request
      succeeds, but its data stage has begun with DATA0. */
  lemma RetriedRequest() returns (t: Transaction)
    ensures WellFormed(t) && t.isIn && t.bufLen == 8 && t.split
    ensures SucceedsStage(StageAt(t, 0, Setup), t.traces[0].wakeUps) && Told(t, 0, Setup) == 2
    ensures Play(t, 0, Setup) == Some([Setup, Data0, Data1, Setup])
  {
    t := Transaction(true, 0x1000, 0x2000, 8, true, 8, Traces(SplitTwice(SETUP_DATA_SIZE), SplitOnce(8), SplitOnce(0)));
    hide SplitOnce, SplitTwice, StageAt, SucceedsStage, RunPid, Play, Told;
    SplitRequest(t);
  }
}
