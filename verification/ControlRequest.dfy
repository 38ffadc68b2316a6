/** Data toggle of whole control requests: DWHCIDeviceSubmitBlockingRequest runs the stages of a
    request one after the other on the same endpoint (USB 2.0 sections 8.5.3 and 8.6). */
module ControlRequest {
  import opened Basics
  import opened SplitScheduler
  import opened UsbEndpoint
  import opened TransferStage
  import opened EndpointToggle

  // ----- The packet identifier through one stage -----

  /** How often the stage tells the endpoint about acknowledged packets, be they none. */
  function Tellings(s: Stage, wakeUps: seq<WakeUp>): nat
    requires Alive(s) && FitsStage(s, wakeUps)
    decreases |wakeUps|
  {
    if wakeUps == [] then 0
    else
      WakeKeepsAlive(s, wakeUps[0]);
      var outcome := Wake(s, wakeUps[0]);
      (if wakeUps[0].Irq? && TellsEndpoint(s, wakeUps[0].env) then 1 else 0)
      + if outcome.Ended? then 0 else Tellings(outcome.stage, wakeUps[1..])
  }

  predicate SucceedsStage(s: Stage, wakeUps: seq<WakeUp>) {
    && Live(s) && FitsStage(s, wakeUps) && Prompt(s, wakeUps)
    && RunStage(s, wakeUps).Ended? && RunStage(s, wakeUps).ok
  }

  /** Packets of a data stage toggle DATA0 and DATA1, whatever the number of reports. */
  lemma {:induction false} DataPidStaysData(s: Stage, wakeUps: seq<WakeUp>, pid: Pid)
    requires Alive(s) && FitsStage(s, wakeUps) && !s.xfer.statusStage && pid != Setup
    ensures RunPid(s, wakeUps, pid) != Setup
    decreases |wakeUps|
  {
    hide Sound, Drained, Scheduled, Wake, Fits;
    if wakeUps != [] {
      WakeKeepsAlive(s, wakeUps[0]);
      var outcome := Wake(s, wakeUps[0]);
      if !outcome.Ended? {
        DataPidStaysData(outcome.stage, wakeUps[1..], PidAfterWake(s, wakeUps[0], pid));
      }
    }
  }

  /** A status stage leaves the endpoint at SETUP as soon as it tells it anything. */
  lemma {:induction false} StatusPid(s: Stage, wakeUps: seq<WakeUp>, pid: Pid)
    requires Alive(s) && FitsStage(s, wakeUps) && s.xfer.statusStage
    ensures RunPid(s, wakeUps, pid) == if Tellings(s, wakeUps) > 0 then Setup else pid
    decreases |wakeUps|
  {
    hide Sound, Drained, Scheduled, Wake, Fits;
    if wakeUps != [] {
      WakeKeepsAlive(s, wakeUps[0]);
      var outcome := Wake(s, wakeUps[0]);
      if !outcome.Ended? {
        StatusPid(outcome.stage, wakeUps[1..], PidAfterWake(s, wakeUps[0], pid));
      }
    }
  }

  /** One wake-up of a stage with one packet left: either it ends the stage, or a packet is left. */
  lemma OnePacketWake(s: Stage, w: WakeUp, pid: Pid)
    requires Live(s) && Fits(s, w) && PromptWake(s, w) && s.xfer.packets == 1
    ensures var outcome := Wake(s, w);
      var tells := w.Irq? && TellsEndpoint(s, w.env);
      && (tells ==> Bounded(s.xfer, w.env.report) && PacketsMoved(s.xfer, w.env.report) <= 1)
      && PidAfterWake(s, w, pid) ==
           (if tells then SkipPid(pid, PacketsMoved(s.xfer, w.env.report), s.xfer.statusStage) else pid)
      && (!outcome.Ended? ==> outcome.stage.xfer.packets == 1)
      && (!outcome.Ended? && tells ==> s.xfer.split && PacketsMoved(s.xfer, w.env.report) == 0)
      && (outcome.Ended? && outcome.ok && s.xfer.split ==> tells && PacketsMoved(s.xfer, w.env.report) == 1)
  {
    if w.Irq? && s.xfer.split {
      PacketEndsCycle(s, w.env);
    }
  }

  /** The last packet of a split stage toggles DATA0 and DATA1 once. */
  lemma {:induction false} LastPacketToggles(s: Stage, wakeUps: seq<WakeUp>, pid: Pid)
    requires SucceedsStage(s, wakeUps) && s.xfer.split && !s.xfer.statusStage && s.xfer.packets == 1
    requires pid != Setup
    ensures RunPid(s, wakeUps, pid) == (if pid == Data0 then Data1 else Data0) && Tellings(s, wakeUps) > 0
    decreases |wakeUps|
  {
    hide Sound, Drained, Scheduled, Fits, Plausible, Wake, PidAfterWake, TellsEndpoint;
    WakeKeepsLive(s, wakeUps[0]);
    WakeKeepsAlive(s, wakeUps[0]);
    OnePacketWake(s, wakeUps[0], pid);
    var outcome := Wake(s, wakeUps[0]);
    if !outcome.Ended? {
      LastPacketToggles(outcome.stage, wakeUps[1..], PidAfterWake(s, wakeUps[0], pid));
    }
  }

  /** A successful SETUP stage, one packet long, leaves the endpoint at DATA1 exactly when it told
      the endpoint about acknowledged packets once: never after a report with NAK or NYET that the
      handler takes for success, and not after a complete-split that was acknowledged without
      moving the packet. */
  lemma {:induction false} SetupPid(s: Stage, wakeUps: seq<WakeUp>)
    requires SucceedsStage(s, wakeUps) && !s.xfer.statusStage && s.xfer.packets == 1
    ensures RunPid(s, wakeUps, Setup) == match Tellings(s, wakeUps) { case 0 => Setup case 1 => Data1 case _ => Data0 }
    decreases |wakeUps|
  {
    hide Sound, Drained, Scheduled, Fits, Plausible, Wake, PidAfterWake, TellsEndpoint;
    WakeKeepsLive(s, wakeUps[0]);
    WakeKeepsAlive(s, wakeUps[0]);
    OnePacketWake(s, wakeUps[0], Setup);
    var w := wakeUps[0];
    var outcome := Wake(s, w);
    if !outcome.Ended? {
      if w.Irq? && TellsEndpoint(s, w.env) {
        LastPacketToggles(outcome.stage, wakeUps[1..], Data1);
      } else {
        SetupPid(outcome.stage, wakeUps[1..]);
      }
    }
  }

  /** A successful split stage of one packet always tells the endpoint. */
  lemma {:induction false} SplitStageTells(s: Stage, wakeUps: seq<WakeUp>)
    requires SucceedsStage(s, wakeUps) && s.xfer.split && s.xfer.packets == 1
    ensures Tellings(s, wakeUps) > 0
    decreases |wakeUps|
  {
    hide Sound, Drained, Scheduled, Fits, Plausible, Wake, PidAfterWake, TellsEndpoint;
    WakeKeepsLive(s, wakeUps[0]);
    WakeKeepsAlive(s, wakeUps[0]);
    OnePacketWake(s, wakeUps[0], Setup);
    var outcome := Wake(s, wakeUps[0]);
    if !outcome.Ended? {
      SplitStageTells(outcome.stage, wakeUps[1..]);
    }
  }

  /** What USB 2.0 sections 8.5.3 and 11.18 promise of a control transfer: an unsplit transaction does
      not end with NAK or NYET, and a complete-split that is acknowledged has moved its packet. */
  predicate Orderly(s: Stage, w: WakeUp)
    requires Fits(s, w)
  {
    w.Irq? && s.subState == WaitForTransactionComplete && !HaltedOnly(w.env.report.status)
    && !w.env.report.status.error ==>
      && (!s.xfer.split ==> Accounted(w.env.report.status))
      && (TellsEndpoint(s, w.env) && s.xfer.split ==> PacketsMoved(s.xfer, w.env.report) > 0)
  }

  predicate OrderlyRun(s: Stage, wakeUps: seq<WakeUp>)
    requires Alive(s) && FitsStage(s, wakeUps)
    decreases |wakeUps|
  {
    wakeUps == [] ||
    (&& Orderly(s, wakeUps[0])
     && (WakeKeepsAlive(s, wakeUps[0]);
         var outcome := Wake(s, wakeUps[0]);
         outcome.Ended? || OrderlyRun(outcome.stage, wakeUps[1..])))
  }

  /** With such a controller a successful stage of one packet tells the endpoint exactly once, be it
      split or not, and however often it was retried. */
  lemma {:induction false} OrderlyTellsOnce(s: Stage, wakeUps: seq<WakeUp>)
    requires SucceedsStage(s, wakeUps) && s.xfer.packets == 1 && !s.periodic && OrderlyRun(s, wakeUps)
    ensures Tellings(s, wakeUps) == 1
    decreases |wakeUps|
  {
    var w := wakeUps[0];
    WakeKeepsLive(s, w);
    OnePacketWake(s, w, Setup);
    var outcome := Wake(s, w);
    if w.Irq? && s.xfer.split {
      PacketEndsCycle(s, w.env);
    }
    if !outcome.Ended? {
      WakeKeepsAlive(s, w);
      OrderlyTellsOnce(outcome.stage, wakeUps[1..]);
    }
  }

  // ----- Whole requests -----

  /** One stage: its direction, and whether it is the status stage. */
  datatype Phase = Phase(isIn: bool, statusStage: bool)

  /** The stages of a request, by the direction bit of its type and the length of its data. */
  function Phases(isIn: bool, bufLen: nat): seq<Phase> {
    if isIn then [Phase(false, false), Phase(true, false), Phase(false, true)]
    else if bufLen == 0 then [Phase(false, false), Phase(true, true)]
    else [Phase(false, false), Phase(false, false), Phase(true, true)]
  }

  /** The setup stage goes out, data go the way of the request, and the status stage goes the other way, in if
      there are no data; only the last stage is a status stage. */
  lemma PhasesAre(isIn: bool, bufLen: nat)
    requires isIn ==> bufLen > 0
    ensures var ps := Phases(isIn, bufLen);
      && |ps| == (if bufLen > 0 then 3 else 2) && !ps[0].isIn
      && (forall k | 0 <= k < |ps| :: ps[k].statusStage <==> k == |ps| - 1)
      && ps[|ps| - 1].isIn == !isIn && (bufLen > 0 ==> ps[1].isIn == isIn)
  {
  }

  /** What one stage met: leftovers in its channel, and the wake-ups it was given. */
  datatype StageTrace = StageTrace(temp: nat, sched: Sched, found: bool, frame: nat, wakeUps: seq<WakeUp>)

  datatype Transaction = Transaction(
    isIn: bool, setupData: nat, buffer: nat, bufLen: nat, split: bool, mps: nat, traces: seq<StageTrace>)

  predicate WellFormed(t: Transaction) {
    && 8 <= t.mps < U32 && t.bufLen + t.mps <= U32
    && (t.isIn ==> t.bufLen > 0)
    && |t.traces| == |Phases(t.isIn, t.bufLen)|
    && forall tr | tr in t.traces :: t.split ==> tr.sched.kind == NonPeriodic
  }

  function BufferAt(t: Transaction, k: nat, pid: Pid): (nat, nat)
    requires WellFormed(t) && k < |t.traces|
  {
    StageBuffer(Phases(t.isIn, t.bufLen)[k].statusStage, pid, t.setupData, t.buffer, t.bufLen, t.traces[k].temp)
  }

  /** Stage `k` when the endpoint is at `pid`. */
  function StageAt(t: Transaction, k: nat, pid: Pid): Stage
    requires WellFormed(t) && k < |t.traces|
  {
    var tr := t.traces[k];
    var (base, size) := BufferAt(t, k, pid);
    Activate(NewStage(NewTransfer(t.split, Phases(t.isIn, t.bufLen)[k].statusStage, t.mps, size, base), false, tr.sched),
             tr.found, tr.frame)
  }

  /** The endpoint at the beginning of each stage from `k` on, and after the last one, provided
      that all these stages succeed; the request stops at the first that fails. */
  function Play(t: Transaction, k: nat, pid: Pid): Option<seq<Pid>>
    requires WellFormed(t) && k <= |t.traces|
    decreases |t.traces| - k
  {
    if k == |t.traces| then Some([pid])
    else
      var s := StageAt(t, k, pid);
      if !SucceedsStage(s, t.traces[k].wakeUps) then None
      else
        match Play(t, k + 1, RunPid(s, t.traces[k].wakeUps, pid))
        case None => None
        case Some(pids) => Some([pid] + pids)
  }

  /** How often stage `k`, begun at `pid`, told the endpoint about acknowledged packets. */
  function Told(t: Transaction, k: nat, pid: Pid): nat
    requires WellFormed(t) && k < |t.traces| && SucceedsStage(StageAt(t, k, pid), t.traces[k].wakeUps)
  {
    Tellings(StageAt(t, k, pid), t.traces[k].wakeUps)
  }

  lemma StageAtIs(t: Transaction, k: nat, pid: Pid)
    requires WellFormed(t) && k < |t.traces|
    ensures var s := StageAt(t, k, pid);
      && s.xfer.statusStage == Phases(t.isIn, t.bufLen)[k].statusStage && s.xfer.split == t.split
      && (s.xfer.statusStage || BufferAt(t, k, pid).1 == SETUP_DATA_SIZE ==> s.xfer.packets == 1)
  {
  }

  lemma PlayStep(t: Transaction, k: nat, pid: Pid)
    requires WellFormed(t) && k < |t.traces| && Play(t, k, pid).Some?
    ensures SucceedsStage(StageAt(t, k, pid), t.traces[k].wakeUps)
    ensures var pid' := RunPid(StageAt(t, k, pid), t.traces[k].wakeUps, pid);
      Play(t, k + 1, pid').Some? && Play(t, k, pid).value == [pid] + Play(t, k + 1, pid').value
  {
  }

  /** A successful request of any of the three shapes that begins at SETUP sends its setup packet
      first and ends with its status stage. A request with data begins its data stage with
      DATA1 and leaves the endpoint at SETUP for the next one exactly when the setup stage told the
      endpoint about its packet once and the status stage did so at all; a request without data
      leaves it at SETUP exactly when the status stage did, or the setup stage did not. */
  lemma RequestToggle(t: Transaction)
    requires WellFormed(t) && Play(t, 0, Setup).Some?
    ensures var pids := Play(t, 0, Setup).value;
      var last := |t.traces| - 1;
      && |pids| == |t.traces| + 1 && pids[0] == Setup
      && BufferAt(t, 0, Setup) == (t.setupData, SETUP_DATA_SIZE) && Phases(t.isIn, t.bufLen)[last].statusStage
      && SucceedsStage(StageAt(t, 0, Setup), t.traces[0].wakeUps)
      && SucceedsStage(StageAt(t, last, pids[last]), t.traces[last].wakeUps)
      && (if last == 2 then
            && (pids[1] == Data1 && pids[3] == Setup <==> Told(t, 0, Setup) == 1 && Told(t, 2, pids[2]) > 0)
            && (pids[1] == Data1 ==> BufferAt(t, 1, pids[1]) == (t.buffer, t.bufLen))
          else
            pids[2] == Setup <==> Told(t, 1, pids[1]) > 0 || Told(t, 0, Setup) == 0)
  {
    hide RunPid, Tellings, RunStage, FitsStage, Sound, Drained, Scheduled, NewTransfer, Activate;
    PlayStep(t, 0, Setup);
    StageAtIs(t, 0, Setup);
    var setup := StageAt(t, 0, Setup);
    SetupPid(setup, t.traces[0].wakeUps);
    var pid1 := RunPid(setup, t.traces[0].wakeUps, Setup);
    PlayStep(t, 1, pid1);
    StageAtIs(t, 1, pid1);
    var second := StageAt(t, 1, pid1);
    var pid2 := RunPid(second, t.traces[1].wakeUps, pid1);
    if |t.traces| == 2 {
      StatusPid(second, t.traces[1].wakeUps, pid1);
    } else {
      if pid1 == Data1 {
        DataPidStaysData(second, t.traces[1].wakeUps, pid1);
      }
      PlayStep(t, 2, pid2);
      StageAtIs(t, 2, pid2);
      StatusPid(StageAt(t, 2, pid2), t.traces[2].wakeUps, pid2);
    }
  }

  /** The stages of a request told the endpoint about their packets as they should. */
  predicate Clean(t: Transaction) {
    && WellFormed(t) && Play(t, 0, Setup).Some?
    && (RequestToggle(t);
        var pids := Play(t, 0, Setup).value;
        var last := |t.traces| - 1;
        Told(t, 0, Setup) == 1 && Told(t, last, pids[last]) > 0)
  }

  /** The controller was orderly in the setup stage and in the status stage of a successful request. */
  predicate OrderlyRequest(t: Transaction) {
    && WellFormed(t) && Play(t, 0, Setup).Some?
    && (RequestToggle(t);
        var pids := Play(t, 0, Setup).value;
        var last := |t.traces| - 1;
        && OrderlyRun(StageAt(t, 0, Setup), t.traces[0].wakeUps)
        && OrderlyRun(StageAt(t, last, pids[last]), t.traces[last].wakeUps))
  }

  /** With an orderly controller every successful request is clean: so its data stage begins with
      DATA1, and it leaves the endpoint at SETUP for the next one. */
  lemma OrderlyIsClean(t: Transaction)
    requires OrderlyRequest(t)
    ensures Clean(t)
    ensures (RequestToggle(t);
      var pids := Play(t, 0, Setup).value;
      pids[|pids| - 1] == Setup && (|pids| == 4 ==> pids[1] == Data1))
  {
    RequestToggle(t);
    var pids := Play(t, 0, Setup).value;
    var last := |t.traces| - 1;
    StageAtIs(t, 0, Setup);
    StageAtIs(t, last, pids[last]);
    hide Play, RunStage, FitsStage, Sound, Drained, Scheduled, NewTransfer;
    OrderlyTellsOnce(StageAt(t, 0, Setup), t.traces[0].wakeUps);
    OrderlyTellsOnce(StageAt(t, last, pids[last]), t.traces[last].wakeUps);
  }

  /** The endpoint after a history of requests. */
  function AfterHistory(ts: seq<Transaction>, pid: Pid): Option<Pid>
    requires forall t | t in ts :: WellFormed(t)
  {
    if ts == [] then Some(pid)
    else match Play(ts[0], 0, pid)
      case None => None
      case Some(pids) => PlayLength(ts[0], 0, pid); AfterHistory(ts[1..], pids[|pids| - 1])
  }

  lemma {:induction false} PlayLength(t: Transaction, k: nat, pid: Pid)
    requires WellFormed(t) && k <= |t.traces| && Play(t, k, pid).Some?
    ensures |Play(t, k, pid).value| == |t.traces| + 1 - k
    decreases |t.traces| - k
  {
    if k < |t.traces| {
      PlayLength(t, k + 1, RunPid(StageAt(t, k, pid), t.traces[k].wakeUps, pid));
    }
  }

  /** Any history of successful requests whose stages told the endpoint about their packets as they
      should leaves it at SETUP, so by RequestToggle each of them begins as it must. */
  lemma {:induction false} HistoryToggle(ts: seq<Transaction>)
    requires forall t | t in ts :: WellFormed(t) && Clean(t)
    ensures forall n | 0 <= n <= |ts| :: AfterHistory(ts[..n], Setup) == Some(Setup)
    decreases |ts|
  {
    hide RunPid, Tellings, SucceedsStage, StageAt, Play, Told;
    if ts != [] {
      assert ts[0] in ts;
      RequestToggle(ts[0]);
      HistoryToggle(ts[1..]);
      forall n | 0 <= n <= |ts|
        ensures AfterHistory(ts[..n], Setup) == Some(Setup)
      {
        if n > 0 {
          assert ts[..n][1..] == ts[1..][..n - 1];
        }
      }
    }
  }
}
