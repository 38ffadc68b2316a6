/** Split cycles of the driver as stages run through them (uspi/lib/dwhcidevice.c:939-1147): which
    complete-splits are issued, and when. Other than in SplitScheduler, the channel may also be found
    halted, upon which the driver issues the same transaction again without asking the scheduler. */
module SplitRuns {
  import opened SplitScheduler
  import opened TransferStage

  /** A complete-split at the time it is issued: its microframe, and how many complete-splits of the
      same cycle the controller has answered, and how many it has only halted, before. */
  datatype Issue = Issue(frame: nat, answered: nat, halted: nat)

  /** The stage goes on in the same split cycle, behind its start-split. */
  predicate Completing(outcome: Outcome) {
    outcome.Armed? && outcome.stage.state == CompleteSplitStage
  }

  /** The complete-split a wake-up has issued, unless it waits for the channel to be disabled. */
  function Issued(u: Stage, answered: nat, halted: nat): (issues: seq<Issue>)
    ensures |issues| == if u.subState == WaitForTransactionComplete then 1 else 0
  {
    if u.subState == WaitForTransactionComplete then [Issue(u.sched.nextFrame, answered, halted)] else []
  }

  predicate HaltedAnswer(s: Stage, w: WakeUp) {
    w.Irq? && s.subState == WaitForTransactionComplete && HaltedOnly(w.env.report.status)
  }

  predicate Answer(s: Stage, w: WakeUp) {
    w.Irq? && s.subState == WaitForTransactionComplete && !HaltedOnly(w.env.report.status)
  }

  function One(b: bool): nat {
    if b then 1 else 0
  }

  /** Complete-splits issued from a stage that waits for one, up to the end of its cycle. */
  function Reissued(s: Stage, wakeUps: seq<WakeUp>, answered: nat, halted: nat): seq<Issue>
    requires Alive(s) && FitsStage(s, wakeUps)
    decreases |wakeUps|
  {
    if wakeUps == [] then []
    else
      WakeKeepsAlive(s, wakeUps[0]);
      var outcome := Wake(s, wakeUps[0]);
      if !Completing(outcome) then []
      else
        var a, h := answered + One(Answer(s, wakeUps[0])), halted + One(HaltedAnswer(s, wakeUps[0]));
        Issued(outcome.stage, a, h) + Reissued(outcome.stage, wakeUps[1..], a, h)
  }

  /** Complete-splits issued in the cycle of a stage that waits for its start-split. */
  function CompleteSplits(s: Stage, wakeUps: seq<WakeUp>): seq<Issue>
    requires Alive(s) && FitsStage(s, wakeUps)
    decreases |wakeUps|
  {
    if wakeUps == [] then []
    else
      WakeKeepsAlive(s, wakeUps[0]);
      var outcome := Wake(s, wakeUps[0]);
      if Completing(outcome) then Issued(outcome.stage, 0, 0) + Reissued(outcome.stage, wakeUps[1..], 0, 0)
      else if outcome.Armed? then CompleteSplits(outcome.stage, wakeUps[1..])
      else []
  }

  /** The microframe of the start-split of that cycle. */
  function StartFrame(s: Stage, wakeUps: seq<WakeUp>): nat
    requires Alive(s) && FitsStage(s, wakeUps)
    decreases |wakeUps|
  {
    if wakeUps == [] then s.sched.nextFrame
    else
      WakeKeepsAlive(s, wakeUps[0]);
      var outcome := Wake(s, wakeUps[0]);
      if outcome.Armed? && !Completing(outcome) then StartFrame(outcome.stage, wakeUps[1..])
      else s.sched.nextFrame
  }

  /** Bare halts a stage that waits for a complete-split is given, up to the end of its cycle. */
  function HaltsIn(s: Stage, wakeUps: seq<WakeUp>): nat
    requires Alive(s) && FitsStage(s, wakeUps)
    decreases |wakeUps|
  {
    if wakeUps == [] then 0
    else
      WakeKeepsAlive(s, wakeUps[0]);
      var outcome := Wake(s, wakeUps[0]);
      One(HaltedAnswer(s, wakeUps[0])) + if Completing(outcome) then HaltsIn(outcome.stage, wakeUps[1..]) else 0
  }

  /** Bare halts between the start-split and the end of its cycle. */
  function CycleHalts(s: Stage, wakeUps: seq<WakeUp>): nat
    requires Alive(s) && FitsStage(s, wakeUps)
    decreases |wakeUps|
  {
    if wakeUps == [] then 0
    else
      WakeKeepsAlive(s, wakeUps[0]);
      var outcome := Wake(s, wakeUps[0]);
      if Completing(outcome) then HaltsIn(outcome.stage, wakeUps[1..])
      else if outcome.Armed? then CycleHalts(outcome.stage, wakeUps[1..])
      else 0
  }

  // ----- Microframes -----

  predicate GoodStart(frame: nat) {
    frame < 8 && frame != 6
  }

  /** A periodic split stage has its microframe chosen once its start-split is issued. */
  predicate Framed(s: Stage) {
    s.xfer.split && s.periodic ==>
      && (s.state == StartSplitStage ==>
            GoodStart(s.sched.nextFrame)
            || (s.subState == WaitForChannelDisable && s.sched.nextFrame == FRAME_UNSET))
      && (s.state == CompleteSplitStage ==> s.sched.nextFrame < 8)
  }

  lemma WakeKeepsFramed(s: Stage, w: WakeUp)
    requires Alive(s) && Fits(s, w) && Framed(s)
    ensures !Wake(s, w).Ended? ==> Framed(Wake(s, w).stage)
  {
    hide Sound, Drained, Account, Bounded, GoodOutcome, Wake, Fits;
    WakeKeepsAlive(s, w);
    if s.xfer.split && s.periodic && !Wake(s, w).Ended? {
      if s.state == StartSplitStage {
        StartStep(s, w);
        NewFrame(s, w);
      } else if s.state == PeriodicDelay {
        NextInterval(s, w);
      } else if Completing(Wake(s, w)) {
        RetryStep(s, w);
      } else {
        PeriodicCycleEnds(s, w);
      }
    }
  }

  /** A periodic start-split that is not acknowledged yet has its microframe once it is issued. */
  lemma NewFrame(s: Stage, w: WakeUp)
    requires Alive(s) && Fits(s, w) && Framed(s) && s.state == StartSplitStage && s.periodic
    ensures var outcome := Wake(s, w);
      && !outcome.Delayed?
      && (outcome.Armed? && !Completing(outcome) ==> Framed(outcome.stage))
  {
    hide Sound, Drained, Account, Bounded;
  }

  lemma NextInterval(s: Stage, w: WakeUp)
    requires Alive(s) && Fits(s, w) && s.xfer.split && s.state == PeriodicDelay && s.periodic
    ensures Wake(s, w).Armed? && Framed(Wake(s, w).stage)
  {
    hide Sound, Drained, Account, Bounded, React;
  }

  /** Behind its complete-splits a periodic stage waits for the next interval. */
  lemma PeriodicCycleEnds(s: Stage, w: WakeUp)
    requires Alive(s) && Fits(s, w) && s.state == CompleteSplitStage && s.periodic && !Completing(Wake(s, w))
    ensures !Wake(s, w).Armed?
    ensures Wake(s, w).Delayed? ==> Wake(s, w).stage.state == PeriodicDelay
  {
    hide Sound, Drained, Account, Bounded;
  }

  /** So it is at every point of every run. */
  lemma {:induction false} RunKeepsFramed(s: Stage, wakeUps: seq<WakeUp>)
    requires Alive(s) && FitsStage(s, wakeUps) && Framed(s)
    ensures !RunStage(s, wakeUps).Ended? ==> Alive(RunStage(s, wakeUps).stage) && Framed(RunStage(s, wakeUps).stage)
    decreases |wakeUps|
  {
    hide Framed, Sound, Drained, Scheduled, Wake, Fits;
    if wakeUps != [] {
      WakeKeepsAlive(s, wakeUps[0]);
      WakeKeepsFramed(s, wakeUps[0]);
      var outcome := Wake(s, wakeUps[0]);
      if !outcome.Ended? {
        RunKeepsFramed(outcome.stage, wakeUps[1..]);
      }
    }
  }

  /** From its creation. */
  lemma NewStageFramed(x: Transfer, periodic: bool, sched: Sched, found: bool, frame: nat, wakeUps: seq<WakeUp>)
    requires Sound(x) && (x.split ==> sched.kind == if periodic then Periodic else NonPeriodic)
    ensures var s := Activate(NewStage(x, periodic, sched), found, frame);
      && Alive(s) && Framed(s)
      && (FitsStage(s, wakeUps) && !RunStage(s, wakeUps).Ended? ==>
            Alive(RunStage(s, wakeUps).stage) && Framed(RunStage(s, wakeUps).stage))
  {
    var s := Activate(NewStage(x, periodic, sched), found, frame);
    ActivateLive(NewStage(x, periodic, sched), found, frame);
    if FitsStage(s, wakeUps) {
      RunKeepsFramed(s, wakeUps);
    }
  }

  // ----- One wake-up -----

  /** Only an answer of the controller costs a try and moves on to the next microframe. */
  lemma RetryStep(s: Stage, w: WakeUp)
    requires Alive(s) && Fits(s, w) && Framed(s) && s.state == CompleteSplitStage && Completing(Wake(s, w))
    ensures var u := Wake(s, w).stage;
      var a := One(Answer(s, w));
      && u.xfer.split && s.xfer.split && u.periodic == s.periodic
      && s.sched.tries >= a && u.sched.tries == s.sched.tries - a
      && (s.periodic ==> u.sched.nextFrame == (s.sched.nextFrame + a) % 8)
      && (s.subState == WaitForChannelDisable ==> a == 0 && !HaltedAnswer(s, w) && u.subState == WaitForTransactionComplete)
      && (s.subState == WaitForTransactionComplete ==> a + One(HaltedAnswer(s, w)) == 1)
  {
    hide Sound, Drained, Account, Bounded, GoodOutcome, Wake, Fits;
    WakeKeepsAlive(s, w);
    if Answer(s, w) {
      AnswerStep(s, w);
    } else {
      ChannelStep(s, w);
    }
  }

  /** An answer behind which the cycle goes on. */
  lemma AnswerStep(s: Stage, w: WakeUp)
    requires Alive(s) && Fits(s, w) && Framed(s) && s.state == CompleteSplitStage && Completing(Wake(s, w)) && Answer(s, w)
    ensures s.sched.tries > 0
    ensures var u := Wake(s, w).stage;
      && u.sched.tries == s.sched.tries - 1
      && u.sched.nextFrame == if s.periodic then (s.sched.nextFrame + 1) % 8 else s.sched.nextFrame
  {
    hide Sound, Drained, Account, Bounded;
  }

  /** The channel is started, or has only halted. */
  lemma ChannelStep(s: Stage, w: WakeUp)
    requires Alive(s) && Fits(s, w) && Framed(s) && s.state == CompleteSplitStage && !Answer(s, w)
    ensures Completing(Wake(s, w))
    ensures var u := Wake(s, w).stage;
      && u.sched.tries == s.sched.tries && (s.periodic ==> u.sched.nextFrame == s.sched.nextFrame < 8)
      && (s.subState == WaitForChannelDisable ==> u.subState == WaitForTransactionComplete)
      && (s.subState == WaitForTransactionComplete ==> HaltedAnswer(s, w))
  {
    hide Sound, Drained, Account, Bounded, React;
  }

  lemma StartStep(s: Stage, w: WakeUp)
    requires Alive(s) && Fits(s, w) && Framed(s) && s.state == StartSplitStage
    ensures var outcome := Wake(s, w);
      && (Completing(outcome) ==>
            var u := outcome.stage;
            && s.subState == WaitForTransactionComplete
            && u.periodic == s.periodic && u.sched.tries == Retries(s.sched.kind, s.sched.nextFrame)
            && (s.periodic ==> GoodStart(s.sched.nextFrame) && u.sched.nextFrame == (s.sched.nextFrame + 2) % 8))
      && (outcome.Armed? && !Completing(outcome) ==>
            outcome.stage.state == StartSplitStage && outcome.stage.periodic == s.periodic
            && outcome.stage.sched.kind == s.sched.kind)
      && !outcome.Delayed?
  {
    hide Sound, Drained, Account, Bounded, GoodOutcome;
    WakeKeepsAlive(s, w);
  }

  // ----- Whole cycles -----

  /** The `i`-th complete-split comes after as many answers and halts as it should, no more answers
      than there were tries, and one microframe later for each answer. */
  predicate Due(issue: Issue, i: int, periodic: bool, first: nat, tries: nat) {
    && i == issue.answered + issue.halted && issue.answered <= tries
    && (periodic ==> issue.frame == (first + issue.answered) % 8)
  }

  lemma {:induction false} RetriesDue(s: Stage, wakeUps: seq<WakeUp>, answered: nat, halted: nat, first: nat, tries: nat, i: nat)
    requires Alive(s) && FitsStage(s, wakeUps) && Framed(s) && s.state == CompleteSplitStage
    requires answered + s.sched.tries == tries
    requires s.periodic ==> s.sched.nextFrame == (first + answered) % 8
    requires i < |Reissued(s, wakeUps, answered, halted)|
    ensures var pending := if s.subState == WaitForChannelDisable then 0 else 1;
      Due(Reissued(s, wakeUps, answered, halted)[i], answered + halted + pending + i, s.periodic, first, tries)
    decreases |wakeUps|
  {
    hide Sound, Drained, Scheduled, Wake, Fits, Framed, Answer, HaltedAnswer, Due;
    var w := wakeUps[0];
    WakeKeepsAlive(s, w);
    WakeKeepsFramed(s, w);
    RetryStep(s, w);
    var u := Wake(s, w).stage;
    var a, h := answered + One(Answer(s, w)), halted + One(HaltedAnswer(s, w));
    Microframes(first + answered, One(Answer(s, w)));
    if i >= |Issued(u, a, h)| {
      RetriesDue(u, wakeUps[1..], a, h, first, tries, i - |Issued(u, a, h)|);
    } else {
      DueNow(Issue(u.sched.nextFrame, a, h), s.periodic, first, tries);
    }
  }

  lemma DueNow(issue: Issue, periodic: bool, first: nat, tries: nat)
    requires issue.answered <= tries && (periodic ==> issue.frame == (first + issue.answered) % 8)
    ensures Due(issue, issue.answered + issue.halted, periodic, first, tries)
  {
  }

  lemma {:induction false} CycleDue(s: Stage, wakeUps: seq<WakeUp>, i: nat)
    requires Alive(s) && FitsStage(s, wakeUps) && Framed(s) && s.state == StartSplitStage
    requires i < |CompleteSplits(s, wakeUps)|
    ensures var start := StartFrame(s, wakeUps);
      && (s.periodic ==> GoodStart(start))
      && Due(CompleteSplits(s, wakeUps)[i], i, s.periodic, (start + 2) % 8, Retries(s.sched.kind, start))
    decreases |wakeUps|
  {
    hide Sound, Drained, Scheduled, Wake, Fits, Framed;
    var w := wakeUps[0];
    WakeKeepsAlive(s, w);
    WakeKeepsFramed(s, w);
    StartStep(s, w);
    var outcome := Wake(s, w);
    if Completing(outcome) {
      var u := outcome.stage;
      if i >= |Issued(u, 0, 0)| {
        RetriesDue(u, wakeUps[1..], 0, 0, (s.sched.nextFrame + 2) % 8, u.sched.tries, i - |Issued(u, 0, 0)|);
      }
    } else {
      CycleDue(outcome.stage, wakeUps[1..], i);
    }
  }

  /** Complete-splits behind a stage that waits for one, in number: the tries and the bare halts. */
  lemma {:induction false} ReissuedBounded(s: Stage, wakeUps: seq<WakeUp>, answered: nat, halted: nat)
    requires Alive(s) && FitsStage(s, wakeUps) && Framed(s) && s.state == CompleteSplitStage
    ensures |Reissued(s, wakeUps, answered, halted)| <=
      s.sched.tries + HaltsIn(s, wakeUps) + One(s.subState == WaitForChannelDisable)
    decreases |wakeUps|
  {
    hide Sound, Drained, Scheduled, Wake, Fits, Framed, Answer, HaltedAnswer;
    if wakeUps != [] {
      var w := wakeUps[0];
      WakeKeepsAlive(s, w);
      if Completing(Wake(s, w)) {
        WakeKeepsFramed(s, w);
        RetryStep(s, w);
        ReissuedBounded(Wake(s, w).stage, wakeUps[1..], answered + One(Answer(s, w)), halted + One(HaltedAnswer(s, w)));
      }
    }
  }

  lemma {:induction false} CycleBounded(s: Stage, wakeUps: seq<WakeUp>)
    requires Alive(s) && FitsStage(s, wakeUps) && Framed(s) && s.state == StartSplitStage
    ensures |CompleteSplits(s, wakeUps)| <= Retries(s.sched.kind, StartFrame(s, wakeUps)) + 1 + CycleHalts(s, wakeUps)
    decreases |wakeUps|
  {
    hide Sound, Drained, Scheduled, Wake, Fits, Framed, Retries;
    if wakeUps != [] {
      var w := wakeUps[0];
      WakeKeepsAlive(s, w);
      WakeKeepsFramed(s, w);
      StartStep(s, w);
      var outcome := Wake(s, w);
      if Completing(outcome) {
        ReissuedBounded(outcome.stage, wakeUps[1..], 0, 0);
      } else if outcome.Armed? {
        CycleBounded(outcome.stage, wakeUps[1..]);
      }
    }
  }

  /** Between a start-split and the end of its cycle, in any run of a stage: no periodic start-split
      goes out in microframe 6; the i-th complete-split follows `answered` answers and `halted` bare
      halts with answered + halted == i; there are at most three answers in front of it (two after a
      periodic start-split in microframe 5); a periodic complete-split goes out in microframe
      start + 2 + answered, modulo 8; and there are at most four complete-splits (three) and one
      more for every bare halt of the cycle. */
  lemma CycleOnRun(s: Stage, wakeUps: seq<WakeUp>)
    requires Alive(s) && FitsStage(s, wakeUps) && Framed(s) && s.state == StartSplitStage
    ensures var issues, start := CompleteSplits(s, wakeUps), StartFrame(s, wakeUps);
      && (issues != [] && s.periodic ==> GoodStart(start))
      && (forall i | 0 <= i < |issues| ::
            && issues[i].answered + issues[i].halted == i && issues[i].answered <= Retries(s.sched.kind, start)
            && (s.periodic ==> issues[i].frame == (start + 2 + issues[i].answered) % 8))
      && |issues| <= Retries(s.sched.kind, start) + 1 + CycleHalts(s, wakeUps)
  {
    hide CompleteSplits, StartFrame, FitsStage, Alive, Framed, Retries, GoodStart, CycleHalts;
    var issues, start := CompleteSplits(s, wakeUps), StartFrame(s, wakeUps);
    CycleBounded(s, wakeUps);
    if issues != [] {
      IssueOnRun(s, wakeUps, 0);
    }
    forall i | 0 <= i < |issues|
      ensures issues[i].answered + issues[i].halted == i && issues[i].answered <= Retries(s.sched.kind, start)
      ensures s.periodic ==> issues[i].frame == (start + 2 + issues[i].answered) % 8
    {
      IssueOnRun(s, wakeUps, i);
    }
  }

  lemma IssueOnRun(s: Stage, wakeUps: seq<WakeUp>, i: nat)
    requires Alive(s) && FitsStage(s, wakeUps) && Framed(s) && s.state == StartSplitStage
    requires i < |CompleteSplits(s, wakeUps)|
    ensures var issue, start := CompleteSplits(s, wakeUps)[i], StartFrame(s, wakeUps);
      && issue.answered + issue.halted == i && issue.answered <= Retries(s.sched.kind, start)
      && (s.periodic ==> GoodStart(start) && issue.frame == (start + 2 + issue.answered) % 8)
  {
    hide CompleteSplits, StartFrame, FitsStage, Alive, Framed, Retries, GoodStart;
    CycleDue(s, wakeUps, i);
    Microframes(StartFrame(s, wakeUps) + 2, CompleteSplits(s, wakeUps)[i].answered);
  }

  // ----- The bound is exact -----

  /** A stage whose complete-split is out. */
  predicate CompleteOut(s: Stage) {
    Alive(s) && Framed(s) && s.state == CompleteSplitStage && s.subState == WaitForTransactionComplete
  }

  /** A report of a transaction that moved nothing. */
  function Idle(s: Stage, st: Status, frame: nat): WakeUp {
    Irq(Env(Report(st, s.xfer.packetsPerTransaction, s.xfer.bytesPerTransaction), false, frame))
  }

  const HALT := Status(false, true, false, false, false, false)
  const NOT_YET := Status(false, true, false, false, false, true)

  /** `h` bare halts and then `n` answers that the device is not ready yet. */
  function Stalling(s: Stage, h: nat, n: nat, frame: nat): (wakeUps: seq<WakeUp>)
    ensures |wakeUps| == h + n
  {
    if h > 0 then [Idle(s, HALT, frame)] + Stalling(s, h - 1, n, frame)
    else if n > 0 then [Idle(s, NOT_YET, frame)] + Stalling(s, 0, n - 1, frame)
    else []
  }

  /** A bare halt changes nothing: neither the stage nor the tries of its scheduler. */
  lemma HaltStep(s: Stage, frame: nat)
    requires CompleteOut(s)
    ensures var w := Idle(s, HALT, frame);
      Fits(s, w) && Wake(s, w) == Armed(s) && HaltedAnswer(s, w) && !Answer(s, w)
  {
    hide Sound, Drained;
    NothingMoved(s.xfer);
  }

  /** A not-yet answer costs one of the tries. */
  lemma NotYetStep(s: Stage, frame: nat)
    requires CompleteOut(s) && s.sched.tries > 0
    ensures var w := Idle(s, NOT_YET, frame);
      && Fits(s, w) && Completing(Wake(s, w)) && !HaltedAnswer(s, w) && Answer(s, w)
      && var u := Wake(s, w).stage;
      && CompleteOut(u) && u.sched.tries == s.sched.tries - 1 && u.xfer == s.xfer
  {
    NotYetFits(s, frame);
    WakeKeepsAlive(s, Idle(s, NOT_YET, frame));
    WakeKeepsFramed(s, Idle(s, NOT_YET, frame));
    hide Sound, Drained;
  }

  lemma NotYetFits(s: Stage, frame: nat)
    requires CompleteOut(s)
    ensures Fits(s, Idle(s, NOT_YET, frame))
  {
    hide Sound, Drained;
    NothingMoved(s.xfer);
  }

  lemma NothingMoved(x: Transfer)
    ensures Bounded(x, Report(HALT, x.packetsPerTransaction, x.bytesPerTransaction))
    ensures Bounded(x, Report(NOT_YET, x.packetsPerTransaction, x.bytesPerTransaction))
  {
  }

  /** Only the counters of a stage matter for what it is given. */
  lemma {:induction false} StallingSame(s: Stage, u: Stage, h: nat, n: nat, frame: nat)
    requires u.xfer == s.xfer
    ensures Stalling(u, h, n, frame) == Stalling(s, h, n, frame)
    decreases h + n
  {
    if h > 0 {
      StallingSame(s, u, h - 1, n, frame);
    } else if n > 0 {
      StallingSame(s, u, 0, n - 1, frame);
    }
  }

  /** Any number of bare halts, and as many not-yet answers as there are tries, are possible, each with
      one more complete-split. */
  lemma {:induction false} StallingIssues(s: Stage, h: nat, n: nat, frame: nat, answered: nat, halted: nat)
    requires CompleteOut(s) && n <= s.sched.tries
    ensures var wakeUps := Stalling(s, h, n, frame);
      && FitsStage(s, wakeUps) && HaltsIn(s, wakeUps) == h && |Reissued(s, wakeUps, answered, halted)| == h + n
    decreases h + n
  {
    hide CompleteOut, Fits, Wake, Answer, HaltedAnswer, Idle;
    if h > 0 {
      HaltStep(s, frame);
      OutIsAlive(s);
      StallingIssues(s, h - 1, n, frame, answered, halted + 1);
      assert Stalling(s, h, n, frame)[1..] == Stalling(s, h - 1, n, frame);
    } else if n > 0 {
      NotYetStep(s, frame);
      OutIsAlive(s);
      var u := Wake(s, Idle(s, NOT_YET, frame)).stage;
      OutIsAlive(u);
      StallingSame(s, u, 0, n - 1, frame);
      StallingIssues(u, 0, n - 1, frame, answered + 1, halted);
      assert Stalling(s, 0, n, frame)[1..] == Stalling(s, 0, n - 1, frame);
    } else {
      OutIsAlive(s);
    }
  }

  lemma OutIsAlive(s: Stage)
    requires CompleteOut(s)
    ensures Alive(s) && s.state == CompleteSplitStage && s.subState == WaitForTransactionComplete
  {
  }

  /** Bare halts leave the stage as it was. */
  lemma {:induction false} HaltsForEver(s: Stage, h: nat, frame: nat)
    requires CompleteOut(s)
    ensures Alive(s) && FitsStage(s, Stalling(s, h, 0, frame)) && RunStage(s, Stalling(s, h, 0, frame)) == Armed(s)
  {
    hide Fits, Wake, Idle;
    if h > 0 {
      HaltStep(s, frame);
      HaltsForEver(s, h - 1, frame);
      assert Stalling(s, h, 0, frame)[1..] == Stalling(s, h - 1, 0, frame);
    }
  }

  /** A start-split that is acknowledged. */
  predicate Begins(s: Stage, start: WakeUp) {
    Alive(s) && Framed(s) && s.state == StartSplitStage && Fits(s, start) && Completing(Wake(s, start))
  }

  /** What a cycle behind this start-split goes on with: the channel is started, if it has been found enabled,
      and then stalls. */
  function Behind(u: Stage, h: nat, n: nat, frame: nat): seq<WakeUp> {
    (if u.subState == WaitForChannelDisable then [Idle(u, HALT, frame)] else []) + Stalling(u, h, n, frame)
  }

  lemma ChannelStarts(s: Stage, frame: nat)
    requires Alive(s) && Framed(s) && s.state == CompleteSplitStage && s.subState == WaitForChannelDisable
    ensures var w := Idle(s, HALT, frame);
      && Fits(s, w) && Completing(Wake(s, w)) && !HaltedAnswer(s, w) && !Answer(s, w)
      && var u := Wake(s, w).stage;
      && CompleteOut(u) && u.sched.tries == s.sched.tries && u.xfer == s.xfer
  {
    WakeKeepsAlive(s, Idle(s, HALT, frame));
    WakeKeepsFramed(s, Idle(s, HALT, frame));
    hide Sound, Drained;
  }

  /** The cycle that takes all tries and `h` bare halts. */
  lemma BehindIssues(u: Stage, h: nat, frame: nat)
    requires Alive(u) && Framed(u) && u.state == CompleteSplitStage
    ensures var wakeUps := Behind(u, h, u.sched.tries, frame);
      && FitsStage(u, wakeUps) && HaltsIn(u, wakeUps) == h
      && |Issued(u, 0, 0) + Reissued(u, wakeUps, 0, 0)| == u.sched.tries + 1 + h
  {
    hide Sound, Drained, Scheduled, Wake, Fits, Framed, Answer, HaltedAnswer, Idle;
    var n := u.sched.tries;
    if u.subState == WaitForChannelDisable {
      var w := Idle(u, HALT, frame);
      ChannelStarts(u, frame);
      var v := Wake(u, w).stage;
      StallingSame(u, v, h, n, frame);
      StallingIssues(v, h, n, frame, 0, 0);
      assert ([w] + Stalling(u, h, n, frame))[1..] == Stalling(u, h, n, frame);
    } else {
      StallingIssues(u, h, n, frame, 0, 0);
      assert Behind(u, h, n, frame) == Stalling(u, h, n, frame);
    }
  }

  /** Behind this start-split `rest` does not lead to more than `n` complete-splits, if it has no more
      than `h` bare halts in the cycle. */
  ghost predicate Within(s: Stage, start: WakeUp, rest: seq<WakeUp>, h: nat, n: nat)
    requires Alive(s)
  {
    var wakeUps := [start] + rest;
    FitsStage(s, wakeUps) && CycleHalts(s, wakeUps) <= h ==> |CompleteSplits(s, wakeUps)| <= n
  }

  lemma CycleBehind(s: Stage, start: WakeUp, rest: seq<WakeUp>)
    requires Begins(s, start) && FitsStage(s, [start] + rest)
    ensures var u := Wake(s, start).stage;
      && Alive(u) && Framed(u) && u.state == CompleteSplitStage && FitsStage(u, rest)
      && u.sched.tries == Retries(s.sched.kind, s.sched.nextFrame)
      && StartFrame(s, [start] + rest) == s.sched.nextFrame
      && CycleHalts(s, [start] + rest) == HaltsIn(u, rest)
      && CompleteSplits(s, [start] + rest) == Issued(u, 0, 0) + Reissued(u, rest, 0, 0)
  {
    hide Wake, Fits, Sound, Drained, Scheduled, Framed, Retries;
    WakeKeepsAlive(s, start);
    WakeKeepsFramed(s, start);
    StartStep(s, start);
    assert ([start] + rest)[1..] == rest;
  }

  lemma FitsBehind(s: Stage, start: WakeUp, rest: seq<WakeUp>)
    requires Begins(s, start) && Alive(Wake(s, start).stage) && FitsStage(Wake(s, start).stage, rest)
    ensures FitsStage(s, [start] + rest)
  {
    hide Wake, Fits, Alive, Framed;
    assert ([start] + rest)[1..] == rest;
  }

  /** Behind every acknowledged start-split: all runs with at most `h` bare halts in the cycle have at
      most `n` complete-splits exactly when `n` is at least four (three after a periodic start-split in
      microframe 5) plus `h`. */
  lemma CycleBoundIff(s: Stage, start: WakeUp, h: nat, n: nat)
    requires Begins(s, start)
    ensures (forall rest: seq<WakeUp> :: Within(s, start, rest, h, n))
      <==> Retries(s.sched.kind, s.sched.nextFrame) + 1 + h <= n
  {
    hide Wake, Fits, Alive, Framed, Retries, FitsStage, CycleHalts, CompleteSplits, StartFrame;
    var most := Retries(s.sched.kind, s.sched.nextFrame) + 1 + h;
    if most <= n {
      forall rest: seq<WakeUp>
        ensures Within(s, start, rest, h, n)
      {
        if FitsStage(s, [start] + rest) {
          CycleBehind(s, start, rest);
          CycleBounded(s, [start] + rest);
        }
      }
    } else {
      var rest := LongestCycle(s, start, h);
      assert !Within(s, start, rest, h, n);
    }
  }

  lemma LongestCycle(s: Stage, start: WakeUp, h: nat) returns (rest: seq<WakeUp>)
    requires Begins(s, start)
    ensures FitsStage(s, [start] + rest) && CycleHalts(s, [start] + rest) == h
    ensures |CompleteSplits(s, [start] + rest)| == Retries(s.sched.kind, s.sched.nextFrame) + 1 + h
  {
    hide Wake, Fits, Sound, Drained, Scheduled, Framed, Retries;
    WakeKeepsAlive(s, start);
    WakeKeepsFramed(s, start);
    StartStep(s, start);
    var u := Wake(s, start).stage;
    rest := Behind(u, h, u.sched.tries, 0);
    BehindIssues(u, h, 0);
    FitsBehind(s, start, rest);
    CycleBehind(s, start, rest);
  }

  /** What the scheduler allows in a cycle. */
  function SchedulerBound(s: Stage): nat {
    Retries(s.sched.kind, s.sched.nextFrame) + 1
  }

  /** So the scheduler's bound holds for the driver exactly when the controller never only halts. */
  lemma BoundHoldsIff(s: Stage, start: WakeUp, h: nat)
    requires Begins(s, start)
    ensures (forall rest: seq<WakeUp> :: Within(s, start, rest, h, SchedulerBound(s))) <==> h == 0
  {
    CycleBoundIff(s, start, h, SchedulerBound(s));
    hide Within, Begins;
  }

  // ----- Cycles of new stages -----

  const ACKNOWLEDGED := Status(false, true, false, false, true, false)

  /** Every new split stage whose channel is free begins its first cycle when its start-split is acknowledged. */
  lemma NewStageBegins(x: Transfer, periodic: bool, sched: Sched, frame: nat)
    requires Sound(x) && x.split && sched.kind == if periodic then Periodic else NonPeriodic
    ensures var s := Activate(NewStage(x, periodic, sched), false, frame);
      && Begins(s, Idle(s, ACKNOWLEDGED, frame))
      && SchedulerBound(s) == if periodic && (frame + 1) % 8 == 5 then 3 else 4
  {
    NewStageFramed(x, periodic, sched, false, frame, []);
    hide Sound, Drained;
    NothingMovedAtStart(x);
  }

  lemma NothingMovedAtStart(x: Transfer)
    ensures Bounded(x, Report(ACKNOWLEDGED, x.packetsPerTransaction, x.bytesPerTransaction))
  {
  }

  /** So the first cycle of every new split stage has one complete-split more than the scheduler allows
      when a single bare halt comes before not-yet answers. */
  lemma OneHalt(x: Transfer, periodic: bool, sched: Sched, frame: nat) returns (s: Stage, run: seq<WakeUp>)
    requires Sound(x) && x.split && sched.kind == if periodic then Periodic else NonPeriodic
    ensures s == Activate(NewStage(x, periodic, sched), false, frame)
    ensures Alive(s) && FitsStage(s, run) && CycleHalts(s, run) == 1
    ensures |CompleteSplits(s, run)| == if periodic && (frame + 1) % 8 == 5 then 4 else 5
  {
    s := Activate(NewStage(x, periodic, sched), false, frame);
    var start := Idle(s, ACKNOWLEDGED, frame);
    NewStageBegins(x, periodic, sched, frame);
    hide Activate, Idle, CompleteSplits, CycleHalts, FitsStage, Sound, Drained, Framed, Wake, Fits, Retries;
    var rest := LongestCycle(s, start, 1);
    run := [start] + rest;
  }
}
