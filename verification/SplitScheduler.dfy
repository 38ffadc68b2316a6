/** uspi/lib/dwhciframeschedper.c and uspi/lib/dwhciframeschednper.c: when to issue the
    complete-splits that follow a start-split (USB 2.0 section 11.18). The delays are left out. */
module SplitScheduler {

  /** The channel interrupt bits the driver looks at. `error` stands for the whole error mask. */
  datatype Status = Status(xferComplete: bool, halted: bool, error: bool, nak: bool, ack: bool, nyet: bool)

  datatype Kind = Periodic | NonPeriodic

  datatype SchedState =
    | StartSplit
    | StartSplitComplete
    | CompleteSplit
    | CompleteRetry
    | CompleteSplitComplete
    | CompleteSplitFailed
    | Unknown

  datatype Sched = Sched(kind: Kind, state: SchedState, tries: nat, nextFrame: nat)

  const FRAME_UNSET := 8
  const U32_MAX := 0xFFFF_FFFF

  /** A report on a complete-split that the schedulers accept without an assertion. */
  predicate CompleteStatus(st: Status) {
    st.xferComplete || st.nyet || st.ack || st.nak
  }

  predicate AwaitingComplete(s: Sched) {
    s.state == CompleteSplit || s.state == CompleteRetry
  }

  // ----- The schedulers as functions -----

  function Started(s: Sched): Sched {
    s.(state := StartSplit, nextFrame := if s.kind == Periodic then FRAME_UNSET else s.nextFrame)
  }

  /** Choice of the microframe, given the frame counter read from the controller. */
  function Waited(s: Sched, frame: nat): Sched {
    if s.kind == NonPeriodic || s.nextFrame != FRAME_UNSET then s
    else s.(nextFrame := if (frame + 1) % 8 == 6 then 7 else (frame + 1) % 8)
  }

  /** The microframe of a periodic start-split is the one behind the counter's, or 7 instead of 6; once it is
      chosen, and for other start-splits, it stays. */
  lemma ChosenFrame(s: Sched, frame: nat)
    ensures var u := Waited(Started(s), frame);
      && u.state == StartSplit && u.kind == s.kind && u.tries == s.tries
      && (if s.kind == NonPeriodic then u.nextFrame == s.nextFrame
          else u.nextFrame == if frame % 8 == 5 then 7 else if frame % 8 == 7 then 0 else frame % 8 + 1)
      && forall later: nat :: Waited(u, later) == u
  {
  }

  /** The state machine expects a report. */
  predicate Expects(s: Sched, st: Status) {
    || (s.state == StartSplit && st.ack)
    || (AwaitingComplete(s) && CompleteStatus(st))
  }

  /** A report that makes the scheduler spend one of its tries. */
  predicate CostsTry(kind: Kind, st: Status) {
    !st.xferComplete && (st.nyet || st.ack || kind == NonPeriodic)
  }

  function Reported(s: Sched, st: Status): Sched
    requires Expects(s, st)
  {
    if s.state == StartSplit then s.(state := StartSplitComplete)
    else if st.xferComplete then s.(state := CompleteSplitComplete)
    else if !CostsTry(s.kind, st) then s.(state := CompleteSplitFailed)
    else if s.tries == 0 then s.(state := CompleteSplitFailed, tries := U32_MAX)
    else s.(state := CompleteRetry, tries := s.tries - 1)
  }

  predicate Decides(s: Sched) {
    || s.state in {StartSplitComplete, CompleteRetry, CompleteSplitComplete, CompleteSplitFailed}
    || (s.kind == NonPeriodic && s.state == CompleteSplit)
  }

  /** Tries allowed after the first complete-split, by the microframe of the start-split. */
  function Retries(kind: Kind, start: nat): nat {
    if kind == Periodic && start == 5 then 2 else 3
  }

  /** Does another complete-split follow, and in which state does it find the scheduler? */
  function Next(s: Sched): (Sched, bool)
    requires Decides(s)
  {
    match s.state
    case StartSplitComplete =>
      (s.(state := CompleteSplit, tries := Retries(s.kind, s.nextFrame),
          nextFrame := if s.kind == Periodic then (s.nextFrame + 2) % 8 else s.nextFrame), true)
    case CompleteSplit => (s, true)
    case CompleteRetry =>
      (s.(nextFrame := if s.kind == Periodic then (s.nextFrame + 1) % 8 else s.nextFrame), true)
    case _ => (s, false)
  }

  // ----- Properties of whole split cycles -----

  /** The microframes in which complete-splits are issued from `s` on, when the controller
      answers them with `reports` in turn. */
  function Completes(s: Sched, reports: seq<Status>): seq<nat>
    requires AwaitingComplete(s)
    requires forall st | st in reports :: CompleteStatus(st)
    decreases |reports|
  {
    if reports == [] then [s.nextFrame]
    else
      var (s', again) := Next(Reported(s, reports[0]));
      [s.nextFrame] + if again then Completes(s', reports[1..]) else []
  }

  lemma {:induction false} CompletesBounded(s: Sched, reports: seq<Status>)
    requires AwaitingComplete(s) && (s.kind == Periodic ==> s.nextFrame < 8)
    requires forall st | st in reports :: CompleteStatus(st)
    ensures 1 <= |Completes(s, reports)| <= s.tries + 1
    ensures s.kind == Periodic ==>
      forall k | 0 <= k < |Completes(s, reports)| :: Completes(s, reports)[k] == (s.nextFrame + k) % 8
    decreases |reports|
  {
    if reports != [] {
      var (s', again) := Next(Reported(s, reports[0]));
      if again {
        CompletesBounded(s', reports[1..]);
        var rest := Completes(s', reports[1..]);
        assert Completes(s, reports) == [s.nextFrame] + rest;
        if s.kind == Periodic {
          forall k | 0 <= k < |rest|
            ensures rest[k] == (s.nextFrame + (k + 1)) % 8
          {
            Microframes(s.nextFrame + 1, k);
          }
        }
      }
    }
  }

  /** Microframes are counted modulo 8. */
  lemma Microframes(frame: nat, k: nat)
    ensures (frame % 8 + k) % 8 == (frame + k) % 8
  {
    assert frame == 8 * (frame / 8) + frame % 8;
  }

  /** Not-yet answers use up every try. */
  lemma {:induction false} CompletesExhausted(s: Sched, reports: seq<Status>)
    requires AwaitingComplete(s)
    requires forall st | st in reports :: CompleteStatus(st) && !st.xferComplete && st.nyet
    requires |reports| > s.tries
    ensures |Completes(s, reports)| == s.tries + 1
    decreases |reports|
  {
    var (s', again) := Next(Reported(s, reports[0]));
    if again {
      CompletesExhausted(s', reports[1..]);
    }
  }

  /** The scheduler after a start-split was issued at the given frame count and acknowledged. */
  function AfterStartSplit(s: Sched, frame: nat, st: Status): Sched
    requires st.ack
  {
    Reported(Waited(Started(s), frame), st)
  }

  /** What the scheduler asks for in one split cycle, whatever is reported to it: a start-split
      never goes out in microframe 6; at most four complete-splits follow (three after a periodic start-split in
      microframe 5); the k-th periodic one, counted from zero, is due two plus k microframes
      later; and the bound is reached when every answer is not-yet. What the driver issues besides,
      without asking, is the subject of SplitRuns. */
  lemma SplitCycle(s: Sched, frame: nat, st: Status, reports: seq<Status>)
    requires st.ack
    requires forall r | r in reports :: CompleteStatus(r)
    ensures var start := Waited(Started(s), frame).nextFrame;
      var first := Next(AfterStartSplit(s, frame, st));
      && first.1 && AwaitingComplete(first.0)
      && var due := Completes(first.0, reports);
      && 1 <= |due| <= (if s.kind == Periodic && start == 5 then 3 else 4)
      && (s.kind == Periodic ==>
            && start < 8 && start != 6
            && forall k | 0 <= k < |due| :: due[k] == (start + 2 + k) % 8)
      && ((forall r | r in reports :: !r.xferComplete && r.nyet) && |reports| >= 4 ==>
            |due| == if s.kind == Periodic && start == 5 then 3 else 4)
  {
    hide Completes;
    var first := Next(AfterStartSplit(s, frame, st)).0;
    CompletesBounded(first, reports);
    if (forall r | r in reports :: !r.xferComplete && r.nyet) && |reports| >= 4 {
      CompletesExhausted(first, reports);
    }
  }

  /** A negative acknowledgement ends a periodic cycle at once but not a non-periodic one. */
  lemma NakEndsPeriodicCycle(s: Sched, st: Status)
    requires AwaitingComplete(s) && s.tries > 0
    requires st.nak && !st.nyet && !st.ack && !st.xferComplete
    ensures Next(Reported(s, st)).1 <==> s.kind == NonPeriodic
  {
  }

  // ----- The schedulers as the driver runs them -----

  class FrameScheduler {
    var kind: Kind
    var state: SchedState
    var tries: nat
    var nextFrame: nat

    ghost function View(): Sched
      reads this
    {
      Sched(kind, state, tries, nextFrame)
    }

    constructor ()
    {
      kind, state, tries, nextFrame := NonPeriodic, Unknown, 0, FRAME_UNSET;
    }

    /** Both constructors, of the periodic and of the non-periodic scheduler. */
    method Init(kind: Kind)
      modifies this
      ensures View() == Sched(kind, Unknown, old(tries), if kind == Periodic then FRAME_UNSET else old(nextFrame))
    {
      this.kind := kind;
      state := Unknown;
      if kind == Periodic {
        nextFrame := FRAME_UNSET;
      }
    }

    method BeginStartSplit()
      modifies this
      ensures View() == Started(old(View()))
    {
      state := StartSplit;
      if kind == Periodic {
        nextFrame := FRAME_UNSET;
      }
    }

    method TryCompleteSplit() returns (again: bool)
      requires Decides(View())
      modifies this
      ensures (View(), again) == Next(old(View()))
    {
      again := false;
      match state {
        case StartSplitComplete =>
          state := CompleteSplit;
          if kind == Periodic {
            tries := if nextFrame != 5 then 3 else 2;
            nextFrame := (nextFrame + 2) % 8;
          } else {
            tries := 3;
          }
          again := true;
        case CompleteSplit =>
          again := true;
        case CompleteRetry =>
          again := true;
          if kind == Periodic {
            nextFrame := (nextFrame + 1) % 8;
          }
        case _ =>
      }
    }

    method SpendTry()
      modifies this
      ensures View() == if old(tries) == 0 then old(View()).(state := CompleteSplitFailed, tries := U32_MAX)
                        else old(View()).(state := CompleteRetry, tries := old(tries) - 1)
    {
      if tries == 0 {
        state := CompleteSplitFailed;
        tries := U32_MAX;
      } else {
        state := CompleteRetry;
        tries := tries - 1;
      }
    }

    method TransactionComplete(st: Status)
      requires Expects(View(), st)
      modifies this
      ensures View() == Reported(old(View()), st)
    {
      if state == StartSplit {
        state := StartSplitComplete;
      } else if st.xferComplete {
        state := CompleteSplitComplete;
      } else if st.nyet || st.ack {
        SpendTry();
      } else if kind == Periodic {
        state := CompleteSplitFailed;
      } else {
        SpendTry();
      }
    }

    /** The loop that then waits for the chosen microframe is left out. */
    method WaitForFrame(frame: nat)
      modifies this
      ensures View() == Waited(old(View()), frame)
    {
      if kind == Periodic && nextFrame == FRAME_UNSET {
        nextFrame := (frame + 1) % 8;
        if nextFrame == 6 {
          nextFrame := nextFrame + 1;
        }
      }
    }
  }
}
