/** uspi/lib/dwhcidevice.c: host channels shared by concurrent stages. The controller, the kernel
    timer and the submitters act in any order; each handler is one step. */
module HostController {
  import opened SplitScheduler
  import opened TransferStage

  const MAX_CHANNELS := 16

  datatype Slot = Free | Busy(id: nat, stage: Stage)

  /** Interrupt mask of one channel. */
  datatype Mask = Off | HaltedMask | FullMask

  datatype Action =
    | Allocated(id: nat, channel: nat)
    | Freed(id: nat, channel: nat)
    | Completed(id: nat, ok: bool)

  /** `inUse` are the bits of m_nChannelAllocated, `enabled` those of the all-channel interrupt
      mask; `timers` counts the kernel timers pending for each channel's stage. Accepted stages
      are numbered in the order of their acceptance, and `next` is the next number. */
  datatype Host = Host(
    channels: nat, inUse: set<nat>, slots: seq<Slot>, masks: seq<Mask>, enabled: set<nat>,
    timers: seq<nat>, log: seq<Action>, next: nat)

  datatype Event =
    | Submit(transfer: Transfer, periodic: bool, sched: Sched, found: bool, frame: nat)
    | Interrupted(channel: nat, env: Env)
    | TimerFired(channel: nat, found: bool, frame: nat)

  // ----- Steps -----

  function LowestFree(inUse: set<nat>, from: nat, channels: nat): nat
    decreases channels - from
  {
    if from >= channels then MAX_CHANNELS
    else if from !in inUse then from
    else LowestFree(inUse, from + 1, channels)
  }

  function MaskFor(s: Stage): Mask {
    if s.subState == WaitForChannelDisable then HaltedMask else FullMask
  }

  function SettledSlot(id: nat, outcome: Outcome): Slot {
    match outcome
    case Armed(s) => Busy(id, s)
    case Delayed(s) => Busy(id, s)
    case Ended(_, _) => Free
  }

  /** Effect of a wake-up on everything but the slots; the mask was cleared when it arrived. */
  function SettledRest(h: Host, ch: nat, id: nat, outcome: Outcome): Host
    requires ch < |h.masks| == |h.timers|
  {
    match outcome
    case Armed(s) => h.(masks := h.masks[ch := MaskFor(s)])
    case Delayed(s) => h.(masks := h.masks[ch := Off], timers := h.timers[ch := h.timers[ch] + 1])
    case Ended(ok, _) =>
      h.(masks := h.masks[ch := Off], inUse := h.inUse - {ch}, enabled := h.enabled - {ch},
         log := h.log + [Freed(id, ch), Completed(id, ok)])
  }

  function Settle(h: Host, ch: nat, id: nat, outcome: Outcome): Host
    requires ch < |h.slots| == |h.masks| == |h.timers|
  {
    SettledRest(h, ch, id, outcome).(slots := h.slots[ch := SettledSlot(id, outcome)])
  }

  /** Interrupts arrive only on channels whose interrupts are on; kernel timers fire only when
      pending; submitted transfers are new ones. */
  predicate Admissible(h: Host, e: Event)
    requires Inv(h)
  {
    match e
    case Submit(x, periodic, sched, _, _) =>
      Sound(x) && (x.split ==> sched.kind == if periodic then Periodic else NonPeriodic)
    case Interrupted(ch, env) =>
      ch < h.channels && ch in h.enabled && h.masks[ch] != Off &&
      (assert ChannelInv(h, ch); Tolerable(h.slots[ch].stage, env.report))
    case TimerFired(ch, _, _) => ch < h.channels && h.timers[ch] > 0
  }

  function Step(h: Host, e: Event): Host
    requires Inv(h) && Admissible(h, e)
  {
    match e
    case Submit(x, periodic, sched, found, frame) =>
      var ch := LowestFree(h.inUse, 0, h.channels);
      if ch >= h.channels then h
      else
        LowestFreeIs(h.inUse, 0, h.channels);
        var s := Activate(NewStage(x, periodic, sched), found, frame);
        Settle(h.(inUse := h.inUse + {ch}, enabled := h.enabled + {ch},
                  log := h.log + [Allocated(h.next, ch)], next := h.next + 1),
               ch, h.next, Armed(s))
    case Interrupted(ch, env) =>
      assert ChannelInv(h, ch);
      Settle(h, ch, h.slots[ch].id, AfterInterrupt(h.slots[ch].stage, env))
    case TimerFired(ch, found, frame) =>
      assert ChannelInv(h, ch);
      Settle(h.(timers := h.timers[ch := h.timers[ch] - 1]), ch, h.slots[ch].id,
             Armed(Activate(h.slots[ch].stage, found, frame)))
  }

  // ----- Invariant -----

  function History(log: seq<Action>, id: nat): seq<Action> {
    if log == [] then []
    else History(log[..|log| - 1], id) + if log[|log| - 1].id == id then [log[|log| - 1]] else []
  }

  predicate LivesOn(h: Host, id: nat, ch: nat) {
    ch < |h.slots| && h.slots[ch].Busy? && h.slots[ch].id == id
  }

  /** Allocated and still on its channel, or allocated, freed once and then completed once. */
  ghost predicate GoodHistory(h: Host, id: nat) {
    || (exists ch :: LivesOn(h, id, ch) && History(h.log, id) == [Allocated(id, ch)])
    || ((exists ch, ok :: History(h.log, id) == [Allocated(id, ch), Freed(id, ch), Completed(id, ok)])
        && forall ch :: !LivesOn(h, id, ch))
  }

  /** Number of wake-ups a channel waits for: an interrupt it can raise, and kernel timers. */
  function WakeUps(h: Host, ch: nat): nat
    requires ch < |h.masks| == |h.timers|
  {
    h.timers[ch] + if ch in h.enabled && h.masks[ch] != Off then 1 else 0
  }

  predicate ChannelInv(h: Host, ch: nat)
    requires ch < |h.slots| == |h.masks| == |h.timers|
  {
    match h.slots[ch]
    case Free => ch !in h.inUse && ch !in h.enabled && h.masks[ch] == Off && h.timers[ch] == 0
    case Busy(id, s) =>
      && ch in h.inUse && ch in h.enabled && id < h.next && Alive(s)
      && (s.state == PeriodicDelay ==> h.masks[ch] == Off && h.timers[ch] == 1)
      && (s.state != PeriodicDelay ==> h.masks[ch] == MaskFor(s) && h.timers[ch] == 0)
  }

  predicate Shape(h: Host) {
    && h.channels <= MAX_CHANNELS
    && |h.slots| == |h.masks| == |h.timers| == h.channels
    && (forall ch | ch in h.inUse :: ch < h.channels)
    && (forall ch | 0 <= ch < h.channels :: ChannelInv(h, ch))
    && (forall c, d | 0 <= c < d < h.channels && h.slots[c].Busy? && h.slots[d].Busy? ::
          h.slots[c].id != h.slots[d].id)
  }

  ghost predicate Inv(h: Host) {
    && Shape(h)
    && (forall id | 0 <= id < h.next :: GoodHistory(h, id))
    && (forall id | id >= h.next :: History(h.log, id) == [])
  }

  lemma {:induction false} LowestFreeIs(inUse: set<nat>, from: nat, channels: nat)
    requires channels <= MAX_CHANNELS
    ensures var ch := LowestFree(inUse, from, channels);
      && (ch < channels ==> from <= ch && ch !in inUse)
      && (forall c | from <= c < channels && c < ch :: c in inUse)
      && (ch >= channels ==> ch == 16)
    decreases channels - from
  {
    if from < channels && from in inUse {
      LowestFreeIs(inUse, from + 1, channels);
    }
  }

  lemma HistoryAppend(log: seq<Action>, a: Action, id: nat)
    ensures History(log + [a], id) == History(log, id) + if a.id == id then [a] else []
  {
    assert (log + [a])[..|log|] == log;
  }

  lemma HistoryAppend2(log: seq<Action>, a: Action, b: Action, id: nat)
    requires a.id == b.id
    ensures History(log + [a, b], id) == History(log, id) + if a.id == id then [a, b] else []
  {
    assert log + [a, b] == (log + [a]) + [b];
    HistoryAppend(log, a, id);
    HistoryAppend(log + [a], b, id);
  }

  /** Replacing the stage on a busy channel, or ending it. */
  lemma SettleKeepsInv(h: Host, k: Host, ch: nat, outcome: Outcome)
    requires Inv(h) && ch < h.channels && h.slots[ch].Busy?
    requires k == Settle(h, ch, h.slots[ch].id, outcome) || (h.timers[ch] == 1 && outcome.Armed?
               && k == Settle(h.(timers := h.timers[ch := 0]), ch, h.slots[ch].id, outcome))
    requires k.timers[ch] == if outcome.Delayed? then 1 else 0
    requires outcome.Armed? ==> Alive(outcome.stage) && outcome.stage.state != PeriodicDelay
    requires outcome.Delayed? ==> Live(outcome.stage) && outcome.stage.state == PeriodicDelay
    ensures Inv(k)
  {
    var id := h.slots[ch].id;
    assert ChannelInv(h, ch);
    forall c | 0 <= c < h.channels
      ensures ChannelInv(k, c)
    {
      assert ChannelInv(h, c);
      if c != ch {
        assert k.slots[c] == h.slots[c] && k.masks[c] == h.masks[c] && k.timers[c] == h.timers[c];
      }
    }
    assert Shape(k);
    forall i: nat
      ensures i < k.next ==> GoodHistory(k, i)
      ensures i >= k.next ==> History(k.log, i) == []
    {
      if outcome.Ended? {
        HistoryAppend2(h.log, Freed(id, ch), Completed(id, outcome.ok), i);
      }
      if i < h.next {
        assert GoodHistory(h, i);
        SettledHistory(h, k, ch, i, outcome);
      }
    }
  }

  lemma SettledHistory(h: Host, k: Host, ch: nat, i: nat, outcome: Outcome)
    requires Shape(h) && ch < h.channels && h.slots[ch].Busy?
    requires |k.slots| == h.channels && k.next == h.next
    requires forall c | 0 <= c < h.channels && c != ch :: k.slots[c] == h.slots[c]
    requires outcome.Ended? ==> k.slots[ch] == Free
    requires !outcome.Ended? ==> k.slots[ch].Busy? && k.slots[ch].id == h.slots[ch].id
    requires History(k.log, i) == History(h.log, i) +
      if outcome.Ended? && h.slots[ch].id == i then [Freed(i, ch), Completed(i, outcome.ok)] else []
    requires GoodHistory(h, i)
    ensures GoodHistory(k, i)
  {
    if c :| LivesOn(h, i, c) && History(h.log, i) == [Allocated(i, c)] {
      if c == ch && outcome.Ended? {
        assert History(k.log, i) == [Allocated(i, c), Freed(i, c), Completed(i, outcome.ok)];
        assert forall d :: !LivesOn(k, i, d) by {
          forall d
            ensures !LivesOn(k, i, d)
          {
            assert LivesOn(k, i, d) ==> LivesOn(h, i, d);
          }
        }
      } else {
        assert LivesOn(k, i, c) && History(k.log, i) == [Allocated(i, c)];
      }
    } else {
      assert !LivesOn(h, i, ch);
      assert forall d :: LivesOn(k, i, d) ==> LivesOn(h, i, d);
    }
  }

  lemma SubmitKeepsShape(h: Host, e: Event)
    requires Inv(h) && e.Submit? && Admissible(h, e) && LowestFree(h.inUse, 0, h.channels) < h.channels
    ensures Shape(Step(h, e))
  {
    hide Activate, Live, Sound, Drained, Scheduled, GoodHistory, History;
    LowestFreeIs(h.inUse, 0, h.channels);
    var k := Step(h, e);
    assert ChannelInv(h, LowestFree(h.inUse, 0, h.channels));
    ActivateLive(NewStage(e.transfer, e.periodic, e.sched), e.found, e.frame);
    forall c | 0 <= c < h.channels
      ensures ChannelInv(k, c)
      ensures h.slots[c].Busy? ==> h.slots[c].id < h.next
    {
      assert ChannelInv(h, c);
    }
  }

  /** What a submission that finds a channel does to the slots and the log. */
  lemma Submitted(h: Host, e: Event)
    requires Inv(h) && e.Submit? && Admissible(h, e) && LowestFree(h.inUse, 0, h.channels) < h.channels
    ensures var ch, k := LowestFree(h.inUse, 0, h.channels), Step(h, e);
      && ch < |h.slots| == |k.slots| && h.slots[ch] == Free && k.slots[ch].Busy? && k.slots[ch].id == h.next
      && (forall c | 0 <= c < |h.slots| && c != ch :: k.slots[c] == h.slots[c])
      && (forall c | 0 <= c < |h.slots| && h.slots[c].Busy? :: h.slots[c].id < h.next)
      && k.log == h.log + [Allocated(h.next, ch)] && k.next == h.next + 1
  {
    hide Activate, Alive, GoodHistory, History;
    LowestFreeIs(h.inUse, 0, h.channels);
    var ch := LowestFree(h.inUse, 0, h.channels);
    assert ChannelInv(h, ch);
    forall c | 0 <= c < |h.slots| && h.slots[c].Busy?
      ensures h.slots[c].id < h.next
    {
      assert ChannelInv(h, c);
    }
  }

  lemma SubmitKeepsInv(h: Host, e: Event)
    requires Inv(h) && e.Submit? && Admissible(h, e)
    ensures Inv(Step(h, e))
  {
    LowestFreeIs(h.inUse, 0, h.channels);
    var ch := LowestFree(h.inUse, 0, h.channels);
    if ch < h.channels {
      Submitted(h, e);
      SubmitKeepsShape(h, e);
      hide Step, Shape;
      var k := Step(h, e);
      forall i: nat
        ensures i < k.next ==> GoodHistory(k, i)
        ensures i >= k.next ==> History(k.log, i) == []
      {
        HistoryAppend(h.log, Allocated(h.next, ch), i);
        if i < h.next {
          assert GoodHistory(h, i);
          SubmittedHistory(h, k, ch, i);
        } else if i == h.next {
          assert LivesOn(k, i, ch);
        }
      }
    }
  }

  lemma SubmittedHistory(h: Host, k: Host, ch: nat, i: nat)
    requires |h.slots| == |k.slots| && ch < |h.slots| && h.slots[ch] == Free
    requires forall c | 0 <= c < |h.slots| && c != ch :: k.slots[c] == h.slots[c]
    requires k.slots[ch].Busy? && k.slots[ch].id != i
    requires History(k.log, i) == History(h.log, i) && GoodHistory(h, i)
    ensures GoodHistory(k, i)
  {
    assert forall d :: LivesOn(k, i, d) <==> LivesOn(h, i, d);
  }

  lemma StepKeepsInv(h: Host, e: Event)
    requires Inv(h) && Admissible(h, e)
    ensures Inv(Step(h, e))
  {
    match e
    case Submit(_, _, _, _, _) =>
      SubmitKeepsInv(h, e);
    case Interrupted(ch, env) =>
      assert ChannelInv(h, ch);
      InterruptKeepsAlive(h.slots[ch].stage, env);
      SettleKeepsInv(h, Step(h, e), ch, AfterInterrupt(h.slots[ch].stage, env));
    case TimerFired(ch, found, frame) =>
      assert ChannelInv(h, ch);
      ActivateLive(h.slots[ch].stage, found, frame);
      SettleKeepsInv(h, Step(h, e), ch, Armed(Activate(h.slots[ch].stage, found, frame)));
  }

  // ----- Runs -----

  function Start(channels: nat): Host {
    Host(channels, {}, seq(channels, _ => Free), seq(channels, _ => Off), {}, seq(channels, _ => 0), [], 0)
  }

  lemma StartInv(channels: nat)
    requires channels <= MAX_CHANNELS
    ensures Inv(Start(channels))
  {
  }

  ghost predicate AdmissibleRun(h: Host, events: seq<Event>)
    requires Inv(h)
    decreases |events|
  {
    events == [] ||
    (Admissible(h, events[0]) && (StepKeepsInv(h, events[0]); AdmissibleRun(Step(h, events[0]), events[1..])))
  }

  ghost function Run(h: Host, events: seq<Event>): Host
    requires Inv(h) && AdmissibleRun(h, events)
    decreases |events|
  {
    if events == [] then h
    else StepKeepsInv(h, events[0]); Run(Step(h, events[0]), events[1..])
  }

  lemma {:induction false} RunKeepsInv(h: Host, events: seq<Event>)
    requires Inv(h) && AdmissibleRun(h, events)
    ensures Inv(Run(h, events))
    decreases |events|
  {
    if events != [] {
      StepKeepsInv(h, events[0]);
      RunKeepsInv(Step(h, events[0]), events[1..]);
    }
  }

  /** Over every interleaving of submissions, channel interrupts and timer ticks: the allocation bit
      of a channel is set exactly while a stage lives on it; a live stage waits for exactly one
      wake-up and a free channel for none; a stage lives on one channel; and every accepted stage
      was allocated once and, once it has ended, freed its channel and then completed, once each. */
  lemma EveryRun(channels: nat, events: seq<Event>)
    requires channels <= MAX_CHANNELS
    requires (StartInv(channels); AdmissibleRun(Start(channels), events))
    ensures (StartInv(channels);
      var h := Run(Start(channels), events);
      && |h.slots| == |h.masks| == |h.timers| == h.channels == channels
      && (forall ch | 0 <= ch < channels ::
            && (ch in h.inUse <==> h.slots[ch].Busy?)
            && WakeUps(h, ch) == (if h.slots[ch].Busy? then 1 else 0)
            && (h.slots[ch].Busy? && h.slots[ch].stage.state == PeriodicDelay ==> h.timers[ch] == 1))
      && (forall c, d, id | LivesOn(h, id, c) && LivesOn(h, id, d) :: c == d)
      && (forall id | 0 <= id < h.next :: GoodHistory(h, id)))
  {
    StartInv(channels);
    var h := Run(Start(channels), events);
    RunKeepsInv(Start(channels), events);
    RunKeepsChannels(Start(channels), events);
    forall ch | 0 <= ch < channels
      ensures ch in h.inUse <==> h.slots[ch].Busy?
      ensures WakeUps(h, ch) == if h.slots[ch].Busy? then 1 else 0
      ensures h.slots[ch].Busy? && h.slots[ch].stage.state == PeriodicDelay ==> h.timers[ch] == 1
    {
      assert ChannelInv(h, ch);
    }
  }

  lemma {:induction false} RunKeepsChannels(h: Host, events: seq<Event>)
    requires Inv(h) && AdmissibleRun(h, events)
    ensures Run(h, events).channels == h.channels
    decreases |events|
  {
    if events != [] {
      StepKeepsInv(h, events[0]);
      RunKeepsChannels(Step(h, events[0]), events[1..]);
    }
  }

  /** A submission is turned away exactly when every channel is in use, and then changes nothing. */
  lemma RefusedIffFull(h: Host, e: Event)
    requires Inv(h) && e.Submit? && Admissible(h, e)
    ensures Step(h, e).next == h.next <==> (forall ch | 0 <= ch < h.channels :: h.slots[ch].Busy?)
    ensures Step(h, e).next == h.next ==> Step(h, e) == h
  {
    LowestFreeIs(h.inUse, 0, h.channels);
    forall ch | 0 <= ch < h.channels
      ensures ch in h.inUse <==> h.slots[ch].Busy?
    {
      assert ChannelInv(h, ch);
    }
  }

  /** Serving one channel leaves the pending interrupts of the others admissible, so the order in
      which one run of the interrupt handler serves them does not matter for their validity. */
  lemma OthersStayAdmissible(h: Host, ch: nat, env: Env, other: nat, otherEnv: Env)
    requires Inv(h) && ch != other
    requires Admissible(h, Interrupted(ch, env)) && Admissible(h, Interrupted(other, otherEnv))
    ensures (StepKeepsInv(h, Interrupted(ch, env));
             Admissible(Step(h, Interrupted(ch, env)), Interrupted(other, otherEnv)))
  {
    StepKeepsInv(h, Interrupted(ch, env));
    var k := Step(h, Interrupted(ch, env));
    assert k.slots[other] == h.slots[other] && k.masks[other] == h.masks[other];
  }

  /** The interrupts that one reading of the all-channel register reports, from channel `from` on. */
  function PendingEvents(pending: set<nat>, envs: seq<Env>, from: nat): seq<Event>
    decreases |envs| - from
  {
    if from >= |envs| then []
    else if from in pending then [Interrupted(from, envs[from])] + PendingEvents(pending, envs, from + 1)
    else PendingEvents(pending, envs, from + 1)
  }

  /** One interrupt for each pending channel, with what that channel was found like, in the order of the
      channels. */
  lemma {:induction false} PendingAre(pending: set<nat>, envs: seq<Env>, from: nat)
    ensures var es := PendingEvents(pending, envs, from);
      && (forall ch | from <= ch < |envs| && ch in pending :: Interrupted(ch, envs[ch]) in es)
      && (forall e | e in es :: e.Interrupted? && from <= e.channel < |envs| && e.channel in pending && e.env == envs[e.channel])
      && (forall i, j | 0 <= i < j < |es| :: es[i].channel < es[j].channel)
    decreases |envs| - from
  {
    if from < |envs| {
      PendingAre(pending, envs, from + 1);
    }
  }

  ghost predicate AllAdmissible(h: Host, pending: set<nat>, envs: seq<Env>, from: nat)
    requires Inv(h)
  {
    forall ch | from <= ch < |envs| && ch in pending :: Admissible(h, Interrupted(ch, envs[ch]))
  }

  lemma ServeOneOfAll(h: Host, pending: set<nat>, envs: seq<Env>, ch: nat)
    requires Inv(h) && ch < |envs| && ch in pending && AllAdmissible(h, pending, envs, ch)
    ensures (StepKeepsInv(h, Interrupted(ch, envs[ch]));
             AllAdmissible(Step(h, Interrupted(ch, envs[ch])), pending, envs, ch + 1))
  {
    StepKeepsInv(h, Interrupted(ch, envs[ch]));
    forall other | ch + 1 <= other < |envs| && other in pending
      ensures Admissible(Step(h, Interrupted(ch, envs[ch])), Interrupted(other, envs[other]))
    {
      OthersStayAdmissible(h, ch, envs[ch], other, envs[other]);
    }
  }

  lemma ServeFirst(h: Host, e: Event, events: seq<Event>)
    requires Inv(h) && AdmissibleRun(h, [e] + events)
    ensures Admissible(h, e)
    ensures (StepKeepsInv(h, e); AdmissibleRun(Step(h, e), events) && Run(h, [e] + events) == Run(Step(h, e), events))
  {
    assert ([e] + events)[1..] == events;
  }

  lemma {:induction false} PendingIsAdmissibleRun(h: Host, pending: set<nat>, envs: seq<Env>, from: nat)
    requires Inv(h) && AllAdmissible(h, pending, envs, from)
    ensures AdmissibleRun(h, PendingEvents(pending, envs, from))
    decreases |envs| - from
  {
    if from < |envs| {
      if from in pending {
        ServeOneOfAll(h, pending, envs, from);
        StepKeepsInv(h, Interrupted(from, envs[from]));
        PendingIsAdmissibleRun(Step(h, Interrupted(from, envs[from])), pending, envs, from + 1);
        assert PendingEvents(pending, envs, from)[1..] == PendingEvents(pending, envs, from + 1);
      } else {
        PendingIsAdmissibleRun(h, pending, envs, from + 1);
      }
    }
  }
}
