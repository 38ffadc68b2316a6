/** uspi/lib/dwhcidevice.c as the driver runs it: stage objects in place, one per channel. */
module HostDevice {
  import opened Basics
  import opened SplitScheduler
  import opened UsbEndpoint
  import opened TransferStage
  import opened HostController

  ghost predicate Linked(s: StageData)
    reads s, s.endpoint
  {
    s.urb != null ==>
      && s.endpoint != null && s.urb.endpoint == s.endpoint && s.endpoint.Valid()
      && (s.statusStage ==> s.endpoint.endpointType == Control)
  }

  /** A data stage has something to transfer, and its size can be rounded up to packets in 32 bits. */
  ghost predicate Submittable(urb: Request, statusStage: bool)
    reads urb.endpoint
  {
    var e := urb.endpoint;
    var size := StageBuffer(statusStage, e.nextPid, urb.setupData, urb.buffer, urb.bufLen, 0).1;
    (!statusStage ==> size > 0) && e.maxPacketSize < U32 && size + e.maxPacketSize <= U32
  }

  lemma NewTransferForSound(urb: Request, statusStage: bool, temp: nat)
    requires urb.endpoint.maxPacketSize > 0 && Submittable(urb, statusStage)
    ensures Sound(NewTransferFor(urb, statusStage, temp))
  {
    var e := urb.endpoint;
    var buffer := StageBuffer(statusStage, e.nextPid, urb.setupData, urb.buffer, urb.bufLen, temp);
    NewTransferSound(e.needsSplit, statusStage, e.maxPacketSize, buffer.1, buffer.0);
  }

  class Device {
    const channels: nat
    const stages: seq<StageData>
    const chanMask: array<Mask>
    var channelsInUse: set<nat>
    var allChanMask: set<nat>
    // Kernel timers pending with the timer handler and the stage of a channel.
    var kernelTimers: seq<nat>
    // The packet identifier last programmed into each channel.
    var chanPids: seq<Pid>
    ghost var ids: seq<nat>
    ghost var log: seq<Action>
    ghost var next: nat

    ghost function SlotAt(ch: nat): Slot
      requires ch < |stages| == |ids|
      reads this, stages[ch], stages[ch].sched
    {
      if stages[ch].urb == null then Free else Busy(ids[ch], stages[ch].View())
    }

    ghost function Schedulers(): set<object> {
      set s | s in stages :: s.sched
    }

    ghost function View(): Host
      requires |stages| == |ids| == channels
      reads this, chanMask, stages, Schedulers()
    {
      Host(channels, channelsInUse,
           seq(channels, ch requires 0 <= ch < channels == |stages| == |ids| reads this, stages, Schedulers() => SlotAt(ch)),
           chanMask[..], allChanMask, kernelTimers, log, next)
    }

    ghost predicate Structure()
      reads this
    {
      && |stages| == |ids| == |kernelTimers| == |chanPids| == chanMask.Length == channels
      && (forall c | 0 <= c < channels :: stages[c].channel == c)
      && (forall c, d | 0 <= c < d < channels :: stages[c] != stages[d] && stages[c].sched != stages[d].sched)
    }

    /** Everything in View() but the slots. */
    ghost function Rest(): Host
      reads this, chanMask
    {
      Host(channels, channelsInUse, [], chanMask[..], allChanMask, kernelTimers, log, next)
    }

    ghost predicate Valid()
      reads *
    {
      && Structure()
      && (forall ch | 0 <= ch < channels :: Linked(stages[ch]))
      && Inv(View())
    }

    /** The device after its initialization; `temps` are the addresses of the temporary buffers. */
    constructor (channels: nat, temps: seq<nat>)
      requires channels <= MAX_CHANNELS && |temps| == channels
      ensures Valid() && View() == Start(channels)
      ensures this.channels == channels
    {
      var all: seq<StageData> := [];
      for c := 0 to channels
        invariant |all| == c
        invariant forall i | 0 <= i < c :: all[i].channel == i && all[i].urb == null
        invariant forall i, j | 0 <= i < j < c :: all[i] != all[j] && all[i].sched != all[j].sched
        invariant forall i | 0 <= i < c :: fresh(all[i]) && fresh(all[i].sched)
      {
        var s := new StageData(c, temps[c]);
        all := all + [s];
      }
      this.channels := channels;
      stages := all;
      chanMask := new Mask[channels](_ => Off);
      channelsInUse := {};
      allChanMask := {};
      kernelTimers := seq(channels, _ => 0);
      chanPids := seq(channels, _ => Setup);
      ids := seq(channels, _ => 0);
      log := [];
      next := 0;
      new;
      StartInv(channels);
      assert View().slots == Start(channels).slots;
      assert View() == Start(channels);
    }

    method AllocateChannel() returns (ch: nat)
      requires channels <= MAX_CHANNELS
      modifies `channelsInUse
      ensures ch == LowestFree(old(channelsInUse), 0, channels)
      ensures channelsInUse == if ch < channels then old(channelsInUse) + {ch} else old(channelsInUse)
    {
      ch := 0;
      while ch < channels
        invariant ch <= channels && channelsInUse == old(channelsInUse)
        invariant LowestFree(channelsInUse, ch, channels) == LowestFree(channelsInUse, 0, channels)
      {
        if ch !in channelsInUse {
          channelsInUse := channelsInUse + {ch};
          return;
        }
        ch := ch + 1;
      }
      return MAX_CHANNELS;
    }

    method FreeChannel(ch: nat)
      requires ch in channelsInUse
      modifies `channelsInUse
      ensures channelsInUse == old(channelsInUse) - {ch}
    {
      channelsInUse := channelsInUse - {ch};
    }

    ghost predicate Owns(s: StageData)
      reads this
    {
      s.channel < |stages| && stages[s.channel] == s
    }

    /** A transaction of the stage was started with the identifier its endpoint is at, and with DATA1
        in a status stage. */
    ghost predicate Programmed(s: StageData)
      reads this, s, s.endpoint
    {
      s.channel < |chanPids| && s.endpoint != null && chanPids[s.channel] == NextPid(s.endpoint.nextPid, s.statusStage)
    }

    method ProgramChannel(s: StageData, frame: nat)
      requires Structure() && Owns(s) && s.endpoint != null
      requires s.statusStage ==> s.endpoint.endpointType == Control
      modifies this`chanPids, chanMask, s`subState, s.sched
      ensures Structure() && Programmed(s)
      ensures chanPids[s.channel] == (if s.statusStage then Data1 else s.endpoint.nextPid) && chanMask[s.channel] == FullMask
      ensures s.View() == StartChannel(old(s.View()), frame)
      ensures chanMask[..] == old(chanMask[..])[s.channel := MaskFor(s.View())]
    {
      s.subState := WaitForTransactionComplete;
      if s.splitTransaction {
        s.sched.WaitForFrame(frame);
      }
      var pid := s.endpoint.GetNextPid(s.statusStage);
      chanPids := chanPids[s.channel := pid];
      chanMask[s.channel] := FullMask;
    }

    /** `found` tells whether the channel was still enabled in the controller. */
    method BeginTransaction(s: StageData, found: bool, frame: nat)
      requires Structure() && Owns(s) && s.endpoint != null
      requires s.statusStage ==> s.endpoint.endpointType == Control
      modifies this`chanPids, chanMask, s`subState, s.sched
      ensures Structure() && (!found || s.subState == WaitForTransactionComplete ==> Programmed(s))
      ensures s.View() == StartTransaction(old(s.View()), found, frame)
      ensures found ==> s.subState == WaitForChannelDisable && chanMask[s.channel] == HaltedMask
      ensures chanMask[..] == old(chanMask[..])[s.channel := MaskFor(s.View())]
    {
      if found {
        s.subState := WaitForChannelDisable;
        chanMask[s.channel] := HaltedMask;
      } else {
        ProgramChannel(s, frame);
      }
    }

    method BeginStage(s: StageData, urb: Request, statusStage: bool, found: bool, frame: nat)
      returns (ghost begun: Stage)
      requires Structure() && Owns(s) && urb.endpoint.Valid()
      requires statusStage ==> urb.endpoint.endpointType == Control
      modifies this`chanPids, chanMask, s, s.sched
      ensures Structure() && (!found ==> Programmed(s))
      ensures s.urb == urb && s.endpoint == urb.endpoint && s.statusStage == statusStage
      ensures s.View() == Activate(begun, found, frame)
      ensures chanMask[..] == old(chanMask[..])[s.channel := MaskFor(s.View())]
      ensures begun == NewStage(NewTransferFor(urb, statusStage, s.tempBuffer), begun.periodic, begun.sched)
      ensures begun.xfer.split ==> begun.sched.kind == if begun.periodic then Periodic else NonPeriodic
    {
      s.Init(urb, statusStage);
      begun := s.View();
      s.BeginCycle();
      BeginTransaction(s, found, frame);
    }

    /** What a submission does once it has a channel. */
    method Accept(s: StageData, urb: Request, statusStage: bool, found: bool, frame: nat)
      returns (ghost begun: Stage)
      requires Structure() && Owns(s) && urb.endpoint.Valid()
      requires statusStage ==> urb.endpoint.endpointType == Control
      modifies this`allChanMask, this`ids, this`log, this`next, this`chanPids, chanMask, s, s.sched
      ensures s.endpoint == urb.endpoint && s.statusStage == statusStage && (!found ==> Programmed(s))
      ensures Structure() && Linked(s) && ids == old(ids)[s.channel := old(next)]
      ensures begun == NewStage(NewTransferFor(urb, statusStage, s.tempBuffer), begun.periodic, begun.sched)
      ensures begun.xfer.split ==> begun.sched.kind == if begun.periodic then Periodic else NonPeriodic
      ensures var armed := Activate(begun, found, frame);
        && SlotAt(s.channel) == Busy(old(next), armed)
        && Rest() == old(Rest()).(
             enabled := old(allChanMask) + {s.channel}, masks := old(chanMask[..])[s.channel := MaskFor(armed)],
             log := old(log) + [Allocated(old(next), s.channel)], next := old(next) + 1)
    {
      allChanMask := allChanMask + {s.channel};
      begun := BeginStage(s, urb, statusStage, found, frame);
      ids := ids[s.channel := next];
      log := log + [Allocated(next, s.channel)];
      next := next + 1;
    }

    /** Submission of one stage of a request. Returns the event it amounts to; the temporary buffer
        is the one a status stage uses. */
    method TransferStageAsync(urb: Request, statusStage: bool, found: bool, frame: nat)
      returns (ok: bool, ghost event: Event, ghost temp: nat)
      requires Valid() && urb.endpoint.Valid()
      requires statusStage ==> urb.endpoint.endpointType == Control
      requires Submittable(urb, statusStage)
      modifies this, chanMask, stages, Schedulers()
      ensures Valid()
      ensures event.Submit? && event.found == found && event.frame == frame
      ensures event.transfer == NewTransferFor(urb, statusStage, temp)
      ensures Admissible(old(View()), event) && View() == Step(old(View()), event)
      ensures ok <==> next == old(next) + 1
      ensures var ch := LowestFree(old(channelsInUse), 0, channels);
        ok ==> ch < channels && stages[ch].endpoint == urb.endpoint && stages[ch].statusStage == statusStage
                && (!found ==> Programmed(stages[ch]))
    {
      hide Activate, Live, Alive, Sound, Drained, Scheduled, History, GoodHistory, Submittable, NewTransferFor, Programmed,
        StageBuffer, MaskFor;
      ghost var h := View();
      temp := 0;
      LowestFreeIs(channelsInUse, 0, channels);
      var ch := AllocateChannel();
      if ch >= channels {
        NewTransferForSound(urb, statusStage, 0);
        event := Submit(NewTransferFor(urb, statusStage, 0), false, Sched(NonPeriodic, Unknown, 0, 0), found, frame);
        return false, event, temp;
      }
      assert ChannelInv(h, ch);
      temp := stages[ch].tempBuffer;
      NewTransferForSound(urb, statusStage, temp);
      ghost var begun := Accept(stages[ch], urb, statusStage, found, frame);
      event := Submit(begun.xfer, begun.periodic, begun.sched, found, frame);
      ok := true;
      assert forall c | 0 <= c < channels && c != ch :: SlotAt(c) == h.slots[c];
      assert View().slots == h.slots[ch := SlotAt(ch)];
      assert View() == Step(h, event);
      SubmitKeepsInv(h, event);
    }

    method EndStage(s: StageData, ok: bool)
      requires Structure() && Owns(s) && s.urb != null && s.channel in channelsInUse
      modifies this, s, s.urb
      ensures Structure() && s.urb == null && s.endpoint == null
      ensures old(s.urb).status == ok
      ensures ok && !old(s.statusStage) ==> old(s.urb).resultLen == ResultLen(old(s.Counters()))
      ensures channelsInUse == old(channelsInUse) - {s.channel} && allChanMask == old(allChanMask) - {s.channel}
      ensures log == old(log) + [Freed(ids[s.channel], s.channel), Completed(ids[s.channel], ok)]
      ensures ids == old(ids) && next == old(next) && kernelTimers == old(kernelTimers)
    {
      var urb := s.urb;
      allChanMask := allChanMask - {s.channel};
      if ok && !s.statusStage {
        urb.resultLen := s.GetResultLen();
      }
      urb.status := ok;
      s.endpoint := null;
      s.urb := null;
      FreeChannel(s.channel);
      log := log + [Freed(ids[s.channel], s.channel), Completed(ids[s.channel], ok)];
    }

    /** What follows the decision about a stage. */
    method Conclude(s: StageData, verdict: Verdict, env: Env)
      requires Structure() && Owns(s) && Linked(s) && s.urb != null && s.channel in channelsInUse
      requires chanMask[s.channel] == Off
      modifies this, chanMask, s, s.sched, s.urb
      ensures Structure() && ids == old(ids) && Linked(s)
      ensures verdict.Restart? && s.subState == WaitForTransactionComplete ==> Programmed(s)
      ensures var outcome := Decided(old(s.View()), verdict, env.enabled, env.frame);
        && Rest() == SettledRest(old(Rest()), s.channel, ids[s.channel], outcome)
        && SlotAt(s.channel) == SettledSlot(ids[s.channel], outcome)
        && (outcome.Ended? ==> old(s.urb).status == outcome.ok)
        && (outcome.Ended? && outcome.resultLen.Some? ==> old(s.urb).resultLen == outcome.resultLen.value)
    {
      match verdict {
        case Restart =>
          BeginTransaction(s, env.enabled, env.frame);
        case Delay =>
          kernelTimers := kernelTimers[s.channel := kernelTimers[s.channel] + 1];
          assert chanMask[..] == chanMask[..][s.channel := Off];
        case Finish(ok) =>
          EndStage(s, ok);
          assert chanMask[..] == chanMask[..][s.channel := Off];
      }
    }

    /** A report on the stage's transaction. */
    method ServeReport(s: StageData, env: Env)
      requires Structure() && Owns(s) && Linked(s) && s.urb != null && s.channel in channelsInUse
      requires chanMask[s.channel] == Off
      requires Alive(s.View()) && s.state != PeriodicDelay && Tolerable(s.View(), env.report)
      requires s.subState == WaitForTransactionComplete && !HaltedOnly(env.report.status)
      modifies this, chanMask, s, s.sched, s.endpoint, s.urb
      ensures Structure() && ids == old(ids) && Linked(s)
      ensures var outcome := AfterInterrupt(old(s.View()), env);
        && Rest() == SettledRest(old(Rest()), s.channel, ids[s.channel], outcome)
        && SlotAt(s.channel) == SettledSlot(ids[s.channel], outcome)
        && (outcome.Ended? ==> old(s.urb).status == outcome.ok)
        && (outcome.Ended? && outcome.resultLen.Some? ==> old(s.urb).resultLen == outcome.resultLen.value)
      ensures AfterInterrupt(old(s.View()), env).Armed? && s.subState == WaitForTransactionComplete ==> Programmed(s)
      ensures forall e: Endpoint | old(allocated(e)) && old(e.Valid()) :: e.Valid()
    {
      hide Sound, Drained, Scheduled, Tolerable, ResultLen, React, Complete, SettledRest, SettledSlot;
      var verdict := s.Serve(env.report);
      Conclude(s, verdict, env);
    }

    /** The handler proper, for a stage that waits for its channel. */
    method ServeStage(s: StageData, env: Env)
      requires Structure() && Owns(s) && Linked(s) && s.urb != null && s.channel in channelsInUse
      requires Alive(s.View()) && s.state != PeriodicDelay && Tolerable(s.View(), env.report)
      modifies this, chanMask, s, s.sched, s.endpoint, s.urb
      ensures Structure() && ids == old(ids) && Linked(s)
      ensures var outcome := AfterInterrupt(old(s.View()), env);
        && Rest() == SettledRest(old(Rest()), s.channel, ids[s.channel], outcome)
        && SlotAt(s.channel) == SettledSlot(ids[s.channel], outcome)
        && (outcome.Ended? ==> old(s.urb).status == outcome.ok)
        && (outcome.Ended? && outcome.resultLen.Some? ==> old(s.urb).resultLen == outcome.resultLen.value)
      ensures AfterInterrupt(old(s.View()), env).Armed? && s.subState == WaitForTransactionComplete ==> Programmed(s)
      ensures forall e: Endpoint | old(allocated(e)) && old(e.Valid()) :: e.Valid()
    {
      hide Sound, Drained, Scheduled, Alive, Tolerable, ResultLen, React, Complete;
      ghost var rest := Rest();
      chanMask[s.channel] := Off;
      assert Rest() == rest.(masks := rest.masks[s.channel := Off]);
      if s.subState == WaitForChannelDisable {
        ProgramChannel(s, env.frame);
      } else if HaltedOnly(env.report.status) {
        BeginTransaction(s, env.enabled, env.frame);
      } else {
        hide AfterInterrupt;
        ServeReport(s, env);
      }
    }

    /** One channel interrupt. The interrupt handler clears the mask of the channel first. */
    method ChannelInterruptHandler(ch: nat, env: Env)
      requires Valid() && Admissible(View(), Interrupted(ch, env))
      modifies this, chanMask, stages[ch], stages[ch].sched, stages[ch].endpoint, stages[ch].urb
      ensures Valid() && View() == Step(old(View()), Interrupted(ch, env))
    {
      hide AfterInterrupt, Live, Alive, History, GoodHistory;
      ghost var h := View();
      assert ChannelInv(h, ch);
      StepKeepsInv(h, Interrupted(ch, env));
      ServeStage(stages[ch], env);
      assert forall c | 0 <= c < channels && c != ch :: SlotAt(c) == h.slots[c];
      assert View().slots == h.slots[ch := SlotAt(ch)];
    }

    ghost function Touched(): set<object>
      reads this, stages
    {
      (set s | s in stages && s.endpoint != null :: s.endpoint as object)
      + (set s | s in stages && s.urb != null :: s.urb as object)
    }

    /** One run of the interrupt handler over the channels the controller reports as pending. */
    method InterruptHandler(pending: set<nat>, envs: seq<Env>)
      requires Valid() && |envs| == channels && AllAdmissible(View(), pending, envs, 0)
      modifies this, chanMask, stages, Schedulers(), Touched()
      ensures Valid()
      ensures AdmissibleRun(old(View()), PendingEvents(pending, envs, 0))
      ensures View() == Run(old(View()), PendingEvents(pending, envs, 0))
    {
      hide Step, Inv;
      ghost var h := View();
      PendingIsAdmissibleRun(h, pending, envs, 0);
      var ch := 0;
      while ch < channels
        invariant ch <= channels && Valid() && AllAdmissible(View(), pending, envs, ch)
        invariant forall c | ch <= c < channels ::
          stages[c].endpoint == old(stages[c].endpoint) && stages[c].urb == old(stages[c].urb)
        invariant AdmissibleRun(View(), PendingEvents(pending, envs, ch))
        invariant Run(View(), PendingEvents(pending, envs, ch)) == Run(h, PendingEvents(pending, envs, 0))
      {
        if ch in pending {
          ServeOneOfAll(View(), pending, envs, ch);
          ServeFirst(View(), Interrupted(ch, envs[ch]), PendingEvents(pending, envs, ch + 1));
          ChannelInterruptHandler(ch, envs[ch]);
        }
        ch := ch + 1;
      }
    }

    /** The first transaction of the next interval. */
    method ResumeStage(s: StageData, found: bool, frame: nat)
      requires Structure() && Owns(s) && Linked(s) && s.urb != null && kernelTimers[s.channel] > 0
      requires s.splitTransaction ==> s.sched.kind == if s.periodic then Periodic else NonPeriodic
      modifies this`kernelTimers, this`chanPids, chanMask, s`state, s`splitComplete, s`subState, s.sched
      ensures Structure() && ids == old(ids) && Linked(s) && (!found ==> Programmed(s))
      ensures var before := old(Rest()).(timers := old(kernelTimers)[s.channel := old(kernelTimers)[s.channel] - 1]);
        var outcome := Armed(Activate(old(s.View()), found, frame));
        && Rest() == SettledRest(before, s.channel, ids[s.channel], outcome)
        && SlotAt(s.channel) == SettledSlot(ids[s.channel], outcome)
    {
      kernelTimers := kernelTimers[s.channel := kernelTimers[s.channel] - 1];
      s.BeginCycle();
      BeginTransaction(s, found, frame);
    }

    /** A kernel timer of the stage on channel `ch` has fired. */
    method TimerHandler(ch: nat, found: bool, frame: nat)
      requires Valid() && Admissible(View(), TimerFired(ch, found, frame))
      modifies this, chanMask, stages[ch], stages[ch].sched
      ensures Valid() && View() == Step(old(View()), TimerFired(ch, found, frame))
      ensures !found ==> Programmed(stages[ch])
    {
      hide Sound, Drained, Activate, History, GoodHistory;
      ghost var h := View();
      assert ChannelInv(h, ch);
      var s := stages[ch];
      StepKeepsInv(h, TimerFired(ch, found, frame));
      assert s.state == PeriodicDelay;
      ResumeStage(s, found, frame);
      assert forall c | 0 <= c < channels && c != ch :: SlotAt(c) == h.slots[c];
      assert View().slots == h.slots[ch := SlotAt(ch)];
    }
  }
}
