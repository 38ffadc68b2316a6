/** uspi/lib/usbkeyboard.c:295-414 and src/stupid_timer.c: key repeat over the table of kernel
    timers, which the keyboard shares with other parts of the firmware. */
module KeyRepeat {
  import opened Basics

  const N_TIMERS := 20
  const BOOT_REPORT_SIZE := 8
  const REPEAT_DELAY: u32 := 500
  const REPEAT_RATE: u32 := 40
  const LONGEST_WRAP := 1000000

  /** What a timer calls. A text is what a pressed key sends; other handlers are told by a number. */
  datatype Handler<Text> = NoHandler | Repeat(text: Text) | Other(id: nat)

  /** src/stupid_timer.c:4-12; times are in microseconds. */
  datatype TimerUnit<Text> = TimerUnit(handler: Handler<Text>, interval: u32, lastTick: u32)

  // ----- The timer table -----

  /** First free slot from `hnd` on, or the size of the table. */
  function FirstFree<Text>(ts: seq<TimerUnit<Text>>, hnd: nat): (h: nat)
    requires hnd <= |ts|
    ensures hnd <= h <= |ts| && (h < |ts| ==> ts[h].handler.NoHandler?)
    ensures forall i | hnd <= i < h :: !ts[i].handler.NoHandler?
    decreases |ts| - hnd
  {
    if hnd == |ts| || ts[hnd].handler.NoHandler? then hnd else FirstFree(ts, hnd + 1)
  }

  /** The table after an attachment, and the handle, which is 0 when the table is full. */
  function Attached<Text>(ts: seq<TimerUnit<Text>>, millis: u32, handler: Handler<Text>, now: u32)
    : (seq<TimerUnit<Text>>, nat)
  {
    var h := FirstFree(ts, 0);
    if h < |ts| then (ts[h := TimerUnit(handler, millis * 1000 % U32, now)], h + 1) else (ts, 0)
  }

  function Detached<Text>(ts: seq<TimerUnit<Text>>, hnd: nat): (us: seq<TimerUnit<Text>>)
    ensures |us| == |ts|
  {
    if 1 <= hnd <= |ts| then ts[hnd - 1 := ts[hnd - 1].(handler := NoHandler)] else ts
  }

  /** Difference of unsigned 32-bit integers. */
  function Since(now: u32, then_: u32): u32 {
    if now >= then_ then now - then_ else now - then_ + U32
  }

  predicate Expired<Text>(u: TimerUnit<Text>, now: u32) {
    && !u.handler.NoHandler? && Since(now, u.lastTick) > u.interval
    && (now > u.lastTick || (now < u.lastTick && u.lastTick - now > LONGEST_WRAP))
  }

  /** The microsecond counter wraps. A poll less than 2^32 microseconds after the timer was started,
      `elapsed` of them, finds it expired exactly when more than its interval has passed; but not in the last
      second of that time if the counter has wrapped in between. */
  lemma ExpiredIff<Text>(u: TimerUnit<Text>, started: nat, elapsed: nat)
    requires !u.handler.NoHandler? && u.lastTick == started % U32 && elapsed < 4294967296
    ensures Expired(u, (started + elapsed) % U32) <==>
      elapsed > u.interval && (elapsed < 4293967296 || u.lastTick + elapsed < 4294967296)
  {
    var now := (started + elapsed) % U32;
    assert now == if u.lastTick + elapsed < U32 then u.lastTick + elapsed else u.lastTick + elapsed - U32;
  }

  // ----- Keyboard and timers -----

  /** `lastCodes` are the key codes of the last accepted report. */
  datatype State<Text> = State(
    timers: seq<TimerUnit<Text>>, hTimer: nat, repeatingKey: byte, lastCodes: seq<byte>, sent: seq<Text>)

  /** A completed request for a report. Of `text` the driver knows what the key sends, if anything;
      `raw` and `handled` tell which of the application's handlers are installed. */
  datatype Report<Text> = Report(
    ok: bool, length: nat, codes: seq<byte>, raw: bool, handled: bool, text: Option<Text>)

  datatype Event<Text> =
    | Reported(report: Report<Text>, now: u32)
    | Polled(slot: nat, now: u32)
    | OtherAttached(millis: u32, id: nat, now: u32)
    | OtherDetached(hnd: nat)

  /** The code of the highest slot that is not empty, or 0. */
  function KeyCode(codes: seq<byte>): byte {
    if codes == [] then 0
    else if codes[|codes| - 1] != 0 then codes[|codes| - 1]
    else KeyCode(codes[..|codes| - 1])
  }

  predicate Accepted<Text>(r: Report<Text>) {
    r.ok && r.length == BOOT_REPORT_SIZE && !r.raw
  }

  /** A key that is no longer the highest stops repeating. */
  function Stopped<Text>(s: State<Text>, code: byte): State<Text> {
    if (code == 0 || code != s.repeatingKey) && s.hTimer != 0
    then s.(timers := Detached(s.timers, s.hTimer), hTimer := 0, repeatingKey := 0) else s
  }

  /** A timer of the keyboard is started. */
  function Armed<Text>(s: State<Text>, millis: u32, text: Text, now: u32): State<Text> {
    var (ts, h) := Attached(s.timers, millis, Repeat(text), now);
    s.(timers := ts, hTimer := h)
  }

  function Cancelled<Text>(s: State<Text>): State<Text> {
    s.(timers := Detached(s.timers, s.hTimer), hTimer := 0)
  }

  function Pressed<Text>(s: State<Text>, code: byte, r: Report<Text>, now: u32): State<Text> {
    var c := Cancelled(s);
    if r.text.Some? && r.handled then Armed(c, REPEAT_DELAY, r.text.value, now).(repeatingKey := code) else c
  }

  function AfterReport<Text>(s: State<Text>, r: Report<Text>, now: u32): State<Text> {
    if !Accepted(r) then s
    else
      var code := KeyCode(r.codes);
      var t := Stopped(s, code).(lastCodes := r.codes);
      if code != 0 && code !in s.lastCodes then Pressed(t, code, r, now) else t
  }

  /** The keyboard's timer handler: the text again, and a new timer. The table has cleared the slot. */
  function Fired<Text>(s: State<Text>, hnd: nat, text: Text, now: u32): State<Text> {
    var c := s.(timers := Detached(s.timers, hnd), hTimer := 0, sent := s.sent + [text]);
    Armed(c, REPEAT_RATE, text, now)
  }

  /** One slot of a poll. What another handler does follows as events of its own. */
  function AfterPoll<Text>(s: State<Text>, slot: nat, now: u32): State<Text>
    requires slot < |s.timers|
  {
    var u := s.timers[slot];
    if !Expired(u, now) then s
    else
      var t := s.(timers := s.timers[slot := u.(handler := NoHandler)]);
      if u.handler.Repeat? then Fired(t, slot + 1, u.handler.text, now) else t
  }

  /** A report that starts a timer: a new key is down, it stands for some text, and the text has a taker. */
  predicate StartsTimer<Text>(s: State<Text>, r: Report<Text>) {
    Accepted(r) && KeyCode(r.codes) != 0 && KeyCode(r.codes) !in s.lastCodes && r.text.Some? && r.handled
  }

  /** Others detach only their own timers, and a slot is free when a report starts a timer. */
  predicate Admissible<Text>(s: State<Text>, e: Event<Text>) {
    match e
    case Reported(r, _) => |r.codes| == 6 && (StartsTimer(s, r) && s.hTimer == 0 ==> FirstFree(s.timers, 0) < |s.timers|)
    case Polled(slot, _) => slot < |s.timers|
    case OtherAttached(_, _, _) => true
    case OtherDetached(hnd) => 1 <= hnd <= |s.timers| ==> !s.timers[hnd - 1].handler.Repeat?
  }

  function Step<Text>(s: State<Text>, e: Event<Text>): State<Text>
    requires Admissible(s, e)
  {
    match e
    case Reported(r, now) => AfterReport(s, r, now)
    case Polled(slot, now) => AfterPoll(s, slot, now)
    case OtherAttached(millis, id, now) => s.(timers := Attached(s.timers, millis, Other(id), now).0)
    case OtherDetached(hnd) => s.(timers := Detached(s.timers, hnd))
  }

  // ----- Ownership -----

  /** The keyboard's timer, if there is one, is the one in m_hTimer; while it is armed its key is
      the highest slot of the last accepted report that is not empty. */
  ghost predicate Inv<Text>(s: State<Text>) {
    && |s.timers| == N_TIMERS && |s.lastCodes| == 6
    && (forall i | 0 <= i < |s.timers| :: s.timers[i].handler.Repeat? ==> s.hTimer == i + 1)
    && (s.hTimer != 0 ==>
          && s.hTimer <= N_TIMERS && s.timers[s.hTimer - 1].handler.Repeat?
          && s.repeatingKey != 0 && s.repeatingKey == KeyCode(s.lastCodes))
  }

  /** Slot `i` is the highest that is not empty. */
  ghost predicate HighestAt(codes: seq<byte>, i: nat) {
    i < |codes| && codes[i] != 0 && forall j | i < j < |codes| :: codes[j] == 0
  }

  lemma {:induction false} KeyCodeIs(codes: seq<byte>)
    ensures KeyCode(codes) == 0 <==> forall c | c in codes :: c == 0
    ensures KeyCode(codes) != 0 ==> exists i: nat :: HighestAt(codes, i) && codes[i] == KeyCode(codes)
  {
    if codes != [] {
      var front, last := codes[..|codes| - 1], codes[|codes| - 1];
      KeyCodeIs(front);
      assert codes == front + [last];
      assert forall c :: c in codes <==> c in front || c == last;
      assert codes[|codes| - 1] in codes;
      if last != 0 {
        assert HighestAt(codes, |codes| - 1);
      } else if KeyCode(front) != 0 {
        var i: nat :| HighestAt(front, i) && front[i] == KeyCode(front);
        assert HighestAt(codes, i);
      }
    }
  }

  lemma ReportKeepsInv<Text>(s: State<Text>, r: Report<Text>, now: u32)
    requires Inv(s) && Admissible(s, Reported(r, now))
    ensures Inv(AfterReport(s, r, now))
  {
    if Accepted(r) {
      var code := KeyCode(r.codes);
      KeyCodeIs(s.lastCodes);
      var t := Stopped(s, code).(lastCodes := r.codes);
      if s.hTimer != 0 && t.hTimer != 0 {
        assert code == KeyCode(s.lastCodes) && code in s.lastCodes;
      } else if code != 0 && code !in s.lastCodes {
        assert t.hTimer == 0;
        assert s.hTimer != 0 ==> t.timers[s.hTimer - 1].handler.NoHandler?;
      }
    }
  }

  // ----- When a key repeats -----

  /** The keyboard's timer runs with this text, armed at `now`. */
  ghost predicate ArmedWith<Text>(s: State<Text>, text: Text, micros: u32, now: u32) {
    0 < s.hTimer <= |s.timers| && s.timers[s.hTimer - 1] == TimerUnit(Repeat(text), micros, now)
  }

  /** The slot belongs to somebody else, or to nobody. */
  predicate Foreign<Text>(s: State<Text>, i: nat) {
    i < |s.timers| && i + 1 != s.hTimer
  }

  /** An accepted report whose highest key is the one that repeats changes neither timer nor key, however
      often it comes; one with a new key that stands for some text arms it for half a second; any other
      accepted report leaves the keyboard without a timer. Timers of others stay, but for a free slot
      that is taken. */
  lemma ReportIs<Text>(s: State<Text>, r: Report<Text>, now: u32)
    requires Inv(s) && Admissible(s, Reported(r, now)) && r.ok && r.length == 8 && !r.raw
    ensures var k := Step(s, Reported(r, now));
      && k.lastCodes == r.codes && k.sent == s.sent
      && (if s.hTimer != 0 && KeyCode(r.codes) == s.repeatingKey then
            k.timers == s.timers && k.hTimer == s.hTimer && k.repeatingKey == s.repeatingKey
          else if StartsTimer(s, r) then ArmedWith(k, r.text.value, 500000, now) && k.repeatingKey == KeyCode(r.codes)
          else k.hTimer == 0 && k.repeatingKey == if s.hTimer == 0 then s.repeatingKey else 0)
      && forall i: nat | Foreign(s, i) && Foreign(k, i) :: k.timers[i] == s.timers[i]
  {
    KeyCodeIs(s.lastCodes);
    TimerGranted(s, Reported(r, now));
    StepKeepsInv(s, Reported(r, now));
    if s.hTimer != 0 && KeyCode(r.codes) == s.repeatingKey {
      assert KeyCode(s.lastCodes) in s.lastCodes;
    }
  }

  /** A report that failed, has another length, or that an application takes raw, changes nothing. */
  lemma OtherReportIs<Text>(s: State<Text>, r: Report<Text>, now: u32)
    requires Admissible(s, Reported(r, now)) && !(r.ok && r.length == 8 && !r.raw)
    ensures Step(s, Reported(r, now)) == s
  {
  }

  /** When the keyboard's timer has expired, a poll of its slot sends the text and arms the timer for 40
      milliseconds more; a poll of any other expired slot frees it, and nothing else is changed. */
  lemma PollIs<Text>(s: State<Text>, slot: nat, now: u32)
    requires Inv(s) && slot < |s.timers|
    ensures var u, k := s.timers[slot], Step(s, Polled(slot, now));
      && k.repeatingKey == s.repeatingKey && k.lastCodes == s.lastCodes
      && (if !Expired(u, now) then k == s
          else if u.handler.Repeat? then k.sent == s.sent + [u.handler.text] && ArmedWith(k, u.handler.text, 40000, now)
          else k == s.(timers := s.timers[slot := u.(handler := NoHandler)]))
      && forall i: nat | Foreign(s, i) && Foreign(k, i) && i != slot :: k.timers[i] == s.timers[i]
  {
    TimerGranted(s, Polled(slot, now));
  }

  lemma StepKeepsInv<Text>(s: State<Text>, e: Event<Text>)
    requires Inv(s) && Admissible(s, e)
    ensures Inv(Step(s, e))
  {
    if e.Reported? {
      ReportKeepsInv(s, e.report, e.now);
    }
  }

  /** The driver's two assertions: every timer the keyboard asks for is granted. The one its own
      handler asks for always is, because the handler has just given one up. */
  lemma TimerGranted<Text>(s: State<Text>, e: Event<Text>)
    requires Inv(s) && Admissible(s, e)
    ensures match e
      case Reported(r, _) =>
        StartsTimer(s, r) ==> Step(s, e).hTimer != 0 && Step(s, e).timers[Step(s, e).hTimer - 1].handler == Repeat(r.text.value)
      case Polled(slot, now) =>
        Expired(s.timers[slot], now) && s.timers[slot].handler.Repeat?
        ==> && Step(s, e).hTimer != 0 && Step(s, e).timers[Step(s, e).hTimer - 1].handler == s.timers[slot].handler
            && Step(s, e).sent == s.sent + [s.timers[slot].handler.text] && Step(s, e).repeatingKey == s.repeatingKey
      case _ => Step(s, e).hTimer == s.hTimer
  {
    StepKeepsInv(s, e);
    match e
    case Reported(r, now) =>
      if StartsTimer(s, r) {
        KeyCodeIs(s.lastCodes);
        var t := Stopped(s, KeyCode(r.codes));
        assert t.hTimer == 0 && (s.hTimer != 0 ==> t.timers[s.hTimer - 1].handler.NoHandler?);
      }
    case Polled(slot, now) =>
      if Expired(s.timers[slot], now) {
        var u := s.timers[slot].(handler := NoHandler);
        assert Detached(s.timers[slot := u], slot + 1)[slot].handler.NoHandler?;
      }
    case _ =>
  }

  // ----- Runs -----

  function Start<Text>(): State<Text> {
    State(seq(N_TIMERS, _ => TimerUnit(NoHandler, 0, 0)), 0, 0, [0, 0, 0, 0, 0, 0], [])
  }

  predicate AdmissibleRun<Text>(s: State<Text>, es: seq<Event<Text>>)
    decreases |es|
  {
    es == [] || (Admissible(s, es[0]) && AdmissibleRun(Step(s, es[0]), es[1..]))
  }

  function Run<Text>(s: State<Text>, es: seq<Event<Text>>): State<Text>
    requires AdmissibleRun(s, es)
    decreases |es|
  {
    if es == [] then s else Run(Step(s, es[0]), es[1..])
  }

  lemma {:induction false} RunKeepsInv<Text>(s: State<Text>, es: seq<Event<Text>>)
    requires Inv(s) && AdmissibleRun(s, es)
    ensures Inv(Run(s, es))
    decreases |es|
  {
    if es != [] {
      StepKeepsInv(s, es[0]);
      RunKeepsInv(Step(s, es[0]), es[1..]);
    }
  }

  /** Over every run of reports, polls and other users of the table: at most one timer is the
      keyboard's, it is the one the keyboard knows, and its key is the highest non-empty slot of the
      last accepted report. */
  lemma Ownership<Text>(es: seq<Event<Text>>)
    requires AdmissibleRun(Start<Text>(), es)
    ensures var s := Run(Start<Text>(), es);
      && |s.timers| == 20
      && (forall i | 0 <= i < 20 :: s.timers[i].handler.Repeat? <==> s.hTimer == i + 1)
      && s.hTimer <= 20
      && (s.hTimer != 0 ==> s.repeatingKey != 0 && s.repeatingKey == KeyCode(s.lastCodes))
  {
    RunKeepsInv(Start<Text>(), es);
  }

  // ----- In place -----

  class Firmware<Text(0)> {
    const timers: array<TimerUnit<Text>>
    var hTimer: nat
    var repeatingKey: byte
    var lastCodes: seq<byte>
    var sent: seq<Text>

    ghost function View(): State<Text>
      reads this, timers
    {
      State(timers[..], hTimer, repeatingKey, lastCodes, sent)
    }

    ghost predicate Valid()
      reads this, timers
    {
      Inv(View())
    }

    constructor ()
      ensures Valid() && View() == Start() && fresh(timers)
    {
      timers := new TimerUnit<Text>[N_TIMERS](_ => TimerUnit(NoHandler, 0, 0));
      hTimer, repeatingKey, lastCodes, sent := 0, 0, [0, 0, 0, 0, 0, 0], [];
      new;
      assert View().timers == Start<Text>().timers;
    }

    /** attach_timer_handler. */
    method Attach(millis: u32, handler: Handler<Text>, now: u32) returns (hnd: nat)
      modifies timers
      ensures (timers[..], hnd) == Attached(old(timers[..]), millis, handler, now)
    {
      hnd := 0;
      while hnd < timers.Length
        invariant hnd <= timers.Length && timers[..] == old(timers[..])
        invariant FirstFree(timers[..], hnd) == FirstFree(timers[..], 0)
      {
        if timers[hnd].handler.NoHandler? {
          timers[hnd] := TimerUnit(handler, millis * 1000 % U32, now);
          return hnd + 1;
        }
        hnd := hnd + 1;
      }
      return 0;
    }

    /** detach_timer_handler. */
    method Detach(hnd: nat)
      modifies timers
      ensures timers[..] == Detached(old(timers[..]), hnd)
    {
      if 1 <= hnd <= timers.Length {
        timers[hnd - 1] := timers[hnd - 1].(handler := NoHandler);
      }
    }

    /** USBKeyboardDeviceGetKeyCode. */
    method GetKeyCode(codes: seq<byte>) returns (code: byte)
      ensures code == KeyCode(codes)
    {
      var i := |codes|;
      assert codes[..i] == codes;
      while i > 0
        invariant 0 <= i <= |codes| && KeyCode(codes[..i]) == KeyCode(codes)
      {
        i := i - 1;
        assert codes[..i + 1][..i] == codes[..i];
        if codes[i] != 0 {
          return codes[i];
        }
      }
      return 0;
    }

    /** USBKeyboardDeviceCompletionRoutine. */
    method CompletionRoutine(r: Report<Text>, now: u32)
      requires Valid() && Admissible(View(), Reported(r, now))
      modifies this, timers
      ensures Valid() && View() == AfterReport(old(View()), r, now)
    {
      ReportKeepsInv(View(), r, now);
      if !r.ok || r.length != BOOT_REPORT_SIZE || r.raw {
        return;
      }
      var code := GetKeyCode(r.codes);
      if (code == 0 || code != repeatingKey) && hTimer != 0 {
        Detach(hTimer);
        hTimer, repeatingKey := 0, 0;
      }
      var known := code in lastCodes;
      lastCodes := r.codes;
      if code != 0 && !known {
        StartRepeat(code, r, now);
      }
    }

    method StartRepeat(code: byte, r: Report<Text>, now: u32)
      modifies timers, `hTimer, `repeatingKey
      ensures View() == Pressed(old(View()), code, r, now)
    {
      if hTimer != 0 {
        Detach(hTimer);
        hTimer := 0;
      }
      if r.text.Some? && r.handled {
        hTimer := Attach(REPEAT_DELAY, Repeat(r.text.value), now);
        repeatingKey := code;
      }
    }

    /** USBKeyboardDeviceTimerHandler. */
    method TimerHandler(hnd: nat, text: Text, now: u32)
      modifies timers, `hTimer, `sent
      ensures View() == Fired(old(View()), hnd, text, now)
    {
      Detach(hnd);
      hTimer := 0;
      sent := sent + [text];
      hTimer := Attach(REPEAT_RATE, Repeat(text), now);
    }

    /** One iteration of timer_poll. */
    method PollSlot(slot: nat, now: u32)
      requires Valid() && slot < N_TIMERS
      modifies this, timers
      ensures Valid() && View() == AfterPoll(old(View()), slot, now)
    {
      StepKeepsInv(View(), Polled(slot, now));
      var u := timers[slot];
      if Expired(u, now) {
        timers[slot] := u.(handler := NoHandler);
        if u.handler.Repeat? {
          TimerHandler(slot + 1, u.handler.text, now);
        }
      }
    }

    /** timer_poll; `nows` is what the clock shows at each slot. */
    method TimerPoll(nows: seq<u32>)
      requires Valid() && |nows| == N_TIMERS
      modifies this, timers
      ensures Valid()
      ensures AdmissibleRun(old(View()), PollEvents(nows, 0)) && View() == Run(old(View()), PollEvents(nows, 0))
    {
      ghost var was := View();
      PollIsAdmissible(was, nows, 0);
      var hnd := 0;
      while hnd < N_TIMERS
        invariant hnd <= N_TIMERS && Valid()
        invariant AdmissibleRun(View(), PollEvents(nows, hnd))
        invariant Run(View(), PollEvents(nows, hnd)) == Run(was, PollEvents(nows, 0))
      {
        PollSlot(hnd, nows[hnd]);
        hnd := hnd + 1;
      }
    }
  }

  function PollEvents<Text>(nows: seq<u32>, hnd: nat): seq<Event<Text>>
    decreases |nows| - hnd
  {
    if hnd >= |nows| then [] else [Polled(hnd, nows[hnd])] + PollEvents(nows, hnd + 1)
  }

  lemma {:induction false} PollIsAdmissible<Text>(s: State<Text>, nows: seq<u32>, hnd: nat)
    requires Inv(s) && |nows| == N_TIMERS
    ensures AdmissibleRun(s, PollEvents(nows, hnd))
    decreases |nows| - hnd
  {
    if hnd < |nows| {
      StepKeepsInv(s, Polled(hnd, nows[hnd]));
      PollIsAdmissible(Step(s, Polled(hnd, nows[hnd])), nows, hnd + 1);
      assert PollEvents<Text>(nows, hnd)[1..] == PollEvents<Text>(nows, hnd + 1);
    }
  }
}
