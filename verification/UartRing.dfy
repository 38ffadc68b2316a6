/** src/pigfx.c:20-22, 215-238, 247-282, 477-493: the receive buffer between the serial interrupt and
    the main loop, with hysteresis on the RTS line. This is the build without STANDALONE_TERMINAL.
    A push and a pop are each taken as one step. */
module UartRing {
  import opened Basics

  const SIZE := 16384
  const RTS_OFF_LIMIT := 3 * SIZE / 4
  const RTS_ON_LIMIT := SIZE / 4
  /** One place stays free, so that a full buffer differs from an empty one. */
  const CAPACITY := SIZE - 1

  /** What the buffer stores, oldest first, the counter the thresholds look at, and the RTS line. */
  datatype Queue<T> = Queue(stored: seq<T>, count: nat, rtsOn: bool)

  function Empty<T>(): Queue<T> {
    Queue([], 0, true)
  }

  /** What stays when a byte is stored. */
  function Kept<T>(stored: seq<T>): seq<T> {
    if |stored| == CAPACITY then stored[1..] else stored
  }

  function AfterPush<T>(q: Queue<T>, b: T): Queue<T> {
    var count := if q.count < SIZE then q.count + 1 else q.count;
    Queue(Kept(q.stored) + [b], count, q.rtsOn && count <= RTS_OFF_LIMIT)
  }

  function AfterPop<T>(q: Queue<T>): Queue<T>
    requires q.stored != []
  {
    var count := if q.count > 0 then q.count - 1 else q.count;
    Queue(q.stored[1..], count, q.rtsOn || count < RTS_ON_LIMIT)
  }

  // ----- Runs -----

  datatype Event<T> = Arrive(b: T) | Consume

  /** A queue with its history: everything received and consumed, how many bytes were overwritten,
      and how many arrived since RTS was dropped. */
  datatype Line<T> = Line(q: Queue<T>, received: seq<T>, consumed: seq<T>, lost: nat, late: nat)

  function Fresh<T>(): Line<T> {
    Line(Empty(), [], [], 0, 0)
  }

  /** The main loop consumes only when something is stored. */
  function Step<T>(l: Line<T>, e: Event<T>): Line<T> {
    match e
    case Arrive(b) =>
      Line(AfterPush(l.q, b), l.received + [b], l.consumed,
           if |l.q.stored| == CAPACITY then l.lost + 1 else l.lost,
           if l.q.rtsOn then 0 else l.late + 1)
    case Consume =>
      if l.q.stored == [] then l
      else Line(AfterPop(l.q), l.received, l.consumed + [l.q.stored[0]], l.lost, l.late)
  }

  function Run<T>(l: Line<T>, es: seq<Event<T>>): Line<T>
    decreases |es|
  {
    if es == [] then l else Run(Step(l, es[0]), es[1..])
  }

  /** At no time more than `bound` bytes have arrived while RTS was dropped. */
  predicate Obeys<T>(l: Line<T>, es: seq<Event<T>>, bound: nat)
    decreases |es|
  {
    es == [] || ((!Step(l, es[0]).q.rtsOn ==> Step(l, es[0]).late <= bound) && Obeys(Step(l, es[0]), es[1..], bound))
  }

  // ----- What every run keeps -----

  /** The counter is the number of stored bytes until the first byte is overwritten, and one more
      from then on. Whatever is stored is the newest part of what was received. */
  ghost predicate Inv<T>(l: Line<T>) {
    && |l.q.stored| <= CAPACITY
    && l.q.count == |l.q.stored| + (if l.lost > 0 then 1 else 0)
    && (l.q.rtsOn ==> l.q.count <= RTS_OFF_LIMIT)
    && (!l.q.rtsOn ==> RTS_ON_LIMIT <= l.q.count)
    && Newest(l.q.stored, l.received)
    && |l.received| == |l.consumed| + l.lost + |l.q.stored|
    && (l.lost == 0 ==> l.received == l.consumed + l.q.stored)
  }

  /** The last part of what was received. */
  ghost predicate Newest<T>(stored: seq<T>, received: seq<T>) {
    |stored| <= |received| && received[|received| - |stored|..] == stored
  }

  lemma NewestAfterPush<T>(s: seq<T>, r: seq<T>, b: T)
    requires Newest(s, r)
    ensures Newest(s + [b], r + [b])
    ensures s != [] ==> Newest(s[1..] + [b], r + [b]) && Newest(s[1..], r)
  {
    assert (r + [b])[|r| - |s|..] == r[|r| - |s|..] + [b];
    if s != [] {
      assert r[|r| - |s| + 1..] == s[1..];
      assert (r + [b])[|r| - |s| + 1..] == r[|r| - |s| + 1..] + [b];
    }
  }

  lemma ArriveKeepsInv<T>(l: Line<T>, b: T)
    requires Inv(l)
    ensures Inv(Step(l, Arrive(b)))
  {
    hide Newest;
    NewestAfterPush(l.q.stored, l.received, b);
    assert l.lost == 0 && |l.q.stored| < CAPACITY ==> l.received + [b] == l.consumed + (l.q.stored + [b]);
  }

  lemma ConsumeKeepsInv<T>(l: Line<T>)
    requires Inv(l)
    ensures Inv(Step(l, Consume))
  {
    hide Newest;
    if l.q.stored != [] {
      NewestAfterPush(l.q.stored, l.received, l.q.stored[0]);
      assert l.lost == 0 ==> l.received == (l.consumed + [l.q.stored[0]]) + l.q.stored[1..];
    }
  }

  lemma StepKeepsInv<T>(l: Line<T>, e: Event<T>)
    requires Inv(l)
    ensures Inv(Step(l, e))
  {
    hide Inv, Step;
    match e
    case Arrive(b) => ArriveKeepsInv(l, b);
    case Consume => ConsumeKeepsInv(l);
  }

  lemma {:induction false} RunKeepsInv<T>(l: Line<T>, es: seq<Event<T>>)
    requires Inv(l)
    ensures Inv(Run(l, es))
    decreases |es|
  {
    if es != [] {
      StepKeepsInv(l, es[0]);
      RunKeepsInv(Step(l, es[0]), es[1..]);
    }
  }

  // ----- Hysteresis of RTS -----

  /** RTS is raised exactly when it was off and a byte that is consumed brings the counter below 4096, and
      dropped exactly when it was on and a byte that arrives brings it above 12288. */
  lemma RtsChangesIff<T>(es: seq<Event<T>>, e: Event<T>)
    ensures var l := Run(Fresh<T>(), es);
      var k := Step(l, e);
      && (!l.q.rtsOn && k.q.rtsOn <==> !l.q.rtsOn && e.Consume? && l.q.stored != [] && k.q.count < 4096)
      && (l.q.rtsOn && !k.q.rtsOn <==> l.q.rtsOn && e.Arrive? && k.q.count > 12288)
  {
    FreshInv<T>();
    RunKeepsInv(Fresh<T>(), es);
  }

  lemma FreshInv<T>()
    ensures Inv(Fresh<T>())
  {
  }

  /** The counter after the first `i` events. */
  function CountAfter<T>(es: seq<Event<T>>, i: nat): nat
    requires i <= |es|
  {
    Run(Fresh<T>(), es[..i]).q.count
  }

  /** The counter has been above 12288, and not below 4096 since. */
  ghost predicate Crowded<T>(es: seq<Event<T>>) {
    exists i :: 0 <= i <= |es| && CountAfter(es, i) > 12288 && forall j | i <= j <= |es| :: CountAfter(es, j) >= 4096
  }

  lemma {:induction false} RunThen<T>(l: Line<T>, es: seq<Event<T>>, e: Event<T>)
    ensures Run(l, es + [e]) == Step(Run(l, es), e)
    decreases |es|
  {
    hide Step;
    if es == [] {
      assert ([] + [e])[1..] == [];
      assert Run(Step(l, e), []) == Step(l, e);
      assert [] + [e] == [e];
    } else {
      assert (es + [e])[0] == es[0] && (es + [e])[1..] == es[1..] + [e];
      RunThen(Step(l, es[0]), es[1..], e);
    }
  }

  lemma CountsThen<T>(es: seq<Event<T>>, e: Event<T>, i: nat)
    requires i <= |es| + 1
    ensures CountAfter(es + [e], i) == if i <= |es| then CountAfter(es, i) else Step(Run(Fresh<T>(), es), e).q.count
  {
    hide Step, Run;
    if i <= |es| {
      assert (es + [e])[..i] == es[..i];
    } else {
      assert (es + [e])[..i] == es + [e];
      RunThen(Fresh<T>(), es, e);
    }
  }

  lemma CountNow<T>(es: seq<Event<T>>)
    ensures CountAfter(es, |es|) == Run(Fresh<T>(), es).q.count
  {
    assert es[..|es|] == es;
  }

  /** One more event: crowded from now on, still crowded, or no more. */
  lemma CrowdedThen<T>(es: seq<Event<T>>, e: Event<T>)
    ensures var count := Step(Run(Fresh<T>(), es), e).q.count;
      Crowded(es + [e]) <==> count > 12288 || (Crowded(es) && count >= 4096)
  {
    hide Step, Run, CountAfter;
    var fs, count := es + [e], Step(Run(Fresh<T>(), es), e).q.count;
    forall i | 0 <= i <= |es| + 1
      ensures CountAfter(fs, i) == if i <= |es| then CountAfter(es, i) else count
    {
      CountsThen(es, e, i);
    }
    if Crowded(fs) {
      var i :| 0 <= i <= |fs| && CountAfter(fs, i) > 12288 && forall j | i <= j <= |fs| :: CountAfter(fs, j) >= 4096;
      assert CountAfter(fs, |fs|) == count;
      if i <= |es| {
        assert forall j | i <= j <= |es| :: CountAfter(es, j) == CountAfter(fs, j);
      }
    }
    if count > 12288 {
      assert CountAfter(fs, |fs|) > 12288;
    } else if Crowded(es) && count >= 4096 {
      var i :| 0 <= i <= |es| && CountAfter(es, i) > 12288 && forall j | i <= j <= |es| :: CountAfter(es, j) >= 4096;
      assert CountAfter(fs, i) > 12288 && forall j | i <= j <= |fs| :: CountAfter(fs, j) >= 4096;
    }
  }

  /** RTS is off exactly when the counter was above 12288 more recently than below 4096. */
  lemma {:induction false} RtsOffIff<T>(es: seq<Event<T>>)
    ensures !Run(Fresh<T>(), es).q.rtsOn <==> Crowded(es)
    decreases |es|
  {
    hide Step, Run, Crowded, CountAfter, Inv;
    if es == [] {
      NothingCrowded<T>();
    } else {
      var front, e := es[..|es| - 1], es[|es| - 1];
      assert es == front + [e];
      RtsOffIff(front);
      RtsChangesIff(front, e);
      RunThen(Fresh<T>(), front, e);
      CrowdedThen(front, e);
      StepCounts(front, e);
    }
  }

  lemma NothingCrowded<T>()
    ensures Run(Fresh<T>(), []).q.rtsOn && !Crowded<T>([])
  {
    CountNow<T>([]);
  }

  /** A step that does not raise RTS leaves the counter at 4096 or more while RTS is off, and one that
      does not drop it leaves the counter at 12288 or less. */
  lemma StepCounts<T>(es: seq<Event<T>>, e: Event<T>)
    ensures var l := Run(Fresh<T>(), es);
      var k := Step(l, e);
      && (!k.q.rtsOn ==> k.q.count >= 4096) && (k.q.rtsOn ==> k.q.count <= 12288)
      && (!l.q.rtsOn && k.q.rtsOn ==> k.q.count < 4096)
      && (l.q.rtsOn && !k.q.rtsOn ==> k.q.count > 12288)
  {
    FreshInv<T>();
    RunKeepsInv(Fresh<T>(), es);
    StepKeepsInv(Run(Fresh<T>(), es), e);
  }

  /** From a line whose RTS is off, RTS is not on again before the counter less 4095 bytes are consumed. */
  lemma {:induction false} ConsumedBeforeRaise<T>(l: Line<T>, es: seq<Event<T>>)
    requires Inv(l) && !l.q.rtsOn
    ensures |Run(l, es).consumed| >= |l.consumed|
    ensures Run(l, es).q.rtsOn ==> |Run(l, es).consumed| >= |l.consumed| + l.q.count - 4095
    decreases |es|
  {
    if es != [] {
      StepKeepsInv(l, es[0]);
      var k := Step(l, es[0]);
      ConsumedGrows(k, es[1..]);
      if !k.q.rtsOn {
        ConsumedBeforeRaise(k, es[1..]);
      }
    }
  }

  lemma {:induction false} ConsumedGrows<T>(l: Line<T>, es: seq<Event<T>>)
    ensures |Run(l, es).consumed| >= |l.consumed|
    decreases |es|
  {
    if es != [] {
      ConsumedGrows(Step(l, es[0]), es[1..]);
    }
  }

  /** Between a drop of RTS and the next time it is on, at least 8194 bytes are consumed. */
  lemma RaiseAfter8194<T>(es: seq<Event<T>>, e: Event<T>, fs: seq<Event<T>>)
    ensures var l := Run(Fresh<T>(), es);
      var k := Step(l, e);
      l.q.rtsOn && !k.q.rtsOn && Run(k, fs).q.rtsOn ==> |Run(k, fs).consumed| >= |k.consumed| + 8194
  {
    hide Step, Run, Inv;
    FreshInv<T>();
    RunKeepsInv(Fresh<T>(), es);
    var l := Run(Fresh<T>(), es);
    StepKeepsInv(l, e);
    StepCounts(es, e);
    if !Step(l, e).q.rtsOn {
      ConsumedBeforeRaise(Step(l, e), fs);
    }
  }

  /** The counters over every run, overwriting or not. */
  lemma Counters<T>(es: seq<Event<T>>)
    ensures var l := Run(Fresh<T>(), es);
      && |l.q.stored| <= l.q.count <= |l.q.stored| + 1 && l.q.count <= 16384
      && (l.q.count == |l.q.stored| <==> l.lost == 0)
      && (l.q.rtsOn ==> l.q.count <= 12288) && (!l.q.rtsOn ==> 4096 <= l.q.count)
  {
    RunKeepsInv(Fresh<T>(), es);
  }

  /** Nothing was overwritten exactly when what was consumed and what is stored together are what
      was received; the consumed bytes are then a prefix of the received ones. */
  lemma LossIsVisible<T>(es: seq<Event<T>>)
    ensures var l := Run(Fresh<T>(), es);
      && (l.lost == 0 <==> l.received == l.consumed + l.q.stored)
      && (l.lost == 0 ==> l.consumed <= l.received)
  {
    RunKeepsInv(Fresh<T>(), es);
    var l := Run(Fresh<T>(), es);
    if l.received == l.consumed + l.q.stored {
      assert |l.received| == |l.consumed| + |l.q.stored|;
    }
  }

  // ----- No loss -----

  /** Bytes left until the first one is overwritten: what RTS-off may still bring fits. */
  ghost predicate Room<T>(l: Line<T>, bound: nat) {
    && Inv(l) && l.lost == 0
    && (!l.q.rtsOn ==> |l.q.stored| <= RTS_OFF_LIMIT + 1 + l.late && l.late <= bound)
  }

  lemma {:induction false} RoomSuffices<T>(l: Line<T>, es: seq<Event<T>>, bound: nat)
    requires bound <= CAPACITY - RTS_OFF_LIMIT - 1
    requires Room(l, bound) && Obeys(l, es, bound)
    ensures Run(l, es).lost == 0
    decreases |es|
  {
    if es != [] {
      StepKeepsInv(l, es[0]);
      RoomSuffices(Step(l, es[0]), es[1..], bound);
    }
  }

  function Flood<T>(b: T, n: nat): (es: seq<Event<T>>)
    ensures |es| == n
  {
    if n == 0 then [] else [Arrive(b)] + Flood(b, n - 1)
  }

  /** Bytes that come without being consumed: RTS drops behind the limit, the late ones are those
      after that, and the buffer overflows when its capacity is passed. */
  lemma {:induction false} FloodObeys<T>(l: Line<T>, b: T, n: nat, bound: nat)
    requires Inv(l) && l.lost == 0 && |l.q.stored| + n <= SIZE && bound >= CAPACITY - RTS_OFF_LIMIT
    requires l.q.rtsOn <==> |l.q.stored| <= RTS_OFF_LIMIT
    requires !l.q.rtsOn ==> |l.q.stored| == RTS_OFF_LIMIT + 1 + l.late
    ensures Obeys(l, Flood(b, n), bound)
    ensures |l.q.stored| + n == SIZE && n > 0 ==> Run(l, Flood(b, n)).lost > 0
    decreases n
  {
    if n > 0 {
      StepKeepsInv(l, Arrive(b));
      assert Flood(b, n)[1..] == Flood(b, n - 1);
      if |l.q.stored| < CAPACITY {
        FloodObeys(Step(l, Arrive(b)), b, n - 1, bound);
      } else {
        assert Flood(b, n)[1..] == [];
      }
    }
  }

  /** No byte is ever overwritten exactly when at most 4094 may arrive while RTS is dropped. */
  lemma NoLossIff(bound: nat)
    ensures (forall es: seq<Event<bool>> :: Obeys(Fresh<bool>(), es, bound) ==> Run(Fresh<bool>(), es).lost == 0)
      <==> bound <= 4094
  {
    if bound <= 4094 {
      forall es: seq<Event<bool>> | Obeys(Fresh<bool>(), es, bound)
        ensures Run(Fresh<bool>(), es).lost == 0
      {
        RoomSuffices(Fresh<bool>(), es, bound);
      }
    } else {
      FloodObeys(Fresh<bool>(), true, SIZE, bound);
      assert Run(Fresh<bool>(), Flood(true, SIZE)).lost > 0;
    }
  }

  // ----- The buffer in place -----

  /** What lies between the two positions of a circular buffer. */
  function Window<T>(s: seq<T>, start: nat, end: nat): seq<T>
    requires start < |s| && end < |s|
  {
    if start <= end then s[start..end] else s[start..] + s[..end]
  }

  function Behind(i: nat): nat {
    if i + 1 >= SIZE then 0 else i + 1
  }

  /** A slice up to and including a stored byte. */
  lemma SliceTo<T>(s: seq<T>, from: nat, end: nat, b: T)
    requires from <= end < |s|
    ensures s[end := b][from..end + 1] == s[from..end] + [b]
  {
  }

  lemma PushWithRoom<T>(s: seq<T>, start: nat, end: nat, b: T)
    requires |s| == SIZE && start < SIZE && end < SIZE && Behind(end) != start
    ensures Window(s[end := b], start, Behind(end)) == Window(s, start, end) + [b]
  {
    var t := s[end := b];
    if start <= end {
      SliceTo(s, start, end, b);
      if end + 1 == SIZE {
        assert t[start..] + t[..0] == t[start..end + 1];
      }
    } else {
      SliceTo(s, 0, end, b);
      assert t[..end + 1] == t[0..end + 1] && s[..end] == s[0..end];
      assert t[start..] == s[start..];
      assert s[start..] + (s[..end] + [b]) == (s[start..] + s[..end]) + [b];
    }
  }

  lemma PushWhenFull<T>(s: seq<T>, start: nat, end: nat, b: T)
    requires |s| == SIZE && start < SIZE && end < SIZE && Behind(end) == start
    ensures Window(s, start, end) != []
    ensures Window(s[end := b], Behind(start), Behind(end)) == Window(s, start, end)[1..] + [b]
  {
    var t := s[end := b];
    if start == 0 {
      SliceTo(s, 1, end, b);
      assert t[1..] + t[..0] == t[1..end + 1];
      assert s[0..end][1..] == s[1..end];
    } else {
      SliceTo(s, 0, end, b);
      assert t[..start] == t[0..end + 1] && s[..end] == s[0..end];
      assert (s[start..] + s[..end])[1..] == s[start + 1..] + s[..end];
      if start + 1 < SIZE {
        assert t[start + 1..] == s[start + 1..];
        assert s[start + 1..] + (s[..end] + [b]) == (s[start + 1..] + s[..end]) + [b];
      } else {
        assert s[start + 1..] + s[..end] == s[..end];
      }
    }
  }

  lemma PushWindow<T>(s: seq<T>, start: nat, end: nat, b: T)
    requires |s| == SIZE && start < SIZE && end < SIZE
    ensures Behind(end) == start <==> |Window(s, start, end)| == CAPACITY
    ensures Behind(end) != start ==>
      Window(s[end := b], start, Behind(end)) == Window(s, start, end) + [b]
    ensures Behind(end) == start ==>
      Window(s[end := b], Behind(start), Behind(end)) == Window(s, start, end)[1..] + [b]
  {
    if Behind(end) == start {
      PushWhenFull(s, start, end, b);
    } else {
      hide Window;
      PushWithRoom(s, start, end, b);
    }
  }

  lemma PopWindow<T>(s: seq<T>, start: nat, end: nat)
    requires |s| == SIZE && start < SIZE && end < SIZE && start != end
    ensures var w := Window(s, start, end); w != [] && w[0] == s[start] && Window(s, Behind(start), end) == w[1..]
  {
    if start > end {
      assert (s[start..] + s[..end])[1..] == s[start + 1..] + s[..end];
      assert start + 1 == SIZE ==> s[start + 1..] + s[..end] == s[0..end];
    } else {
      assert s[start..end][1..] == s[start + 1..end];
    }
  }

  class Ring {
    const buffer: array<byte>
    var start: nat
    var end: nat
    var count: nat
    var rtsOn: bool

    ghost predicate Valid()
      reads this
    {
      buffer.Length == SIZE && start < SIZE && end < SIZE && count <= SIZE
    }

    ghost function Stored(): seq<byte>
      requires Valid()
      reads this, buffer
    {
      Window(buffer[..], start, end)
    }

    ghost function View(): Queue<byte>
      requires Valid()
      reads this, buffer
    {
      Queue(Stored(), count, rtsOn)
    }

    constructor ()
      ensures Valid() && fresh(buffer) && View() == Empty()
    {
      buffer := new byte[SIZE](_ => 0);
      start, end, count, rtsOn := 0, 0, 0, true;
    }

    /** The byte goes to the end; when the two positions meet, the oldest is gone. */
    method Put(b: byte)
      requires Valid()
      modifies `start, `end, buffer
      ensures Valid() && Stored() == Kept(old(Stored())) + [b]
    {
      PushWindow(buffer[..], start, end, b);
      hide Window;
      ghost var all := buffer[..];
      buffer[end] := b;
      assert buffer[..] == all[end := b];
      end := end + 1;
      if end >= SIZE {
        end := 0;
      }
      if end == start {
        start := start + 1;
        if start >= SIZE {
          start := 0;
        }
      }
    }

    /** One byte from the interrupt handler. */
    method Push(b: byte)
      requires Valid()
      modifies this, buffer
      ensures Valid() && View() == AfterPush(old(View()), b)
    {
      hide Window;
      Put(b);
      if count < SIZE {
        count := count + 1;
      }
      if rtsOn && count > RTS_OFF_LIMIT {
        rtsOn := false;
      }
    }

    /** The interrupt handler reads whatever the receiver holds. */
    method FillQueue(bytes: seq<byte>)
      requires Valid()
      modifies this, buffer
      ensures Valid() && View() == Pushed(old(View()), bytes)
    {
      ghost var was := View();
      var i := 0;
      while i < |bytes|
        invariant 0 <= i <= |bytes| && Valid()
        invariant Pushed(View(), bytes[i..]) == Pushed(was, bytes)
      {
        assert bytes[i..][0] == bytes[i] && bytes[i..][1..] == bytes[i + 1..];
        Push(bytes[i]);
        i := i + 1;
      }
    }

    /** The main loop takes one byte when there is one. */
    method Consume() returns (b: byte)
      requires Valid() && start != end
      modifies this
      ensures Valid() && old(Stored()) != [] && b == old(Stored())[0] && View() == AfterPop(old(View()))
    {
      PopWindow(buffer[..], start, end);
      hide Window;
      b := buffer[start];
      start := start + 1;
      if count > 0 {
        count := count - 1;
      }
      if !rtsOn && count < RTS_ON_LIMIT {
        rtsOn := true;
      }
      if start >= SIZE {
        start := 0;
      }
    }
  }

  function Pushed<T>(q: Queue<T>, bytes: seq<T>): Queue<T>
    decreases |bytes|
  {
    if bytes == [] then q else Pushed(AfterPush(q, bytes[0]), bytes[1..])
  }
}
