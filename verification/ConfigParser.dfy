/** uspi/lib/usbconfigparser.c: the validating pass over a configuration descriptor, and the
    iteration that relies on it (USB 2.0 sections 9.5 and 9.6). Positions are offsets into the
    buffer. */
module ConfigParser {
  import opened Basics

  const CONFIGURATION: byte := 2
  const INTERFACE: byte := 4
  const ENDPOINT: byte := 5
  const AUDIO_CLASS: byte := 1
  const CLASS_OFFSET := 5
  const CONFIGURATION_SIZE := 9
  const INTERFACE_SIZE := 9
  const ENDPOINT_SIZE := 7
  const AUDIO_ENDPOINT_SIZE := 9
  const MAX_BUFFER := 512

  // ----- The validating pass -----

  /** `kind` may follow a descriptor of kind `last`; 0 stands for none. */
  predicate MayFollow(last: byte, kind: byte) {
    && (kind == CONFIGURATION ==> last == 0)
    && (kind == INTERFACE ==> last != 0)
    && (kind == ENDPOINT ==> last != 0 && last != CONFIGURATION)
  }

  /** The length the kind requires, or 0 if any will do. */
  function ExpectedLength(kind: byte, audio: bool): byte {
    if kind == CONFIGURATION then CONFIGURATION_SIZE
    else if kind == INTERFACE then INTERFACE_SIZE
    else if kind == ENDPOINT then (if audio then AUDIO_ENDPOINT_SIZE else ENDPOINT_SIZE)
    else 0
  }

  predicate LengthFits(kind: byte, audio: bool, len: byte) {
    ExpectedLength(kind, audio) in {0, len}
  }

  /** Outcome of the pass; it never ends at a descriptor of length zero that requires no length. */
  datatype Verdict = Accept | Reject(at: nat) | Hang

  /** The class of the interface at `cur`; a short buffer is read behind its end. */
  function ClassAt(buf: seq<byte>, cur: nat, behind: byte): byte {
    if cur + CLASS_OFFSET < |buf| then buf[cur + CLASS_OFFSET] else behind
  }

  function Scan(buf: seq<byte>, end: nat, cur: nat, last: byte, audio: bool, behind: byte): Verdict
    requires cur <= end <= |buf|
    decreases end - cur
  {
    if cur + 2 >= end then (if cur == end then Accept else Reject(cur))
    else
      var len, kind := buf[cur], buf[cur + 1];
      var audio' := if kind == INTERFACE then ClassAt(buf, cur, behind) == AUDIO_CLASS else audio;
      if cur + len > end || !MayFollow(last, kind) || !LengthFits(kind, audio', len) then Reject(cur)
      else if len == 0 then Hang
      else Scan(buf, end, cur + len, kind, audio', behind)
  }

  function TotalLength(buf: seq<byte>): nat
    requires |buf| >= 4
  {
    (buf[2] as int) + 256 * (buf[3] as int)
  }

  predicate HeaderFits(buf: seq<byte>) {
    && 4 <= |buf| <= MAX_BUFFER
    && buf[0] == CONFIGURATION_SIZE && buf[1] == CONFIGURATION && TotalLength(buf) <= |buf|
  }

  function Parse(buf: seq<byte>, behind: byte): Verdict {
    if HeaderFits(buf) then Scan(buf, TotalLength(buf), 0, 0, false, behind) else Reject(0)
  }

  /** What lies behind the buffer does not matter. */
  lemma {:induction false} BehindIsIrrelevant(buf: seq<byte>, end: nat, cur: nat, last: byte, audio: bool, b: byte, c: byte)
    requires cur <= end <= |buf|
    ensures Scan(buf, end, cur, last, audio, b) == Scan(buf, end, cur, last, audio, c)
    decreases end - cur
  {
    if cur + 2 < end && buf[cur] > 0 && cur + buf[cur] <= end {
      var len, kind := buf[cur], buf[cur + 1];
      var audio' := if kind == INTERFACE then ClassAt(buf, cur, b) == AUDIO_CLASS else audio;
      BehindIsIrrelevant(buf, end, cur + len, kind, audio', b, c);
    }
  }

  // ----- What an accepted buffer looks like -----

  /** The descriptors from `cur` on tile the buffer up to `end`. */
  predicate Tiles(buf: seq<byte>, end: nat, cur: nat)
    requires end <= |buf|
    decreases end - cur
  {
    cur == end || (cur + 2 < end && 0 < buf[cur] && cur + buf[cur] <= end && Tiles(buf, end, cur + buf[cur]))
  }

  /** Their positions. */
  function Starts(buf: seq<byte>, end: nat, cur: nat): (ps: seq<nat>)
    requires end <= |buf| && Tiles(buf, end, cur)
    ensures forall i | 0 <= i < |ps| :: cur <= ps[i] && ps[i] + 2 < end
    decreases end - cur
  {
    if cur == end then [] else [cur] + Starts(buf, end, cur + buf[cur])
  }

  predicate Inside(buf: seq<byte>, ps: seq<nat>) {
    forall i | 0 <= i < |ps| :: ps[i] + 2 < |buf|
  }

  function KindAt(buf: seq<byte>, ps: seq<nat>, i: nat): byte
    requires Inside(buf, ps) && i < |ps|
  {
    buf[ps[i] + 1]
  }

  /** The last interface before the `n`-th descriptor is an audio interface. */
  predicate AudioBefore(buf: seq<byte>, ps: seq<nat>, n: nat)
    requires Inside(buf, ps) && n <= |ps|
  {
    n > 0 &&
    if KindAt(buf, ps, n - 1) == INTERFACE
    then ps[n - 1] + CLASS_OFFSET < |buf| && buf[ps[n - 1] + CLASS_OFFSET] == AUDIO_CLASS
    else AudioBefore(buf, ps, n - 1)
  }

  /** Descriptor `i` may stand where it does and has the length its kind requires. */
  predicate Legal(buf: seq<byte>, ps: seq<nat>, i: nat)
    requires Inside(buf, ps) && i < |ps|
  {
    && MayFollow(if i == 0 then 0 else KindAt(buf, ps, i - 1), KindAt(buf, ps, i))
    && LengthFits(KindAt(buf, ps, i), AudioBefore(buf, ps, i), buf[ps[i]])
  }

  ghost predicate AllLegal(buf: seq<byte>, ps: seq<nat>, from: nat)
    requires Inside(buf, ps)
  {
    forall i | from <= i < |ps| :: Legal(buf, ps, i)
  }

  /** A prefix of positions determines what is known in front of the next descriptor. */
  lemma {:induction false} AudioOfPrefix(buf: seq<byte>, ps: seq<nat>, qs: seq<nat>, n: nat)
    requires Inside(buf, ps) && Inside(buf, ps + qs) && n <= |ps|
    ensures AudioBefore(buf, ps + qs, n) == AudioBefore(buf, ps, n)
  {
    if n > 0 {
      AudioOfPrefix(buf, ps, qs, n - 1);
    }
  }

  lemma FirstOfLegal(buf: seq<byte>, ps: seq<nat>, cur: nat, rest: seq<nat>)
    requires Inside(buf, ps + [cur] + rest)
    ensures Inside(buf, ps + [cur]) && Inside(buf, ps + ([cur] + rest))
    ensures AllLegal(buf, ps + ([cur] + rest), |ps|) <==>
      Legal(buf, ps + [cur], |ps|) && AllLegal(buf, ps + [cur] + rest, |ps| + 1)
  {
    var all, front := ps + [cur] + rest, ps + [cur];
    assert forall i | 0 <= i < |front| :: all[i] == front[i];
    assert all == ps + ([cur] + rest);
    AudioOfPrefix(buf, front, rest, |ps|);
    assert Legal(buf, all, |ps|) <==> Legal(buf, front, |ps|);
  }

  /** The scan from `cur` on, when the descriptors in front of it are those at `ps`. */
  lemma {:induction false} ScanIff(buf: seq<byte>, end: nat, cur: nat, behind: byte, ps: seq<nat>)
    requires cur <= end <= |buf| && Inside(buf, ps)
    ensures Scan(buf, end, cur, if ps == [] then 0 else KindAt(buf, ps, |ps| - 1), AudioBefore(buf, ps, |ps|), behind)
              == Accept
      <==> Tiles(buf, end, cur) && AllLegal(buf, ps + Starts(buf, end, cur), |ps|)
    decreases end - cur
  {
    if cur + 2 < end && 0 < buf[cur] && cur + buf[cur] <= end {
      var next := cur + buf[cur];
      ScanIff(buf, end, next, behind, ps + [cur]);
      AudioOfPrefix(buf, ps, [cur], |ps|);
      LegalStep(buf, end, cur, behind, ps);
      if Tiles(buf, end, next) {
        FirstOfLegal(buf, ps, cur, Starts(buf, end, next));
      }
    }
  }

  /** One step of the scan: it goes on exactly when the descriptor is legal, knowing what
      AudioBefore knows. */
  lemma LegalStep(buf: seq<byte>, end: nat, cur: nat, behind: byte, ps: seq<nat>)
    requires cur + 2 < end <= |buf| && 0 < buf[cur] && cur + buf[cur] <= end && Inside(buf, ps)
    ensures var qs := ps + [cur];
      var last := if ps == [] then 0 else KindAt(buf, ps, |ps| - 1);
      && KindAt(buf, qs, |qs| - 1) == buf[cur + 1]
      && Scan(buf, end, cur, last, AudioBefore(buf, ps, |ps|), behind) ==
           if Legal(buf, qs, |ps|) then Scan(buf, end, cur + buf[cur], buf[cur + 1], AudioBefore(buf, qs, |qs|), behind)
           else Reject(cur)
  {
    AudioOfPrefix(buf, ps, [cur], |ps|);
  }

  /** The pass accepts exactly the buffers whose header fits and whose descriptors tile the total
      length, each behind a kind it may follow and as long as it has to be. A total length of zero
      is accepted. */
  lemma AcceptIff(buf: seq<byte>, behind: byte)
    ensures Parse(buf, behind) == Accept <==>
      && HeaderFits(buf) && Tiles(buf, TotalLength(buf), 0)
      && AllLegal(buf, Starts(buf, TotalLength(buf), 0), 0)
  {
    if HeaderFits(buf) {
      ScanIff(buf, TotalLength(buf), 0, behind, []);
      if Tiles(buf, TotalLength(buf), 0) {
        assert [] + Starts(buf, TotalLength(buf), 0) == Starts(buf, TotalLength(buf), 0);
      }
    }
  }

  // ----- Accepted buffers, byte by byte -----

  /** Descriptor `j` is the last interface in front of descriptor `i`, and its class, in its byte 5, is audio. */
  predicate AudioInterface(buf: seq<byte>, ps: seq<nat>, j: nat, i: nat)
    requires Inside(buf, ps) && j < i <= |ps|
  {
    && buf[ps[j] + 1] == 4 && ps[j] + 5 < |buf| && buf[ps[j] + 5] == 1
    && forall k | j < k < i :: buf[ps[k] + 1] != 4
  }

  ghost predicate InAudio(buf: seq<byte>, ps: seq<nat>, i: nat)
    requires Inside(buf, ps) && i <= |ps|
  {
    exists j: nat :: j < i && AudioInterface(buf, ps, j, i)
  }

  lemma {:induction false} InAudioIff(buf: seq<byte>, ps: seq<nat>, i: nat)
    requires Inside(buf, ps) && i <= |ps|
    ensures AudioBefore(buf, ps, i) <==> InAudio(buf, ps, i)
  {
    if i > 0 {
      InAudioIff(buf, ps, i - 1);
      if buf[ps[i - 1] + 1] == 4 {
        assert AudioBefore(buf, ps, i) <==> AudioInterface(buf, ps, i - 1, i);
      } else {
        forall j: nat | j < i
          ensures AudioInterface(buf, ps, j, i) <==> j < i - 1 && AudioInterface(buf, ps, j, i - 1)
        {
        }
        if InAudio(buf, ps, i) {
          var j: nat :| j < i && AudioInterface(buf, ps, j, i);
          assert AudioInterface(buf, ps, j, i - 1);
        }
        if InAudio(buf, ps, i - 1) {
          var j: nat :| j < i - 1 && AudioInterface(buf, ps, j, i - 1);
          assert AudioInterface(buf, ps, j, i);
        }
      }
    }
  }

  /** What a descriptor of an accepted buffer is like: a configuration (kind 2) has 9 bytes and nothing in
      front of it, an interface (4) has 9 bytes and something in front of it, an endpoint (5) is not right
      behind a configuration and has 9 bytes behind an audio interface and 7 otherwise. A kind of 0
      counts as nothing in front. */
  ghost predicate Conforms(buf: seq<byte>, ps: seq<nat>, i: nat)
    requires Inside(buf, ps) && i < |ps|
  {
    var kind, len := buf[ps[i] + 1], buf[ps[i]];
    var before := if i == 0 then 0 else buf[ps[i - 1] + 1];
    && (kind == 2 ==> len == 9 && before == 0)
    && (kind == 4 ==> len == 9 && before != 0)
    && (kind == 5 ==> len == (if InAudio(buf, ps, i) then 9 else 7) && before != 0 && before != 2)
  }

  lemma ConformsIff(buf: seq<byte>, ps: seq<nat>, i: nat)
    requires Inside(buf, ps) && i < |ps|
    ensures Legal(buf, ps, i) <==> Conforms(buf, ps, i)
  {
    hide AudioBefore, InAudio;
    InAudioIff(buf, ps, i);
  }

  /** The same bytes for the whole buffer: it is accepted exactly when it has 4 to 512 bytes, begins with
      9 and 2, its bytes 2 and 3 are a total length, low byte first, that it has room for, and the
      descriptors tile that length and all conform. */
  lemma AcceptedBytes(buf: seq<byte>, behind: byte)
    ensures Parse(buf, behind) == Accept <==>
      && 4 <= |buf| <= 512 && buf[0] == 9 && buf[1] == 2
      && var total := (buf[2] as int) + 256 * (buf[3] as int);
      && total <= |buf| && Tiles(buf, total, 0)
      && var ps := Starts(buf, total, 0);
      forall i | 0 <= i < |ps| :: Conforms(buf, ps, i)
  {
    hide Tiles, Scan, Conforms, Legal;
    AcceptIff(buf, behind);
    if HeaderFits(buf) && Tiles(buf, TotalLength(buf), 0) {
      var ps := Starts(buf, TotalLength(buf), 0);
      forall i | 0 <= i < |ps|
        ensures Legal(buf, ps, i) <==> Conforms(buf, ps, i)
      {
        ConformsIff(buf, ps, i);
      }
    }
  }

  /** Tiles begin where the one before ends, the first at the beginning, and the last ends at the end. */
  lemma {:induction false} TilesFollow(buf: seq<byte>, end: nat, cur: nat, i: nat)
    requires end <= |buf| && Tiles(buf, end, cur) && i < |Starts(buf, end, cur)|
    ensures var ps := Starts(buf, end, cur);
      && ps[0] == cur && buf[ps[i]] > 0
      && ps[i] + buf[ps[i]] == if i + 1 < |ps| then ps[i + 1] else end
    decreases end - cur
  {
    if i > 0 {
      TilesFollow(buf, end, cur + buf[cur], i - 1);
    }
  }

  /** The descriptors reached from `cur` on by adding up lengths, up to one of length zero. */
  function Reached(buf: seq<byte>, end: nat, cur: nat): (ps: seq<nat>)
    requires end <= |buf|
    ensures forall i | 0 <= i < |ps| :: ps[i] + 2 < end
    decreases end - cur
  {
    if cur + 2 >= end || cur + buf[cur] > end then []
    else if buf[cur] == 0 then [cur]
    else [cur] + Reached(buf, end, cur + buf[cur])
  }

  predicate EndsInZero(buf: seq<byte>, ps: seq<nat>)
    requires Inside(buf, ps)
  {
    ps != [] && buf[ps[|ps| - 1]] == 0
  }

  /** A descriptor of length zero. */
  lemma HangsAtZero(buf: seq<byte>, end: nat, cur: nat, behind: byte, ps: seq<nat>)
    requires cur + 2 < end <= |buf| && buf[cur] == 0 && Inside(buf, ps)
    ensures Scan(buf, end, cur, if ps == [] then 0 else KindAt(buf, ps, |ps| - 1), AudioBefore(buf, ps, |ps|), behind)
              == Hang
      <==> AllLegal(buf, ps + [cur], |ps|)
  {
    AudioOfPrefix(buf, ps, [cur], |ps|);
    assert Legal(buf, ps + [cur], |ps|) <==> AllLegal(buf, ps + [cur], |ps|);
  }

  lemma NoHangAtEnd(buf: seq<byte>, end: nat, cur: nat, last: byte, audio: bool, behind: byte)
    requires cur <= end <= |buf| && (cur + 2 >= end || cur + buf[cur] > end)
    ensures Scan(buf, end, cur, last, audio, behind) != Hang && !EndsInZero(buf, Reached(buf, end, cur))
  {
  }

  lemma EndsInZeroStep(buf: seq<byte>, end: nat, cur: nat)
    requires cur + 2 < end <= |buf| && 0 < buf[cur] && cur + buf[cur] <= end
    ensures var rest := Reached(buf, end, cur + buf[cur]);
      && Reached(buf, end, cur) == [cur] + rest
      && (EndsInZero(buf, rest) <==> EndsInZero(buf, [cur] + rest))
  {
  }

  lemma {:induction false} HangFromIff(buf: seq<byte>, end: nat, cur: nat, behind: byte, ps: seq<nat>)
    requires cur <= end <= |buf| && Inside(buf, ps)
    ensures Scan(buf, end, cur, if ps == [] then 0 else KindAt(buf, ps, |ps| - 1), AudioBefore(buf, ps, |ps|), behind)
              == Hang
      <==> EndsInZero(buf, Reached(buf, end, cur)) && AllLegal(buf, ps + Reached(buf, end, cur), |ps|)
    decreases end - cur
  {
    hide Legal, AllLegal, AudioBefore, Scan, EndsInZero, MayFollow, LengthFits;
    if cur + 2 >= end || cur + buf[cur] > end {
      var last := if ps == [] then 0 else KindAt(buf, ps, |ps| - 1);
      NoHangAtEnd(buf, end, cur, last, AudioBefore(buf, ps, |ps|), behind);
    } else if buf[cur] == 0 {
      HangsAtZero(buf, end, cur, behind, ps);
      assert EndsInZero(buf, [cur]) by {
        LastIsZero(buf, cur);
      }
    } else {
      var rest := Reached(buf, end, cur + buf[cur]);
      EndsInZeroStep(buf, end, cur);
      HangFromIff(buf, end, cur + buf[cur], behind, ps + [cur]);
      LegalStep(buf, end, cur, behind, ps);
      FirstOfLegal(buf, ps, cur, rest);
    }
  }

  lemma LastIsZero(buf: seq<byte>, cur: nat)
    requires cur + 2 < |buf| && buf[cur] == 0
    ensures EndsInZero(buf, [cur])
  {
  }

  /** The pass does not end exactly when the lengths lead, over legal descriptors, to one of length
      zero whose kind requires no length; the driver's loop stays there for ever. */
  lemma HangIff(buf: seq<byte>, behind: byte)
    ensures Parse(buf, behind) == Hang <==>
      && HeaderFits(buf)
      && EndsInZero(buf, Reached(buf, TotalLength(buf), 0)) && AllLegal(buf, Reached(buf, TotalLength(buf), 0), 0)
  {
    if HeaderFits(buf) {
      HangFromIff(buf, TotalLength(buf), 0, behind, []);
      assert [] + Reached(buf, TotalLength(buf), 0) == Reached(buf, TotalLength(buf), 0);
    }
  }

  // ----- Where a buffer is rejected -----

  lemma LegalOfPrefix(buf: seq<byte>, front: seq<nat>, rest: seq<nat>, k: nat)
    requires Inside(buf, front + rest) && k < |front|
    ensures Inside(buf, front) && (Legal(buf, front + rest, k) <==> Legal(buf, front, k))
  {
    assert forall i | 0 <= i < |front| :: (front + rest)[i] == front[i];
    AudioOfPrefix(buf, front, rest, k);
  }

  /** The place behind descriptors that begin at `cur`. */
  function Behind(buf: seq<byte>, cur: nat, ps: seq<nat>): nat
    requires Inside(buf, ps)
  {
    if ps == [] then cur else ps[|ps| - 1] + buf[ps[|ps| - 1]]
  }

  lemma BehindFirst(buf: seq<byte>, cur: nat, rest: seq<nat>)
    requires Inside(buf, [cur] + rest)
    ensures cur < |buf| && Inside(buf, rest) && Behind(buf, cur, [cur] + rest) == Behind(buf, cur + buf[cur], rest)
  {
    assert ([cur] + rest)[0] == cur;
    assert forall i | 0 <= i < |rest| :: ([cur] + rest)[i + 1] == rest[i];
    if rest != [] {
      assert ([cur] + rest)[|rest|] == rest[|rest| - 1];
    }
  }

  lemma ReachedStep(buf: seq<byte>, end: nat, cur: nat)
    requires cur + 2 < end <= |buf| && 0 < buf[cur] && cur + buf[cur] <= end
    ensures Reached(buf, end, cur) == [cur] + Reached(buf, end, cur + buf[cur])
  {
  }

  lemma ReachedNothing(buf: seq<byte>, end: nat, cur: nat, last: byte, audio: bool, behind: byte)
    requires cur <= end <= |buf| && (cur + 2 >= end || cur + buf[cur] > end)
    ensures Reached(buf, end, cur) == [] && Scan(buf, end, cur, last, audio, behind) == if cur == end then Accept else Reject(cur)
  {
  }

  /** The scan rejects at descriptor `i`, which is the first that is not legal, or behind all that fit, where
      something is left that does not. */
  lemma {:induction false} RejectedFrom(buf: seq<byte>, end: nat, cur: nat, behind: byte, ps: seq<nat>, p: nat)
    returns (i: nat)
    requires cur <= end <= |buf| && Inside(buf, ps)
    requires Scan(buf, end, cur, if ps == [] then 0 else KindAt(buf, ps, |ps| - 1), AudioBefore(buf, ps, |ps|), behind)
      == Reject(p)
    ensures var qs := Reached(buf, end, cur);
      && |ps| <= i <= |ps + qs| && (forall k | |ps| <= k < i :: Legal(buf, ps + qs, k))
      && (i < |ps + qs| ==> p == (ps + qs)[i] && !Legal(buf, ps + qs, i))
      && (i == |ps + qs| ==> p == Behind(buf, cur, qs) && p != end && (p + 2 >= end || p + buf[p] > end))
    decreases end - cur
  {
    hide Legal, AudioBefore, Scan, Reached, Behind, MayFollow, LengthFits;
    i := |ps|;
    var last, audio := if ps == [] then 0 else KindAt(buf, ps, |ps| - 1), AudioBefore(buf, ps, |ps|);
    if cur + 2 >= end || cur + buf[cur] > end {
      ReachedNothing(buf, end, cur, last, audio, behind);
      assert Behind(buf, cur, []) == cur by {
        BehindNothing(buf, cur);
      }
    } else if buf[cur] == 0 {
      RejectsAtZero(buf, end, cur, behind, ps, p);
    } else {
      var rest := Reached(buf, end, cur + buf[cur]);
      var front := ps + [cur];
      ReachedStep(buf, end, cur);
      LegalStep(buf, end, cur, behind, ps);
      assert front + rest == ps + ([cur] + rest);
      LegalOfPrefix(buf, front, rest, |ps|);
      if Legal(buf, front, |ps|) {
        i := RejectedFrom(buf, end, cur + buf[cur], behind, front, p);
        BehindFirst(buf, cur, rest);
      }
    }
  }

  lemma BehindNothing(buf: seq<byte>, cur: nat)
    ensures Behind(buf, cur, []) == cur
  {
  }

  lemma RejectsAtZero(buf: seq<byte>, end: nat, cur: nat, behind: byte, ps: seq<nat>, p: nat)
    requires cur + 2 < end <= |buf| && buf[cur] == 0 && Inside(buf, ps)
    requires Scan(buf, end, cur, if ps == [] then 0 else KindAt(buf, ps, |ps| - 1), AudioBefore(buf, ps, |ps|), behind)
      == Reject(p)
    ensures Reached(buf, end, cur) == [cur] && p == cur && !Legal(buf, ps + [cur], |ps|)
  {
    AudioOfPrefix(buf, ps, [cur], |ps|);
  }

  /** Where a rejected buffer goes wrong: at its beginning if the header does not fit, otherwise at the first
      descriptor that does not conform, or behind all that fit, where something is left that does not. */
  lemma RejectedAt(buf: seq<byte>, behind: byte, p: nat) returns (i: nat)
    requires Parse(buf, behind) == Reject(p)
    ensures !(4 <= |buf| <= 512 && buf[0] == 9 && buf[1] == 2 && (buf[2] as int) + 256 * (buf[3] as int) <= |buf|) ==> p == 0
    ensures 4 <= |buf| <= 512 && buf[0] == 9 && buf[1] == 2 && (buf[2] as int) + 256 * (buf[3] as int) <= |buf| ==>
      var end := (buf[2] as int) + 256 * (buf[3] as int);
      var ps := Reached(buf, end, 0);
      && i <= |ps| && (forall k | 0 <= k < i :: Conforms(buf, ps, k))
      && (i < |ps| ==> p == ps[i] && !Conforms(buf, ps, i))
      && (i == |ps| ==>
            p == (if ps == [] then 0 else ps[|ps| - 1] + buf[ps[|ps| - 1]]) && p != end && (p + 2 >= end || p + buf[p] > end))
  {
    hide Legal, Conforms, Scan, Reached;
    i := 0;
    if HeaderFits(buf) {
      var end := TotalLength(buf);
      i := RejectedFrom(buf, end, 0, behind, [], p);
      var ps := Reached(buf, end, 0);
      assert [] + ps == ps;
      forall k | 0 <= k < |ps|
        ensures Legal(buf, ps, k) <==> Conforms(buf, ps, k)
      {
        ConformsIff(buf, ps, k);
      }
    }
  }

  // ----- Iteration -----

  /** The next descriptor of a kind, and the position behind the search. A search for an endpoint
      stops in front of an interface. */
  function Find(buf: seq<byte>, end: nat, cur: nat, kind: byte): (Option<nat>, nat)
    requires end <= |buf| && Tiles(buf, end, cur)
    decreases end - cur
  {
    if cur == end then (None, cur)
    else if kind == ENDPOINT && buf[cur + 1] == INTERFACE then (None, cur)
    else if buf[cur + 1] == kind then (Some(cur), cur + buf[cur])
    else Find(buf, end, cur + buf[cur], kind)
  }

  /** The first descriptor and the others. */
  lemma StartsFrom(buf: seq<byte>, end: nat, cur: nat)
    requires end <= |buf| && Tiles(buf, end, cur)
    ensures cur <= end && (cur == end ==> Starts(buf, end, cur) == [])
    ensures cur != end ==>
      && cur + 2 < end && 0 < buf[cur] && cur + buf[cur] <= end && Tiles(buf, end, cur + buf[cur])
      && (forall q :: q in Starts(buf, end, cur) <==> q == cur || q in Starts(buf, end, cur + buf[cur]))
    ensures forall q | q in Starts(buf, end, cur) :: cur <= q && q + 2 < end
  {
  }

  /** The search stays on boundaries, and passes over no descriptor of the kind. */
  lemma {:induction false} FindIs(buf: seq<byte>, end: nat, cur: nat, kind: byte)
    requires end <= |buf| && Tiles(buf, end, cur)
    ensures var (p, next) := Find(buf, end, cur, kind);
      && cur <= next <= end && Tiles(buf, end, next)
      && (forall q | q in Starts(buf, end, next) :: q in Starts(buf, end, cur))
      && (p.Some? ==> p.value in Starts(buf, end, cur) && p.value + 1 < |buf| && buf[p.value + 1] == kind && next == p.value + buf[p.value])
      && (forall q | q in Starts(buf, end, cur) && q < next && buf[q + 1] == kind :: p == Some(q))
      && (p.None? ==> next == end || (kind == ENDPOINT && buf[next + 1] == INTERFACE))
    decreases end - cur
  {
    hide Starts, Tiles;
    StartsFrom(buf, end, cur);
    if cur != end && !(kind == ENDPOINT && buf[cur + 1] == INTERFACE) {
      if buf[cur + 1] != kind {
        FindIs(buf, end, cur + buf[cur], kind);
      }
    }
  }

  /** Endpoints in front of the next interface. */
  function Endpoints(buf: seq<byte>, end: nat, cur: nat): seq<nat>
    requires end <= |buf| && Tiles(buf, end, cur)
    decreases end - cur
  {
    if cur == end || buf[cur + 1] == INTERFACE then []
    else (if buf[cur + 1] == ENDPOINT then [cur] else []) + Endpoints(buf, end, cur + buf[cur])
  }

  /** An endpoint descriptor with no interface descriptor in front of it. */
  ghost predicate InFirstInterface(buf: seq<byte>, ps: seq<nat>, p: nat)
    requires Inside(buf, ps)
  {
    p in ps && buf[p + 1] == 5 && forall q | q in ps && q < p :: buf[q + 1] != 4
  }

  lemma InFirstInterfaceStep(buf: seq<byte>, cur: nat, rest: seq<nat>, p: nat)
    requires Inside(buf, [cur] + rest) && forall q | q in rest :: cur < q
    ensures Inside(buf, rest) && cur + 1 < |buf|
    ensures InFirstInterface(buf, [cur] + rest, p) <==>
      if p == cur then buf[cur + 1] == ENDPOINT else buf[cur + 1] != INTERFACE && InFirstInterface(buf, rest, p)
  {
    var ps := [cur] + rest;
    assert forall i | 0 <= i < |rest| :: ps[i + 1] == rest[i];
    assert ps[0] == cur;
    assert forall q :: q in ps <==> q == cur || q in rest;
    if InFirstInterface(buf, ps, p) && p != cur {
      assert cur in ps && cur < p;
    }
  }

  lemma {:induction false} EndpointsAre(buf: seq<byte>, end: nat, cur: nat, p: nat)
    requires end <= |buf| && Tiles(buf, end, cur)
    ensures p in Endpoints(buf, end, cur) <==> InFirstInterface(buf, Starts(buf, end, cur), p)
    decreases end - cur
  {
    if cur != end {
      EndpointsAre(buf, end, cur + buf[cur], p);
      InFirstInterfaceStep(buf, cur, Starts(buf, end, cur + buf[cur]), p);
      EndpointsInOrder(buf, end, cur + buf[cur]);
    }
  }

  lemma {:induction false} EndpointsInOrder(buf: seq<byte>, end: nat, cur: nat)
    requires end <= |buf| && Tiles(buf, end, cur)
    ensures forall i | 0 <= i < |Endpoints(buf, end, cur)| :: cur <= Endpoints(buf, end, cur)[i]
    ensures forall i, j | 0 <= i < j < |Endpoints(buf, end, cur)| ::
      Endpoints(buf, end, cur)[i] < Endpoints(buf, end, cur)[j]
    decreases end - cur
  {
    if cur != end {
      EndpointsInOrder(buf, end, cur + buf[cur]);
    }
  }

  /** What the `n`-th of consecutive endpoint queries from `cur` on returns, counted from zero. */
  function Query(buf: seq<byte>, end: nat, cur: nat, n: nat): Option<nat>
    requires end <= |buf| && Tiles(buf, end, cur)
    decreases n
  {
    FindIs(buf, end, cur, ENDPOINT);
    if n == 0 then Find(buf, end, cur, ENDPOINT).0
    else Query(buf, end, Find(buf, end, cur, ENDPOINT).1, n - 1)
  }

  lemma {:induction false} FindEndpoint(buf: seq<byte>, end: nat, cur: nat)
    requires end <= |buf| && Tiles(buf, end, cur)
    ensures var (p, next) := Find(buf, end, cur, ENDPOINT);
      Tiles(buf, end, next) &&
      match p
      case None => Endpoints(buf, end, cur) == [] && Endpoints(buf, end, next) == []
      case Some(q) => Endpoints(buf, end, cur) == [q] + Endpoints(buf, end, next)
    decreases end - cur
  {
    if cur != end && buf[cur + 1] != INTERFACE && buf[cur + 1] != ENDPOINT {
      FindEndpoint(buf, end, cur + buf[cur]);
    }
  }

  /** Consecutive endpoint queries return the endpoints in front of the next interface in order,
      and then nothing, however often they are repeated. */
  lemma {:induction false} QueriesAreEndpoints(buf: seq<byte>, end: nat, cur: nat, n: nat)
    requires end <= |buf| && Tiles(buf, end, cur)
    ensures Query(buf, end, cur, n) ==
      if n < |Endpoints(buf, end, cur)| then Some(Endpoints(buf, end, cur)[n]) else None
    decreases n
  {
    FindEndpoint(buf, end, cur);
    if n > 0 {
      QueriesAreEndpoints(buf, end, Find(buf, end, cur, ENDPOINT).1, n - 1);
    }
  }

  /** After the query for an interface that returned the one at `p`, the endpoint queries return
      exactly the endpoints between it and the next interface. */
  lemma EndpointsOfInterface(buf: seq<byte>, end: nat, cur: nat, p: nat, n: nat)
    requires end <= |buf| && Tiles(buf, end, cur) && Find(buf, end, cur, INTERFACE).0 == Some(p)
    ensures var next := Find(buf, end, cur, INTERFACE).1;
      && Tiles(buf, end, next) && p + 1 < |buf| && next == p + buf[p] && buf[p + 1] == INTERFACE
      && Query(buf, end, next, n) ==
           (if n < |Endpoints(buf, end, next)| then Some(Endpoints(buf, end, next)[n]) else None)
      && forall q :: q in Endpoints(buf, end, next) <==> InFirstInterface(buf, Starts(buf, end, next), q)
  {
    FindIs(buf, end, cur, INTERFACE);
    var next := Find(buf, end, cur, INTERFACE).1;
    QueriesAreEndpoints(buf, end, next, n);
    forall q
      ensures q in Endpoints(buf, end, next) <==> InFirstInterface(buf, Starts(buf, end, next), q)
    {
      EndpointsAre(buf, end, next, q);
    }
  }

  // ----- The parser in place -----

  class Parser {
    const buf: seq<byte>
    var valid: bool
    var endPosition: nat
    var nextPosition: nat
    var currentDescriptor: Option<nat>
    var errorPosition: nat

    /** An accepted parser stands on a boundary between descriptors. */
    ghost predicate Valid()
      reads this
    {
      valid ==>
        && HeaderFits(buf) && endPosition == TotalLength(buf)
        && Tiles(buf, endPosition, 0) && AllLegal(buf, Starts(buf, endPosition, 0), 0)
        && Tiles(buf, endPosition, nextPosition)
        && forall q | q in Starts(buf, endPosition, nextPosition) :: q in Starts(buf, endPosition, 0)
    }

    /** `behind` is what the memory behind the buffer happens to hold. */
    constructor (buf: seq<byte>, behind: byte)
      requires Parse(buf, behind) != Hang
      ensures this.buf == buf && Valid() && nextPosition == 0 && currentDescriptor == None
      ensures valid <==> Parse(buf, behind) == Accept
      ensures !valid ==> Parse(buf, behind) == Reject(errorPosition)
    {
      this.buf := buf;
      valid := false;
      endPosition := |buf|;
      nextPosition := 0;
      currentDescriptor := None;
      errorPosition := 0;
      new;
      if |buf| < 4 || |buf| > MAX_BUFFER {
        return;
      }
      if buf[0] != CONFIGURATION_SIZE || buf[1] != CONFIGURATION || TotalLength(buf) > |buf| {
        return;
      }
      if TotalLength(buf) < |buf| {
        endPosition := TotalLength(buf);
      }
      AcceptIff(buf, behind);
      ScanDescriptors(behind);
    }

    /** The loop of the pass. */
    method ScanDescriptors(behind: byte)
      requires !valid && HeaderFits(buf) && endPosition == TotalLength(buf) && Parse(buf, behind) != Hang
      modifies `valid, `errorPosition
      ensures valid <==> Parse(buf, behind) == Accept
      ensures !valid ==> Parse(buf, behind) == Reject(errorPosition)
    {
      var cur: nat := 0;
      var last: byte := 0;
      var audio := false;
      while cur + 2 < endPosition
        invariant cur <= endPosition && !valid
        invariant Scan(buf, endPosition, cur, last, audio, behind) == Parse(buf, behind)
        decreases endPosition - cur
      {
        var len, kind := buf[cur], buf[cur + 1];
        if cur + len > endPosition {
          errorPosition := cur;
          return;
        }
        var expected: byte := 0;
        if kind == CONFIGURATION {
          if last != 0 {
            errorPosition := cur;
            return;
          }
          expected := CONFIGURATION_SIZE;
        } else if kind == INTERFACE {
          if last == 0 {
            errorPosition := cur;
            return;
          }
          expected := INTERFACE_SIZE;
          audio := ClassAt(buf, cur, behind) == AUDIO_CLASS;
        } else if kind == ENDPOINT {
          if last == 0 || last == CONFIGURATION {
            errorPosition := cur;
            return;
          }
          expected := if audio then AUDIO_ENDPOINT_SIZE else ENDPOINT_SIZE;
        }
        if expected != 0 && len != expected {
          errorPosition := cur;
          return;
        }
        last := kind;
        cur := cur + len;
      }
      if cur != endPosition {
        errorPosition := cur;
        return;
      }
      valid := true;
    }

    /** The next descriptor of a kind. Every descriptor it passes lies inside the buffer. */
    method GetDescriptor(kind: byte) returns (result: Option<nat>)
      requires valid && Valid()
      modifies this
      ensures valid && Valid() && endPosition == old(endPosition)
      ensures (result, nextPosition) == Find(buf, endPosition, old(nextPosition), kind)
      ensures currentDescriptor == result
      ensures result.Some? ==> errorPosition == result.value && result.value in Starts(buf, endPosition, 0)
    {
      hide Starts, Tiles, AllLegal;
      FindIs(buf, endPosition, nextPosition, kind);
      StartsFrom(buf, endPosition, nextPosition);
      result := None;
      while nextPosition < endPosition
        invariant valid && result == None && endPosition == old(endPosition)
        invariant nextPosition <= endPosition && Tiles(buf, endPosition, nextPosition)
        invariant Find(buf, endPosition, nextPosition, kind) == old(Find(buf, endPosition, nextPosition, kind))
        invariant forall q | q in Starts(buf, endPosition, nextPosition) :: q in Starts(buf, endPosition, 0)
        decreases endPosition - nextPosition
      {
        StartsFrom(buf, endPosition, nextPosition);
        var descEnd := nextPosition + buf[nextPosition];
        assert descEnd <= endPosition;
        if kind == ENDPOINT && buf[nextPosition + 1] == INTERFACE {
          break;
        }
        if buf[nextPosition + 1] == kind {
          result := Some(nextPosition);
          nextPosition := descEnd;
          break;
        }
        nextPosition := descEnd;
        StartsFrom(buf, endPosition, nextPosition);
      }
      if result.Some? {
        errorPosition := result.value;
      }
      currentDescriptor := result;
    }
  }
}
