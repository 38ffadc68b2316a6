/** src/gfx.c:944-1022: filling a polygon one scanline at a time. Where an edge meets the scanline
    is computed in floating point, and taken here to be any integer. */
module PolygonScan {

  // ----- Crossings -----

  /** The edge from height `y0` to height `y1` crosses the scanline. */
  predicate Crosses(y0: int, y1: int, y: int) {
    (y0 <= y && y1 > y) || (y0 > y && y1 <= y)
  }

  /** Where the edges cross, in the order of the first `n` edges; edge i goes from vertex i to i + 1. */
  function Crossings(ys: seq<int>, at: seq<int>, y: int, n: nat): (xs: seq<int>)
    requires n < |ys| && n <= |at|
    ensures |xs| <= n
  {
    if n == 0 then []
    else Crossings(ys, at, y, n - 1) + if Crosses(ys[n - 1], ys[n], y) then [at[n - 1]] else []
  }

  /** The ends of edge `i` lie on different sides of the scanline. */
  predicate Across(ys: seq<int>, y: int, i: nat)
    requires i + 1 < |ys|
  {
    (ys[i] <= y) != (ys[i + 1] <= y)
  }

  /** The edges that cross the scanline. */
  function CrossedEdges(ys: seq<int>, y: int, n: nat): (es: set<int>)
    requires n < |ys|
  {
    set i: int | 0 <= i < n && Across(ys, y, i)
  }

  /** Those among them that cross it to the left of `x`. */
  function EdgesLeftOf(ys: seq<int>, at: seq<int>, y: int, n: nat, x: int): (es: set<int>)
    requires n < |ys| && n <= |at|
  {
    set i: int | 0 <= i < n && Across(ys, y, i) && at[i] < x
  }

  /** What a scanline of the polygon fills by the even-odd rule, with its crossings. */
  ghost predicate Filled(ys: seq<int>, at: seq<int>, y: int, n: nat, x: int)
    requires n < |ys| && n <= |at|
  {
    (exists i :: i in CrossedEdges(ys, y, n) && at[i] == x) || |EdgesLeftOf(ys, at, y, n, x)| % 2 == 1
  }

  lemma CrossedStep(ys: seq<int>, y: int, n: nat)
    requires 0 < n < |ys|
    ensures |CrossedEdges(ys, y, n)| == |CrossedEdges(ys, y, n - 1)| + if Across(ys, y, n - 1) then 1 else 0
    ensures forall i :: i in CrossedEdges(ys, y, n) <==>
      i in CrossedEdges(ys, y, n - 1) || (i == n - 1 && Across(ys, y, n - 1))
  {
    assert CrossedEdges(ys, y, n) == CrossedEdges(ys, y, n - 1) + if Across(ys, y, n - 1) then {n - 1} else {};
    assert n - 1 !in CrossedEdges(ys, y, n - 1);
  }

  lemma LeftStep(ys: seq<int>, at: seq<int>, y: int, n: nat, x: int)
    requires 0 < n < |ys| && n <= |at|
    ensures |EdgesLeftOf(ys, at, y, n, x)| ==
      |EdgesLeftOf(ys, at, y, n - 1, x)| + if Across(ys, y, n - 1) && at[n - 1] < x then 1 else 0
  {
    assert EdgesLeftOf(ys, at, y, n, x) ==
      EdgesLeftOf(ys, at, y, n - 1, x) + if Across(ys, y, n - 1) && at[n - 1] < x then {n - 1} else {};
    assert n - 1 !in EdgesLeftOf(ys, at, y, n - 1, x);
  }

  lemma RecordedStep(ys: seq<int>, at: seq<int>, y: int, n: nat)
    requires 0 < n < |ys| && n <= |at|
    ensures Crossings(ys, at, y, n) == Crossings(ys, at, y, n - 1) + if Across(ys, y, n - 1) then [at[n - 1]] else []
  {
  }

  /** The recorded coordinates are those of the crossed edges, one for each, in their order: edge i stands
      behind those of the crossed edges in front of it. */
  lemma {:induction false} RecordedInOrder(ys: seq<int>, at: seq<int>, y: int, n: nat, i: int)
    requires n < |ys| && n <= |at|
    ensures |Crossings(ys, at, y, n)| == |CrossedEdges(ys, y, n)|
    ensures i in CrossedEdges(ys, y, n) ==>
      && 0 <= i < n && |CrossedEdges(ys, y, i)| < |CrossedEdges(ys, y, n)|
      && Crossings(ys, at, y, n)[|CrossedEdges(ys, y, i)|] == at[i]
  {
    if n == 0 {
      assert CrossedEdges(ys, y, 0) == {};
    } else {
      hide CrossedEdges, Crossings, Across;
      CrossedStep(ys, y, n);
      RecordedStep(ys, at, y, n);
      RecordedInOrder(ys, at, y, n - 1, i);
    }
  }

  lemma {:induction false} RecordedIff(ys: seq<int>, at: seq<int>, y: int, n: nat, x: int)
    requires n < |ys| && n <= |at|
    ensures x in Crossings(ys, at, y, n) <==> exists i :: i in CrossedEdges(ys, y, n) && at[i] == x
  {
    if n > 0 {
      hide Crossings, Across;
      RecordedStep(ys, at, y, n);
      RecordedIff(ys, at, y, n - 1, x);
      assert Across(ys, y, n - 1) ==> n - 1 in CrossedEdges(ys, y, n);
      assert forall i :: i in CrossedEdges(ys, y, n - 1) ==> i in CrossedEdges(ys, y, n);
    }
  }

  lemma {:induction false} LeftOfIs(ys: seq<int>, at: seq<int>, y: int, n: nat, x: int)
    requires n < |ys| && n <= |at|
    ensures LeftOf(Crossings(ys, at, y, n), x) == |EdgesLeftOf(ys, at, y, n, x)|
  {
    if n == 0 {
      assert EdgesLeftOf(ys, at, y, 0, x) == {};
    } else {
      hide EdgesLeftOf, Crossings, LeftOf, Across;
      LeftStep(ys, at, y, n, x);
      RecordedStep(ys, at, y, n);
      LeftOfIs(ys, at, y, n - 1, x);
      var before := Crossings(ys, at, y, n - 1);
      if Across(ys, y, n - 1) {
        LeftOfAppend(before, [at[n - 1]], x);
        LeftOfOne(at[n - 1], x);
      } else {
        assert before + [] == before;
      }
    }
  }

  lemma LeftOfOne(c: int, x: int)
    ensures LeftOf([c], x) == if c < x then 1 else 0
  {
    assert [c][1..] == [];
  }

  lemma FilledIs(ys: seq<int>, at: seq<int>, y: int, n: nat, x: int)
    requires n < |ys| && n <= |at|
    ensures Filled(ys, at, y, n, x) <==>
      x in Crossings(ys, at, y, n) || LeftOf(Crossings(ys, at, y, n), x) % 2 == 1
  {
    hide CrossedEdges, EdgesLeftOf, Crossings, LeftOf;
    RecordedIff(ys, at, y, n, x);
    LeftOfIs(ys, at, y, n, x);
  }

  /** Each crossing changes the side of the scanline. */
  lemma {:induction false} CrossingsChangeSides(ys: seq<int>, at: seq<int>, y: int, n: nat)
    requires n < |ys| && n <= |at|
    ensures |Crossings(ys, at, y, n)| % 2 == 0 <==> (ys[0] <= y <==> ys[n] <= y)
  {
    if n > 0 {
      CrossingsChangeSides(ys, at, y, n - 1);
    }
  }

  /** A closed polygon crosses every scanline an even number of times. */
  lemma ClosedCrossesEvenly(ys: seq<int>, at: seq<int>, y: int, n: nat)
    requires n < |ys| && n <= |at| && ys[n] == ys[0]
    ensures |Crossings(ys, at, y, n)| % 2 == 0
  {
    CrossingsChangeSides(ys, at, y, n);
  }

  // ----- Sorting -----

  /** One comparison of the sort. */
  function Swapped(s: seq<int>, j: nat): (t: seq<int>)
    requires j + 1 < |s|
    ensures |t| == |s|
  {
    if s[j] > s[j + 1] then s[j := s[j + 1]][j + 1 := s[j]] else s
  }

  /** The first `n` comparisons of a pass. */
  function Pass(s: seq<int>, n: nat): (t: seq<int>)
    requires n == 0 || n < |s|
    ensures |t| == |s|
  {
    if n == 0 then s else Swapped(Pass(s, n - 1), n - 1)
  }

  function Passes(s: seq<int>, m: nat): (t: seq<int>)
    requires |s| > 0
    ensures |t| == |s|
  {
    if m == 0 then s else Pass(Passes(s, m - 1), |s| - 1)
  }

  /** As many full passes as there are gaps between the crossings. */
  function Arranged(s: seq<int>): (t: seq<int>)
    ensures |t| == |s|
  {
    if s == [] then s else Passes(s, |s| - 1)
  }

  predicate Sorted(s: seq<int>) {
    forall i, j | 0 <= i < j < |s| :: s[i] <= s[j]
  }

  /** The last `p` elements are in their places. */
  predicate Settled(s: seq<int>, p: nat) {
    forall i, j | 0 <= i < j < |s| && j >= |s| - p :: s[i] <= s[j]
  }

  /** No element in front of `n` is greater. */
  predicate Leads(s: seq<int>, n: nat)
    requires n < |s|
  {
    forall i | 0 <= i < n :: s[i] <= s[n]
  }

  lemma SwappedKeeps(s: seq<int>, p: nat, j: nat)
    requires j + 1 < |s| && Settled(s, p)
    ensures Settled(Swapped(s, j), p) && multiset(Swapped(s, j)) == multiset(s)
    ensures Leads(s, j) ==> Leads(Swapped(s, j), j + 1)
  {
    SwappedPermutes(s, j);
  }

  lemma SwappedPermutes(s: seq<int>, j: nat)
    requires j + 1 < |s|
    ensures multiset(Swapped(s, j)) == multiset(s)
  {
  }

  lemma NothingLeads(s: seq<int>)
    requires s != []
    ensures Leads(s, 0)
  {
  }

  /** A pass carries the greatest unsettled element to its place. */
  lemma {:induction false} PassSettles(s: seq<int>, p: nat, n: nat)
    requires p < |s| && Settled(s, p) && (n == 0 || n < |s|)
    ensures Settled(Pass(s, n), if n >= |s| - 1 - p then p + 1 else p)
    ensures n <= |s| - 1 - p ==> Leads(Pass(s, n), n)
    ensures multiset(Pass(s, n)) == multiset(s)
  {
    hide Swapped, Settled, Leads;
    NothingLeads(s);
    if n > 0 {
      PassSettles(s, p, n - 1);
      var r := Pass(s, n - 1);
      SwappedKeeps(r, if n - 1 >= |s| - 1 - p then p + 1 else p, n - 1);
    }
    if n == |s| - 1 - p {
      LeaderSettles(Pass(s, n), p);
    }
  }

  lemma LeaderSettles(s: seq<int>, p: nat)
    requires p < |s| && Settled(s, p) && Leads(s, |s| - 1 - p)
    ensures Settled(s, p + 1)
  {
  }

  lemma NothingSettled(s: seq<int>)
    ensures Settled(s, 0)
  {
  }

  lemma {:induction false} PassesSettle(s: seq<int>, m: nat)
    requires m < |s|
    ensures Settled(Passes(s, m), m) && multiset(Passes(s, m)) == multiset(s)
  {
    hide Settled, Pass;
    NothingSettled(s);
    if m > 0 {
      PassesSettle(s, m - 1);
      PassSettles(Passes(s, m - 1), m - 1, |s| - 1);
    }
  }

  /** One pass less than there are crossings leaves them sorted, and a permutation of what they were. */
  lemma ArrangedIsSorted(s: seq<int>)
    ensures Sorted(Arranged(s)) && multiset(Arranged(s)) == multiset(s)
  {
    if s != [] {
      PassesSettle(s, |s| - 1);
    }
  }

  // ----- Spans -----

  /** `x` lies in one of the spans between the first and second crossing, third and fourth, ... */
  predicate Covered(c: seq<int>, x: int) {
    |c| >= 2 && (c[0] <= x <= c[1] || Covered(c[2..], x))
  }

  /** Crossings to the left of `x`. */
  function LeftOf(m: seq<int>, x: int): nat {
    if m == [] then 0 else (if m[0] < x then 1 else 0) + LeftOf(m[1..], x)
  }

  lemma {:induction false} NoneLeft(c: seq<int>, x: int)
    requires forall i | 0 <= i < |c| :: x <= c[i]
    ensures LeftOf(c, x) == 0
  {
    if c != [] {
      NoneLeft(c[1..], x);
    }
  }

  lemma {:induction false} CoveredNeedsStart(c: seq<int>, x: int)
    requires Covered(c, x)
    ensures exists i :: 0 <= i < |c| && c[i] <= x
  {
    if c[0] <= x {
    } else {
      CoveredNeedsStart(c[2..], x);
      var i :| 0 <= i < |c[2..]| && c[2..][i] <= x;
      assert c[i + 2] <= x;
    }
  }

  /** Behind the first two of sorted crossings. */
  lemma SortedRest(c: seq<int>)
    requires Sorted(c) && |c| >= 2
    ensures Sorted(c[2..]) && c[0] <= c[1] && forall i | 0 <= i < |c[2..]| :: c[1] <= c[2..][i]
  {
  }

  lemma FirstTwo(c: seq<int>, x: int)
    requires |c| >= 2
    ensures LeftOf(c, x) == (if c[0] < x then 1 else 0) + (if c[1] < x then 1 else 0) + LeftOf(c[2..], x)
    ensures x in c <==> x == c[0] || x == c[1] || x in c[2..]
  {
    assert c[1..][1..] == c[2..] && c == [c[0], c[1]] + c[2..];
  }

  /** Nothing is covered in front of all crossings. */
  lemma NoneCovered(c: seq<int>, x: int)
    requires forall i | 0 <= i < |c| :: x < c[i]
    ensures !Covered(c, x) && x !in c
  {
    hide Covered;
    if Covered(c, x) {
      CoveredNeedsStart(c, x);
    }
  }

  /** On sorted crossings the spans cover exactly the crossings themselves and the points with an
      odd number of crossings to their left. */
  lemma {:induction false} SpansAreEvenOdd(c: seq<int>, x: int)
    requires Sorted(c) && |c| % 2 == 0
    ensures Covered(c, x) <==> x in c || LeftOf(c, x) % 2 == 1
    decreases |c|
  {
    hide Sorted;
    if c != [] {
      SortedRest(c);
      FirstTwo(c, x);
      SpansAreEvenOdd(c[2..], x);
      hide LeftOf;
      if x <= c[1] {
        NoneLeft(c[2..], x);
      }
      if x < c[0] {
        NoneCovered(c[2..], x);
      }
    }
  }

  /** The number of crossings to the left does not depend on their order. */
  lemma {:induction false} LeftOfAppend(a: seq<int>, b: seq<int>, x: int)
    ensures LeftOf(a + b, x) == LeftOf(a, x) + LeftOf(b, x)
  {
    if a == [] {
      assert a + b == b;
    } else {
      LeftOfAppend(a[1..], b, x);
      assert (a + b)[1..] == a[1..] + b;
    }
  }

  lemma {:induction false} LeftOfPermuted(s: seq<int>, t: seq<int>, x: int)
    requires multiset(s) == multiset(t)
    ensures LeftOf(s, x) == LeftOf(t, x)
  {
    hide LeftOf;
    if s == [] {
      NothingPermuted(t);
    } else {
      var i := IndexIn(s, t);
      SameRest(s, t, i);
      LeftOfPermuted(s[1..], t[..i] + t[i + 1..], x);
      LeftOfRemoved(s, 0, x);
      LeftOfRemoved(t, i, x);
      assert s[..0] + s[0 + 1..] == s[1..];
    }
  }

  lemma NothingPermuted(t: seq<int>)
    requires multiset(t) == multiset([])
    ensures t == []
  {
    assert |t| == |multiset(t)| == 0;
  }

  lemma SameRest(s: seq<int>, t: seq<int>, i: nat)
    requires s != [] && i < |t| && t[i] == s[0] && multiset(s) == multiset(t)
    ensures multiset(s[1..]) == multiset(t[..i] + t[i + 1..])
  {
    RemovedFirst(s);
    Removed(t, i);
  }

  lemma RemovedFirst(s: seq<int>)
    requires s != []
    ensures multiset(s[1..]) == multiset(s) - multiset{s[0]}
  {
    assert s == [s[0]] + s[1..];
  }

  lemma IndexIn(s: seq<int>, t: seq<int>) returns (i: nat)
    requires s != [] && multiset(s) == multiset(t)
    ensures i < |t| && t[i] == s[0]
  {
    assert s[0] in multiset(s);
    assert s[0] in multiset(t);
    i :| i < |t| && t[i] == s[0];
  }

  lemma Removed(s: seq<int>, i: nat)
    requires i < |s|
    ensures multiset(s[..i] + s[i + 1..]) == multiset(s) - multiset{s[i]}
  {
    assert s == s[..i] + [s[i]] + s[i + 1..];
  }

  lemma LeftOfRemoved(s: seq<int>, i: nat, x: int)
    requires i < |s|
    ensures LeftOf(s, x) == LeftOf(s[..i] + s[i + 1..], x) + if s[i] < x then 1 else 0
  {
    var rest := [s[i]] + s[i + 1..];
    assert s == s[..i] + rest && rest[1..] == s[i + 1..];
    LeftOfAppend(s[..i], s[i + 1..], x);
    LeftOfAppend(s[..i], rest, x);
  }

  /** What one scanline fills, for any closed polygon: its crossings, and the points with an odd
      number of crossings to their left, counted over the edges in any order. */
  lemma ScanlineIsEvenOdd(ys: seq<int>, at: seq<int>, y: int, n: nat, x: int)
    requires n < |ys| && n <= |at| && ys[n] == ys[0]
    ensures Covered(Arranged(Crossings(ys, at, y, n)), x) <==> Filled(ys, at, y, n, x)
  {
    hide Filled;
    FilledIs(ys, at, y, n, x);
    var c := Crossings(ys, at, y, n);
    ClosedCrossesEvenly(ys, at, y, n);
    ArrangedIsSorted(c);
    SpansAreEvenOdd(Arranged(c), x);
    LeftOfPermuted(c, Arranged(c), x);
    assert x in c <==> x in multiset(c);
    assert x in Arranged(c) <==> x in multiset(Arranged(c));
  }

  // ----- In place -----

  /** The loop over the edges. */
  method CollectCrossings(ys: seq<int>, at: seq<int>, y: int, n: nat, xi: array<int>) returns (k: nat)
    requires n < |ys| && n <= |at| && n <= xi.Length
    modifies xi
    ensures k <= xi.Length && xi[..k] == Crossings(ys, at, y, n)
    ensures k == |CrossedEdges(ys, y, n)|
    ensures forall i | i in CrossedEdges(ys, y, n) ::
      |CrossedEdges(ys, y, i)| < k && xi[|CrossedEdges(ys, y, i)|] == at[i]
  {
    k := 0;
    for i := 0 to n
      invariant k <= i && xi[..k] == Crossings(ys, at, y, i)
    {
      if (ys[i] <= y && ys[i + 1] > y) || (ys[i] > y && ys[i + 1] <= y) {
        xi[k] := at[i];
        k := k + 1;
      }
    }
    RecordedInOrder(ys, at, y, n, 0);
    forall i | i in CrossedEdges(ys, y, n)
      ensures |CrossedEdges(ys, y, i)| < k && xi[|CrossedEdges(ys, y, i)|] == at[i]
    {
      RecordedInOrder(ys, at, y, n, i);
      assert xi[|CrossedEdges(ys, y, i)|] == xi[..k][|CrossedEdges(ys, y, i)|];
    }
  }

  /** The two loops that arrange the first `k` crossings. */
  method SortCrossings(xi: array<int>, k: nat)
    requires k <= xi.Length
    modifies xi
    ensures xi[..k] == Arranged(old(xi[..k]))
  {
    ghost var s := xi[..k];
    var i := 0;
    while i < k - 1
      invariant 0 <= i && (k > 0 ==> i <= k - 1 && xi[..k] == Passes(s, i))
      invariant k == 0 ==> xi[..k] == s
    {
      ghost var r := xi[..k];
      var j := 0;
      while j < k - 1
        invariant 0 <= j <= k - 1 && xi[..k] == Pass(r, j)
      {
        SwapAt(xi, k, j);
        j := j + 1;
      }
      i := i + 1;
    }
  }

  method SwapAt(xi: array<int>, k: nat, j: nat)
    requires j + 1 < k <= xi.Length
    modifies xi
    ensures xi[..k] == Swapped(old(xi[..k]), j)
  {
    if xi[j] > xi[j + 1] {
      xi[j], xi[j + 1] := xi[j + 1], xi[j];
    }
  }

  /** One scanline of a closed polygon with `n` edges: the spans that are filled. The loop over pairs
      never reads behind the crossings, because their number is even. */
  method ScanLine(ys: seq<int>, at: seq<int>, y: int, n: nat, xi: array<int>) returns (spans: seq<(int, int)>)
    requires n < |ys| && n <= |at| && n <= xi.Length && ys[n] == ys[0]
    modifies xi
    ensures forall x :: InSpans(spans, x) <==>
      || (exists i :: i in CrossedEdges(ys, y, n) && at[i] == x)
      || |EdgesLeftOf(ys, at, y, n, x)| % 2 == 1
    ensures forall span | span in spans :: span.0 <= span.1
  {
    hide Crossings, LeftOf, Arranged, Sorted, CrossedEdges, EdgesLeftOf;
    ghost var c := Crossings(ys, at, y, n);
    ClosedCrossesEvenly(ys, at, y, n);
    var k := CollectCrossings(ys, at, y, n, xi);
    SortCrossings(xi, k);
    ArrangedIsSorted(c);
    ghost var s := xi[..k];
    spans := [];
    var i := 0;
    assert s[i..] == s;
    while i < k
      invariant 0 <= i <= k && i % 2 == 0
      invariant forall x :: InSpans(spans, x) || Covered(s[i..], x) <==> Covered(s, x)
      invariant forall span | span in spans :: span.0 <= span.1
    {
      ghost var before := spans;
      spans := spans + [(xi[i], xi[i + 1])];
      assert s[i..][2..] == s[i + 2..];
      forall x
        ensures InSpans(spans, x) || Covered(s[i + 2..], x) <==> InSpans(before, x) || Covered(s[i..], x)
      {
        InSpansAppend(before, (xi[i], xi[i + 1]), x);
      }
      i := i + 2;
    }
    forall x
      ensures InSpans(spans, x) <==> Filled(ys, at, y, n, x)
    {
      ScanlineIsEvenOdd(ys, at, y, n, x);
    }
  }

  ghost predicate InSpans(spans: seq<(int, int)>, x: int) {
    exists span :: span in spans && span.0 <= x <= span.1
  }

  lemma InSpansAppend(spans: seq<(int, int)>, last: (int, int), x: int)
    ensures InSpans(spans + [last], x) <==> InSpans(spans, x) || last.0 <= x <= last.1
  {
    assert forall span :: span in spans + [last] <==> span in spans || span == last;
    if last.0 <= x <= last.1 {
      assert last in spans + [last];
    }
  }
}
