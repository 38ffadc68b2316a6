/** src/gfx.c:288-358: scrolling, deleting and inserting lines as overlapping moves inside the
    framebuffer. Positions count framebuffer elements; a line is a run of `line` elements. */
module LineMoves {
  import opened Basics

  function Fill<T>(n: nat, bg: T): (s: seq<T>)
    ensures |s| == n && forall i | 0 <= i < n :: s[i] == bg
  {
    seq(n, _ => bg)
  }

  /** What was at `from + gap` and behind moves to `from`; the end is filled. */
  function ShiftUp<T>(s: seq<T>, from: nat, gap: nat, bg: T): (t: seq<T>)
    requires from <= |s|
    ensures |t| == |s|
  {
    if from + gap >= |s| then s[..from] + Fill(|s| - from, bg)
    else s[..from] + s[from + gap..] + Fill(gap, bg)
  }

  /** What was at `from` and behind moves `gap` towards the end and the opened part is filled; when
      less than `gap` elements lie behind `from`, the filled part reaches in front of it. */
  function ShiftDown<T>(s: seq<T>, from: nat, gap: nat, bg: T): (t: seq<T>)
    requires from <= |s| && gap <= |s|
    ensures |t| == |s|
  {
    var top := if from + gap <= |s| then from else |s| - gap;
    s[..top] + Fill(gap, bg) + s[top..|s| - gap]
  }

  // ----- Reading the moves line by line -----

  /** Elements in `n` lines: the product, as repeated addition to keep the arithmetic linear. */
  function Lines(line: nat, n: nat): nat {
    if n == 0 then 0 else Lines(line, n - 1) + line
  }

  lemma {:induction false} LinesIsProduct(line: nat, n: nat)
    ensures Lines(line, n) == n * line
  {
    if n > 0 {
      LinesIsProduct(line, n - 1);
    }
  }

  lemma {:induction false} LinesAdd(line: nat, n: nat, m: nat)
    ensures Lines(line, n + m) == Lines(line, n) + Lines(line, m)
  {
    if m > 0 {
      LinesAdd(line, n, m - 1);
    }
  }

  lemma LinesInOrder(line: nat, r: nat, q: nat)
    requires r <= q
    ensures Lines(line, r) <= Lines(line, q)
    ensures r < q ==> Lines(line, r + 1) == Lines(line, r) + line <= Lines(line, q)
  {
    LinesAdd(line, r, q - r);
    if r < q {
      LinesAdd(line, r + 1, q - r - 1);
    }
  }

  function Line<T>(s: seq<T>, line: nat, r: nat): seq<T>
    requires Lines(line, r + 1) <= |s|
  {
    s[Lines(line, r)..Lines(line, r + 1)]
  }

  /** Deleting `n` lines at `row`: lines above stay, lines below move up, the last are background. */
  lemma DeletedLine<T>(s: seq<T>, line: nat, height: nat, row: nat, n: nat, bg: T, r: nat)
    requires |s| == Lines(line, height) && row <= height && r < height
    ensures Lines(line, row) <= |s| && Lines(line, r + 1) <= |s|
    ensures r + n < height ==> Lines(line, r + n + 1) <= |s|
    ensures Line(ShiftUp(s, Lines(line, row), Lines(line, n), bg), line, r) ==
      if r < row then Line(s, line, r)
      else if r + n < height then Line(s, line, r + n)
      else Fill(line, bg)
  {
    hide ShiftUp, Fill, Lines;
    LinesInOrder(line, row, height);
    LinesInOrder(line, r, height);
    LinesAdd(line, r, n);
    if r + n < height {
      LinesInOrder(line, r + n, height);
    }
    SlicesOfShiftUp(s, Lines(line, row), Lines(line, n), bg, Lines(line, r), Lines(line, r + 1));
    if r < row {
      LinesInOrder(line, r, row);
    } else {
      LinesInOrder(line, row, r);
      if r + n >= height {
        LinesInOrder(line, height, r + n);
      }
    }
  }

  /** Inserting `n` lines at `row`, when they fit on the screen: lines above stay, the inserted
      lines are background, lines below move down. */
  lemma InsertedLine<T>(s: seq<T>, line: nat, height: nat, row: nat, n: nat, bg: T, r: nat)
    requires |s| == Lines(line, height) && row + n <= height && r < height
    ensures Lines(line, row) <= |s| && Lines(line, n) <= |s| && Lines(line, r + 1) <= |s|
    ensures r >= row + n ==> Lines(line, r - n + 1) <= |s|
    ensures Line(ShiftDown(s, Lines(line, row), Lines(line, n), bg), line, r) ==
      if r < row then Line(s, line, r)
      else if r < row + n then Fill(line, bg)
      else Line(s, line, r - n)
  {
    hide ShiftDown, Fill, Lines;
    LinesInOrder(line, row + n, height);
    LinesAdd(line, row, n);
    LinesInOrder(line, r, height);
    var from, gap, a, b := Lines(line, row), Lines(line, n), Lines(line, r), Lines(line, r + 1);
    if r < row {
      LinesInOrder(line, r, row);
      SliceAbove(s, from, gap, bg, a, b);
    } else if r < row + n {
      LinesInOrder(line, row, r);
      LinesInOrder(line, r, row + n);
      SliceOpened(s, from, gap, bg, a, b);
    } else {
      LinesInOrder(line, row + n, r);
      LinesAdd(line, r - n, n);
      LinesInOrder(line, r - n, height);
      SliceBelow(s, from, gap, bg, a, b);
    }
  }

  lemma ShiftUpAt<T>(s: seq<T>, from: nat, gap: nat, bg: T, i: nat)
    requires from <= |s| && i < |s|
    ensures ShiftUp(s, from, gap, bg)[i] ==
      if i < from then s[i] else if i + gap < |s| then s[i + gap] else bg
  {
  }

  lemma ShiftDownAt<T>(s: seq<T>, from: nat, gap: nat, bg: T, i: nat)
    requires from <= |s| && gap <= |s| && i < |s|
    ensures ShiftDown(s, from, gap, bg)[i] ==
      if i < from && i + gap < |s| then s[i]
      else if i >= from + gap then s[i - gap]
      else bg
  {
  }

  lemma SlicesOfShiftUp<T>(s: seq<T>, from: nat, gap: nat, bg: T, a: nat, b: nat)
    requires from <= |s| && a <= b <= |s|
    ensures var t := ShiftUp(s, from, gap, bg);
      && (b <= from ==> t[a..b] == s[a..b])
      && (from <= a && b + gap <= |s| ==> t[a..b] == s[a + gap..b + gap])
      && (from <= a && |s| <= a + gap ==> t[a..b] == Fill(b - a, bg))
  {
    var t := ShiftUp(s, from, gap, bg);
    forall i | 0 <= i < b - a
      ensures t[a..b][i] == if a + i < from then s[a + i] else if a + i + gap < |s| then s[a + i + gap] else bg
    {
      ShiftUpAt(s, from, gap, bg, a + i);
    }
  }

  lemma SliceAbove<T>(s: seq<T>, from: nat, gap: nat, bg: T, a: nat, b: nat)
    requires from + gap <= |s| && a <= b <= from
    ensures ShiftDown(s, from, gap, bg)[a..b] == s[a..b]
  {
  }

  lemma SliceOpened<T>(s: seq<T>, from: nat, gap: nat, bg: T, a: nat, b: nat)
    requires from <= a <= b <= from + gap <= |s|
    ensures ShiftDown(s, from, gap, bg)[a..b] == Fill(b - a, bg)
  {
  }

  lemma SliceBelow<T>(s: seq<T>, from: nat, gap: nat, bg: T, a: nat, b: nat)
    requires from + gap <= a <= b <= |s|
    ensures ShiftDown(s, from, gap, bg)[a..b] == s[a - gap..b - gap]
  {
    var t := ShiftDown(s, from, gap, bg);
    forall i | 0 <= i < b - a
      ensures t[a..b][i] == s[a - gap..b - gap][i]
    {
      ShiftDownAt(s, from, gap, bg, a + i);
    }
  }

  /** Deleting the lines just inserted restores the screen, except that as many lines at its end
      are background. */
  lemma DeleteUndoesInsert<T>(s: seq<T>, from: nat, gap: nat, bg: T)
    requires from + gap <= |s|
    ensures ShiftUp(ShiftDown(s, from, gap, bg), from, gap, bg) == s[..|s| - gap] + Fill(gap, bg)
  {
  }

  /** What lies in front of the insertion survives exactly when the inserted lines fit behind it,
      or when the part that does not fit was background already. */
  lemma InsertKeepsFrontIff<T>(s: seq<T>, from: nat, gap: nat, bg: T)
    requires from <= |s| && gap <= |s|
    ensures ShiftDown(s, from, gap, bg)[..from] == s[..from] <==>
      from + gap <= |s| || s[|s| - gap..from] == Fill(from + gap - |s|, bg)
  {
    var t := ShiftDown(s, from, gap, bg);
    if from + gap > |s| {
      assert t[..from] == s[..|s| - gap] + Fill(from + gap - |s|, bg);
      assert s[..from] == s[..|s| - gap] + s[|s| - gap..from];
      assert s[|s| - gap..from] == s[..from][|s| - gap..];
      assert Fill(from + gap - |s|, bg) == t[..from][|s| - gap..];
    }
  }

  // ----- Deleting by addresses -----

  /** Background from `dst` up to `end`. */
  function FilledTo<T>(m: seq<T>, dst: nat, end: nat, bg: T): (r: seq<T>)
    requires end <= |m|
    ensures |r| == |m|
  {
    if dst < end then m[..dst] + Fill(end - dst, bg) + m[end..] else m
  }

  /** Memory after the copy loop that deletes lines, wherever it was told to begin. */
  function CopiedUp<T>(m: seq<T>, dst: nat, src: nat, end: nat, bg: T): (r: seq<T>)
    requires end <= |m| && (src < end ==> dst + end - src <= |m|)
    ensures |r| == |m|
    decreases if src < end then end - src else 0
  {
    if src < end then CopiedUp(m[dst := m[src]], dst + 1, src + 1, end, bg) else FilledTo(m, dst, end, bg)
  }

  lemma {:induction false} CopiedUpAt<T>(m: seq<T>, dst: nat, gap: nat, end: nat, bg: T, i: nat)
    requires dst <= end <= |m| && i < |m|
    ensures CopiedUp(m, dst, dst + gap, end, bg)[i] ==
      if i < dst || i >= end then m[i] else if i + gap < end then m[i + gap] else bg
    decreases end - dst
  {
    if dst + gap < end {
      CopiedUpAt(m[dst := m[dst + gap]], dst + 1, gap, end, bg, i);
    }
  }

  /** The copy moves lines up if it begins at the right place, or behind the end when nothing is
      left to be moved. */
  lemma CopiedUpIsShiftUp<T>(m: seq<T>, base: nat, from: nat, src: nat, gap: nat, end: nat, bg: T)
    requires base + from <= end <= |m|
    requires src == base + from + gap || (src >= end && base + from + gap >= end)
    ensures CopiedUp(m, base + from, src, end, bg) == Between(m, base, end, ShiftUp(m[base..end], from, gap, bg))
  {
    hide ShiftUp;
    assert CopiedUp(m, base + from, src, end, bg) == CopiedUp(m, base + from, base + from + gap, end, bg);
    hide CopiedUp;
    forall i | 0 <= i < |m|
      ensures CopiedUp(m, base + from, src, end, bg)[i] == Between(m, base, end, ShiftUp(m[base..end], from, gap, bg))[i]
    {
      CopiedUpAt(m, base + from, gap, end, bg, i);
      BetweenShiftedAt(m, base, from, gap, end, bg, i);
    }
  }

  /** Memory with its part from `base` to `end` replaced. */
  function Between<T>(m: seq<T>, base: nat, end: nat, part: seq<T>): (r: seq<T>)
    requires base <= end <= |m| && |part| == end - base
    ensures |r| == |m|
  {
    m[..base] + part + m[end..]
  }

  lemma BetweenShiftedAt<T>(m: seq<T>, base: nat, from: nat, gap: nat, end: nat, bg: T, i: nat)
    requires base + from <= end <= |m| && i < |m|
    ensures Between(m, base, end, ShiftUp(m[base..end], from, gap, bg))[i] ==
      if i < base + from || i >= end then m[i] else if i + gap < end then m[i + gap] else bg
  {
    hide ShiftUp;
    if base <= i < end {
      ShiftUpAt(m[base..end], from, gap, bg, i - base);
    }
  }

  /** The copy begins with what it was told to begin with. */
  lemma {:induction false} CopiedUpBegins<T>(m: seq<T>, dst: nat, src: nat, end: nat, bg: T, i: nat)
    requires end <= |m| && (src < end ==> dst + end - src <= |m|) && i < |m|
    ensures i < dst ==> CopiedUp(m, dst, src, end, bg)[i] == m[i]
    ensures i == dst && src < end ==> CopiedUp(m, dst, src, end, bg)[i] == m[src]
    decreases if src < end then end - src else 0
  {
    if src < end {
      CopiedUpBegins(m[dst := m[src]], dst + 1, src + 1, end, bg, i);
    }
  }

  /** Addresses count words of four bytes, and there are 2^30 of them. */
  const WORDS := 0x4000_0000

  /** Where the framebuffer lies: the address of its first word, and the words of one text line. */
  datatype Place = Place(base: nat, line: nat)

  /** Address of text line `k`, before and after it is cut to 32 bits. */
  function Address(p: Place, k: nat): nat {
    p.base + Lines(p.line, k)
  }

  /** Lines are not empty, and the screen ends where memory does or before. */
  predicate Placed(p: Place, height: nat) {
    p.line > 0 && Address(p, height) < WORDS
  }

  /** Text line `k` has an address, or one that is cut to something behind the last line. */
  predicate SourceFits(p: Place, height: nat, k: nat) {
    Address(p, k) < WORDS || Address(p, k) % WORDS >= Address(p, height)
  }

  /** The deletion of `n` lines at `row` by addresses. */
  function DeletedAt<T>(m: seq<T>, p: Place, height: nat, row: nat, n: nat, bg: T): (r: seq<T>)
    requires row <= height && Address(p, row) + Address(p, height) <= |m|
    ensures |r| == |m|
  {
    CopiedUp(m, Address(p, row), Address(p, row + n) % WORDS, Address(p, height), bg)
  }

  /** Deleting `n` lines at `row` does so for every content of memory exactly when the address
      behind the deleted lines fits. */
  lemma DeletesIff<T(!new)>(p: Place, height: nat, row: nat, n: nat, total: nat, bg: T, other: T)
    requires row < height && Placed(p, height) && bg != other
    requires Address(p, row) <= Address(p, height) && Address(p, row) + Address(p, height) <= total
    ensures (forall m: seq<T> | |m| == total :: Deletes(m, p, height, row, n, bg)) <==> SourceFits(p, height, row + n)
  {
    hide ShiftUp, CopiedUp, Lines, Fill, Between;
    LinesAdd(p.line, row, n);
    LinesInOrder(p.line, row, height);
    if row + n < height {
      LinesInOrder(p.line, row + n, height);
    } else {
      LinesInOrder(p.line, height, row + n);
    }
    var base, from, gap, end := p.base, Lines(p.line, row), Lines(p.line, n), Address(p, height);
    var src := Address(p, row + n) % WORDS;
    if SourceFits(p, height, row + n) {
      forall m: seq<T> | |m| == total
        ensures Deletes(m, p, height, row, n, bg)
      {
        CopiedUpIsShiftUp(m, base, from, src, gap, end, bg);
      }
    } else {
      var m := Fill(total, other);
      CopiedUpBegins(m, base + from, src, end, bg, base + from);
      BetweenShiftedAt(m, base, from, gap, end, bg, base + from);
      FillAt(total, other, src);
      assert !Deletes(m, p, height, row, n, bg);
    }
  }

  lemma FillAt<T>(n: nat, c: T, i: nat)
    requires i < n
    ensures Fill(n, c)[i] == c
  {
  }

  predicate Deletes<T(==)>(m: seq<T>, p: Place, height: nat, row: nat, n: nat, bg: T)
    requires Address(p, row) <= Address(p, height) && row <= height && Address(p, row) + Address(p, height) <= |m|
  {
    DeletedAt(m, p, height, row, n, bg) ==
      Between(m, p.base, Address(p, height), ShiftUp(m[p.base..Address(p, height)], Lines(p.line, row), Lines(p.line, n), bg))
  }

  /** Lines of 2560 words, that is 640 pixels by 16: deleting 419431 lines at the top begins its copy in
      the first line. */
  lemma WrapExample(base: nat)
    requires Placed(Place(base, 2560), 30)
    ensures Address(Place(base, 2560), 0 + 419431) % WORDS == base + 1536
    ensures !SourceFits(Place(base, 2560), 30, 0 + 419431)
  {
    LinesIsProduct(2560, 419431);
    LinesIsProduct(2560, 30);
  }

  // ----- The moves in place -----

  /** From `dst` on: what lies from `src` to `end`, as an upward copy leaves it, and then background
      up to `end`. */
  method DeleteLines<T>(mem: array<T>, dst: nat, src: nat, end: nat, bg: T)
    requires end <= mem.Length && (src < end ==> dst + end - src <= mem.Length)
    modifies mem
    ensures mem[..] == CopiedUp(old(mem[..]), dst, src, end, bg)
  {
    hide FilledTo;
    var to: nat, from: nat := dst, src;
    while from < end
      invariant from < end ==> to + end - from <= mem.Length
      invariant CopiedUp(mem[..], to, from, end, bg) == CopiedUp(old(mem[..]), dst, src, end, bg)
    {
      ghost var m := mem[..];
      mem[to] := mem[from];
      assert mem[..] == m[to := m[from]];
      to, from := to + 1, from + 1;
    }
    FillTo(mem, to, end, bg);
  }

  method FillTo<T>(mem: array<T>, dst: nat, end: nat, bg: T)
    requires end <= mem.Length
    modifies mem
    ensures mem[..] == FilledTo(old(mem[..]), dst, end, bg)
  {
    ghost var m := mem[..];
    var to: nat := dst;
    while to < end
      invariant dst <= to && (to <= end || to == dst)
      invariant mem[..] == FilledTo(m, dst, Min(to, end), bg)
    {
      mem[to] := bg;
      to := to + 1;
    }
  }

  method InsertLines<T>(fb: array<T>, size: nat, from: nat, gap: nat, bg: T)
    requires from <= size <= fb.Length && gap <= size
    modifies fb
    ensures fb[..size] == ShiftDown(old(fb[..size]), from, gap, bg)
    ensures fb[size..] == old(fb[size..])
  {
    hide ShiftDown, Fill;
    ghost var was := fb[..];
    var dst: int := size - 1;
    var src: int := size - gap - 1;
    ghost var top := if from + gap <= size then from else size - gap;
    while src >= from
      invariant top - 1 <= src <= size - gap - 1 && dst == src + gap
      invariant src > top - 1 ==> src >= from
      invariant forall i | 0 <= i <= dst || size <= i < fb.Length :: fb[i] == was[i]
      invariant forall i | dst < i < size :: fb[i] == was[i - gap]
    {
      fb[dst] := fb[src];
      dst, src := dst - 1, src - 1;
    }
    src := src + 1;
    while src <= dst
      invariant top <= src <= dst + 1 == top + gap
      invariant forall i | 0 <= i < top || size <= i < fb.Length :: fb[i] == was[i]
      invariant forall i | top <= i < src :: fb[i] == bg
      invariant forall i | dst < i < size :: fb[i] == was[i - gap]
    {
      fb[src] := bg;
      src := src + 1;
    }
    forall i | 0 <= i < size
      ensures fb[..size][i] == ShiftDown(was[..size], from, gap, bg)[i]
    {
      ShiftDownAt(was[..size], from, gap, bg, i);
    }
  }
}
