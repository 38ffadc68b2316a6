/** src/gfx.c:43-50, 1403-1482, 1907-2072: what the terminal makes of whole strings. */
module TerminalProperties {
  import opened Basics
  import opened LineMoves
  import opened TerminalSpec

  // ----- Strings in parts -----

  lemma {:induction false} RunAppend<Cell>(look: Look<Cell>, t: Term<Cell>, a: seq<byte>, b: seq<byte>)
    requires Consistent(t) && AdmissibleString(look, t, a) && AdmissibleString(look, Run(look, t, a), b)
    ensures AdmissibleString(look, t, a + b) && Run(look, t, a + b) == Run(look, Run(look, t, a), b)
    decreases |a|
  {
    hide Step, Admissible;
    if a == [] {
      assert a + b == b;
    } else {
      assert (a + b)[0] == a[0] && (a + b)[1..] == a[1..] + b;
      RunAppend(look, Step(look, t, a[0]), a[1..], b);
    }
  }

  /** A string of one character. */
  lemma RunOne<Cell>(look: Look<Cell>, t: Term<Cell>, ch: byte)
    requires Consistent(t) && ch != 0 && Admissible(t, ch)
    ensures AdmissibleString(look, t, [ch]) && Run(look, t, [ch]) == Step(look, t, ch)
  {
    hide Step, Admissible;
    assert [ch][1..] == [];
    assert AdmissibleString(look, Step(look, t, ch), []);
  }

  lemma RunThenOne<Cell>(look: Look<Cell>, t: Term<Cell>, a: seq<byte>, ch: byte)
    requires Consistent(t) && AdmissibleString(look, t, a) && ch != 0 && Admissible(Run(look, t, a), ch)
    ensures AdmissibleString(look, t, a + [ch]) && Run(look, t, a + [ch]) == Step(look, Run(look, t, a), ch)
  {
    RunOne(look, Run(look, t, a), ch);
    RunAppend(look, t, a, [ch]);
  }

  // ----- Parameters -----

  function Digit(d: nat): byte
    requires d < 10
  {
    '0' as int + d
  }

  function Decimal(n: nat): (s: seq<byte>)
    ensures s != []
  {
    if n < 10 then [Digit(n)] else Decimal(n / 10) + [Digit(n % 10)]
  }

  /** Numbers in decimal, joined by semicolons. */
  function Printed(vs: seq<nat>): seq<byte>
    requires vs != []
  {
    if |vs| == 1 then Decimal(vs[0])
    else Printed(vs[..|vs| - 1]) + [';' as int] + Decimal(vs[|vs| - 1])
  }

  /** The terminal while it reads parameters. */
  function Reading<Cell>(t: Term<Cell>, ps: seq<nat>): Term<Cell> {
    t.(state := ReadDigit, params := ps)
  }

  lemma StepDigit<Cell>(look: Look<Cell>, t: Term<Cell>, ps: seq<nat>, m: nat, d: nat)
    requires Shape(t) && OnScreen(t) && |ps| < MAX_PARAMS && d < 10 && 10 * m + d < U32
    ensures var u := Reading(t, ps + [m]);
      Consistent(u) && Admissible(u, Digit(d)) && Step(look, u, Digit(d)) == Reading(t, ps + [10 * m + d])
  {
    var u := Reading(t, ps + [m]);
    assert (ps + [m])[|ps| := m * 10 + d] == ps + [10 * m + d];
    assert Parse(look, u, Digit(d)) == Reading(t, ps + [10 * m + d]);
  }

  lemma StepSemicolon<Cell>(look: Look<Cell>, t: Term<Cell>, ps: seq<nat>)
    requires Shape(t) && OnScreen(t) && 0 < |ps| < MAX_PARAMS
    ensures var u := Reading(t, ps);
      Consistent(u) && Admissible(u, ';' as int) && Step(look, u, ';' as int) == Reading(t, ps + [0])
  {
    assert Parse(look, Reading(t, ps), ';' as int) == Reading(t, ps + [0]);
  }

  /** A number behind the others. */
  lemma {:induction false} RunDecimal<Cell>(look: Look<Cell>, t: Term<Cell>, ps: seq<nat>, n: nat)
    requires Shape(t) && OnScreen(t) && |ps| < MAX_PARAMS && n < U32
    ensures var u := Reading(t, ps + [0]);
      Consistent(u) && AdmissibleString(look, u, Decimal(n)) && Run(look, u, Decimal(n)) == Reading(t, ps + [n])
  {
    hide Step, Admissible;
    var u := Reading(t, ps + [0]);
    if n < 10 {
      StepDigit(look, t, ps, 0, n);
      RunOne(look, u, Digit(n));
    } else {
      RunDecimal(look, t, ps, n / 10);
      StepDigit(look, t, ps, n / 10, n % 10);
      RunThenOne(look, u, Decimal(n / 10), Digit(n % 10));
    }
  }

  /** The first digit behind the bracket is read as if a zero stood before it. */
  lemma FirstDigit<Cell>(look: Look<Cell>, t: Term<Cell>, s: seq<byte>)
    requires Consistent(t) && t.state == SelectEscape && s != [] && IsDigit(s[0])
    requires AdmissibleString(look, Reading(t, [0]), s)
    ensures AdmissibleString(look, t, s) && Run(look, t, s) == Run(look, Reading(t, [0]), s)
  {
    hide Letter, Put, ClearScreen;
    assert Extended([0], DigitOf(s[0])) == [DigitOf(s[0])];
    assert Step(look, t, s[0]) == Step(look, Reading(t, [0]), s[0]);
  }

  lemma {:induction false} DecimalStartsWithDigit(n: nat)
    ensures IsDigit(Decimal(n)[0])
  {
    if n >= 10 {
      DecimalStartsWithDigit(n / 10);
    }
  }

  lemma {:induction false} PrintedStartsWithDigit(vs: seq<nat>)
    requires vs != []
    ensures Printed(vs) != [] && IsDigit(Printed(vs)[0])
  {
    if |vs| == 1 {
      DecimalStartsWithDigit(vs[0]);
    } else {
      PrintedStartsWithDigit(vs[..|vs| - 1]);
    }
  }

  lemma {:induction false} RunPrinted<Cell>(look: Look<Cell>, t: Term<Cell>, vs: seq<nat>)
    requires Shape(t) && OnScreen(t) && 0 < |vs| <= MAX_PARAMS && forall v | v in vs :: v < U32
    ensures var u := Reading(t, [0]);
      Consistent(u) && AdmissibleString(look, u, Printed(vs)) && Run(look, u, Printed(vs)) == Reading(t, vs)
  {
    hide Step, Admissible, Run, AdmissibleString, Decimal;
    var u := Reading(t, [0]);
    assert vs[|vs| - 1] in vs;
    if |vs| == 1 {
      RunDecimal(look, t, [], vs[0]);
      assert [] + [0] == [0] && [] + [vs[0]] == vs;
    } else {
      var front, n := vs[..|vs| - 1], vs[|vs| - 1];
      forall v | v in front
        ensures v < U32
      {
        assert v in vs;
      }
      RunPrinted(look, t, front);
      StepSemicolon(look, t, front);
      RunThenOne(look, u, Printed(front), ';' as int);
      RunDecimal(look, t, front, n);
      RunAppend(look, u, Printed(front) + [';' as int], Decimal(n));
      assert front + [n] == vs;
    }
  }

  /** Any list of one to 644 parameters, printed in decimal behind ESC [, is read back as it was,
      and nothing else changes but the parser. */
  lemma ParametersRoundTrip<Cell>(look: Look<Cell>, t: Term<Cell>, vs: seq<nat>)
    requires Consistent(t) && t.state == NormalText
    requires 0 < |vs| <= MAX_PARAMS && forall v | v in vs :: v < U32
    ensures var s := [ESC, '[' as int] + Printed(vs);
      AdmissibleString(look, t, s) && Run(look, t, s) == Reading(t.(privateMode := 0), vs)
  {
    hide Run, AdmissibleString, Lines, Placed, Printed;
    var u := t.(state := SelectEscape, privateMode := 0);
    Introduce(look, t);
    RunPrinted(look, u, vs);
    PrintedStartsWithDigit(vs);
    FirstDigit(look, u, Printed(vs));
    RunAppend(look, t, [ESC, '[' as int], Printed(vs));
  }

  /** ESC [. */
  lemma Introduce<Cell>(look: Look<Cell>, t: Term<Cell>)
    requires Consistent(t) && t.state == NormalText
    ensures AdmissibleString(look, t, [ESC, '[' as int])
    ensures Run(look, t, [ESC, '[' as int]) == t.(state := SelectEscape, privateMode := 0)
  {
    var w := t.(state := WaitSquareBracket);
    assert Parse(look, t, ESC) == w && Step(look, t, ESC) == w;
    RunOne(look, t, ESC);
    assert Parse(look, w, '[' as int) == t.(state := SelectEscape, privateMode := 0);
    RunThenOne(look, t, [ESC], '[' as int);
    assert [ESC] + ['[' as int] == [ESC, '[' as int];
  }

  // ----- The position report -----

  const QUERY: seq<byte> := [ESC, '[' as int, '6' as int, 'n' as int]

  /** ESC [ 6 n has no effect but the report. */
  lemma QueryReports<Cell>(look: Look<Cell>, t: Term<Cell>)
    requires Consistent(t) && t.state == NormalText
    ensures AdmissibleString(look, t, QUERY)
    ensures Run(look, t, QUERY) == t.(privateMode := 0, sent := t.sent + PositionReport(t.row, t.col))
  {
    hide Run, AdmissibleString;
    ParametersRoundTrip(look, t, [6]);
    var u := Reading(t.(privateMode := 0), [6]);
    var v := t.(privateMode := 0, sent := t.sent + PositionReport(t.row, t.col));
    assert [ESC, '[' as int] + Printed([6]) + ['n' as int] == QUERY;
    assert Normal(Letter(look, u, 'n' as int)) == v;
    RunThenOne(look, t, [ESC, '[' as int] + Printed([6]), 'n' as int);
  }

  /** The three digits of a report are read as the number they print. */
  lemma RunThreeDigits<Cell>(look: Look<Cell>, t: Term<Cell>, ps: seq<nat>, n: byte)
    requires Shape(t) && OnScreen(t) && |ps| < MAX_PARAMS
    ensures var u := Reading(t, ps + [0]);
      Consistent(u) && AdmissibleString(look, u, ThreeDigits(n)) && Run(look, u, ThreeDigits(n)) == Reading(t, ps + [n])
  {
    hide Run, AdmissibleString, Lines, Placed;
    hide Step, Admissible;
    var u := Reading(t, ps + [0]);
    var a, b, c: nat := n / 100, n / 10 % 10, n % 10;
    assert a < 10 && n == 10 * (10 * a + b) + c;
    StepDigit(look, t, ps, 0, a);
    RunOne(look, u, Digit(a));
    StepDigit(look, t, ps, a, b);
    RunThenOne(look, u, [Digit(a)], Digit(b));
    StepDigit(look, t, ps, 10 * a + b, c);
    RunThenOne(look, u, [Digit(a)] + [Digit(b)], Digit(c));
    assert [Digit(a)] + [Digit(b)] + [Digit(c)] == ThreeDigits(n);
  }

  /** The report of the position, sent back as ESC [ r ; c H. */
  function SentBack(row: nat, col: nat): seq<byte> {
    PositionReport(row, col)[..9] + ['H' as int]
  }

  /** The coordinate the cursor goes to when coordinate `i` of `size` is reported and sent back. */
  function Returned(i: nat, size: nat): nat
    requires size > 0
  {
    Min(Dec32((i % 256 + 1) % 256), size - 1)
  }

  /** Two numbers of three digits, read from the bracket on. */
  lemma RunTwoNumbers<Cell>(look: Look<Cell>, v: Term<Cell>, r: byte, c: byte)
    requires Consistent(v) && v.state == SelectEscape
    ensures var s := ThreeDigits(r) + [';' as int] + ThreeDigits(c);
      AdmissibleString(look, v, s) && Run(look, v, s) == Reading(v, [r, c])
  {
    hide Step, Admissible;
    var first := ThreeDigits(r) + [';' as int];
    assert [] + [0] == [0] && [] + [r] == [r] && [r] + [0] == [r, 0] && [r] + [c] == [r, c];
    RunThreeDigits(look, v, [], r);
    StepSemicolon(look, v, [r]);
    RunThenOne(look, Reading(v, [0]), ThreeDigits(r), ';' as int);
    RunThreeDigits(look, v, [r], c);
    RunAppend(look, Reading(v, [0]), first, ThreeDigits(c));
    FirstDigit(look, v, first + ThreeDigits(c));
  }

  lemma SentBackMoves<Cell>(look: Look<Cell>, u: Term<Cell>, row: nat, col: nat)
    requires Consistent(u) && u.state == NormalText
    ensures AdmissibleString(look, u, SentBack(row, col))
    ensures Run(look, u, SentBack(row, col)) ==
      u.(privateMode := 0, row := Returned(row, u.height), col := Returned(col, u.width))
  {
    hide Step, Admissible, AdmissibleString, Run, ThreeDigits;
    var r: byte, c: byte := (row % 256 + 1) % 256, (col % 256 + 1) % 256;
    var v := u.(state := SelectEscape, privateMode := 0);
    var both := ThreeDigits(r) + [';' as int] + ThreeDigits(c);
    Introduce(look, u);
    RunTwoNumbers(look, v, r, c);
    RunAppend(look, u, [ESC, '[' as int], both);
    MovedTo(look, v, r, c);
    RunThenOne(look, u, [ESC, '[' as int] + both, 'H' as int);
    SentBackIs(row, col);
  }

  lemma SentBackIs(row: nat, col: nat)
    ensures SentBack(row, col) ==
      [ESC, '[' as int] + (ThreeDigits((row % 256 + 1) % 256) + [';' as int] + ThreeDigits((col % 256 + 1) % 256))
      + ['H' as int]
  {
  }

  lemma MovedTo<Cell>(look: Look<Cell>, v: Term<Cell>, r: byte, c: byte)
    requires Consistent(v) && v.state == SelectEscape && v.privateMode == 0
    ensures var w := Reading(v, [r, c]);
      && Consistent(w) && Admissible(w, 'H' as int)
      && Step(look, w, 'H' as int) ==
           v.(state := NormalText, row := Min(Dec32(r), v.height - 1), col := Min(Dec32(c), v.width - 1))
  {
    hide Lines, Placed, PrivateLetter, EraseInLine, EraseInScreen, SelectFrom, Report, DeleteAtCursor, InsertAtCursor,
      SourceFits, Put, ClearScreen, ScrollUp, ParseNormalText, ParseEscape, Dec32;
    var w := Reading(v, [r, c]);
    assert Letter(look, w, 'H' as int) == Motion(w, 'H' as int);
  }

  /** A reported coordinate comes back exactly when it is less than 255, or is the last of its
      row or column and its report is cut to zero. */
  lemma ReturnsIff(i: nat, size: nat)
    requires i < size <= U32
    ensures Returned(i, size) == i <==> i < 255 || (i % 256 == 255 && i == size - 1)
  {
  }

  /** The position that ESC [ 6 n reports, sent back as ESC [ r ; c H to a terminal of the same size
      whose cursor is anywhere, brings the cursor to the reported cell exactly when both
      coordinates come back; in particular always when rows and columns are at most 255. */
  lemma ReportReturns<Cell>(look: Look<Cell>, t: Term<Cell>, u: Term<Cell>)
    requires Consistent(t) && t.state == NormalText && Consistent(u) && u.state == NormalText
    requires u.width == t.width <= U32 && u.height == t.height <= U32
    ensures AdmissibleString(look, t, QUERY) && |Run(look, t, QUERY).sent| == |t.sent| + 10
    ensures var report := Run(look, t, QUERY).sent[|t.sent|..];
      && AdmissibleString(look, u, report[..9] + ['H' as int])
      && var back := Run(look, u, report[..9] + ['H' as int]);
      && (back.row == t.row && back.col == t.col <==>
            && (t.row < 255 || (t.row % 256 == 255 && t.row == t.height - 1))
            && (t.col < 255 || (t.col % 256 == 255 && t.col == t.width - 1)))
      && (t.height <= 255 && t.width <= 255 ==> back.row == t.row && back.col == t.col)
  {
    hide Run, AdmissibleString;
    QueryReports(look, t);
    assert Run(look, t, QUERY).sent[|t.sent|..] == PositionReport(t.row, t.col);
    SentBackMoves(look, u, t.row, t.col);
    ReturnsIff(t.row, t.height);
    ReturnsIff(t.col, t.width);
  }

  // ----- Inserting and deleting lines -----

  function LineSequence(n: nat, ch: byte): seq<byte> {
    [ESC, '[' as int] + Printed([n]) + [ch]
  }

  /** ESC [ n L and ESC [ n M at the cursor. */
  lemma LineSequenceMoves<Cell>(look: Look<Cell>, t: Term<Cell>, n: nat, ch: byte)
    requires Consistent(t) && t.state == NormalText && n <= t.height < U32 && ch in {'L' as int, 'M' as int}
    requires ch == 'M' as int ==> DeleteFits(t, n)
    ensures AdmissibleString(look, t, LineSequence(n, ch))
    ensures Run(look, t, LineSequence(n, ch)) ==
      (if ch == 'L' as int then InsertAtCursor(look, t, n) else DeleteAtCursor(look, t, n)).(privateMode := 0)
  {
    hide Run, AdmissibleString;
    ParametersRoundTrip(look, t, [n]);
    var w := Reading(t.(privateMode := 0), [n]);
    LineLetter(look, t, n, ch);
    RunThenOne(look, t, [ESC, '[' as int] + Printed([n]), ch);
  }

  lemma LineLetter<Cell>(look: Look<Cell>, t: Term<Cell>, n: nat, ch: byte)
    requires Consistent(t) && t.state == NormalText && n <= t.height && ch in {'L' as int, 'M' as int}
    requires ch == 'M' as int ==> DeleteFits(t, n)
    ensures var w := Reading(t.(privateMode := 0), [n]);
      && Consistent(w) && Admissible(w, ch)
      && Step(look, w, ch) ==
           (if ch == 'L' as int then InsertAtCursor(look, t, n) else DeleteAtCursor(look, t, n)).(privateMode := 0)
  {
    hide Lines, Placed, PrivateLetter, EraseInLine, EraseInScreen, Motion, SelectFrom, Report, ShiftUp, ShiftDown,
      SourceFits, Put, ClearScreen, ScrollUp, ParseNormalText, ParseEscape;
  }

  /** The last `n` lines of the screen proper are background. */
  function BottomCleared<Cell>(look: Look<Cell>, t: Term<Cell>, n: nat): seq<Cell>
    requires Shape(t) && n <= t.height
  {
    LinesInOrder(t.width, n, t.height);
    PosBounds(t.width, t.height, t.height, 0);
    t.screen[..Size(t) - Lines(t.width, n)] + Fill(Lines(t.width, n), look.blank(BackgroundOf(t.attr))) + t.screen[Size(t)..]
  }

  /** Only the last of several moves of the screen counts. */
  lemma MovedTwice<Cell>(t: Term<Cell>, proper: seq<Cell>, again: seq<Cell>)
    requires Shape(t) && |proper| == |again| == Size(t)
    ensures Moved(t, proper).screen[..Size(t)] == proper
    ensures Moved(Moved(t, proper), again) == Moved(t, again)
  {
    PosBounds(t.width, t.height, t.height, 0);
    assert Moved(t, proper).screen[Size(t)..] == t.screen[Size(t)..];
  }

  lemma InsertThenDeleteAtCursor<Cell>(look: Look<Cell>, t: Term<Cell>, n: nat)
    requires Shape(t) && t.row + n <= t.height && t.row < t.height
    ensures DeleteAtCursor(look, InsertAtCursor(look, t, n), n) == t.(screen := BottomCleared(look, t, n))
  {
    hide Lines, Fill, ShiftUp, ShiftDown, Placed;
    LinesInOrder(t.width, n, t.height);
    LinesInOrder(t.width, t.row + n, t.height);
    LinesAdd(t.width, t.row, n);
    PosBounds(t.width, t.height, t.height, 0);
    var bg := look.blank(BackgroundOf(t.attr));
    var s, from, gap := t.screen[..Size(t)], Lines(t.width, t.row), Lines(t.width, n);
    DeleteUndoesInsert(s, from, gap, bg);
    assert s[..|s| - gap] == t.screen[..Size(t) - gap];
    assert BottomCleared(look, t, n) == Moved(t, s[..|s| - gap] + Fill(gap, bg)).screen;
    hide Moved, BottomCleared;
    MovedTwice(t, ShiftDown(s, from, gap, bg), s[..|s| - gap] + Fill(gap, bg));
    MovedIsScreen(t, s[..|s| - gap] + Fill(gap, bg));
  }

  lemma MovedIsScreen<Cell>(t: Term<Cell>, proper: seq<Cell>)
    requires Shape(t) && |proper| == Size(t)
    ensures Moved(t, proper) == t.(screen := Moved(t, proper).screen)
  {
  }

  /** Lines inserted at the cursor and deleted again, as escape sequences: when they fit on the
      screen, everything is as before except that as many lines at the bottom are background. */
  lemma InsertThenDelete<Cell>(look: Look<Cell>, t: Term<Cell>, n: nat)
    requires Consistent(t) && t.state == NormalText && t.row + n <= t.height < U32
    ensures var s := LineSequence(n, 'L' as int) + LineSequence(n, 'M' as int);
      && AdmissibleString(look, t, s)
      && Run(look, t, s) == t.(privateMode := 0, screen := BottomCleared(look, t, n))
  {
    hide Run, AdmissibleString, LineSequence, InsertAtCursor, DeleteAtCursor, BottomCleared, Lines;
    var ins, del := LineSequence(n, 'L' as int), LineSequence(n, 'M' as int);
    LineSequenceMoves(look, t, n, 'L' as int);
    var u := Run(look, t, ins);
    LinesInOrder(t.place.line, t.row + n, t.height);
    LineSequenceMoves(look, u, n, 'M' as int);
    RunAppend(look, t, ins, del);
    InsertThenDeleteAtCursor(look, t, n);
    PrivateModeAside(look, InsertAtCursor(look, t, n), n);
  }

  lemma PrivateModeAside<Cell>(look: Look<Cell>, t: Term<Cell>, n: nat)
    requires Shape(t) && t.row < t.height
    ensures DeleteAtCursor(look, t.(privateMode := 0), n) == DeleteAtCursor(look, t, n).(privateMode := 0)
  {
  }
}
