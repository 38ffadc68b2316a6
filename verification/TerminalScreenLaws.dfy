/** src/gfx.c:1403-2196: which cells of the screen a string changes, and to what. */
module TerminalScreenLaws {
  import opened Basics
  import opened LineMoves
  import opened TerminalSpec
  import opened TerminalProperties
  import opened TerminalLaws

  // ----- Cells -----

  function CellAt<Cell>(t: Term<Cell>, r: nat, c: nat): Cell
    requires Shape(t) && r < t.height && c < t.width
  {
    PosBounds(t.width, t.height, r, c);
    t.screen[Pos(t.width, r, c)]
  }

  /** Only the screen is different, and possibly where the cursor is. */
  ghost predicate OnlyScreen<Cell>(t: Term<Cell>, u: Term<Cell>, row: nat, col: nat) {
    |u.screen| == |t.screen| && u == t.(screen := u.screen, row := row, col := col)
  }

  /** Places of the screen, in the order of their positions. */
  lemma PosOrder(width: nat, r: nat, c: nat, row: nat, col: nat)
    requires c < width && col <= width
    ensures Pos(width, r, c) < Pos(width, row, col) <==> r < row || (r == row && c < col)
  {
    hide Lines;
    if r < row {
      LinesInOrder(width, r, row);
    } else if row < r {
      LinesInOrder(width, row, r);
    }
  }

  lemma PaintedAt<Cell>(s: seq<Cell>, from: nat, n: nat, c: Cell, p: nat)
    requires from + n <= |s| && p < |s|
    ensures Painted(s, from, n, c)[p] == if from <= p < from + n then c else s[p]
  {
  }

  lemma ClearedInLine<Cell>(look: Look<Cell>, t: Term<Cell>, from: nat, to: nat, r: nat, c: nat)
    requires Shape(t) && t.row < t.height && from <= to <= t.width && r < t.height && c < t.width
    ensures CellAt(ClearInLine(look, t, from, to), r, c) ==
      if r == t.row && from <= c < to then look.blank(t.attr.bg) else CellAt(t, r, c)
    ensures OnlyScreen(t, ClearInLine(look, t, from, to), t.row, t.col)
  {
    hide Painted, Lines, Placed;
    PosBounds(t.width, t.height, t.row, from);
    PosBounds(t.width, t.height, t.row, to);
    PosBounds(t.width, t.height, r, c);
    PosOrder(t.width, r, c, t.row, from);
    PosOrder(t.width, r, c, t.row, to);
    PaintedAt(t.screen, Pos(t.width, t.row, from), to - from, look.blank(t.attr.bg), Pos(t.width, r, c));
  }

  lemma ClearedLines<Cell>(look: Look<Cell>, t: Term<Cell>, from: nat, to: nat, r: nat, c: nat)
    requires Shape(t) && from <= to <= t.height && r < t.height && c < t.width
    ensures CellAt(ClearLines(look, t, from, to), r, c) ==
      if from <= r < to then look.blank(t.attr.bg) else CellAt(t, r, c)
    ensures OnlyScreen(t, ClearLines(look, t, from, to), t.row, t.col)
  {
    hide Painted, Lines, Placed;
    PosBounds(t.width, t.height, from, 0);
    PosBounds(t.width, t.height, to, 0);
    LinesInOrder(t.width, from, to);
    PosBounds(t.width, t.height, r, c);
    PosOrder(t.width, r, c, from, 0);
    PosOrder(t.width, r, c, to, 0);
    PaintedAt(t.screen, Pos(t.width, from, 0), Pos(t.width, to, 0) - Pos(t.width, from, 0), look.blank(t.attr.bg),
              Pos(t.width, r, c));
  }

  lemma ClearedScreen<Cell>(look: Look<Cell>, t: Term<Cell>, r: nat, c: nat)
    requires Shape(t) && r < t.height && c < t.width
    ensures CellAt(ClearScreen(look, t), r, c) == look.blank(if t.attr.inverse then t.attr.fg else t.attr.bg)
    ensures OnlyScreen(t, ClearScreen(look, t), t.row, t.col)
  {
    hide Painted, Lines, Placed;
    PosBounds(t.width, t.height, t.height, 0);
    PosBounds(t.width, t.height, r, c);
    PosOrder(t.width, r, c, t.height, 0);
    PaintedAt(t.screen, 0, Size(t), look.blank(BackgroundOf(t.attr)), Pos(t.width, r, c));
  }

  // ----- Erasing -----

  /** The letters K, J, M and L, and what they do. */
  lemma ScreenLetters<Cell>(look: Look<Cell>, g: Term<Cell>)
    requires Shape(g) && OnScreen(g) && g.privateMode == 0
    ensures LetterAdmissible(g, 75) && Letter(look, g, 75) == EraseInLine(look, g)
    ensures LetterAdmissible(g, 74) && Letter(look, g, 74) == EraseInScreen(look, g)
    ensures DeleteFits(g, LineCount(g.params)) ==>
      LetterAdmissible(g, 77) && Letter(look, g, 77) == DeleteAtCursor(look, g, LineCount(g.params))
    ensures LineCount(g.params) <= g.height ==>
      LetterAdmissible(g, 76) && Letter(look, g, 76) == InsertAtCursor(look, g, LineCount(g.params))
  {
    hide Lines, Placed, PrivateLetter, EraseInLine, EraseInScreen, Motion, SelectFrom, Report, DeleteAtCursor, InsertAtCursor,
      SourceFits;
  }

  /** Which cells ESC [ K erases: from the cursor on, up to and including it, or the whole line. */
  predicate ErasedByK(vs: seq<nat>, col: nat, c: nat) {
    if vs == [] || vs == [0] then c >= col else if vs == [1] then c <= col else vs == [2]
  }

  lemma LineErased<Cell>(look: Look<Cell>, t: Term<Cell>, vs: seq<nat>, r: nat, c: nat)
    requires Idle(t) && Values(vs) && r < t.height && c < t.width
    ensures AdmissibleString(look, t, Sequence(vs, 75))
    ensures var u := Run(look, t, Sequence(vs, 75));
      && OnlyScreen(t.(privateMode := 0), u, t.row, t.col)
      && CellAt(u, r, c) == if r == t.row && ErasedByK(vs, t.col, c) then look.blank(t.attr.bg) else CellAt(t, r, c)
  {
    hide Run, AdmissibleString, Lines, Placed, Sequence, EraseInLine, Letter, LetterAdmissible, Finish, ErasedByK;
    var g := Given(t, vs);
    ScreenLetters(look, g);
    SequenceIs(look, t, vs, 75);
    ErasedInLine(look, g, r, c);
    FinishNothing(look, Normal(EraseInLine(look, g)));
  }

  lemma ErasedInLine<Cell>(look: Look<Cell>, g: Term<Cell>, r: nat, c: nat)
    requires Shape(g) && OnScreen(g) && r < g.height && c < g.width
    ensures OnlyScreen(g, EraseInLine(look, g), g.row, g.col)
    ensures CellAt(EraseInLine(look, g), r, c) ==
      if r == g.row && ErasedByK(g.params, g.col, c) then look.blank(g.attr.bg) else CellAt(g, r, c)
  {
    hide Lines, Placed, ClearInLine, CellAt;
    ClearedInLine(look, g, g.col, g.width, r, c);
    ClearedInLine(look, g, 0, g.col + 1, r, c);
    ClearedInLine(look, g, 0, g.width, r, c);
  }

  /** Which cells ESC [ J erases: from the cursor on, or up to and including it. */
  predicate ErasedByJ(p: nat, row: nat, col: nat, r: nat, c: nat) {
    if p == 0 then r > row || (r == row && c >= col) else p == 1 && (r < row || (r == row && c <= col))
  }

  lemma ScreenErased<Cell>(look: Look<Cell>, t: Term<Cell>, vs: seq<nat>, r: nat, c: nat)
    requires Idle(t) && Values(vs) && r < t.height && c < t.width
    ensures AdmissibleString(look, t, Sequence(vs, 74))
    ensures var p, u := if vs == [] then 0 else vs[0], Run(look, t, Sequence(vs, 74));
      && (if p == 2 then
            && OnlyScreen(t.(privateMode := 0), u, 0, 0)
            && CellAt(u, r, c) == look.blank(if t.attr.inverse then t.attr.fg else t.attr.bg)
          else
            && OnlyScreen(t.(privateMode := 0), u, t.row, t.col)
            && CellAt(u, r, c) == if ErasedByJ(p, t.row, t.col, r, c) then look.blank(t.attr.bg) else CellAt(t, r, c))
  {
    hide Run, AdmissibleString, Lines, Placed, Sequence, ClearInLine, ClearLines, ClearScreen, Letter, LetterAdmissible, Finish;
    var g := Given(t, vs);
    ScreenLetters(look, g);
    SequenceIs(look, t, vs, 74);
    ErasedParts(look, g, r, c);
    FinishNothing(look, Normal(EraseInScreen(look, g)));
  }

  lemma ErasedParts<Cell>(look: Look<Cell>, g: Term<Cell>, r: nat, c: nat)
    requires Shape(g) && OnScreen(g) && r < g.height && c < g.width
    ensures OnlyScreen(g, ErasedBelow(look, g), g.row, g.col) && OnlyScreen(g, ErasedAbove(look, g), g.row, g.col)
    ensures CellAt(ErasedBelow(look, g), r, c) ==
      if ErasedByJ(0, g.row, g.col, r, c) then look.blank(g.attr.bg) else CellAt(g, r, c)
    ensures CellAt(ErasedAbove(look, g), r, c) ==
      if ErasedByJ(1, g.row, g.col, r, c) then look.blank(g.attr.bg) else CellAt(g, r, c)
    ensures OnlyScreen(g, ClearScreen(look, MoveCursor(g, 0, 0)), 0, 0)
    ensures CellAt(ClearScreen(look, MoveCursor(g, 0, 0)), r, c) == look.blank(if g.attr.inverse then g.attr.fg else g.attr.bg)
  {
    hide Lines, Placed, ClearInLine, ClearLines, ClearScreen;
    ClearedInLine(look, g, g.col, g.width, r, c);
    ClearedLines(look, ClearInLine(look, g, g.col, g.width), g.row + 1, g.height, r, c);
    ClearedInLine(look, g, 0, g.col + 1, r, c);
    ClearedLines(look, ClearInLine(look, g, 0, g.col + 1), 0, g.row, r, c);
    ClearedScreen(look, MoveCursor(g, 0, 0), r, c);
  }

  // ----- Moving lines -----

  /** A cell of the moved part of the screen. */
  lemma MovedCell<Cell>(t: Term<Cell>, proper: seq<Cell>, r: nat, c: nat)
    requires Shape(t) && |proper| == Size(t) && r < t.height && c < t.width
    ensures Pos(t.width, r, c) < Size(t) && CellAt(Moved(t, proper), r, c) == proper[Pos(t.width, r, c)]
    ensures OnlyScreen(t, Moved(t, proper), t.row, t.col)
    ensures CellAt(t, r, c) == t.screen[..Size(t)][Pos(t.width, r, c)]
  {
    hide Lines, Placed;
    PosBounds(t.width, t.height, r, c);
    PosBounds(t.width, t.height, t.height, 0);
    PosOrder(t.width, r, c, t.height, 0);
  }

  lemma LinesAhead(width: nat, r: nat, c: nat, n: nat)
    ensures Pos(width, r, c) + Lines(width, n) == Pos(width, r + n, c)
  {
    hide Lines;
    LinesAdd(width, r, n);
  }

  lemma InFront(width: nat, r: nat, c: nat, row: nat)
    requires c < width
    ensures Pos(width, r, c) < Lines(width, row) <==> r < row
  {
    hide Lines;
    PosOrder(width, r, c, row, 0);
  }

  lemma DeletedCell<Cell>(look: Look<Cell>, t: Term<Cell>, n: nat, r: nat, c: nat)
    requires Shape(t) && t.row < t.height && r < t.height && c < t.width
    ensures CellAt(DeleteAtCursor(look, t, n), r, c) ==
      if r < t.row then CellAt(t, r, c) else if r + n < t.height then CellAt(t, r + n, c)
      else look.blank(if t.attr.inverse then t.attr.fg else t.attr.bg)
    ensures OnlyScreen(t, DeleteAtCursor(look, t, n), t.row, t.col)
  {
    hide Lines, Placed, ShiftUp, Moved;
    PosBounds(t.width, t.height, t.row, 0);
    PosBounds(t.width, t.height, t.height, 0);
    InFront(t.width, r, c, t.row);
    LinesAhead(t.width, r, c, n);
    InFront(t.width, r + n, c, t.height);
    var bg, s := look.blank(BackgroundOf(t.attr)), t.screen[..Size(t)];
    var u := ShiftUp(s, Lines(t.width, t.row), Lines(t.width, n), bg);
    MovedCell(t, u, r, c);
    ShiftUpAt(s, Lines(t.width, t.row), Lines(t.width, n), bg, Pos(t.width, r, c));
    if r + n < t.height {
      MovedCell(t, u, r + n, c);
    }
  }

  lemma CellsAside<Cell>(t: Term<Cell>, r: nat, c: nat)
    requires Shape(t) && r < t.height && c < t.width
    ensures CellAt(t.(privateMode := 0), r, c) == CellAt(t, r, c)
  {
  }

  lemma LinesMoved<Cell>(look: Look<Cell>, t: Term<Cell>, vs: seq<nat>, ch: byte)
    requires Idle(t) && Values(vs) && ch in {76, 77}
    requires if ch == 76 then FirstOr1(vs) <= t.height else SourceFits(t.place, t.height, t.row + FirstOr1(vs))
    ensures AdmissibleString(look, t, Sequence(vs, ch))
    ensures Run(look, t, Sequence(vs, ch)) ==
      (if ch == 76 then InsertAtCursor(look, t, FirstOr1(vs)) else DeleteAtCursor(look, t, FirstOr1(vs))).(privateMode := 0)
  {
    hide Run, AdmissibleString, Lines, Placed, Sequence, SourceFits, Letter, LetterAdmissible, Finish;
    var g := Given(t, vs);
    ScreenLetters(look, g);
    SequenceIs(look, t, vs, ch);
    var u := if ch == 76 then InsertAtCursor(look, g, FirstOr1(vs)) else DeleteAtCursor(look, g, FirstOr1(vs));
    FinishNothing(look, Normal(u));
  }

  /** ESC [ n M: the lines from the cursor's on move up by n, and the last ones are background. */
  lemma LinesDeleted<Cell>(look: Look<Cell>, t: Term<Cell>, vs: seq<nat>, r: nat, c: nat)
    requires Idle(t) && Values(vs) && r < t.height && c < t.width && SourceFits(t.place, t.height, t.row + FirstOr1(vs))
    ensures AdmissibleString(look, t, Sequence(vs, 77))
    ensures var n, u := FirstOr1(vs), Run(look, t, Sequence(vs, 77));
      && OnlyScreen(t.(privateMode := 0), u, t.row, t.col)
      && CellAt(u, r, c) ==
           if r < t.row then CellAt(t, r, c) else if r + n < t.height then CellAt(t, r + n, c)
           else look.blank(if t.attr.inverse then t.attr.fg else t.attr.bg)
  {
    hide Run, AdmissibleString, Lines, Placed, Sequence, DeleteAtCursor, SourceFits, CellAt, Pos;
    LinesMoved(look, t, vs, 77);
    DeletedCell(look, t, FirstOr1(vs), r, c);
    CellsAside(DeleteAtCursor(look, t, FirstOr1(vs)), r, c);
  }

  lemma InsertedCell<Cell>(look: Look<Cell>, t: Term<Cell>, n: nat, r: nat, c: nat)
    requires Shape(t) && t.row + n <= t.height && t.row < t.height && r < t.height && c < t.width
    ensures CellAt(InsertAtCursor(look, t, n), r, c) ==
      if r < t.row then CellAt(t, r, c)
      else if r < t.row + n then look.blank(if t.attr.inverse then t.attr.fg else t.attr.bg)
      else CellAt(t, r - n, c)
    ensures OnlyScreen(t, InsertAtCursor(look, t, n), t.row, t.col)
  {
    hide Lines, Placed, ShiftDown, Moved;
    PosBounds(t.width, t.height, t.row, 0);
    PosBounds(t.width, t.height, t.height, 0);
    LinesInOrder(t.width, n, t.height);
    LinesInOrder(t.width, t.row + n, t.height);
    LinesAdd(t.width, t.row, n);
    InFront(t.width, r, c, t.row);
    InFront(t.width, r, c, t.row + n);
    LinesAhead(t.width, r, c, n);
    InFront(t.width, r + n, c, t.height);
    var bg, s := look.blank(BackgroundOf(t.attr)), t.screen[..Size(t)];
    var u := ShiftDown(s, Lines(t.width, t.row), Lines(t.width, n), bg);
    MovedCell(t, u, r, c);
    ShiftDownAt(s, Lines(t.width, t.row), Lines(t.width, n), bg, Pos(t.width, r, c));
    if r >= n {
      LinesAhead(t.width, r - n, c, n);
      MovedCell(t, u, r - n, c);
    }
  }

  /** ESC [ n L, when they fit: the lines from the cursor's on move down by n, and n lines open. */
  lemma LinesInserted<Cell>(look: Look<Cell>, t: Term<Cell>, vs: seq<nat>, r: nat, c: nat)
    requires Idle(t) && Values(vs) && r < t.height && c < t.width && t.row + FirstOr1(vs) <= t.height
    ensures AdmissibleString(look, t, Sequence(vs, 76))
    ensures var n, u := FirstOr1(vs), Run(look, t, Sequence(vs, 76));
      && OnlyScreen(t.(privateMode := 0), u, t.row, t.col)
      && CellAt(u, r, c) ==
           if r < t.row then CellAt(t, r, c)
           else if r < t.row + n then look.blank(if t.attr.inverse then t.attr.fg else t.attr.bg)
           else CellAt(t, r - n, c)
  {
    hide Run, AdmissibleString, Lines, Placed, Sequence, InsertAtCursor, SourceFits, CellAt, Pos;
    LinesMoved(look, t, vs, 76);
    InsertedCell(look, t, FirstOr1(vs), r, c);
    CellsAside(InsertAtCursor(look, t, FirstOr1(vs)), r, c);
  }

  // ----- Single characters -----

  lemma CharacterRuns<Cell>(look: Look<Cell>, t: Term<Cell>, ch: byte)
    requires Idle(t) && ch != 0 && (IsControl(ch) || !EndsSequence(t, ch))
    ensures AdmissibleString(look, t, [ch]) && Run(look, t, [ch]) == Step(look, t, ch)
  {
    hide Step, Lines, Placed;
    RunOne(look, t, ch);
  }

  /** A scroll moves every line up by one and opens the last. */
  lemma ScrolledCell<Cell>(look: Look<Cell>, t: Term<Cell>, r: nat, c: nat)
    requires Shape(t) && r < t.height && c < t.width
    ensures CellAt(ScrollUp(look, t), r, c) ==
      if r + 1 < t.height then CellAt(t, r + 1, c) else look.blank(if t.attr.inverse then t.attr.fg else t.attr.bg)
    ensures OnlyScreen(t, ScrollUp(look, t), t.row, t.col)
  {
    DeletedCell(look, t.(row := 0), 1, r, c);
    hide Placed, ShiftUp, Moved;
    assert Lines(t.width, 0) == 0 && Lines(t.width, 1) == t.width;
    PosBounds(t.width, t.height, t.height, 0);
    var u := ShiftUp(t.screen[..Size(t)], 0, t.width, look.blank(BackgroundOf(t.attr)));
    MovedCell(t, u, r, c);
    MovedCell(t.(row := 0), u, r, c);
  }

  /** Carriage return, backspace, delete, and the characters that do nothing. */
  lemma CarriageReturn<Cell>(look: Look<Cell>, t: Term<Cell>, ch: byte)
    requires Idle(t) && ch in {13, 8, 127, 7, 14, 15}
    ensures AdmissibleString(look, t, [ch])
    ensures Run(look, t, [ch]) ==
      if ch == 13 then t.(col := 0)
      else if ch == 8 || ch == 127 then t.(col := if t.col == 0 then 0 else t.col - 1)
      else t
  {
    hide Run, AdmissibleString, Lines, Placed;
    CharacterRuns(look, t, ch);
    FinishNothing(look, Control(look, t, ch));
  }

  /** A tab goes to the next multiple of eight, or to the last column. */
  lemma Tab<Cell>(look: Look<Cell>, t: Term<Cell>) returns (stop: nat)
    requires Idle(t)
    ensures stop % 8 == 0 && t.col < stop <= t.col + 8
    ensures AdmissibleString(look, t, [9])
    ensures Run(look, t, [9]) == t.(col := if stop < t.width then stop else t.width - 1)
  {
    hide Run, AdmissibleString, Lines, Placed;
    stop := t.col - t.col % 8 + 8;
    CharacterRuns(look, t, 9);
    FinishNothing(look, Control(look, t, 9));
  }

  /** A line feed goes to the next line in the same column, and scrolls when there is none. */
  lemma LineFeed<Cell>(look: Look<Cell>, t: Term<Cell>, r: nat, c: nat)
    requires Idle(t) && r < t.height && c < t.width
    ensures AdmissibleString(look, t, [10])
    ensures var u := Run(look, t, [10]);
      if t.row + 1 < t.height then u == t.(row := t.row + 1)
      else
        && OnlyScreen(t, u, t.row, t.col)
        && CellAt(u, r, c) ==
             if r + 1 < t.height then CellAt(t, r + 1, c) else look.blank(if t.attr.inverse then t.attr.fg else t.attr.bg)
  {
    hide Run, AdmissibleString, Lines, Placed, ScrollUp;
    CharacterRuns(look, t, 10);
    ScrolledCell(look, t, r, c);
  }

  /** A form feed clears the screen and goes home. */
  lemma FormFeed<Cell>(look: Look<Cell>, t: Term<Cell>, r: nat, c: nat)
    requires Idle(t) && r < t.height && c < t.width
    ensures AdmissibleString(look, t, [12])
    ensures var u := Run(look, t, [12]);
      && OnlyScreen(t, u, 0, 0)
      && CellAt(u, r, c) == look.blank(if t.attr.inverse then t.attr.fg else t.attr.bg)
  {
    hide Run, AdmissibleString, Lines, Placed, ClearScreen;
    CharacterRuns(look, t, 12);
    ClearedScreen(look, MoveCursor(t, 0, 0), r, c);
    FinishNothing(look, Control(look, t, 12));
  }

  /** A character that is neither a control character nor ESC. */
  predicate IsText(ch: byte) {
    ch !in {0, 7, 8, 9, 10, 12, 13, 14, 15, 27, 127}
  }

  lemma PutCell<Cell>(look: Look<Cell>, t: Term<Cell>, ch: byte, r: nat, c: nat)
    requires Shape(t) && OnScreen(t) && r < t.height && c < t.width
    ensures CellAt(Put(look, t, ch), r, c) == if r == t.row && c == t.col then look.glyph(ch, t.attr) else CellAt(t, r, c)
    ensures OnlyScreen(t, Put(look, t, ch), t.row, t.col + 1)
  {
    hide Lines, Placed;
    PosBounds(t.width, t.height, t.row, t.col);
    PosBounds(t.width, t.height, r, c);
    PosOrder(t.width, r, c, t.row, t.col);
    PosOrder(t.width, t.row, t.col, r, c);
  }

  lemma TextStep<Cell>(look: Look<Cell>, t: Term<Cell>, ch: byte, shown: byte)
    requires Idle(t) && IsText(ch) && shown == if t.attr.altCharset then AlternativeOf(ch) else ch
    ensures AdmissibleString(look, t, [ch]) && Settling(Put(look, t, shown))
    ensures Run(look, t, [ch]) == Finish(look, Put(look, t, shown))
  {
    hide Run, AdmissibleString, Lines, Placed, Put, AlternativeOf, Finish;
    CharacterRuns(look, t, ch);
    assert Parse(look, t, ch) == Put(look, t, shown);
  }

  /** Where the cursor goes behind a character. */
  lemma Wrapped<Cell>(look: Look<Cell>, t: Term<Cell>, p: Term<Cell>)
    requires Idle(t) && OnlyScreen(t, p, t.row, t.col + 1) && Settling(p)
    ensures Finish(look, p) ==
      if t.col + 1 < t.width then p
      else if t.row + 1 < t.height then p.(row := t.row + 1, col := 0)
      else ScrollUp(look, p.(col := 0))
  {
    hide Lines, Placed, ScrollUp;
  }

  /** A character, or what stands for it in the drawing set, is drawn at the cursor. The cursor goes on, to the
      next line at the end of its own; at the end of the screen everything moves up. */
  lemma TextIs<Cell>(look: Look<Cell>, t: Term<Cell>, ch: byte, r: nat, c: nat)
    requires Idle(t) && IsText(ch) && r < t.height && c < t.width
    ensures AdmissibleString(look, t, [ch])
    ensures var u := Run(look, t, [ch]);
      var atEnd, shown := t.col + 1 == t.width, if t.attr.altCharset then AlternativeOf(ch) else ch;
      && OnlyScreen(t, u, if atEnd && t.row + 1 < t.height then t.row + 1 else t.row, if atEnd then 0 else t.col + 1)
      && CellAt(u, r, c) ==
           if atEnd && t.row + 1 == t.height then
             if r + 1 == t.height then look.blank(if t.attr.inverse then t.attr.fg else t.attr.bg)
             else if r + 1 == t.row && c == t.col then look.glyph(shown, t.attr)
             else CellAt(t, r + 1, c)
           else if r == t.row && c == t.col then look.glyph(shown, t.attr)
           else CellAt(t, r, c)
  {
    hide Run, AdmissibleString, Lines, Placed, ScrollUp, Put, AlternativeOf, Finish, Pos;
    var shown := if t.attr.altCharset then AlternativeOf(ch) else ch;
    TextStep(look, t, ch, shown);
    PutCell(look, t, shown, r, c);
    var p := Put(look, t, shown);
    Wrapped(look, t, p);
    if t.col + 1 == t.width && t.row + 1 == t.height {
      ScrolledCell(look, p.(col := 0), r, c);
      if r + 1 < t.height {
        PutCell(look, t, shown, r + 1, c);
      }
    }
  }
}
