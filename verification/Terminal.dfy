/** src/gfx.c:1323-2196: the terminal that draws its cursor into the framebuffer and keeps what was
    under it. Every operation does to the framebuffer, once the kept cell is written back, what the
    reference terminal does. Transfers of the DMA controller are taken to be finished at once. */
module Terminal {
  import opened Basics
  import opened LineMoves
  import opened TerminalSpec

  class Screen<Cell(==)> {
    const look: Look<Cell>
    const place: Place
    const width: nat
    const height: nat
    const fb: array<Cell>
    const params: array<nat>
    var paramsSize: nat
    var cursorRow: nat
    var cursorCol: nat
    var savedRow: nat
    var savedCol: nat
    var visible: bool
    var attr: Attributes
    var cursorBuffer: Cell
    var state: ParserState
    var privateMode: byte
    var sent: seq<byte>

    ghost predicate Geometry()
      reads this
    {
      && width > 0 && height > 0 && Placed(place, height) && fb.Length == Lines(width, height + 1)
      && fb as object != params as object && params.Length == MAX_PARAMS && paramsSize <= MAX_PARAMS
      && savedRow < height && savedCol < width
    }

    /** The cursor stands where there is memory. */
    ghost predicate InMemory()
      reads this
    {
      cursorRow <= height && cursorCol <= width && (cursorRow < height || cursorCol < width)
    }

    /** The reference terminal this screen shows: the kept cell written back. */
    ghost function Abs(): (t: Term<Cell>)
      requires Geometry() && InMemory()
      reads this, fb, params
      ensures Shape(t)
    {
      PosBounds(width, height, cursorRow, cursorCol);
      Term(place, width, height, fb[..][Pos(width, cursorRow, cursorCol) := cursorBuffer],
           cursorRow, cursorCol, savedRow, savedCol, visible, attr, state, params[..paramsSize], privateMode, sent)
    }

    ghost predicate Valid()
      reads this, fb, params
    {
      Geometry() && InMemory() && (!visible ==> Restored())
    }

    /** What the framebuffer shows at the cursor. */
    ghost function CursorCell(): Cell
      requires Geometry() && InMemory()
      reads this, fb
    {
      PosBounds(width, height, cursorRow, cursorCol);
      fb[Pos(width, cursorRow, cursorCol)]
    }

    /** The framebuffer shows the kept cell. */
    ghost predicate Restored()
      requires Geometry() && InMemory()
      reads this, fb
    {
      CursorCell() == cursorBuffer
    }

    constructor (look: Look<Cell>, fb: array<Cell>, place: Place, width: nat, height: nat, attr: Attributes)
      requires width > 0 && height > 0 && Placed(place, height) && fb.Length == Lines(width, height + 1)
      modifies fb
      ensures this.look == look && this.fb == fb && fresh(params)
      ensures Valid() && Consistent(Abs())
      ensures Abs() == ClearScreen(look, Term(place, width, height, old(fb[..]), 0, 0, 0, 0, true, attr, NormalText, [], 0, []))
    {
      this.look, this.fb, this.attr := look, fb, attr;
      this.place, this.width, this.height := place, width, height;
      params := new nat[MAX_PARAMS](_ => 0);
      paramsSize := 0;
      cursorRow, cursorCol, savedRow, savedCol := 0, 0, 0, 0;
      visible, state, privateMode, sent := true, NormalText, 0, [];
      cursorBuffer := look.blank(attr.bg);
      new;
      TermClearScreen();
    }

    // ----- The cursor overlay -----

    method RestoreCursorContent()
      requires Geometry() && InMemory()
      modifies fb
      ensures fb[..] == old(Abs().screen) && Abs() == old(Abs())
      ensures Valid() && Restored()
    {
      PosBounds(width, height, cursorRow, cursorCol);
      fb[Pos(width, cursorRow, cursorCol)] := cursorBuffer;
      assert Abs().screen == old(Abs().screen);
    }

    /** Keeps the cell under the cursor and draws the cursor, if it is visible. */
    method RenderCursor()
      requires Geometry() && InMemory()
      modifies fb, `cursorBuffer
      ensures Valid() && Abs().screen == old(fb[..])
      ensures CursorCell() == if visible then look.invert(cursorBuffer, attr) else cursorBuffer
    {
      PosBounds(width, height, cursorRow, cursorCol);
      var p := Pos(width, cursorRow, cursorCol);
      cursorBuffer := fb[p];
      if visible {
        fb[p] := look.invert(fb[p], attr);
      }
    }

    /** The cursor on the line a scroll has opened. */
    method RenderCursorOnNewLine()
      requires Geometry() && InMemory() && CursorCell() == look.blank(BackgroundOf(attr))
      modifies fb, `cursorBuffer
      ensures Valid() && Abs().screen == old(fb[..])
      ensures CursorCell() == look.blank(if visible == attr.inverse then attr.bg else attr.fg)
      ensures CursorCell() == look.blank(if visible then ForegroundOf(attr) else BackgroundOf(attr))
    {
      PosBounds(width, height, cursorRow, cursorCol);
      var p := Pos(width, cursorRow, cursorCol);
      cursorBuffer := look.blank(BackgroundOf(attr));
      if visible {
        fb[p] := look.blank(ForegroundOf(attr));
      }
    }

    /** A cursor motion: restore, move, render. */
    method MoveTo(row: nat, col: nat)
      requires Geometry() && InMemory()
      requires row <= height && col <= width && (row < height || col < width)
      modifies fb, `cursorBuffer, `cursorRow, `cursorCol
      ensures Valid() && Abs() == old(Abs()).(row := row, col := col)
    {
      RestoreCursorContent();
      cursorRow, cursorCol := row, col;
      RenderCursor();
      assert Abs().screen == old(Abs().screen);
    }

    method TermMoveCursor(row: int, col: int)
      requires Geometry() && InMemory()
      modifies fb, `cursorBuffer, `cursorRow, `cursorCol
      ensures Valid() && Abs() == MoveCursor(old(Abs()), row, col)
    {
      MoveTo(Min(height - 1, if row > 0 then row else 0), Min(width - 1, if col > 0 then col else 0));
    }

    // ----- Drawing -----

    method PutCharacter(ch: byte)
      requires Valid() && cursorRow < height && cursorCol < width
      modifies fb, `cursorBuffer, `cursorCol
      ensures Valid() && Abs() == Put(look, old(Abs()), ch)
    {
      PosBounds(width, height, cursorRow, cursorCol);
      ghost var t := Abs();
      fb[Pos(width, cursorRow, cursorCol)] := look.glyph(ch, attr);
      assert fb[..] == t.screen[Pos(width, cursorRow, cursorCol) := look.glyph(ch, attr)];
      cursorCol := cursorCol + 1;
      RenderCursor();
    }

    method Paint(from: nat, n: nat, c: Cell)
      requires from + n <= fb.Length
      modifies fb
      ensures fb[..] == Painted(old(fb[..]), from, n, c)
    {
      ghost var was := fb[..];
      var i := from;
      while i < from + n
        invariant from <= i <= from + n
        invariant fb[..] == was[..from] + Fill(i - from, c) + was[i..]
      {
        fb[i] := c;
        i := i + 1;
      }
    }

    method TermClearScreen()
      requires Geometry() && cursorRow < height && cursorCol < width
      modifies fb, `cursorBuffer
      ensures Valid() && Abs() == ClearScreen(look, old(Abs()))
    {
      hide Lines, Fill, Painted, Placed;
      ghost var t := Abs();
      PosBounds(width, height, cursorRow, cursorCol);
      PosBounds(width, height, height, 0);
      Paint(0, Lines(width, height), look.blank(BackgroundOf(attr)));
      PaintedOver(old(fb[..]), 0, Lines(width, height), look.blank(BackgroundOf(attr)), Pos(width, cursorRow, cursorCol), cursorBuffer);
      RenderCursor();
      assert Abs().screen == ClearScreen(look, t).screen;
    }

    method TermClearTillEnd()
      requires Geometry() && cursorRow < height && cursorCol < width
      modifies fb, `cursorBuffer
      ensures Valid() && Abs() == ClearInLine(look, old(Abs()), cursorCol, width)
    {
      hide Lines, Fill, Painted, Placed;
      ghost var t := Abs();
      RestoreCursorContent();
      PosBounds(width, height, cursorRow, width);
      Paint(Pos(width, cursorRow, cursorCol), width - cursorCol, look.blank(attr.bg));
      RenderCursor();
      assert Abs().screen == ClearInLine(look, t, cursorCol, width).screen;
    }

    method TermClearTillCursor()
      requires Geometry() && cursorRow < height && cursorCol < width
      modifies fb, `cursorBuffer
      ensures Valid() && Abs() == ClearInLine(look, old(Abs()), 0, cursorCol + 1)
    {
      hide Lines, Fill, Painted, Placed;
      ghost var t := Abs();
      RestoreCursorContent();
      PosBounds(width, height, cursorRow, cursorCol + 1);
      Paint(Pos(width, cursorRow, 0), cursorCol + 1, look.blank(attr.bg));
      RenderCursor();
      assert Abs().screen == ClearInLine(look, t, 0, cursorCol + 1).screen;
    }

    /** Nothing is restored first: the cell under the cursor is erased as well. */
    method TermClearLine()
      requires Geometry() && cursorRow < height && cursorCol < width
      modifies fb, `cursorBuffer
      ensures Valid() && Abs() == ClearInLine(look, old(Abs()), 0, width)
    {
      hide Lines, Fill, Painted, Placed;
      ghost var t := Abs();
      PosBounds(width, height, cursorRow, cursorCol);
      PosBounds(width, height, cursorRow, width);
      Paint(Pos(width, cursorRow, 0), width, look.blank(attr.bg));
      PaintedOver(old(fb[..]), Pos(width, cursorRow, 0), width, look.blank(attr.bg), Pos(width, cursorRow, cursorCol), cursorBuffer);
      RenderCursor();
      assert Abs().screen == ClearInLine(look, t, 0, width).screen;
    }

    /** Lines [from, to). */
    method ClearWholeLines(from: nat, to: nat)
      requires Valid() && Restored() && cursorRow < height && cursorCol < width && from <= to <= height
      modifies fb, `cursorBuffer
      ensures Valid() && Abs() == ClearLines(look, old(Abs()), from, to)
    {
      hide Lines, Fill, Painted, Placed;
      ghost var t := Abs();
      PosBounds(width, height, cursorRow, cursorCol);
      PosBounds(width, height, from, 0);
      PosBounds(width, height, to, 0);
      LinesInOrder(width, from, to);
      assert fb[..] == t.screen;
      Paint(Pos(width, from, 0), Pos(width, to, 0) - Pos(width, from, 0), look.blank(attr.bg));
      RenderCursor();
      assert Abs().screen == ClearLines(look, t, from, to).screen;
    }

    /** Lines `first` to `last`, as far as they are on the screen. */
    method TermClearLines(first: int, last: int)
      requires Geometry() && cursorRow < height && cursorCol < width
      modifies fb, `cursorBuffer
      ensures Valid()
      ensures Clamped(first, last).0 < Clamped(first, last).1 ==>
        Abs() == ClearLines(look, old(Abs()), Clamped(first, last).0, Clamped(first, last).1)
      ensures Clamped(first, last).0 >= Clamped(first, last).1 ==> Abs() == old(Abs())
    {
      hide Painted, ClearLines;
      RestoreCursorContent();
      var from := if first < 0 then 0 else first;
      var to := if last > height - 1 then height - 1 else last;
      if from <= to {
        ClearWholeLines(from, to + 1);
      }
    }

    /** Lines `first` to `last`, as far as they are on the screen, as a range that excludes its end. */
    ghost function Clamped(first: int, last: int): (r: (nat, int))
      ensures r.1 <= height
    {
      (Max(first, 0), Min(last, height - 1) + 1)
    }

    // ----- Moving lines -----

    /** The cell behind `k` lines, by its address; the end of the screen if the address is behind it. */
    method CellBehind(k: nat) returns (src: nat)
      requires Placed(place, height) && SourceFits(place, height, k)
      ensures src == Lines(width, k) || (src == Lines(width, height) <= Lines(width, k))
    {
      hide Lines;
      if k <= height {
        LinesInOrder(place.line, k, height);
      } else {
        LinesInOrder(place.line, height, k);
        LinesInOrder(width, height, k);
      }
      var address := Address(place, k) % WORDS;
      src := if address < Address(place, height) then Lines(width, k) else Lines(width, height);
    }

    method TermDeleteLines(n: nat)
      requires Geometry() && cursorRow < height && cursorCol < width && DeleteFits(Abs(), n)
      modifies fb, `cursorBuffer
      ensures Valid() && Abs() == DeleteAtCursor(look, old(Abs()), n)
    {
      hide Lines, Fill, ShiftUp, CopiedUp, Placed, SourceFits;
      ghost var t := Abs();
      RestoreCursorContent();
      PosBounds(width, height, cursorRow, 0);
      PosBounds(width, height, height, 0);
      LinesAdd(width, cursorRow, n);
      ghost var s := fb[..];
      var src := CellBehind(cursorRow + n);
      DeleteLines(fb, Lines(width, cursorRow), src, Lines(width, height), look.blank(BackgroundOf(attr)));
      MovedUp(s, Lines(width, cursorRow), src, Lines(width, n), Lines(width, height), look.blank(BackgroundOf(attr)));
      RenderCursor();
      assert Abs().screen == DeleteAtCursor(look, t, n).screen;
    }

    method TermInsertLines(n: nat)
      requires Geometry() && cursorRow < height && cursorCol < width && n <= height
      modifies fb, `cursorBuffer
      ensures Valid() && Abs() == InsertAtCursor(look, old(Abs()), n)
    {
      hide Lines, Fill, ShiftDown, Placed;
      ghost var t := Abs();
      RestoreCursorContent();
      PosBounds(width, height, cursorRow, 0);
      PosBounds(width, height, height, 0);
      LinesInOrder(width, n, height);
      ghost var s := fb[..];
      InsertLines(fb, Lines(width, height), Lines(width, cursorRow), Lines(width, n), look.blank(BackgroundOf(attr)));
      Parts(s, fb[..], Lines(width, height));
      RenderCursor();
      assert Abs().screen == InsertAtCursor(look, t, n).screen;
    }

    /** The cursor has left the last line: the screen scrolls and the cursor is drawn on the line
        that is opened. */
    method Scroll()
      requires Geometry() && cursorRow == height && cursorCol < width
      modifies fb, `cursorBuffer, `cursorRow
      ensures Valid() && Abs() == ScrollUp(look, old(Abs()).(row := height - 1))
    {
      hide Lines, Fill, ShiftUp, CopiedUp, Painted, Placed;
      ghost var t := Abs();
      RestoreCursorContent();
      cursorRow := cursorRow - 1;
      PosBounds(width, height, cursorRow, cursorCol);
      PosBounds(width, height, height, 0);
      ghost var s := fb[..];
      var size, bg := Lines(width, height), look.blank(BackgroundOf(attr));
      DeleteLines(fb, 0, width, size, bg);
      MovedUp(s, 0, width, width, size, bg);
      OpenedCell(s[..size], width, cursorRow, cursorCol, bg);
      RenderCursorOnNewLine();
      assert Abs().screen == ScrollUp(look, t.(row := height - 1)).screen;
    }

    // ----- Cursor state -----

    method TermSaveCursor()
      requires Valid() && cursorRow < height && cursorCol < width
      modifies `savedRow, `savedCol
      ensures Valid() && Abs() == old(Abs()).(savedRow := cursorRow, savedCol := cursorCol)
    {
      savedRow, savedCol := cursorRow, cursorCol;
    }

    method HideCursor()
      requires Valid()
      modifies fb, `visible
      ensures Valid() && Abs() == old(Abs()).(visible := false)
    {
      visible := false;
      RestoreCursorContent();
    }

    /** The cell is kept and the cursor drawn over it without restoring first, so this is right
        exactly when the framebuffer holds the kept cell, which it does while the cursor is hidden. */
    method ShowCursor()
      requires Valid()
      modifies fb, `cursorBuffer, `visible
      ensures Valid() && Abs() == old(Abs()).(visible := true, screen := old(fb[..]))
      ensures old(!visible) ==> Abs() == old(Abs()).(visible := true)
      ensures Abs() == old(Abs()).(visible := true) <==> old(Restored())
    {
      ghost var t := Abs();
      PosBounds(width, height, cursorRow, cursorCol);
      ghost var p := Pos(width, cursorRow, cursorCol);
      assert fb[..][p] == fb[p] && t.screen[p] == cursorBuffer;
      assert fb[p] == cursorBuffer ==> fb[..] == t.screen;
      visible := true;
      RenderCursor();
    }

    // ----- Attributes -----

    /** ESC [ ... m. */
    method SelectGraphicRendition()
      requires params.Length == MAX_PARAMS && paramsSize <= MAX_PARAMS
      modifies `attr
      ensures attr == if paramsSize == 0 then ResetAttributes(old(attr)) else SelectFrom(old(attr), params[..paramsSize], 0)
    {
      if paramsSize == 0 {
        attr := ResetAttributes(attr);
        return;
      }
      var i := 0;
      ghost var ps := params[..paramsSize];
      while i < paramsSize
        invariant SelectFrom(attr, ps, i) == SelectFrom(old(attr), ps, 0)
      {
        if i + 2 < paramsSize && params[i] == 38 && params[i + 1] == 5 {
          i := i + 2;
          attr := attr.(fg := params[i] % 256);
        } else if i + 2 < paramsSize && params[i] == 48 && params[i + 1] == 5 {
          i := i + 2;
          attr := attr.(bg := params[i] % 256);
        } else {
          attr := SelectOne(attr, params[i]);
        }
        i := i + 1;
      }
    }

    // ----- Control sequences -----

    /** Between characters. */
    ghost predicate Ready()
      reads this, fb, params
    {
      Valid() && Consistent(Abs())
    }

    method PrivateSequence(ch: byte)
      requires Ready() && IsPrivate(ch)
      modifies fb, `cursorBuffer, `cursorCol, `attr
      ensures Valid() && Abs() == PrivateLetter(look, old(Abs()), ch)
    {
      if ch == 'm' as int {
        if paramsSize == 2 && params[1] <= 15 {
          if params[0] == 39 {
            attr := attr.(defaultFg := params[1]);
          } else if params[0] == 49 {
            attr := attr.(defaultBg := params[1]);
          }
        }
      } else if ch == 'c' as int {
        if paramsSize == 1 {
          PutCharacter(params[0] % 256);
        }
      }
    }

    /** ESC [ ... K. */
    method EraseInLineSequence()
      requires Ready()
      modifies fb, `cursorBuffer
      ensures Valid() && Abs() == EraseInLine(look, old(Abs()))
    {
      if paramsSize == 0 {
        TermClearTillEnd();
      } else if paramsSize == 1 {
        if params[0] == 0 {
          TermClearTillEnd();
        } else if params[0] == 1 {
          TermClearTillCursor();
        } else if params[0] == 2 {
          TermClearLine();
        }
      }
    }

    method EraseBelow()
      requires Ready()
      modifies fb, `cursorBuffer
      ensures Valid() && Abs() == ErasedBelow(look, old(Abs()))
    {
      hide Painted, ClearLines, ClearInLine;
      TermClearTillEnd();
      if cursorRow + 1 < height {
        TermClearLines(cursorRow + 1, height - 1);
      } else {
        ClearNoLines(look, Abs(), height);
      }
    }

    method EraseAbove()
      requires Ready()
      modifies fb, `cursorBuffer
      ensures Valid() && Abs() == ErasedAbove(look, old(Abs()))
    {
      hide Painted, ClearLines, ClearInLine;
      TermClearTillCursor();
      if cursorRow > 0 {
        TermClearLines(0, cursorRow - 1);
      } else {
        ClearNoLines(look, Abs(), 0);
      }
    }

    /** ESC [ ... J. */
    method EraseInScreenSequence()
      requires Ready()
      modifies fb, `cursorBuffer, `cursorRow, `cursorCol
      ensures Valid() && Abs() == EraseInScreen(look, old(Abs()))
    {
      var p := if paramsSize >= 1 then params[0] else 0;
      if p == 0 {
        EraseBelow();
      } else if p == 1 {
        EraseAbove();
      } else if p == 2 {
        TermMoveCursor(0, 0);
        TermClearScreen();
      }
    }

    method MotionSequence(ch: byte)
      requires Ready() && IsMotion(ch)
      modifies fb, `cursorBuffer, `cursorRow, `cursorCol
      ensures Valid() && Abs() == Motion(old(Abs()), ch)
    {
      hide Int32, MoveCursor, Dec32;
      var n := if paramsSize > 0 then Int32(params[0]) else 1;
      if ch == 'A' as int {
        TermMoveCursor(Max(0, Int32(cursorRow - n)), cursorCol);
      } else if ch == 'B' as int {
        TermMoveCursor(Min(height - 1, Int32(cursorRow + n)), cursorCol);
      } else if ch == 'C' as int {
        TermMoveCursor(cursorRow, Min(width - 1, Int32(cursorCol + n)));
      } else if ch == 'D' as int {
        TermMoveCursor(cursorRow, Max(0, Int32(cursorCol - n)));
      } else if ch == 'Z' as int {
        MoveTo(cursorRow, if cursorCol % 8 != 0 then cursorCol - cursorCol % 8 else Max(cursorCol - 8, 0));
      } else if ch == 'u' as int {
        MoveTo(savedRow, savedCol);
      } else {
        var r := if paramsSize < 1 then 1 else params[0];
        var c := if paramsSize < 2 then 1 else params[1];
        TermMoveCursor(Min(Dec32(r), height - 1), Min(Dec32(c), width - 1));
      }
    }

    method ReportSequence(ch: byte)
      requires Ready() && (ch == 'c' as int || ch == 'n' as int)
      modifies `sent
      ensures Valid() && Abs() == Report(old(Abs()), ch)
    {
      if ch == 'c' as int {
        if paramsSize == 0 || params[0] == 0 {
          sent := sent + TERMINAL_TYPE;
        }
      } else if paramsSize == 1 {
        if params[0] == 5 {
          sent := sent + STATUS_OK;
        } else if params[0] == 6 {
          sent := sent + PositionReport(cursorRow, cursorCol);
        }
      }
    }

    method FinalLetter(ch: byte)
      requires Ready() && LetterAdmissible(Abs(), ch)
      modifies this, fb
      ensures Valid() && Abs() == Normal(Letter(look, old(Abs()), ch))
    {
      hide PrivateLetter, EraseInLine, EraseInScreen, Motion, DeleteAtCursor, InsertAtCursor, SelectFrom, Report, DeleteFits;
      ghost var t := Abs();
      if privateMode == '#' as int && IsPrivate(ch) {
        PrivateSequence(ch);
      } else if ch == 'l' as int {
        if privateMode == '?' as int && paramsSize == 1 && params[0] == 25 {
          HideCursor();
        }
      } else if ch == 'h' as int {
        if privateMode == '?' as int && paramsSize == 1 && params[0] == 25 {
          assert t.params == [25];
          ShowCursor();
        }
      } else if ch == 'K' as int {
        EraseInLineSequence();
      } else if ch == 'J' as int {
        EraseInScreenSequence();
      } else if IsMotion(ch) {
        MotionSequence(ch);
      } else if ch == 'M' as int {
        assert LineCount(t.params) == if paramsSize > 0 then params[0] else 1;
        TermDeleteLines(if paramsSize > 0 then params[0] else 1);
      } else if ch == 'L' as int {
        TermInsertLines(if paramsSize > 0 then params[0] else 1);
      } else if ch == 'm' as int {
        SelectGraphicRendition();
      } else if ch == 's' as int {
        TermSaveCursor();
      } else if ch == 'c' as int || ch == 'n' as int {
        ReportSequence(ch);
      }
      assert Abs() == Letter(look, t, ch);
      BackToNormal();
    }

    method BackToNormal()
      requires Valid()
      modifies `paramsSize, `state
      ensures Valid() && Abs() == Normal(old(Abs()))
    {
      paramsSize, state := 0, NormalText;
    }

    // ----- The parser -----

    method ReadingDigit(ch: byte)
      requires Ready() && state == ReadDigit && ParseAdmissible(Abs(), ch)
      modifies this, fb, params
      ensures Valid() && Abs() == Parse(look, old(Abs()), ch)
    {
      hide Letter;
      ghost var t := Abs();
      if IsDigit(ch) {
        params[paramsSize - 1] := (params[paramsSize - 1] * 10 + DigitOf(ch)) % U32;
        assert params[..paramsSize] == Extended(t.params, DigitOf(ch));
      } else if ch == 0 {
        params[paramsSize - 1] := params[paramsSize - 1] * 10 % U32;
        assert params[..paramsSize] == Extended(t.params, 0);
      } else if ch == ';' as int {
        paramsSize := paramsSize + 1;
        params[paramsSize - 1] := 0;
        assert params[..paramsSize] == t.params + [0];
      } else {
        FinalLetter(ch);
      }
    }

    method SelectingEscape(ch: byte)
      requires Ready() && state == SelectEscape && ParseAdmissible(Abs(), ch)
      modifies this, fb, params
      ensures Valid() && Abs() == Parse(look, old(Abs()), ch)
    {
      hide Letter;
      if IsDigit(ch) {
        paramsSize, params[0], state := 1, DigitOf(ch), ReadDigit;
        assert params[..paramsSize] == [DigitOf(ch)];
      } else if ch == ';' as int {
        paramsSize, params[0], params[1], state := 2, 0, 0, ReadDigit;
        assert params[..paramsSize] == [0, 0];
      } else if ch == '?' as int || ch == '#' as int {
        privateMode, paramsSize, params[0], state := ch, 1, 0, ReadDigit;
        assert params[..paramsSize] == [0];
      } else {
        FinalLetter(ch);
      }
    }

    method WaitingSquareBracket(ch: byte)
      requires Ready() && state == WaitSquareBracket
      modifies this, fb, params
      ensures Valid() && Abs() == ParseEscape(look, old(Abs()), ch)
    {
      hide Put, ClearScreen, MoveCursor;
      if ch == '[' as int {
        params[0], privateMode, state := 1, 0, SelectEscape;
        return;
      } else if ch == '(' as int {
        state := AltCharset;
        return;
      } else if ch == ESC {
        PutCharacter(ch);
      } else if ch == 'c' as int {
        attr := ResetAttributes(attr);
        TermMoveCursor(0, 0);
        TermClearScreen();
      }
      state := NormalText;
    }

    method ChoosingCharset(ch: byte)
      requires Ready() && state == AltCharset
      modifies `attr, `state
      ensures Valid() && Abs() == ParseCharset(old(Abs()), ch)
    {
      if ch == '0' as int {
        attr := attr.(altCharset := true);
      } else if ch == 'B' as int {
        attr := attr.(altCharset := false);
      }
      state := NormalText;
    }

    method PlainText(ch: byte)
      requires Ready() && state == NormalText
      modifies fb, `cursorBuffer, `cursorCol, `state
      ensures Valid() && Abs() == ParseNormalText(look, old(Abs()), ch)
    {
      if ch == ESC {
        state := WaitSquareBracket;
        return;
      }
      PutCharacter(if attr.altCharset then AlternativeOf(ch) else ch);
    }

    method Next(ch: byte)
      requires Ready() && ParseAdmissible(Abs(), ch)
      modifies this, fb, params
      ensures Valid() && Abs() == Parse(look, old(Abs()), ch)
    {
      hide Letter, Put;
      match state {
        case NormalText => PlainText(ch);
        case WaitSquareBracket => WaitingSquareBracket(ch);
        case SelectEscape => SelectingEscape(ch);
        case ReadDigit => ReadingDigit(ch);
        case AltCharset => ChoosingCharset(ch);
      }
    }

    // ----- Characters and strings -----

    method ControlCharacter(ch: byte)
      requires Ready() && IsControl(ch)
      modifies fb, `cursorBuffer, `cursorRow, `cursorCol
      ensures Valid() && Abs() == Control(look, old(Abs()), ch)
    {
      if ch == 13 {
        MoveTo(cursorRow, 0);
      } else if ch == 10 {
        MoveTo(cursorRow + 1, cursorCol);
      } else if ch == 9 {
        MoveTo(cursorRow, Min(cursorCol - cursorCol % 8 + 8, width - 1));
      } else if ch == 8 || ch == 0x7F {
        if cursorCol > 0 {
          MoveTo(cursorRow, cursorCol - 1);
        }
      } else if ch == 12 {
        TermMoveCursor(0, 0);
        TermClearScreen();
      }
    }

    /** The cursor behind its line goes to the next; behind the last line the screen scrolls. */
    method WrapAndScroll()
      requires Valid() && Settling(Abs())
      modifies fb, `cursorBuffer, `cursorRow, `cursorCol
      ensures Ready() && Abs() == Finish(look, old(Abs()))
    {
      if cursorCol >= width {
        MoveTo(cursorRow + 1, 0);
      }
      if cursorRow >= height {
        Scroll();
      }
    }

    /** One character does to this screen what it does to the reference terminal. */
    method PutChar(ch: byte)
      requires Ready() && Admissible(Abs(), ch)
      modifies this, fb, params
      ensures Ready() && Abs() == Step(look, old(Abs()), ch)
    {
      hide Letter, Parse, Control, Finish;
      if IsControl(ch) {
        ControlCharacter(ch);
      } else {
        Next(ch);
      }
      WrapAndScroll();
    }

    /** Cursor transparency over whole strings. */
    method TermPutString(str: seq<byte>)
      requires Ready() && AdmissibleString(look, Abs(), str)
      modifies this, fb, params
      ensures Ready() && Abs() == Run(look, old(Abs()), str)
    {
      hide Step, Admissible;
      ghost var t := Abs();
      var i := 0;
      while i < |str|
        invariant 0 <= i <= |str|
        invariant Ready() && AdmissibleString(look, Abs(), str[i..])
        invariant Run(look, Abs(), str[i..]) == Run(look, t, str)
      {
        assert str[i..][0] == str[i] && str[i..][1..] == str[i + 1..];
        PutChar(str[i]);
        i := i + 1;
      }
    }
  }

  /** The framebuffer shows the screen of the reference terminal but for the cell under the cursor,
      and all of it while the cursor is hidden. */
  lemma ShowsReference<Cell>(s: Screen<Cell>)
    requires s.Valid()
    ensures forall row, col | 0 <= row < s.height && 0 <= col < s.width && !(row == s.cursorRow && col == s.cursorCol)
      && (s.cursorCol < s.width || !(row == s.cursorRow + 1 && col == 0)) ::
        (PosBounds(s.width, s.height, row, col);
         s.fb[Pos(s.width, row, col)] == s.Abs().screen[Pos(s.width, row, col)])
    ensures !s.visible ==> s.fb[..] == s.Abs().screen
  {
    PosBounds(s.width, s.height, s.cursorRow, s.cursorCol);
    forall row, col | 0 <= row < s.height && 0 <= col < s.width && !(row == s.cursorRow && col == s.cursorCol)
      && (s.cursorCol < s.width || !(row == s.cursorRow + 1 && col == 0))
      ensures (PosBounds(s.width, s.height, row, col);
               s.fb[Pos(s.width, row, col)] == s.Abs().screen[Pos(s.width, row, col)])
    {
      PosBounds(s.width, s.height, row, col);
      if Pos(s.width, row, col) == Pos(s.width, s.cursorRow, s.cursorCol) {
        PosInjective(s.width, row, col, s.cursorRow, s.cursorCol);
      }
    }
  }

  /** Different places are at different positions; the place behind a line is the start of the next. */
  lemma PosInjective(width: nat, row: nat, col: nat, row': nat, col': nat)
    requires col < width && col' <= width && Pos(width, row, col) == Pos(width, row', col')
    ensures (row == row' && col == col') || (col' == width && row == row' + 1 && col == 0)
  {
    if row < row' {
      LinesInOrder(width, row, row');
    } else if row > row' + 1 {
      LinesInOrder(width, row' + 1, row);
    }
  }

  /** A sequence is its parts in front of and behind `n`. */
  lemma Parts<T>(s: seq<T>, u: seq<T>, n: nat)
    requires n <= |s| == |u|
    ensures u == u[..n] + u[n..] && s == s[..n] + s[n..]
  {
  }

  /** The copy that deletes lines, in a framebuffer that begins where memory does. */
  lemma MovedUp<T>(s: seq<T>, from: nat, src: nat, gap: nat, size: nat, bg: T)
    requires from <= size <= |s| && (src == from + gap || (src == size <= from + gap))
    ensures CopiedUp(s, from, src, size, bg) == ShiftUp(s[..size], from, gap, bg) + s[size..]
  {
    hide ShiftUp, CopiedUp;
    CopiedUpIsShiftUp(s, 0, from, src, gap, size, bg);
    assert s[0..size] == s[..size];
  }

  /** A scroll leaves background in the last line. */
  lemma OpenedCell<Cell>(s: seq<Cell>, width: nat, last: nat, col: nat, bg: Cell)
    requires |s| == Lines(width, last + 1) && col < width
    ensures Pos(width, last, col) < |s| && ShiftUp(s, 0, width, bg)[Pos(width, last, col)] == bg
  {
    ShiftUpAt(s, 0, width, bg, Pos(width, last, col));
  }

  /** What is painted over does not matter. */
  lemma PaintedOver<Cell>(s: seq<Cell>, from: nat, n: nat, c: Cell, p: nat, was: Cell)
    requires from <= p < from + n <= |s|
    ensures Painted(s[p := was], from, n, c) == Painted(s, from, n, c)
  {
    hide Fill;
  }

  lemma PaintNothing<Cell>(s: seq<Cell>, from: nat, c: Cell)
    requires from <= |s|
    ensures Painted(s, from, 0, c) == s
  {
    assert s == s[..from] + s[from..];
  }

  lemma ClearNoLines<Cell>(look: Look<Cell>, t: Term<Cell>, row: nat)
    requires Shape(t) && row <= t.height
    ensures ClearLines(look, t, row, row) == t
  {
    PosBounds(t.width, t.height, row, 0);
    PaintNothing(t.screen, Pos(t.width, row, 0), look.blank(t.attr.bg));
  }
}
