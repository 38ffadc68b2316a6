/** src/gfx.c:1403-2196: the terminal as a reference that never draws a cursor. A cell stands for
    the pixels of one character position and is opaque. */
module TerminalSpec {
  import opened Basics
  import opened LineMoves

  const MAX_PARAMS := 644

  const ESC: byte := 0x1B

  datatype Attributes = Attributes(
    fg: byte, bg: byte, inverse: bool, underline: bool, altCharset: bool, defaultFg: byte, defaultBg: byte)

  /** How cells look: a glyph, a cell filled with one colour, and a cell under the cursor. */
  datatype Look<!Cell> = Look(
    glyph: (byte, Attributes) -> Cell, blank: byte -> Cell, invert: (Cell, Attributes) -> Cell)

  datatype ParserState = NormalText | WaitSquareBracket | SelectEscape | ReadDigit | AltCharset

  /** The screen holds `width * height` cells line by line, and one spare line behind it, where the
      cursor passes on its way to a scroll. `place` is where the framebuffer lies in memory. */
  datatype Term<Cell> = Term(
    place: Place, width: nat, height: nat, screen: seq<Cell>, row: nat, col: nat, savedRow: nat, savedCol: nat,
    visible: bool, attr: Attributes, state: ParserState, params: seq<nat>, privateMode: byte,
    sent: seq<byte>)

  // ----- Geometry -----

  function Pos(width: nat, row: nat, col: nat): nat {
    Lines(width, row) + col
  }

  predicate Shape<Cell>(t: Term<Cell>) {
    && t.width > 0 && t.height > 0 && Placed(t.place, t.height)
    && |t.screen| == Lines(t.width, t.height + 1)
    && |t.params| <= MAX_PARAMS
  }

  /** Where the cursor is between characters. */
  predicate OnScreen<Cell>(t: Term<Cell>) {
    && t.row < t.height && t.col < t.width
    && t.savedRow < t.height && t.savedCol < t.width
  }

  /** Between characters: the cursor and the saved cursor are on the screen, and there are
      parameters exactly while digits are read. */
  predicate Consistent<Cell>(t: Term<Cell>) {
    Shape(t) && OnScreen(t) && (t.state == ReadDigit <==> t.params != [])
  }

  /** In the middle of a character the cursor may stand just behind its line or the last line. */
  predicate Settling<Cell>(t: Term<Cell>) {
    && Shape(t) && t.row <= t.height && t.col <= t.width && (t.row < t.height || t.col < t.width)
    && t.savedRow < t.height && t.savedCol < t.width
    && (t.state == ReadDigit <==> t.params != [])
  }

  /** An operation leaves the geometry, the saved cursor and the parser alone. */
  predicate Keeps<Cell>(t: Term<Cell>, u: Term<Cell>) {
    && u.place == t.place && u.width == t.width && u.height == t.height && |u.screen| == |t.screen|
    && u.savedRow == t.savedRow && u.savedCol == t.savedCol
    && u.state == t.state && u.params == t.params
  }

  /** The cells of the screen proper. */
  function Size<Cell>(t: Term<Cell>): nat {
    Lines(t.width, t.height)
  }

  /** Positions of a line are inside the screen; the place behind a line is the start of the next. */
  lemma PosBounds(width: nat, height: nat, row: nat, col: nat)
    requires row <= height && col <= width
    ensures Pos(width, row, col) <= Lines(width, height + 1)
    ensures row < height ==> Pos(width, row, col) <= Pos(width, row, width) == Pos(width, row + 1, 0) <= Lines(width, height)
    ensures (row < height || col < width) && width > 0 ==> Pos(width, row, col) < Lines(width, height + 1)
  {
    LinesInOrder(width, row, height);
  }

  // ----- Arithmetic of the target -----

  /** Conversion to a signed 32-bit integer. */
  function Int32(x: int): int {
    var y := x % U32;
    if y < U32 / 2 then y else y - U32
  }

  /** Subtraction of unsigned 32-bit integers. */
  function Dec32(x: nat): nat {
    if x == 0 then U32 - 1 else x - 1
  }

  // ----- Screen operations -----

  function BackgroundOf(a: Attributes): byte {
    if a.inverse then a.fg else a.bg
  }

  function ForegroundOf(a: Attributes): byte {
    if a.inverse then a.bg else a.fg
  }

  /** Cells from `from` on replaced by `n` equal ones. */
  function Painted<Cell>(s: seq<Cell>, from: nat, n: nat, c: Cell): (r: seq<Cell>)
    requires from + n <= |s|
    ensures |r| == |s|
  {
    s[..from] + Fill(n, c) + s[from + n..]
  }

  function MoveCursor<Cell>(t: Term<Cell>, row: int, col: int): (u: Term<Cell>)
    requires t.width > 0 && t.height > 0
    ensures Keeps(t, u) && u.row < u.height && u.col < u.width
  {
    t.(row := Min(t.height - 1, Max(row, 0)), col := Min(t.width - 1, Max(col, 0)))
  }

  /** A character at the cursor, which moves on. */
  function Put<Cell>(look: Look<Cell>, t: Term<Cell>, ch: byte): (u: Term<Cell>)
    requires Shape(t) && OnScreen(t)
    ensures Keeps(t, u) && u.row == t.row && u.col == t.col + 1
  {
    PosBounds(t.width, t.height, t.row, t.col);
    t.(screen := t.screen[Pos(t.width, t.row, t.col) := look.glyph(ch, t.attr)], col := t.col + 1)
  }

  function ClearScreen<Cell>(look: Look<Cell>, t: Term<Cell>): (u: Term<Cell>)
    requires Shape(t)
    ensures Keeps(t, u) && u.row == t.row && u.col == t.col
  {
    PosBounds(t.width, t.height, t.height, 0);
    t.(screen := Painted(t.screen, 0, Size(t), look.blank(BackgroundOf(t.attr))))
  }

  /** Cells [from, to) of the cursor's line, erased. */
  function ClearInLine<Cell>(look: Look<Cell>, t: Term<Cell>, from: nat, to: nat): (u: Term<Cell>)
    requires Shape(t) && t.row < t.height && from <= to <= t.width
    ensures Keeps(t, u) && u.row == t.row && u.col == t.col
  {
    PosBounds(t.width, t.height, t.row, from);
    PosBounds(t.width, t.height, t.row, to);
    t.(screen := Painted(t.screen, Pos(t.width, t.row, from), to - from, look.blank(t.attr.bg)))
  }

  /** Lines [from, to), erased. */
  function ClearLines<Cell>(look: Look<Cell>, t: Term<Cell>, from: nat, to: nat): (u: Term<Cell>)
    requires Shape(t) && from <= to <= t.height
    ensures Keeps(t, u) && u.row == t.row && u.col == t.col
  {
    PosBounds(t.width, t.height, from, 0);
    PosBounds(t.width, t.height, to, 0);
    LinesInOrder(t.width, from, to);
    t.(screen := Painted(t.screen, Pos(t.width, from, 0), Pos(t.width, to, 0) - Pos(t.width, from, 0),
                         look.blank(t.attr.bg)))
  }

  /** A move of whole lines inside the screen proper. */
  function Moved<Cell>(t: Term<Cell>, proper: seq<Cell>): (u: Term<Cell>)
    requires Shape(t) && |proper| == Size(t)
    ensures Keeps(t, u) && u.row == t.row && u.col == t.col
  {
    PosBounds(t.width, t.height, t.height, 0);
    t.(screen := proper + t.screen[Size(t)..])
  }

  function DeleteAtCursor<Cell>(look: Look<Cell>, t: Term<Cell>, n: nat): (u: Term<Cell>)
    requires Shape(t) && t.row < t.height
    ensures Keeps(t, u) && u.row == t.row && u.col == t.col
  {
    PosBounds(t.width, t.height, t.row, 0);
    PosBounds(t.width, t.height, t.height, 0);
    Moved(t, ShiftUp(t.screen[..Size(t)], Pos(t.width, t.row, 0), Lines(t.width, n), look.blank(BackgroundOf(t.attr))))
  }

  function InsertAtCursor<Cell>(look: Look<Cell>, t: Term<Cell>, n: nat): (u: Term<Cell>)
    requires Shape(t) && t.row < t.height && n <= t.height
    ensures Keeps(t, u) && u.row == t.row && u.col == t.col
  {
    PosBounds(t.width, t.height, t.row, 0);
    PosBounds(t.width, t.height, t.height, 0);
    LinesInOrder(t.width, n, t.height);
    Moved(t, ShiftDown(t.screen[..Size(t)], Pos(t.width, t.row, 0), Lines(t.width, n), look.blank(BackgroundOf(t.attr))))
  }

  function ScrollUp<Cell>(look: Look<Cell>, t: Term<Cell>): (u: Term<Cell>)
    requires Shape(t)
    ensures Keeps(t, u) && u.row == t.row && u.col == t.col
  {
    PosBounds(t.width, t.height, t.height, 0);
    Moved(t, ShiftUp(t.screen[..Size(t)], 0, t.width, look.blank(BackgroundOf(t.attr))))
  }

  // ----- Attributes -----

  function ResetAttributes(a: Attributes): Attributes {
    a.(fg := a.defaultFg, bg := a.defaultBg, inverse := false, underline := false)
  }

  function BrightOf(fg: byte): byte {
    if fg / 8 % 2 == 1 then fg else fg + 8
  }

  function SelectOne(a: Attributes, p: nat): Attributes {
    if p == 0 then ResetAttributes(a)
    else if p == 1 then a.(fg := BrightOf(a.fg))
    else if p == 2 then a.(fg := a.fg % 8)
    else if p == 7 then a.(inverse := true)
    else if p == 4 then a.(underline := true)
    else if p == 27 then a.(inverse := false)
    else if 30 <= p <= 37 then a.(fg := a.fg / 8 % 2 * 8 + p - 30)
    else if p == 39 then a.(fg := a.defaultFg)
    else if 40 <= p <= 47 then a.(bg := p - 40)
    else if p == 49 then a.(bg := a.defaultBg)
    else a
  }

  /** ESC [ ... m, from its `i`-th parameter on. */
  function SelectFrom(a: Attributes, ps: seq<nat>, i: nat): Attributes
    decreases |ps| - i
  {
    if i >= |ps| then a
    else if i + 2 < |ps| && ps[i] == 38 && ps[i + 1] == 5 then SelectFrom(a.(fg := ps[i + 2] % 256), ps, i + 3)
    else if i + 2 < |ps| && ps[i] == 48 && ps[i + 1] == 5 then SelectFrom(a.(bg := ps[i + 2] % 256), ps, i + 3)
    else SelectFrom(SelectOne(a, ps[i]), ps, i + 1)
  }

  /** The drawing character a letter stands for in the alternative character set. */
  function AlternativeOf(ch: byte): byte {
    if ch == '}' as int then 0x9C else if ch == '.' as int then 0x19 else if ch == ',' as int then 0x1B
    else if ch == '+' as int then 0x1A else if ch == '-' as int then 0x18 else if ch == 'h' as int then 0xB0
    else if ch == '~' as int then 0x07 else if ch == 'a' as int then 0xB1 else if ch == 'f' as int then 0xF8
    else if ch == '`' as int then 0x04 else if ch == 'z' as int then 0xF2 else if ch == '{' as int then 0xE3
    else if ch == 'q' as int then 0xC4 else if ch == 'i' as int then 0x0F else if ch == 'n' as int then 0xC5
    else if ch == 'y' as int then 0xF3 else if ch == 'm' as int then 0xC0 else if ch == 'j' as int then 0xD9
    else if ch == '|' as int then 0xF7 else if ch == 'g' as int then 0xF1 else if ch == 'o' as int then 0xC4
    else if ch == 'p' as int then 0xC4 else if ch == 'r' as int then 0xC4 else if ch == 's' as int then 0xC4
    else if ch == '0' as int then 0xDB else if ch == 'w' as int then 0xC2 else if ch == 'u' as int then 0xB4
    else if ch == 't' as int then 0xC3 else if ch == 'v' as int then 0xC1 else if ch == 'l' as int then 0xDA
    else if ch == 'k' as int then 0xBF else if ch == 'x' as int then 0xB3 else ch
  }

  // ----- Control sequences -----

  /** Three decimal digits. */
  function ThreeDigits(n: byte): seq<byte> {
    ['0' as int + n / 100, '0' as int + n / 10 % 10, '0' as int + n % 10]
  }

  const TERMINAL_TYPE: seq<byte> := [ESC, '[' as int, '?' as int, '1' as int, ';' as int, '0' as int, 'c' as int]
  const STATUS_OK: seq<byte> := [ESC, '[' as int, '0' as int, 'n' as int]

  /** The answer to ESC [ 6 n; row and column are cut to a byte before and after one is added. */
  function PositionReport(row: nat, col: nat): seq<byte> {
    [ESC, '[' as int] + ThreeDigits((row % 256 + 1) % 256) + [';' as int] + ThreeDigits((col % 256 + 1) % 256) + ['R' as int]
  }

  function Count(ps: seq<nat>): int {
    if |ps| > 0 then Int32(ps[0]) else 1
  }

  function Normal<Cell>(t: Term<Cell>): Term<Cell> {
    t.(state := NormalText, params := [])
  }

  /** What a sequence with the private mode character '#' does, if it is one of those. */
  predicate IsPrivate(ch: byte) {
    ch == 'm' as int || ch == 'c' as int || ch == 'w' as int
  }

  function PrivateLetter<Cell>(look: Look<Cell>, t: Term<Cell>, ch: byte): (u: Term<Cell>)
    requires Shape(t) && OnScreen(t) && IsPrivate(ch)
    ensures Keeps(t, u) && u.row == t.row && u.col <= u.width
  {
    var ps := t.params;
    if ch == 'm' as int then
      if |ps| == 2 && ps[1] <= 15 && ps[0] == 39 then t.(attr := t.attr.(defaultFg := ps[1]))
      else if |ps| == 2 && ps[1] <= 15 && ps[0] == 49 then t.(attr := t.attr.(defaultBg := ps[1]))
      else t
    else if ch == 'c' as int && |ps| == 1 then Put(look, t, ps[0] % 256)
    else t
  }

  function EraseInLine<Cell>(look: Look<Cell>, t: Term<Cell>): (u: Term<Cell>)
    requires Shape(t) && OnScreen(t)
    ensures Keeps(t, u) && u.row == t.row && u.col == t.col
  {
    var ps := t.params;
    if |ps| == 0 || (|ps| == 1 && ps[0] == 0) then ClearInLine(look, t, t.col, t.width)
    else if |ps| == 1 && ps[0] == 1 then ClearInLine(look, t, 0, t.col + 1)
    else if |ps| == 1 && ps[0] == 2 then ClearInLine(look, t, 0, t.width)
    else t
  }

  /** From the cursor on. */
  function ErasedBelow<Cell>(look: Look<Cell>, t: Term<Cell>): (u: Term<Cell>)
    requires Shape(t) && OnScreen(t)
    ensures Keeps(t, u) && u.row == t.row && u.col == t.col
  {
    ClearLines(look, ClearInLine(look, t, t.col, t.width), t.row + 1, t.height)
  }

  /** Up to and including the cursor. */
  function ErasedAbove<Cell>(look: Look<Cell>, t: Term<Cell>): (u: Term<Cell>)
    requires Shape(t) && OnScreen(t)
    ensures Keeps(t, u) && u.row == t.row && u.col == t.col
  {
    ClearLines(look, ClearInLine(look, t, 0, t.col + 1), 0, t.row)
  }

  function EraseInScreen<Cell>(look: Look<Cell>, t: Term<Cell>): (u: Term<Cell>)
    requires Shape(t) && OnScreen(t)
    ensures Keeps(t, u) && u.row < u.height && u.col < u.width
  {
    var p := if |t.params| >= 1 then t.params[0] else 0;
    if p == 0 then ErasedBelow(look, t)
    else if p == 1 then ErasedAbove(look, t)
    else if p == 2 then ClearScreen(look, MoveCursor(t, 0, 0))
    else t
  }

  predicate IsMotion(ch: byte) {
    ch in {'A' as int, 'B' as int, 'C' as int, 'D' as int, 'Z' as int, 'f' as int, 'H' as int, 'u' as int}
  }

  function Motion<Cell>(t: Term<Cell>, ch: byte): (u: Term<Cell>)
    requires Shape(t) && OnScreen(t) && IsMotion(ch)
    ensures Keeps(t, u) && u.row < u.height && u.col < u.width
  {
    var ps := t.params;
    if ch == 'A' as int then MoveCursor(t, Max(0, Int32(t.row - Count(ps))), t.col)
    else if ch == 'B' as int then MoveCursor(t, Min(t.height - 1, Int32(t.row + Count(ps))), t.col)
    else if ch == 'C' as int then MoveCursor(t, t.row, Min(t.width - 1, Int32(t.col + Count(ps))))
    else if ch == 'D' as int then MoveCursor(t, t.row, Max(0, Int32(t.col - Count(ps))))
    else if ch == 'Z' as int then t.(col := if t.col % 8 != 0 then t.col - t.col % 8 else Max(t.col - 8, 0))
    else if ch == 'u' as int then t.(row := t.savedRow, col := t.savedCol)
    else
      MoveCursor(t, Min(Dec32(if |ps| < 1 then 1 else ps[0]), t.height - 1),
                 Min(Dec32(if |ps| < 2 then 1 else ps[1]), t.width - 1))
  }

  function Report<Cell>(t: Term<Cell>, ch: byte): (u: Term<Cell>)
    ensures Keeps(t, u) && u.row == t.row && u.col == t.col
  {
    var ps := t.params;
    if ch == 'c' as int then (if |ps| == 0 || ps[0] == 0 then t.(sent := t.sent + TERMINAL_TYPE) else t)
    else if |ps| == 1 && ps[0] == 5 then t.(sent := t.sent + STATUS_OK)
    else if |ps| == 1 && ps[0] == 6 then t.(sent := t.sent + PositionReport(t.row, t.col))
    else t
  }

  /** The last character of a control sequence. */
  function Letter<Cell>(look: Look<Cell>, t: Term<Cell>, ch: byte): (u: Term<Cell>)
    requires Shape(t) && OnScreen(t) && LetterAdmissible(t, ch)
    ensures Settling(Normal(u)) && u.width == t.width && u.height == t.height
  {
    var ps := t.params;
    var query := t.privateMode == '?' as int && |ps| == 1 && ps[0] == 25;
    if t.privateMode == '#' as int && IsPrivate(ch) then PrivateLetter(look, t, ch)
    else if ch == 'l' as int then (if query then t.(visible := false) else t)
    else if ch == 'h' as int then (if query then t.(visible := true) else t)
    else if ch == 'K' as int then EraseInLine(look, t)
    else if ch == 'J' as int then EraseInScreen(look, t)
    else if IsMotion(ch) then Motion(t, ch)
    else if ch == 'M' as int then DeleteAtCursor(look, t, LineCount(ps))
    else if ch == 'L' as int then InsertAtCursor(look, t, LineCount(ps))
    else if ch == 'm' as int then
      t.(attr := if ps == [] then ResetAttributes(t.attr) else SelectFrom(t.attr, ps, 0))
    else if ch == 's' as int then t.(savedRow := t.row, savedCol := t.col)
    else if ch == 'c' as int || ch == 'n' as int then Report(t, ch)
    else t
  }

  /** The number of lines a sequence asks for. */
  function LineCount(ps: seq<nat>): nat {
    if |ps| > 0 then ps[0] else 1
  }

  /** Deleting `n` lines at the cursor finds them: by LineMoves.DeletesIff it does so exactly then. */
  predicate DeleteFits<Cell>(t: Term<Cell>, n: nat) {
    SourceFits(t.place, t.height, t.row + n)
  }

  /** Sequences outside the model: graphics calls, lines inserted beyond the size of the screen, lines
      deleted from an address that is cut to one inside or in front of the screen, and showing a
      cursor that is shown. */
  predicate LetterAdmissible<Cell>(t: Term<Cell>, ch: byte) {
    && !(t.privateMode == '#' as int && ch == 'G' as int)
    && (ch == 'M' as int ==> DeleteFits(t, LineCount(t.params)))
    && (ch == 'L' as int && |t.params| > 0 ==> t.params[0] <= t.height)
    && (ch == 'h' as int && t.privateMode == '?' as int && t.params == [25] ==> !t.visible)
  }

  // ----- The parser -----

  predicate IsDigit(ch: byte) {
    '0' as int <= ch <= '9' as int
  }

  function DigitOf(ch: byte): nat
    requires IsDigit(ch)
  {
    ch - '0' as int
  }

  /** The last parameter with one more decimal digit. */
  function Extended(ps: seq<nat>, digit: nat): seq<nat>
    requires |ps| > 0
  {
    ps[|ps| - 1 := (ps[|ps| - 1] * 10 + digit) % U32]
  }

  /** The character ends a control sequence. */
  predicate EndsSequence<Cell>(t: Term<Cell>, ch: byte) {
    || (t.state == ReadDigit && !IsDigit(ch) && ch != 0 && ch != ';' as int)
    || (t.state == SelectEscape && !IsDigit(ch) && ch != ';' as int && ch != '?' as int && ch != '#' as int)
  }

  predicate ParseAdmissible<Cell>(t: Term<Cell>, ch: byte) {
    && (EndsSequence(t, ch) ==> LetterAdmissible(t, ch))
    && (t.state == ReadDigit && ch == ';' as int ==> |t.params| < MAX_PARAMS)
  }

  function ParseNormalText<Cell>(look: Look<Cell>, t: Term<Cell>, ch: byte): (u: Term<Cell>)
    requires Consistent(t) && t.state == NormalText
    ensures Settling(u) && u.width == t.width && u.height == t.height
  {
    if ch == ESC then t.(state := WaitSquareBracket)
    else Put(look, t, if t.attr.altCharset then AlternativeOf(ch) else ch)
  }

  function ParseEscape<Cell>(look: Look<Cell>, t: Term<Cell>, ch: byte): (u: Term<Cell>)
    requires Consistent(t) && t.state == WaitSquareBracket
    ensures Settling(u) && u.width == t.width && u.height == t.height
  {
    if ch == '[' as int then t.(state := SelectEscape, privateMode := 0)
    else if ch == '(' as int then t.(state := AltCharset)
    else if ch == ESC then Normal(Put(look, t, ch))
    else if ch == 'c' as int then
      Normal(ClearScreen(look, MoveCursor(t.(attr := ResetAttributes(t.attr)), 0, 0)))
    else Normal(t)
  }

  function ParseCharset<Cell>(t: Term<Cell>, ch: byte): Term<Cell> {
    Normal(if ch == '0' as int then t.(attr := t.attr.(altCharset := true))
           else if ch == 'B' as int then t.(attr := t.attr.(altCharset := false))
           else t)
  }

  /** The first character behind the bracket, if it is not the last of the sequence. */
  function ParseSelect<Cell>(t: Term<Cell>, ch: byte): Term<Cell> {
    if IsDigit(ch) then t.(state := ReadDigit, params := [DigitOf(ch)])
    else if ch == ';' as int then t.(state := ReadDigit, params := [0, 0])
    else t.(state := ReadDigit, params := [0], privateMode := ch)
  }

  /** A character of a parameter. */
  function ParseDigit<Cell>(t: Term<Cell>, ch: byte): Term<Cell>
    requires t.params != []
  {
    if IsDigit(ch) then t.(params := Extended(t.params, DigitOf(ch)))
    else if ch == 0 then t.(params := Extended(t.params, 0))
    else t.(params := t.params + [0])
  }

  function Parse<Cell>(look: Look<Cell>, t: Term<Cell>, ch: byte): (u: Term<Cell>)
    requires Consistent(t) && ParseAdmissible(t, ch)
    ensures Settling(u) && u.width == t.width && u.height == t.height
  {
    if EndsSequence(t, ch) then Normal(Letter(look, t, ch))
    else match t.state
      case NormalText => ParseNormalText(look, t, ch)
      case WaitSquareBracket => ParseEscape(look, t, ch)
      case AltCharset => ParseCharset(t, ch)
      case SelectEscape => ParseSelect(t, ch)
      case ReadDigit => ParseDigit(t, ch)
  }

  // ----- One character -----

  predicate IsControl(ch: byte) {
    ch in {13, 10, 9, 8, 0x7F, 0x0E, 0x0F, 7, 12}
  }

  function Control<Cell>(look: Look<Cell>, t: Term<Cell>, ch: byte): (u: Term<Cell>)
    requires Shape(t) && OnScreen(t)
    ensures Keeps(t, u) && u.row <= u.height && u.col < u.width
  {
    if ch == 13 then t.(col := 0)
    else if ch == 10 then t.(row := t.row + 1)
    else if ch == 9 then t.(col := Min(t.col - t.col % 8 + 8, t.width - 1))
    else if ch == 8 || ch == 0x7F then (if t.col > 0 then t.(col := t.col - 1) else t)
    else if ch == 12 then ClearScreen(look, MoveCursor(t, 0, 0))
    else t
  }

  /** The cursor behind a line goes to the next one, and the screen scrolls when there is none. */
  function Finish<Cell>(look: Look<Cell>, t: Term<Cell>): (u: Term<Cell>)
    requires Settling(t)
    ensures Consistent(u) && u.width == t.width && u.height == t.height
  {
    var u := if t.col >= t.width then t.(row := t.row + 1, col := 0) else t;
    if u.row >= u.height then ScrollUp(look, u.(row := u.row - 1)) else u
  }

  predicate Admissible<Cell>(t: Term<Cell>, ch: byte) {
    IsControl(ch) || ParseAdmissible(t, ch)
  }

  /** The reference terminal. Whatever it is sent, the cursor is on the screen afterwards. */
  function Step<Cell>(look: Look<Cell>, t: Term<Cell>, ch: byte): (u: Term<Cell>)
    requires Consistent(t) && Admissible(t, ch)
    ensures Consistent(u) && u.width == t.width && u.height == t.height
  {
    Finish(look, if IsControl(ch) then Control(look, t, ch) else Parse(look, t, ch))
  }

  /** The string can be sent: every character is admissible when it is reached, and none is NUL. */
  predicate AdmissibleString<Cell>(look: Look<Cell>, t: Term<Cell>, str: seq<byte>)
    requires Consistent(t)
    decreases |str|
  {
    str == [] || (str[0] != 0 && Admissible(t, str[0]) && AdmissibleString(look, Step(look, t, str[0]), str[1..]))
  }

  function Run<Cell>(look: Look<Cell>, t: Term<Cell>, str: seq<byte>): (u: Term<Cell>)
    requires Consistent(t) && AdmissibleString(look, t, str)
    ensures Consistent(u) && u.width == t.width && u.height == t.height
    decreases |str|
  {
    if str == [] then t else Run(look, Step(look, t, str[0]), str[1..])
  }
}
