/** src/gfx.c:1403-2196: what strings do to the terminal, said of its cells, its cursor and its colours. */
module TerminalLaws {
  import opened Basics
  import opened LineMoves
  import opened TerminalSpec
  import opened TerminalProperties

  // ----- Control sequences as strings -----

  /** ESC [, the parameters in decimal, and the letter. */
  function Sequence(vs: seq<nat>, ch: byte): seq<byte> {
    [27, 91] + (if vs == [] then [] else Printed(vs)) + [ch]
  }

  /** The terminal in front of the letter. */
  function Given<Cell>(t: Term<Cell>, vs: seq<nat>): Term<Cell> {
    t.(state := if vs == [] then SelectEscape else ReadDigit, params := vs, privateMode := 0)
  }

  /** A character that ends a sequence: none of the control characters, digits, semicolon, ? and #. */
  predicate IsFinal(ch: byte) {
    ch >= 32 && ch != 127 && !(48 <= ch <= 57) && ch !in {59, 63, 35}
  }

  predicate Idle<Cell>(t: Term<Cell>) {
    Consistent(t) && t.state == NormalText
  }

  predicate Values(vs: seq<nat>) {
    |vs| <= 644 && forall v | v in vs :: v < U32
  }

  /** A sequence does what its letter does. */
  lemma SequenceIs<Cell>(look: Look<Cell>, t: Term<Cell>, vs: seq<nat>, ch: byte)
    requires Idle(t) && Values(vs) && IsFinal(ch) && LetterAdmissible(Given(t, vs), ch)
    ensures Shape(Given(t, vs)) && OnScreen(Given(t, vs))
    ensures AdmissibleString(look, t, Sequence(vs, ch))
    ensures Run(look, t, Sequence(vs, ch)) == Finish(look, Normal(Letter(look, Given(t, vs), ch)))
  {
    hide Run, AdmissibleString, Letter, LetterAdmissible, Finish, Lines, Placed, Printed;
    var u := Given(t, vs);
    if vs == [] {
      Introduce(look, t);
      assert [27, 91] + [] == [27, 91];
      LetterStep(look, u, ch);
      RunThenOne(look, t, [27, 91], ch);
    } else {
      ParametersRoundTrip(look, t, vs);
      LetterStep(look, u, ch);
      RunThenOne(look, t, [27, 91] + Printed(vs), ch);
    }
  }

  lemma LetterStep<Cell>(look: Look<Cell>, u: Term<Cell>, ch: byte)
    requires Consistent(u) && (u.state == SelectEscape || u.state == ReadDigit) && IsFinal(ch) && LetterAdmissible(u, ch)
    ensures ch != 0 && Admissible(u, ch) && Step(look, u, ch) == Finish(look, Normal(Letter(look, u, ch)))
  {
    hide Letter, LetterAdmissible, Finish, Lines, Placed;
  }

  /** Between characters nothing is left to finish. */
  lemma FinishNothing<Cell>(look: Look<Cell>, t: Term<Cell>)
    requires Consistent(t)
    ensures Settling(t) && Finish(look, t) == t
  {
    hide Lines, Placed;
  }

  /** A semicolon right behind the bracket stands between two zeros. */
  lemma LeadingSemicolon<Cell>(look: Look<Cell>, t: Term<Cell>)
    requires Idle(t)
    ensures AdmissibleString(look, t, [27, 91, 59]) && Run(look, t, [27, 91, 59]) == Given(t, [0, 0])
  {
    hide Run, AdmissibleString, Lines, Placed, Letter;
    Introduce(look, t);
    var u := t.(state := SelectEscape, privateMode := 0);
    assert Parse(look, u, 59) == Given(t, [0, 0]);
    FinishNothing(look, Given(t, [0, 0]));
    RunThenOne(look, t, [27, 91], 59);
    assert [27, 91] + [59] == [27, 91, 59];
  }

  // ----- Moving the cursor -----

  /** The cursor is somewhere else, and the sequence is over. */
  function At<Cell>(t: Term<Cell>, row: nat, col: nat): Term<Cell> {
    t.(row := row, col := col, privateMode := 0)
  }

  /** Coordinates and counts with which nothing wraps in 32 bits. */
  predicate Small<Cell>(t: Term<Cell>, n: nat) {
    t.height + n < 0x8000_0000 && t.width + n < 0x8000_0000
  }

  /** The count of a sequence: its first parameter, or one. */
  function FirstOr1(vs: seq<nat>): nat {
    if vs == [] then 1 else vs[0]
  }

  lemma MotionRuns<Cell>(look: Look<Cell>, t: Term<Cell>, vs: seq<nat>, ch: byte, row: nat, col: nat)
    requires Idle(t) && Values(vs) && ch in {65, 66, 67, 68, 72, 90, 102, 117} && row < t.height && col < t.width
    requires IsMotion(ch) && Motion(Given(t, vs), ch) == Given(t, vs).(row := row, col := col)
    ensures AdmissibleString(look, t, Sequence(vs, ch)) && Run(look, t, Sequence(vs, ch)) == At(t, row, col)
  {
    hide Run, AdmissibleString, Motion, Lines, Placed, Printed;
    assert LetterAdmissible(Given(t, vs), ch);
    SequenceIs(look, t, vs, ch);
    assert Letter(look, Given(t, vs), ch) == Motion(Given(t, vs), ch);
    assert Consistent(At(t, row, col));
    FinishNothing(look, At(t, row, col));
  }

  lemma NoWrap(a: nat, n: nat)
    requires a + n < 0x8000_0000
    ensures Int32(n) == n && Int32(a + n) == a + n && Int32(a - n) == a - n
  {
  }

  /** ESC [ n A moves up, and stops at the first line. */
  lemma Up<Cell>(look: Look<Cell>, t: Term<Cell>, vs: seq<nat>)
    requires Idle(t) && Values(vs) && Small(t, FirstOr1(vs))
    ensures AdmissibleString(look, t, Sequence(vs, 65))
    ensures Run(look, t, Sequence(vs, 65)) == At(t, if FirstOr1(vs) <= t.row then t.row - FirstOr1(vs) else 0, t.col)
  {
    hide Run, AdmissibleString, Lines, Placed, Int32, Sequence;
    NoWrap(t.row, FirstOr1(vs));
    MotionRuns(look, t, vs, 65, if FirstOr1(vs) <= t.row then t.row - FirstOr1(vs) else 0, t.col);
  }

  /** ESC [ n B moves down, and stops at the last line. */
  lemma Down<Cell>(look: Look<Cell>, t: Term<Cell>, vs: seq<nat>)
    requires Idle(t) && Values(vs) && Small(t, FirstOr1(vs))
    ensures AdmissibleString(look, t, Sequence(vs, 66))
    ensures Run(look, t, Sequence(vs, 66)) ==
      At(t, if t.row + FirstOr1(vs) < t.height then t.row + FirstOr1(vs) else t.height - 1, t.col)
  {
    hide Run, AdmissibleString, Lines, Placed, Int32, Sequence;
    NoWrap(t.row, FirstOr1(vs));
    MotionRuns(look, t, vs, 66, if t.row + FirstOr1(vs) < t.height then t.row + FirstOr1(vs) else t.height - 1, t.col);
  }

  /** ESC [ n C moves right, and stops at the last column. */
  lemma Right<Cell>(look: Look<Cell>, t: Term<Cell>, vs: seq<nat>)
    requires Idle(t) && Values(vs) && Small(t, FirstOr1(vs))
    ensures AdmissibleString(look, t, Sequence(vs, 67))
    ensures Run(look, t, Sequence(vs, 67)) ==
      At(t, t.row, if t.col + FirstOr1(vs) < t.width then t.col + FirstOr1(vs) else t.width - 1)
  {
    hide Run, AdmissibleString, Lines, Placed, Int32, Sequence;
    NoWrap(t.col, FirstOr1(vs));
    MotionRuns(look, t, vs, 67, t.row, if t.col + FirstOr1(vs) < t.width then t.col + FirstOr1(vs) else t.width - 1);
  }

  /** ESC [ n D moves left, and stops at the first column. */
  lemma Left<Cell>(look: Look<Cell>, t: Term<Cell>, vs: seq<nat>)
    requires Idle(t) && Values(vs) && Small(t, FirstOr1(vs))
    ensures AdmissibleString(look, t, Sequence(vs, 68))
    ensures Run(look, t, Sequence(vs, 68)) == At(t, t.row, if FirstOr1(vs) <= t.col then t.col - FirstOr1(vs) else 0)
  {
    hide Run, AdmissibleString, Lines, Placed, Int32, Sequence;
    NoWrap(t.col, FirstOr1(vs));
    MotionRuns(look, t, vs, 68, t.row, if FirstOr1(vs) <= t.col then t.col - FirstOr1(vs) else 0);
  }

  /** ESC [ n B undoes ESC [ n A when the first line did not stop it, and otherwise exactly when going down
      from there happens to lead back; likewise to the sides. */
  lemma DownUndoesUp<Cell>(look: Look<Cell>, t: Term<Cell>, n: nat)
    requires Idle(t) && n < U32 && Small(t, n)
    ensures var s := Sequence([n], 65) + Sequence([n], 66);
      && AdmissibleString(look, t, s)
      && (Run(look, t, s) == At(t, t.row, t.col) <==> n <= t.row || t.row == Min(n, t.height - 1))
  {
    hide Run, AdmissibleString, Lines, Placed, Sequence;
    Up(look, t, [n]);
    var u := Run(look, t, Sequence([n], 65));
    Down(look, u, [n]);
    RunAppend(look, t, Sequence([n], 65), Sequence([n], 66));
  }

  lemma RightUndoesLeft<Cell>(look: Look<Cell>, t: Term<Cell>, n: nat)
    requires Idle(t) && n < U32 && Small(t, n)
    ensures var s := Sequence([n], 68) + Sequence([n], 67);
      && AdmissibleString(look, t, s)
      && (Run(look, t, s) == At(t, t.row, t.col) <==> n <= t.col || t.col == Min(n, t.width - 1))
  {
    hide Run, AdmissibleString, Lines, Placed, Sequence;
    Left(look, t, [n]);
    var u := Run(look, t, Sequence([n], 68));
    Right(look, u, [n]);
    RunAppend(look, t, Sequence([n], 68), Sequence([n], 67));
  }

  /** Where a coordinate counted from one goes; zero is the last. */
  function Target(v: nat, size: nat): nat
    requires size > 0
  {
    if 1 <= v <= size then v - 1 else size - 1
  }

  /** ESC [ r ; c H, and f: both coordinates from one, one if they are missing. */
  lemma Goto<Cell>(look: Look<Cell>, t: Term<Cell>, vs: seq<nat>, ch: byte)
    requires Idle(t) && Values(vs) && ch in {72, 102} && t.height <= U32 && t.width <= U32
    ensures AdmissibleString(look, t, Sequence(vs, ch))
    ensures Run(look, t, Sequence(vs, ch)) ==
      At(t, Target(FirstOr1(vs), t.height), Target(if |vs| < 2 then 1 else vs[1], t.width))
  {
    hide Run, AdmissibleString, Lines, Placed, Sequence;
    MotionRuns(look, t, vs, ch, Target(FirstOr1(vs), t.height), Target(if |vs| < 2 then 1 else vs[1], t.width));
  }

  /** ESC [ Z goes back to the last multiple of eight in front of the cursor. */
  lemma BackTab<Cell>(look: Look<Cell>, t: Term<Cell>, vs: seq<nat>) returns (col: nat)
    requires Idle(t) && Values(vs)
    ensures AdmissibleString(look, t, Sequence(vs, 90)) && Run(look, t, Sequence(vs, 90)) == At(t, t.row, col)
    ensures col % 8 == 0 && if t.col == 0 then col == 0 else col < t.col <= col + 8
  {
    hide Run, AdmissibleString, Lines, Placed, Sequence;
    col := if t.col % 8 != 0 then t.col - t.col % 8 else Max(t.col - 8, 0);
    MotionRuns(look, t, vs, 90, t.row, col);
  }

  // ----- Saving the cursor -----

  /** Any motions one after the other. */
  function Motions(ms: seq<(seq<nat>, byte)>): seq<byte> {
    if ms == [] then [] else Sequence(ms[0].0, ms[0].1) + Motions(ms[1..])
  }

  predicate AreMotions(ms: seq<(seq<nat>, byte)>) {
    forall m | m in ms :: Values(m.0) && m.1 in {65, 66, 67, 68, 72, 90, 102, 117}
  }

  lemma AnyMotion<Cell>(look: Look<Cell>, t: Term<Cell>, vs: seq<nat>, ch: byte)
    requires Idle(t) && Values(vs) && ch in {65, 66, 67, 68, 72, 90, 102, 117}
    ensures AdmissibleString(look, t, Sequence(vs, ch))
    ensures var u := Run(look, t, Sequence(vs, ch)); Idle(u) && u == At(t, u.row, u.col)
  {
    hide Run, AdmissibleString, Lines, Placed, Sequence;
    var u := Motion(Given(t, vs), ch);
    MotionOnlyMoves(Given(t, vs), ch);
    MotionRuns(look, t, vs, ch, u.row, u.col);
  }

  lemma MotionOnlyMoves<Cell>(t: Term<Cell>, ch: byte)
    requires Shape(t) && OnScreen(t) && IsMotion(ch)
    ensures Motion(t, ch) == t.(row := Motion(t, ch).row, col := Motion(t, ch).col)
  {
    hide Lines, Placed, Int32, Dec32;
  }

  lemma {:induction false} MotionsOnlyMove<Cell>(look: Look<Cell>, t: Term<Cell>, ms: seq<(seq<nat>, byte)>)
    requires Idle(t) && AreMotions(ms)
    ensures AdmissibleString(look, t, Motions(ms))
    ensures var u := Run(look, t, Motions(ms));
      Idle(u) && u == t.(row := u.row, col := u.col, privateMode := if ms == [] then t.privateMode else 0)
    decreases |ms|
  {
    if ms != [] {
      hide Run, AdmissibleString, Lines, Placed, Sequence;
      assert ms[0] in ms;
      AnyMotion(look, t, ms[0].0, ms[0].1);
      var u := Run(look, t, Sequence(ms[0].0, ms[0].1));
      MotionsOnlyMove(look, u, ms[1..]);
      RunAppend(look, t, Sequence(ms[0].0, ms[0].1), Motions(ms[1..]));
    }
  }

  lemma Saved<Cell>(look: Look<Cell>, t: Term<Cell>)
    requires Idle(t)
    ensures AdmissibleString(look, t, Sequence([], 115))
    ensures Run(look, t, Sequence([], 115)) == t.(savedRow := t.row, savedCol := t.col, privateMode := 0)
  {
    hide Run, AdmissibleString, Lines, Placed, Sequence;
    SequenceIs(look, t, [], 115);
    FinishNothing(look, t.(savedRow := t.row, savedCol := t.col, privateMode := 0));
  }

  lemma Restored<Cell>(look: Look<Cell>, t: Term<Cell>)
    requires Idle(t)
    ensures AdmissibleString(look, t, Sequence([], 117))
    ensures Run(look, t, Sequence([], 117)) == At(t, t.savedRow, t.savedCol)
  {
    hide Run, AdmissibleString, Lines, Placed, Sequence;
    MotionRuns(look, t, [], 117, t.savedRow, t.savedCol);
  }

  /** ESC [ s, any motions, and ESC [ u: the cursor is where it was, and nothing else has changed. */
  lemma SaveMotionsRestore<Cell>(look: Look<Cell>, t: Term<Cell>, ms: seq<(seq<nat>, byte)>)
    requires Idle(t) && AreMotions(ms)
    ensures var s := Sequence([], 115) + Motions(ms) + Sequence([], 117);
      && AdmissibleString(look, t, s)
      && Run(look, t, s) == t.(savedRow := t.row, savedCol := t.col, privateMode := 0)
  {
    hide Run, AdmissibleString, Lines, Placed, Sequence, Motions, AreMotions;
    Saved(look, t);
    var u := Run(look, t, Sequence([], 115));
    MotionsOnlyMove(look, u, ms);
    RunAppend(look, t, Sequence([], 115), Motions(ms));
    var v := Run(look, u, Motions(ms));
    Restored(look, v);
    RunAppend(look, t, Sequence([], 115) + Motions(ms), Sequence([], 117));
  }
}
