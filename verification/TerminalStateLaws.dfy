/** src/gfx.c:1575-2196: what strings do to the colours, the answers, the visibility of the cursor and the
    character set. */
module TerminalStateLaws {
  import opened Basics
  import opened LineMoves
  import opened TerminalSpec
  import opened TerminalProperties
  import opened TerminalLaws

  // ----- Colours and styles -----

  /** Attributes after one parameter. The low three bits of the foreground are its colour and the fourth makes
      it bright. */
  predicate Selected(a: Attributes, p: nat, b: Attributes) {
    && b.defaultFg == a.defaultFg && b.defaultBg == a.defaultBg && b.altCharset == a.altCharset
    && b.inverse == (if p == 7 then true else if p == 0 || p == 27 then false else a.inverse)
    && b.underline == (if p == 4 then true else if p == 0 then false else a.underline)
    && b.bg == (if p == 0 || p == 49 then a.defaultBg else if 40 <= p <= 47 then p - 40 else a.bg)
    && (if p == 0 || p == 39 then b.fg == a.defaultFg
        else if p == 1 then b.fg % 8 == a.fg % 8 && b.fg / 8 % 2 == 1 && b.fg / 16 == a.fg / 16
        else if p == 2 then b.fg % 8 == a.fg % 8 && b.fg / 8 == 0
        else if 30 <= p <= 37 then b.fg % 8 == p - 30 && b.fg / 8 % 2 == a.fg / 8 % 2 && b.fg / 16 == 0
        else b.fg == a.fg)
  }

  lemma OneSelected(a: Attributes, p: nat)
    ensures Selected(a, p, SelectOne(a, p))
  {
  }

  /** ESC [ ... m changes the attributes only. */
  lemma RenditionRuns<Cell>(look: Look<Cell>, t: Term<Cell>, vs: seq<nat>)
    requires Idle(t) && Values(vs)
    ensures AdmissibleString(look, t, Sequence(vs, 109))
    ensures Run(look, t, Sequence(vs, 109)) ==
      t.(privateMode := 0, attr := if vs == [] then ResetAttributes(t.attr) else SelectFrom(t.attr, vs, 0))
  {
    hide Run, AdmissibleString, Lines, Placed, Sequence, SelectFrom, ResetAttributes;
    SequenceIs(look, t, vs, 109);
    FinishNothing(look, Normal(Letter(look, Given(t, vs), 109)));
  }

  /** ESC [ p m, attribute by attribute; ESC [ m is ESC [ 0 m. */
  lemma RenditionIs<Cell>(look: Look<Cell>, t: Term<Cell>, p: nat)
    requires Idle(t) && p < U32
    ensures AdmissibleString(look, t, Sequence([p], 109)) && AdmissibleString(look, t, Sequence([], 109))
    ensures var u := Run(look, t, Sequence([p], 109));
      && u == t.(privateMode := 0, attr := u.attr) && Selected(t.attr, p, u.attr)
      && (p == 0 ==> Run(look, t, Sequence([], 109)) == u)
  {
    hide Run, AdmissibleString, Lines, Placed, Sequence, Idle, Selected;
    RenditionRuns(look, t, [p]);
    RenditionRuns(look, t, []);
    OneSelected(t.attr, p);
    assert SelectFrom(t.attr, [p], 0) == SelectFrom(SelectOne(t.attr, p), [p], 1);
  }

  lemma {:induction false} SelectSuffix(a: Attributes, ps: seq<nat>, i: nat)
    requires i <= |ps|
    ensures SelectFrom(a, ps, i) == SelectFrom(a, ps[i..], 0)
    decreases |ps| - i
  {
    if i < |ps| {
      var qs := ps[i..];
      if i + 2 < |ps| && (ps[i] == 38 || ps[i] == 48) && ps[i + 1] == 5 {
        var b := if ps[i] == 38 then a.(fg := ps[i + 2] % 256) else a.(bg := ps[i + 2] % 256);
        assert qs[3..] == ps[i + 3..];
        SelectSuffix(b, ps, i + 3);
        if i > 0 {
          SelectSuffix(b, qs, 3);
        }
      } else {
        assert qs[1..] == ps[i + 1..];
        SelectSuffix(SelectOne(a, ps[i]), ps, i + 1);
        if i > 0 {
          SelectSuffix(SelectOne(a, ps[i]), qs, 1);
        }
      }
    }
  }

  /** The first three parameters choose a colour by its number. */
  predicate Extended(vs: seq<nat>) {
    |vs| >= 3 && vs[0] in {38, 48} && vs[1] == 5
  }

  lemma ValuesBehind(vs: seq<nat>, i: nat)
    requires Values(vs) && i <= |vs|
    ensures Values(vs[i..])
  {
    forall v | v in vs[i..]
      ensures v < U32
    {
      assert v in vs;
    }
  }

  /** Parameters one after the other: ESC [ p ; q ; ... m is ESC [ p m and ESC [ q ; ... m. */
  lemma RenditionsInTurn<Cell>(look: Look<Cell>, t: Term<Cell>, vs: seq<nat>)
    requires Idle(t) && Values(vs) && |vs| >= 2 && !Extended(vs)
    ensures var s := Sequence([vs[0]], 109) + Sequence(vs[1..], 109);
      && AdmissibleString(look, t, Sequence(vs, 109)) && AdmissibleString(look, t, s)
      && Run(look, t, Sequence(vs, 109)) == Run(look, t, s)
  {
    hide Run, AdmissibleString, Lines, Placed, Sequence;
    assert vs[0] in vs;
    RenditionRuns(look, t, vs);
    RenditionRuns(look, t, [vs[0]]);
    var u := Run(look, t, Sequence([vs[0]], 109));
    ValuesBehind(vs, 1);
    RenditionRuns(look, u, vs[1..]);
    RunAppend(look, t, Sequence([vs[0]], 109), Sequence(vs[1..], 109));
    SelectSuffix(SelectOne(t.attr, vs[0]), vs, 1);
    assert SelectFrom(t.attr, [vs[0]], 0) == SelectFrom(SelectOne(t.attr, vs[0]), [vs[0]], 1);
  }

  /** ESC [ 38 ; 5 ; n m and ESC [ 48 ; 5 ; n m choose foreground and background, and what follows is read on. */
  lemma ColourByNumber<Cell>(look: Look<Cell>, t: Term<Cell>, vs: seq<nat>)
    requires Idle(t) && Values(vs) && Extended(vs)
    ensures var a := if vs[0] == 38 then t.attr.(fg := vs[2] % 256) else t.attr.(bg := vs[2] % 256);
      var u := t.(privateMode := 0, attr := a);
      && AdmissibleString(look, t, Sequence(vs, 109)) && Idle(u)
      && (if |vs| == 3 then Run(look, t, Sequence(vs, 109)) == u
          else
            && AdmissibleString(look, u, Sequence(vs[3..], 109))
            && Run(look, t, Sequence(vs, 109)) == Run(look, u, Sequence(vs[3..], 109)))
  {
    hide Run, AdmissibleString, Lines, Placed, Sequence;
    RenditionRuns(look, t, vs);
    var a := if vs[0] == 38 then t.attr.(fg := vs[2] % 256) else t.attr.(bg := vs[2] % 256);
    SelectSuffix(a, vs, 3);
    if |vs| > 3 {
      ValuesBehind(vs, 3);
      RenditionRuns(look, t.(privateMode := 0, attr := a), vs[3..]);
    }
  }

  // ----- Answers -----

  /** ESC [ c and ESC [ 0 c answer ESC [ ? 1 ; 0 c, ESC [ 5 n answers ESC [ 0 n, and other parameters of these,
      except for the position, are not answered. */
  lemma Answers<Cell>(look: Look<Cell>, t: Term<Cell>, vs: seq<nat>, ch: byte)
    requires Idle(t) && Values(vs) && ch in {99, 110} && !(ch == 110 && vs == [6])
    ensures AdmissibleString(look, t, Sequence(vs, ch))
    ensures Run(look, t, Sequence(vs, ch)) ==
      t.(privateMode := 0,
         sent := t.sent + if ch == 99 && (vs == [] || vs[0] == 0) then [27, 91, 63, 49, 59, 48, 99]
                          else if ch == 110 && vs == [5] then [27, 91, 48, 110] else [])
  {
    hide Run, AdmissibleString, Lines, Placed, Sequence;
    SequenceIs(look, t, vs, ch);
    FinishNothing(look, Normal(Letter(look, Given(t, vs), ch)));
  }

  /** Three decimal digits and their value; 5328 is what three characters '0' add up to. */
  predicate Digits(p: seq<byte>, n: nat) {
    && |p| == 3 && (forall i | 0 <= i < 3 :: 48 <= p[i] <= 57)
    && 100 * (p[0] as int) + 10 * (p[1] as int) + (p[2] as int) == n + 5328
  }

  lemma ThreeDigitsAre(n: byte)
    ensures Digits(ThreeDigits(n), n)
  {
    var a, b, c := n / 100, n / 10 % 10, n % 10;
    assert a < 10 && b < 10 && c < 10 && n == 10 * (10 * a + b) + c;
    assert ThreeDigits(n) == [48 + a, 48 + b, 48 + c];
    hide ThreeDigits;
  }

  /** The position report in digits: both coordinates from one, three digits each, while they are below 255. */
  lemma ReportDigits(row: nat, col: nat)
    requires row < 255 && col < 255
    ensures exists r: seq<byte>, c: seq<byte> ::
      Digits(r, row + 1) && Digits(c, col + 1) && PositionReport(row, col) == [27, 91] + r + [59] + c + [82]
  {
    hide ThreeDigits, Digits;
    ThreeDigitsAre(row + 1);
    ThreeDigitsAre(col + 1);
    var r, c := ThreeDigits(row + 1), ThreeDigits(col + 1);
    assert PositionReport(row, col) == [27, 91] + r + [59] + c + [82];
    assert Digits(r, row + 1) && Digits(c, col + 1);
  }

  // ----- Private sequences -----

  function PrivateSequence(mode: byte, vs: seq<nat>, ch: byte): seq<byte>
    requires vs != []
  {
    [27, 91, mode] + Printed(vs) + [ch]
  }

  function GivenPrivate<Cell>(t: Term<Cell>, mode: byte, vs: seq<nat>): Term<Cell> {
    t.(state := ReadDigit, params := vs, privateMode := mode)
  }

  lemma PrivateSequenceIs<Cell>(look: Look<Cell>, t: Term<Cell>, mode: byte, vs: seq<nat>, ch: byte)
    requires Idle(t) && Values(vs) && vs != [] && mode in {63, 35} && IsFinal(ch)
    requires LetterAdmissible(GivenPrivate(t, mode, vs), ch)
    ensures Shape(GivenPrivate(t, mode, vs)) && OnScreen(GivenPrivate(t, mode, vs))
    ensures AdmissibleString(look, t, PrivateSequence(mode, vs, ch))
    ensures Run(look, t, PrivateSequence(mode, vs, ch)) == Finish(look, Normal(Letter(look, GivenPrivate(t, mode, vs), ch)))
  {
    hide Run, AdmissibleString, Letter, LetterAdmissible, Finish, Lines, Placed, Printed;
    Introduce(look, t);
    var u, v := t.(state := SelectEscape, privateMode := 0), t.(privateMode := mode);
    ModeStep(look, u, mode);
    RunThenOne(look, t, [27, 91], mode);
    RunPrinted(look, v, vs);
    assert [27, 91] + [mode] == [27, 91, mode];
    RunAppend(look, t, [27, 91, mode], Printed(vs));
    LetterStep(look, GivenPrivate(t, mode, vs), ch);
    RunThenOne(look, t, [27, 91, mode] + Printed(vs), ch);
  }

  lemma ModeStep<Cell>(look: Look<Cell>, u: Term<Cell>, mode: byte)
    requires Consistent(u) && u.state == SelectEscape && mode in {63, 35}
    ensures Admissible(u, mode) && Step(look, u, mode) == u.(state := ReadDigit, params := [0], privateMode := mode)
  {
    hide Lines, Placed, Letter;
  }

  /** ESC [ ? 25 l hides the cursor, and ESC [ ? 25 h shows a hidden one. */
  lemma Visibility<Cell>(look: Look<Cell>, t: Term<Cell>)
    requires Idle(t)
    ensures AdmissibleString(look, t, PrivateSequence(63, [25], 108))
    ensures Run(look, t, PrivateSequence(63, [25], 108)) == t.(privateMode := 63, visible := false)
    ensures !t.visible ==>
      && AdmissibleString(look, t, PrivateSequence(63, [25], 104))
      && Run(look, t, PrivateSequence(63, [25], 104)) == t.(privateMode := 63, visible := true)
  {
    hide Run, AdmissibleString, Lines, Placed, PrivateSequence;
    PrivateSequenceIs(look, t, 63, [25], 108);
    FinishNothing(look, Normal(GivenPrivate(t, 63, [25]).(visible := false)));
    if !t.visible {
      PrivateSequenceIs(look, t, 63, [25], 104);
      FinishNothing(look, Normal(GivenPrivate(t, 63, [25]).(visible := true)));
    }
  }

  /** ESC [ # 39 ; n m and ESC [ # 49 ; n m choose the default colours. */
  lemma DefaultColours<Cell>(look: Look<Cell>, t: Term<Cell>, n: nat)
    requires Idle(t) && n <= 15
    ensures AdmissibleString(look, t, PrivateSequence(35, [39, n], 109))
    ensures Run(look, t, PrivateSequence(35, [39, n], 109)) == t.(privateMode := 35, attr := t.attr.(defaultFg := n))
    ensures AdmissibleString(look, t, PrivateSequence(35, [49, n], 109))
    ensures Run(look, t, PrivateSequence(35, [49, n], 109)) == t.(privateMode := 35, attr := t.attr.(defaultBg := n))
  {
    hide Run, AdmissibleString, Lines, Placed, PrivateSequence;
    PrivateSequenceIs(look, t, 35, [39, n], 109);
    FinishNothing(look, Normal(GivenPrivate(t, 35, [39, n]).(attr := t.attr.(defaultFg := n))));
    PrivateSequenceIs(look, t, 35, [49, n], 109);
    FinishNothing(look, Normal(GivenPrivate(t, 35, [49, n]).(attr := t.attr.(defaultBg := n))));
  }

  /** ESC [ # ... m with anything but two parameters, 39 or 49 and a colour up to 15, and ESC [ # ... w, change
      nothing. */
  lemma OtherPrivate<Cell>(look: Look<Cell>, t: Term<Cell>, vs: seq<nat>, ch: byte)
    requires Idle(t) && Values(vs) && vs != []
    requires ch == 119 || (ch == 109 && !(|vs| == 2 && vs[0] in {39, 49} && vs[1] <= 15)) || (ch == 99 && |vs| != 1)
    ensures AdmissibleString(look, t, PrivateSequence(35, vs, ch))
    ensures Run(look, t, PrivateSequence(35, vs, ch)) == t.(privateMode := 35)
  {
    hide Run, AdmissibleString, Lines, Placed, PrivateSequence, Put;
    PrivateSequenceIs(look, t, 35, vs, ch);
    FinishNothing(look, Normal(GivenPrivate(t, 35, vs)));
  }

  /** ESC [ # n c draws character n, whatever it is, as text would be. */
  lemma DrawnByNumber<Cell>(look: Look<Cell>, t: Term<Cell>, n: nat)
    requires Idle(t) && n < U32 && !t.attr.altCharset
    requires n % 256 !in {0, 7, 8, 9, 10, 12, 13, 14, 15, 27, 127}
    ensures AdmissibleString(look, t, PrivateSequence(35, [n], 99)) && AdmissibleString(look, t, [n % 256])
    ensures Run(look, t, PrivateSequence(35, [n], 99)) == Run(look, t, [n % 256]).(privateMode := 35)
  {
    hide Run, AdmissibleString, Lines, Placed, PrivateSequence, Finish, Put;
    var ch: byte := n % 256;
    var g := GivenPrivate(t, 35, [n]);
    PrivateSequenceIs(look, t, 35, [n], 99);
    assert Letter(look, g, 99) == Put(look, g, ch);
    assert Parse(look, t, ch) == Put(look, t, ch);
    RunOne(look, t, ch);
    PutAside(look, t, g, ch);
  }

  /** What a character does has nothing to do with the state of the parser. */
  lemma PutAside<Cell>(look: Look<Cell>, t: Term<Cell>, g: Term<Cell>, ch: byte)
    requires Idle(t) && g == GivenPrivate(t, 35, g.params) && |g.params| == 1
    ensures Settling(Put(look, t, ch)) && Settling(Normal(Put(look, g, ch)))
    ensures Finish(look, Normal(Put(look, g, ch))) == Finish(look, Put(look, t, ch)).(privateMode := 35)
  {
    hide Lines, Placed, ShiftUp;
  }

  /** Without the question mark, or with other parameters, l and h change nothing. */
  lemma PlainLetters<Cell>(look: Look<Cell>, t: Term<Cell>, vs: seq<nat>, ch: byte)
    requires Idle(t) && Values(vs) && ch in {108, 104}
    ensures AdmissibleString(look, t, Sequence(vs, ch)) && Run(look, t, Sequence(vs, ch)) == t.(privateMode := 0)
    ensures vs != [] && vs != [25] ==>
      && AdmissibleString(look, t, PrivateSequence(63, vs, ch))
      && Run(look, t, PrivateSequence(63, vs, ch)) == t.(privateMode := 63)
  {
    hide Run, AdmissibleString, Lines, Placed, PrivateSequence, Sequence;
    SequenceIs(look, t, vs, ch);
    FinishNothing(look, Normal(Given(t, vs)));
    if vs != [] && vs != [25] {
      PrivateSequenceIs(look, t, 63, vs, ch);
      FinishNothing(look, Normal(GivenPrivate(t, 63, vs)));
    }
  }

  /** Characters without a meaning end their sequence and change nothing. */
  lemma UnknownLetters<Cell>(look: Look<Cell>, t: Term<Cell>, vs: seq<nat>, ch: byte)
    requires Idle(t) && Values(vs) && IsFinal(ch)
    requires ch !in {65, 66, 67, 68, 72, 74, 75, 76, 77, 90, 99, 102, 104, 108, 109, 110, 115, 117}
    ensures AdmissibleString(look, t, Sequence(vs, ch)) && Run(look, t, Sequence(vs, ch)) == t.(privateMode := 0)
  {
    hide Run, AdmissibleString, Lines, Placed, Sequence;
    SequenceIs(look, t, vs, ch);
    FinishNothing(look, Normal(Given(t, vs)));
  }

  // ----- The arithmetic of the target -----

  /** The signed 32-bit integer with the same low bits, and an unsigned difference. */
  lemma SignedIs(x: int)
    ensures -0x8000_0000 <= Int32(x) < 0x8000_0000 && (x - Int32(x)) % 0x1_0000_0000 == 0
    ensures 0 <= x < 0x1_0000_0000 ==> Dec32(x) < 0x1_0000_0000 && (Dec32(x) + 1) % 0x1_0000_0000 == x
  {
  }

  // ----- Behind a bare ESC -----

  lemma EscStep<Cell>(look: Look<Cell>, t: Term<Cell>)
    requires Idle(t)
    ensures AdmissibleString(look, t, [27]) && Run(look, t, [27]) == t.(state := WaitSquareBracket)
  {
    hide Run, AdmissibleString, Lines, Placed;
    assert Parse(look, t, 27) == t.(state := WaitSquareBracket);
    RunOne(look, t, 27);
  }

  lemma BehindEsc<Cell>(look: Look<Cell>, t: Term<Cell>, ch: byte)
    requires Idle(t) && ch in {40, 99}
    ensures var w := t.(state := WaitSquareBracket);
      Consistent(w) && Admissible(w, ch) && Step(look, w, ch) == Finish(look, ParseEscape(look, w, ch))
  {
    hide Lines, Placed, ParseEscape, Finish;
  }

  /** ESC ( 0 chooses the drawing characters and ESC ( B the plain ones. */
  lemma Charsets<Cell>(look: Look<Cell>, t: Term<Cell>, ch: byte)
    requires Idle(t) && ch in {48, 66}
    ensures AdmissibleString(look, t, [27, 40, ch])
    ensures Run(look, t, [27, 40, ch]) == t.(attr := t.attr.(altCharset := ch == 48))
  {
    hide Run, AdmissibleString, Lines, Placed;
    EscStep(look, t);
    BehindEsc(look, t, 40);
    RunThenOne(look, t, [27], 40);
    assert [27] + [40] == [27, 40];
    var v := t.(state := AltCharset);
    assert Step(look, v, ch) == t.(attr := t.attr.(altCharset := ch == 48));
    RunThenOne(look, t, [27, 40], ch);
    assert [27, 40] + [ch] == [27, 40, ch];
  }

  /** ESC c resets colours and styles, clears the screen and goes home. */
  lemma Reset<Cell>(look: Look<Cell>, t: Term<Cell>)
    requires Idle(t)
    ensures AdmissibleString(look, t, [27, 99])
    ensures var u := Run(look, t, [27, 99]);
      && Idle(u) && |u.screen| == |t.screen| && u == t.(screen := u.screen, row := 0, col := 0, attr := u.attr)
      && u.attr == t.attr.(fg := t.attr.defaultFg, bg := t.attr.defaultBg, inverse := false, underline := false)
      && forall i | 0 <= i < Lines(t.width, t.height) :: u.screen[i] == look.blank(t.attr.defaultBg)
  {
    hide Run, AdmissibleString, Lines, Placed;
    EscStep(look, t);
    BehindEsc(look, t, 99);
    RunThenOne(look, t, [27], 99);
    assert [27] + [99] == [27, 99];
    PosBounds(t.width, t.height, t.height, 0);
    FinishNothing(look, ParseEscape(look, t.(state := WaitSquareBracket), 99));
  }

  /** Drawing characters of the alternative set, as the codes of the font: corners, lines and their joints. */
  lemma BoxDrawing()
    ensures AlternativeOf(108) == 218 && AlternativeOf(107) == 191 && AlternativeOf(109) == 192 && AlternativeOf(106) == 217
    ensures AlternativeOf(113) == 196 && AlternativeOf(120) == 179 && AlternativeOf(110) == 197
    ensures AlternativeOf(116) == 195 && AlternativeOf(117) == 180 && AlternativeOf(118) == 193 && AlternativeOf(119) == 194
    ensures forall ch: byte | 49 <= ch <= 57 || 64 <= ch <= 90 || ch >= 128 || 32 <= ch <= 42 :: AlternativeOf(ch) == ch
  {
  }
}
