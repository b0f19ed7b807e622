/** What the colour values of `CSI m` mean (`sgr` in kernel/src/flanterm/flanterm.c): when the two current
    colours are the ones the attributes stand for. */
module Colours {
  import opened Screen
  import opened Parser

  /** The colours that attributes stand for: exchanged under reverse video. */
  function Shown(pal: Palette, st: Style): Pen
    requires PaletteOk(pal) && StyleOk(st)
  {
    var pen := Pen(FgOf(pal, st.primary, st.bold), BgOf(pal, st.bg, st.bgBold));
    if st.reverse then Swapped(pen) else pen
  }

  /** Reset, bold, bright background, reverse, the eight colours and the defaults. */
  predicate Basic(v: nat) {
    v == 0 || v == 1 || v == 22 || v == 5 || v == 25 || v == 7 || v == 27 || 30 <= v <= 37 || 40 <= v <= 47 || v == 39 || v == 49
  }

  /** Switching bold, or bright background, under reverse video while the colour it brightens is the
      default one: the source takes the default of the other side. */
  predicate WrongDefault(st: Style, v: nat) {
    st.reverse && (((v == 1 || v == 22) && st.primary == UNSET) || ((v == 5 || v == 25) && st.bg == UNSET))
  }

  /** One value keeps the colours those of the attributes exactly unless it is that case, on every palette
      whose defaults differ. */
  lemma StepShows(pal: Palette, st: Style, v: nat)
    requires PaletteOk(pal) && StyleOk(st) && Basic(v) && pal.fg != NO_COLOUR && pal.fgBright != pal.bgBright
    ensures SgrPen(st, pal, Shown(pal, st), v) == Shown(pal, SgrStyle(st, v)) <==> !WrongDefault(st, v)
  {}

  // --- A sequence as commands ------------------------------------------------------------------

  /** A value on its own, or one of the 256 colours or a direct one for the foreground or the background. */
  datatype Command = Plain(v: nat) | Extended(fg: bool, colour: nat)

  function IndexedColour(tb: Tables, pal: Palette, col: nat): nat
    requires PaletteOk(pal) && |tb.col256| == 240 && col < 256
  {
    if col < 8 then pal.ansi[col] else if col < 16 then pal.bright[col - 8] else pal.convert(tb.col256[col - 16])
  }

  function Commands(tb: Tables, pal: Palette, values: seq<nat>, i: nat): seq<Command>
    requires PaletteOk(pal) && |tb.col256| == 240
    decreases |values| - i
  {
    if i >= |values| then []
    else if values[i] != 38 && values[i] != 48 then [Plain(values[i])] + Commands(tb, pal, values, i + 1)
    else if i + 1 >= |values| then []
    else if values[i + 1] == 2 then
      if i + 4 >= |values| then []
      else [Extended(values[i] == 38, pal.convert(Rgb(values[i + 2], values[i + 3], values[i + 4])))] + Commands(tb, pal, values, i + 5)
    else if values[i + 1] == 5 then
      if i + 2 >= |values| then []
      else if values[i + 2] < 256 then
        [Extended(values[i] == 38, IndexedColour(tb, pal, values[i + 2]))] + Commands(tb, pal, values, i + 3)
      else Commands(tb, pal, values, i + 3)
    else Commands(tb, pal, values, i + 2)
  }

  function AllCommands(tb: Tables, pal: Palette, values: seq<nat>): seq<Command>
    requires PaletteOk(pal) && |tb.col256| == 240
  {
    if values == [] then [Plain(0)] else Commands(tb, pal, values, 0)
  }

  function StepStyle(st: Style, c: Command): (r: Style)
    requires StyleOk(st)
    ensures StyleOk(r)
  {
    if c.Plain? then SgrStyle(st, c.v) else st
  }

  function StepPen(pal: Palette, st: Style, pen: Pen, c: Command): Pen
    requires PaletteOk(pal) && StyleOk(st)
  {
    if c.Plain? then SgrPen(st, pal, pen, c.v) else Coloured(pen, c.fg, c.colour)
  }

  /** Attributes and colours after a list of commands. */
  function After(pal: Palette, st: Style, pen: Pen, cs: seq<Command>): (r: (Style, Pen))
    requires PaletteOk(pal) && StyleOk(st)
    ensures StyleOk(r.0)
    decreases |cs|
  {
    if cs == [] then (st, pen) else After(pal, StepStyle(st, cs[0]), StepPen(pal, st, pen, cs[0]), cs[1..])
  }

  /** A `CSI m` carries out its commands one after the other. */
  lemma {:induction false} SgrIsAfter(tb: Tables, pal: Palette, st: Style, pen: Pen, values: seq<nat>, i: nat)
    requires PaletteOk(pal) && StyleOk(st) && |tb.col256| == 240
    ensures Sgr(tb, pal, st, pen, values, i) == After(pal, st, pen, Commands(tb, pal, values, i))
    decreases |values| - i
  {
    hide SgrStyle, SgrPen, Rgb, StyleOk, PaletteOk;
    if i < |values| {
      if values[i] != 38 && values[i] != 48 {
        SgrIsAfter(tb, pal, SgrStyle(st, values[i]), SgrPen(st, pal, pen, values[i]), values, i + 1);
        AfterNext(pal, st, pen, Plain(values[i]), Commands(tb, pal, values, i + 1));
      } else if i + 4 < |values| && values[i + 1] == 2 {
        var c := Extended(values[i] == 38, pal.convert(Rgb(values[i + 2], values[i + 3], values[i + 4])));
        SgrIsAfter(tb, pal, st, StepPen(pal, st, pen, c), values, i + 5);
        AfterNext(pal, st, pen, c, Commands(tb, pal, values, i + 5));
      } else if i + 2 < |values| && values[i + 1] == 5 {
        SgrIsAfter(tb, pal, st, Indexed(tb, pal, pen, values[i] == 38, values[i + 2]), values, i + 3);
        if values[i + 2] < 256 {
          AfterNext(pal, st, pen, Extended(values[i] == 38, IndexedColour(tb, pal, values[i + 2])), Commands(tb, pal, values, i + 3));
        }
      } else if i + 1 < |values| && values[i + 1] != 2 && values[i + 1] != 5 {
        SgrIsAfter(tb, pal, st, pen, values, i + 2);
      }
    }
  }

  lemma AfterNext(pal: Palette, st: Style, pen: Pen, c: Command, rest: seq<Command>)
    requires PaletteOk(pal) && StyleOk(st)
    ensures After(pal, st, pen, [c] + rest) == After(pal, StepStyle(st, c), StepPen(pal, st, pen, c), rest)
  {
    assert ([c] + rest)[1..] == rest;
  }

  // --- What the commands should do -------------------------------------------------------------

  /** Reverse video exchanges the two colours, and undoes the exchange. */
  function Exchanged(st: Style, pen: Pen): Pen {
    if st.reverse then Swapped(pen) else pen
  }

  /** The colours of text and background, before reverse video exchanges them: each command sets one of
      the two, as it does without reverse video. */
  function IdealStep(pal: Palette, st: Style, pen: Pen, c: Command): Pen
    requires PaletteOk(pal) && StyleOk(st)
  {
    if c == Plain(7) || c == Plain(27) then pen else StepPen(pal, st.(reverse := false), pen, c)
  }

  function Ideal(pal: Palette, st: Style, pen: Pen, cs: seq<Command>): Pen
    requires PaletteOk(pal) && StyleOk(st)
    decreases |cs|
  {
    if cs == [] then pen else Ideal(pal, StepStyle(st, cs[0]), IdealStep(pal, st, pen, cs[0]), cs[1..])
  }

  /** Which of the two colours is not what it should be. */
  datatype Slips = Slips(fg: bool, bg: bool)

  predicate SetsFg(v: nat) {
    v == 1 || v == 22 || 30 <= v <= 37 || v == 39 || 90 <= v <= 97
  }

  predicate SetsBg(v: nat) {
    v == 5 || v == 25 || 40 <= v <= 47 || v == 49 || 100 <= v <= 107
  }

  /** Each value that sets a colour decides anew, a reset for both; an extended colour under reverse video
      goes to the other side. */
  function StepSlips(st: Style, sl: Slips, c: Command): Slips {
    match c
    case Plain(v) =>
      if v == 0 then Slips(false, false)
      else if SetsFg(v) then sl.(fg := WrongDefault(st, v))
      else if SetsBg(v) then sl.(bg := WrongDefault(st, v))
      else sl
    case Extended(fg, _) =>
      if st.reverse then Slips(true, true) else if fg then sl.(fg := false) else sl.(bg := false)
  }

  function SlipsOf(st: Style, sl: Slips, cs: seq<Command>): Slips
    requires StyleOk(st)
    decreases |cs|
  {
    if cs == [] then sl else SlipsOf(StepStyle(st, cs[0]), StepSlips(st, sl, cs[0]), cs[1..])
  }

  /** No extended colour is set under reverse video. */
  predicate PlainReversed(st: Style, cs: seq<Command>)
    requires StyleOk(st)
    decreases |cs|
  {
    cs != [] ==> (cs[0].Extended? ==> !st.reverse) && PlainReversed(StepStyle(st, cs[0]), cs[1..])
  }

  /** What has not slipped is right. */
  predicate Tracks(pen: Pen, ideal: Pen, sl: Slips) {
    (!sl.fg ==> pen.fg == ideal.fg) && (!sl.bg ==> pen.bg == ideal.bg)
  }

  /** And what has slipped is wrong. */
  predicate TracksExactly(pen: Pen, ideal: Pen, sl: Slips) {
    (sl.fg <==> pen.fg != ideal.fg) && (sl.bg <==> pen.bg != ideal.bg)
  }

  /** A value that sets the text colour leaves the other alone, and is right but for the default. */
  lemma FgStep(pal: Palette, st: Style, pen: Pen, ideal: Pen, v: nat)
    requires PaletteOk(pal) && StyleOk(st) && SetsFg(v)
    ensures var q, d := Exchanged(SgrStyle(st, v), SgrPen(st, pal, pen, v)), IdealStep(pal, st, ideal, Plain(v));
            && q.bg == Exchanged(st, pen).bg && d.bg == ideal.bg && (!WrongDefault(st, v) ==> q.fg == d.fg)
            && (pal.fg != NO_COLOUR && pal.fgBright != pal.bgBright && WrongDefault(st, v) ==> q.fg != d.fg)
  {}

  lemma BgStep(pal: Palette, st: Style, pen: Pen, ideal: Pen, v: nat)
    requires PaletteOk(pal) && StyleOk(st) && SetsBg(v)
    ensures var q, d := Exchanged(SgrStyle(st, v), SgrPen(st, pal, pen, v)), IdealStep(pal, st, ideal, Plain(v));
            && q.fg == Exchanged(st, pen).fg && d.fg == ideal.fg && (!WrongDefault(st, v) ==> q.bg == d.bg)
            && (pal.fg != NO_COLOUR && pal.fgBright != pal.bgBright && WrongDefault(st, v) ==> q.bg != d.bg)
  {}

  /** A reset sets both; other values set none. */
  lemma OtherStep(pal: Palette, st: Style, pen: Pen, ideal: Pen, v: nat)
    requires PaletteOk(pal) && StyleOk(st) && !SetsFg(v) && !SetsBg(v)
    ensures var q, d := Exchanged(SgrStyle(st, v), SgrPen(st, pal, pen, v)), IdealStep(pal, st, ideal, Plain(v));
            if v == 0 then q == d else q == Exchanged(st, pen) && d == ideal
  {}

  lemma StepTracks(pal: Palette, st: Style, pen: Pen, ideal: Pen, sl: Slips, c: Command)
    requires PaletteOk(pal) && StyleOk(st) && Tracks(Exchanged(st, pen), ideal, sl)
    ensures Tracks(Exchanged(StepStyle(st, c), StepPen(pal, st, pen, c)), IdealStep(pal, st, ideal, c), StepSlips(st, sl, c))
  {
    if c.Plain? {
      hide SgrPen, SgrStyle, IdealStep, Exchanged, WrongDefault, PaletteOk, StyleOk;
      if SetsFg(c.v) {
        FgStep(pal, st, pen, ideal, c.v);
      } else if SetsBg(c.v) {
        BgStep(pal, st, pen, ideal, c.v);
      } else {
        OtherStep(pal, st, pen, ideal, c.v);
      }
    }
  }

  lemma StepTracksExactly(pal: Palette, st: Style, pen: Pen, ideal: Pen, sl: Slips, c: Command)
    requires PaletteOk(pal) && StyleOk(st) && TracksExactly(Exchanged(st, pen), ideal, sl)
    requires pal.fg != NO_COLOUR && pal.fgBright != pal.bgBright && (c.Extended? ==> !st.reverse)
    ensures TracksExactly(Exchanged(StepStyle(st, c), StepPen(pal, st, pen, c)), IdealStep(pal, st, ideal, c), StepSlips(st, sl, c))
  {
    if c.Plain? {
      hide SgrPen, SgrStyle, IdealStep, Exchanged, WrongDefault, PaletteOk, StyleOk;
      if SetsFg(c.v) {
        FgStep(pal, st, pen, ideal, c.v);
      } else if SetsBg(c.v) {
        BgStep(pal, st, pen, ideal, c.v);
      } else {
        OtherStep(pal, st, pen, ideal, c.v);
      }
    }
  }

  lemma {:induction false} RunTracks(pal: Palette, st: Style, pen: Pen, ideal: Pen, sl: Slips, cs: seq<Command>)
    requires PaletteOk(pal) && StyleOk(st) && Tracks(Exchanged(st, pen), ideal, sl)
    ensures var r := After(pal, st, pen, cs); Tracks(Exchanged(r.0, r.1), Ideal(pal, st, ideal, cs), SlipsOf(st, sl, cs))
    decreases |cs|
  {
    if cs != [] {
      StepTracks(pal, st, pen, ideal, sl, cs[0]);
      hide StepPen, StepStyle, IdealStep, StepSlips, Exchanged, Tracks, StyleOk, PaletteOk;
      RunTracks(pal, StepStyle(st, cs[0]), StepPen(pal, st, pen, cs[0]), IdealStep(pal, st, ideal, cs[0]), StepSlips(st, sl, cs[0]), cs[1..]);
    }
  }

  lemma {:induction false} RunTracksExactly(pal: Palette, st: Style, pen: Pen, ideal: Pen, sl: Slips, cs: seq<Command>)
    requires PaletteOk(pal) && StyleOk(st) && TracksExactly(Exchanged(st, pen), ideal, sl)
    requires pal.fg != NO_COLOUR && pal.fgBright != pal.bgBright && PlainReversed(st, cs)
    ensures var r := After(pal, st, pen, cs); TracksExactly(Exchanged(r.0, r.1), Ideal(pal, st, ideal, cs), SlipsOf(st, sl, cs))
    decreases |cs|
  {
    if cs != [] {
      StepTracksExactly(pal, st, pen, ideal, sl, cs[0]);
      hide StepPen, StepStyle, IdealStep, StepSlips, Exchanged, TracksExactly, StyleOk, PaletteOk;
      RunTracksExactly(pal, StepStyle(st, cs[0]), StepPen(pal, st, pen, cs[0]), IdealStep(pal, st, ideal, cs[0]),
                       StepSlips(st, sl, cs[0]), cs[1..]);
    }
  }

  /** Any `CSI m`: the colours in the end are those its commands stand for, exchanged under reverse video,
      unless one of them has slipped and not been set again since. */
  lemma ReverseIsExchange(tb: Tables, pal: Palette, st: Style, pen: Pen, values: seq<nat>)
    requires PaletteOk(pal) && StyleOk(st) && |tb.col256| == 240
    ensures var (cs, r) := (AllCommands(tb, pal, values), SgrAll(tb, pal, st, Exchanged(st, pen), values));
            SlipsOf(st, Slips(false, false), cs) == Slips(false, false) ==> r.1 == Exchanged(r.0, Ideal(pal, st, pen, cs))
  {
    AllAfter(tb, pal, st, Exchanged(st, pen), values);
    hide SgrAll, AllCommands, Ideal, SlipsOf, After;
    RunTracks(pal, st, Exchanged(st, pen), pen, Slips(false, false), AllCommands(tb, pal, values));
  }

  /** Without extended colours under reverse video that is the exact condition, on every palette whose
      defaults differ. */
  lemma ReverseIsExchangeExactly(tb: Tables, pal: Palette, st: Style, pen: Pen, values: seq<nat>)
    requires PaletteOk(pal) && StyleOk(st) && |tb.col256| == 240 && PlainReversed(st, AllCommands(tb, pal, values))
    requires pal.fg != NO_COLOUR && pal.fgBright != pal.bgBright
    ensures var (cs, r) := (AllCommands(tb, pal, values), SgrAll(tb, pal, st, Exchanged(st, pen), values));
            r.1 == Exchanged(r.0, Ideal(pal, st, pen, cs)) <==> SlipsOf(st, Slips(false, false), cs) == Slips(false, false)
  {
    AllAfter(tb, pal, st, Exchanged(st, pen), values);
    hide SgrAll, AllCommands, Ideal, SlipsOf, After, PlainReversed;
    RunTracksExactly(pal, st, Exchanged(st, pen), pen, Slips(false, false), AllCommands(tb, pal, values));
  }

  lemma AllAfter(tb: Tables, pal: Palette, st: Style, pen: Pen, values: seq<nat>)
    requires PaletteOk(pal) && StyleOk(st) && |tb.col256| == 240
    ensures SgrAll(tb, pal, st, pen, values) == After(pal, st, pen, AllCommands(tb, pal, values))
  {
    if values == [] {
      AfterNext(pal, st, pen, Plain(0), []);
      assert [Plain(0)] + [] == [Plain(0)];
    } else {
      SgrIsAfter(tb, pal, st, pen, values, 0);
    }
  }

  /** An extended colour under reverse video comes out right only if text and background both have it. */
  lemma ExtendedReversed(pal: Palette, st: Style, pen: Pen, c: Command)
    requires PaletteOk(pal) && StyleOk(st) && st.reverse && c.Extended?
    ensures Exchanged(st, StepPen(pal, st, Exchanged(st, pen), c)) == IdealStep(pal, st, pen, c)
            <==> pen.fg == c.colour == pen.bg
  {}

  // --- The eight colours -----------------------------------------------------------------------

  /** The colours of the attributes, before the exchange. */
  function Plainly(pal: Palette, st: Style): Pen
    requires PaletteOk(pal) && StyleOk(st)
  {
    Pen(FgOf(pal, st.primary, st.bold), BgOf(pal, st.bg, st.bgBold))
  }

  predicate AllBasic(cs: seq<Command>) {
    forall i :: 0 <= i < |cs| ==> cs[i].Plain? && Basic(cs[i].v)
  }

  lemma {:induction false} IdealIsPlain(pal: Palette, st: Style, pen: Pen, cs: seq<Command>)
    requires PaletteOk(pal) && StyleOk(st) && AllBasic(cs)
    ensures Ideal(pal, st, Plainly(pal, st), cs) == Plainly(pal, After(pal, st, pen, cs).0) && PlainReversed(st, cs)
    decreases |cs|
  {
    if cs != [] {
      assert cs[0].Plain? && Basic(cs[0].v);
      assert IdealStep(pal, st, Plainly(pal, st), cs[0]) == Plainly(pal, StepStyle(st, cs[0]));
      hide Plainly, IdealStep, StepStyle, StepPen, PaletteOk, StyleOk;
      IdealIsPlain(pal, StepStyle(st, cs[0]), StepPen(pal, st, pen, cs[0]), cs[1..]);
    }
  }

  /** From colours that are those of the attributes, a `CSI m` of basic values leads to colours that are
      those of the new attributes if and only if, of the values since the last reset, the last one to set
      the foreground did not switch bold under reverse video with the default foreground, and the last one
      to set the background likewise. */
  lemma AttributesShown(tb: Tables, pal: Palette, st: Style, values: seq<nat>)
    requires PaletteOk(pal) && StyleOk(st) && |tb.col256| == 240 && AllBasic(AllCommands(tb, pal, values))
    requires pal.fg != NO_COLOUR && pal.fgBright != pal.bgBright
    ensures var r := SgrAll(tb, pal, st, Shown(pal, st), values);
            r.1 == Shown(pal, r.0) <==> SlipsOf(st, Slips(false, false), AllCommands(tb, pal, values)) == Slips(false, false)
  {
    AllAfter(tb, pal, st, Shown(pal, st), values);
    hide SgrAll, AllCommands, Ideal, SlipsOf, After, PlainReversed, AllBasic;
    IdealIsPlain(pal, st, Shown(pal, st), AllCommands(tb, pal, values));
    ReverseIsExchangeExactly(tb, pal, st, Plainly(pal, st), values);
  }

  /** A reset makes the colours right from any state. */
  lemma ResetShows(pal: Palette, st: Style, pen: Pen)
    requires PaletteOk(pal) && StyleOk(st)
    ensures SgrPen(st, pal, pen, 0) == Shown(pal, SgrStyle(st, 0))
  {}

  /** For example, `CSI 7;1 m` on a fresh terminal. */
  lemma BoldReversed(tb: Tables, pal: Palette)
    requires PaletteOk(pal) && |tb.col256| == 240 && pal.fgBright != pal.bgBright
    ensures var st := Style(false, false, false, 0, UNSET, UNSET);
            var r := SgrAll(tb, pal, st, Shown(pal, st), [7, 1]);
            r.1.bg == pal.bgBright != Shown(pal, r.0).bg
  {
    var st := Style(false, false, false, 0, UNSET, UNSET);
    var st1, pen1 := SgrStyle(st, 7), SgrPen(st, pal, Shown(pal, st), 7);
    var st2, pen2 := SgrStyle(st1, 1), SgrPen(st1, pal, pen1, 1);
    assert Sgr(tb, pal, st2, pen2, [7, 1], 2) == (st2, pen2);
    assert Sgr(tb, pal, st1, pen1, [7, 1], 1) == (st2, pen2);
    assert Sgr(tb, pal, st, Shown(pal, st), [7, 1], 0) == (st2, pen2);
  }
}
