/** The terminal's byte parser (kernel/src/flanterm/flanterm.c): UTF-8, escape, control and
    operating-system sequences, charset selection and colours, as a function of state and byte. */
module Parser {
  import opened Bits
  import opened Screen

  const MAX_VALUES: nat := 16
  /** "No colour chosen": `(size_t)-1` */
  const UNSET: int := -1
  const REPLACEMENT: nat := 0xFE
  const ESCAPE: nat := 0x1B
  const U32_SIZE: nat := 0x1_0000_0000

  datatype Interval = Interval(first: nat, last: nat)

  /** The finite tables of the source. `cp437` and `decSpecial` give -1 where there is no glyph. */
  datatype Tables = Tables(col256: seq<nat>, cp437: nat -> int, decSpecial: nat -> int, combining: seq<Interval>)

  datatype Style = Style(bold: bool, bgBold: bool, reverse: bool, charset: nat, primary: int, bg: int)

  /** The fields of `flanterm_context` that the parser owns. */
  datatype Parser = Parser(
    tabSize: nat, autoflush: bool, onlcr: bool,
    controlSequence: bool, escape: bool, osc: bool, oscEscape: bool, rrr: bool, discardNext: bool,
    decPrivate: bool, insertMode: bool,
    codePoint: nat, remaining: nat, gSelect: nat, charsets: seq<nat>,
    escapeOffset: nat, values: seq<nat>, count: nat,
    savedX: nat, savedY: nat, style: Style, savedStyle: Style)

  datatype State = State(p: Parser, t: Term)

  ghost predicate TablesOk(tb: Tables) {
    |tb.col256| == 240 && |tb.combining| > 0 && Ascending(tb.combining)
  }

  /** Non-empty intervals in ascending order, none overlapping the next. */
  ghost predicate Ascending(table: seq<Interval>) {
    && (forall i :: 0 <= i < |table| ==> table[i].first <= table[i].last)
    && (forall i, j :: 0 <= i < j < |table| ==> table[i].last < table[j].first)
  }

  /** A palette index is 0..7 or unset. */
  ghost predicate StyleOk(s: Style) {
    UNSET <= s.primary < 8 && UNSET <= s.bg < 8 && s.charset < 2
  }

  /** The numeric parameters of a control sequence, each a 32-bit word. */
  ghost predicate ValuesOk(values: seq<nat>) {
    |values| == MAX_VALUES && forall i :: 0 <= i < MAX_VALUES ==> values[i] < U32_SIZE
  }

  /** A sequence is open only inside an escape sequence, and only one of the two kinds; a digit
      is pending only if there is room for its parameter. */
  ghost predicate FlagsOk(p: Parser) {
    && p.count <= MAX_VALUES && (p.rrr ==> p.count < MAX_VALUES)
    && (p.controlSequence || p.osc ==> p.escape) && !(p.controlSequence && p.osc)
  }

  ghost predicate ParserOk(p: Parser) {
    && ValuesOk(p.values) && FlagsOk(p) && StyleOk(p.style) && StyleOk(p.savedStyle)
    && |p.charsets| == 2 && p.tabSize == 8 && p.autoflush && p.remaining <= 3 && p.gSelect <= 2
    && p.escapeOffset < U64_SIZE && p.savedX < U64_SIZE && p.savedY < U64_SIZE
  }

  /** A screen that can be written to: the scroll region is not empty. */
  ghost predicate TermOk(t: Term) {
    Sized(t) && Region(t) && t.top < t.bottom
  }

  /** What holds before and after every byte. */
  ghost predicate Ok(s: State) {
    ParserOk(s.p) && TermOk(s.t) && s.t.scrollOn
  }

  /** The two terminals differ at most in the cells and the cursor. */
  ghost predicate Same(t: Term, t': Term) {
    t'.(screen := t.screen, x := t.x, y := t.y) == t
  }

  /** A terminal that has just been set up. */
  function Start(cols: nat, rows: nat, palette: Palette): State {
    State(Parser(8, true, true, false, false, false, false, false, false, false, false, 0, 0, 0, [0, 1], 0,
                 seq(MAX_VALUES, _ => 0), 0, 0, 0, Style(false, false, false, 0, UNSET, UNSET),
                 Style(false, false, false, 0, 0, 0)),
          Initial(cols, rows, palette))
  }

  // --- Screen operations built from the backend's ----------------------------------------------

  /** `raw_putchar` of `c`, `n` times */
  function PutN(t: Term, c: nat, n: nat): (t': Term)
    requires TermOk(t)
    ensures TermOk(t') && Same(t, t')
  {
    hide Sized, Region;
    if n == 0 then t
    else
      RawPutSame(PutN(t, c, n - 1), c);
      RawPut(PutN(t, c, n - 1), c)
  }

  lemma PutNothing(t: Term)
    requires TermOk(t)
    ensures PutN(t, SPACE, 0) == t
  {}

  lemma PutNext(t: Term, c: nat, n: nat)
    requires TermOk(t)
    ensures PutN(t, c, n + 1) == RawPut(PutN(t, c, n), c)
  {}

  lemma RawPutSame(t: Term, c: nat)
    requires TermOk(t)
    ensures Same(t, RawPut(t, c)) && TermOk(RawPut(t, c))
  {}

  /** `set_cursor_pos` */
  function Place(t: Term, x: nat, y: nat): (t': Term)
    requires TermOk(t)
    ensures TermOk(t') && Same(t, t')
  {
    SetCursor(t, x, y)
  }

  function ScrollN(t: Term, n: nat): (t': Term)
    requires TermOk(t)
    ensures TermOk(t') && Same(t, t')
  {
    if n == 0 then t else Scroll(ScrollN(t, n - 1))
  }

  function RevScrollN(t: Term, n: nat): (t': Term)
    requires Sized(t) && Region(t)
    ensures Sized(t') && Same(t, t')
  {
    if n == 0 then t else RevScroll(RevScrollN(t, n - 1))
  }

  /** Insert-mode shift: columns `x .. i` of row `y` move right by one, the rightmost first. */
  function ShiftRight(t: Term, x: nat, y: nat, i: nat): (t': Term)
    requires Sized(t) && x <= i + 1
    ensures Sized(t') && Same(t, t')
    decreases i
  {
    var t1 := if x <= i then MoveCell(t, i + 1, y, i, y) else t;
    if i <= x then t1 else ShiftRight(t1, x, y, i - 1)
  }

  /** One round of the `CSI @` loop: move column `i` right by `n`, then blank it. */
  function InsertAt(t: Term, n: nat, i: nat, y: nat): (t': Term)
    requires TermOk(t)
    ensures TermOk(t') && Same(t, t')
  {
    PutN(Place(MoveCell(t, i + n, y, i, y), i, y), SPACE, 1)
  }

  /** The `CSI @` loop for columns `x .. i` of row `y`, from the right. */
  function InsertBlanks(t: Term, n: nat, x: nat, y: nat, i: nat): (t': Term)
    requires TermOk(t) && x <= i
    ensures TermOk(t') && Same(t, t')
    decreases i
  {
    var t1 := InsertAt(t, n, i, y);
    if i == x then t1 else InsertBlanks(t1, n, x, y, i - 1)
  }

  /** `CSI @` */
  function InsertChars(t: Term, x: nat, y: nat, n: nat): (t': Term)
    requires TermOk(t) && x < t.cols
    ensures TermOk(t') && Same(t, t')
  {
    Place(InsertBlanks(t, n, x, y, t.cols - 1), x, y)
  }

  /** The `CSI P` loop: columns from `i` on move left by `n`. */
  function MoveLeft(t: Term, n: nat, y: nat, i: nat): (t': Term)
    requires Sized(t) && n <= i
    ensures Sized(t') && Same(t, t')
    decreases t.cols - i
  {
    if i >= t.cols then t else MoveLeft(MoveCell(t, i - n, y, i, y), n, y, i + 1)
  }

  /** Line feed: scroll at the last row of the scroll region, otherwise step down. */
  function NextLine(t: Term, x: nat): (t': Term)
    requires TermOk(t)
    ensures TermOk(t') && Same(t, t')
  {
    var y := CursorY(t);
    if y == t.bottom - 1 then SetCursor(Scroll(t), x, y) else SetCursor(t, x, y + 1)
  }

  /** `ESC M`; the source always returns to column 0, and row 0 minus one wraps. */
  function ReverseLine(t: Term): (t': Term)
    requires TermOk(t)
    ensures TermOk(t') && Same(t, t')
  {
    var y := CursorY(t);
    if y == t.top then SetCursor(RevScroll(t), 0, y) else SetCursor(t, 0, Less(y, 1))
  }

  /** `a - b` on `size_t` */
  function Less(a: nat, b: nat): (r: nat)
    requires b < U64_SIZE
    ensures r < U64_SIZE
  {
    (a + U64_SIZE - b) % U64_SIZE
  }

  // --- Colours (`sgr`) -------------------------------------------------------------------------

  /** The two current colours. */
  datatype Pen = Pen(fg: nat, bg: nat)

  ghost predicate PaletteOk(pal: Palette) {
    |pal.ansi| == 8 == |pal.bright|
  }

  /** The colour of index `n`, or the default one. */
  function FgOf(pal: Palette, n: int, bright: bool): nat
    requires PaletteOk(pal) && UNSET <= n < 8
  {
    if n == UNSET then (if bright then pal.fgBright else pal.fg) else if bright then pal.bright[n] else pal.ansi[n]
  }

  function BgOf(pal: Palette, n: int, bright: bool): nat
    requires PaletteOk(pal) && UNSET <= n < 8
  {
    if n == UNSET then (if bright then pal.bgBright else NO_COLOUR) else if bright then pal.bright[n] else pal.ansi[n]
  }

  function Swapped(pen: Pen): Pen {
    Pen(pen.bg, pen.fg)
  }

  /** The attributes after one value of a `CSI m` sequence. */
  function SgrStyle(st: Style, v: nat): (r: Style)
    requires StyleOk(st)
    ensures StyleOk(r) && r.charset == st.charset
  {
    if v == 0 then st.(reverse := false, bold := false, bgBold := false, primary := UNSET, bg := UNSET)
    else if v == 1 || v == 22 then st.(bold := v == 1)
    else if v == 5 || v == 25 then st.(bgBold := v == 5)
    else if 30 <= v <= 37 then st.(primary := v - 30)
    else if 40 <= v <= 47 then st.(bg := v - 40)
    else if 90 <= v <= 97 then st.(primary := v - 90)
    else if 100 <= v <= 107 then st.(bg := v - 100)
    else if v == 39 then st.(primary := UNSET)
    else if v == 49 then st.(bg := UNSET)
    else if v == 7 || v == 27 then st.(reverse := v == 7)
    else st
  }

  /** The colours after one value of a `CSI m` sequence met with attributes `st`. Under reverse
      video a foreground value sets the background colour, and the other way round. */
  function SgrPen(st: Style, pal: Palette, pen: Pen, v: nat): Pen
    requires StyleOk(st) && PaletteOk(pal)
  {
    if v == 0 then Pen(pal.fg, NO_COLOUR)
    else if v == 1 || v == 22 then
      if st.reverse then pen.(bg := BgOf(pal, st.primary, v == 1)) else pen.(fg := FgOf(pal, st.primary, v == 1))
    else if v == 5 || v == 25 then
      if st.reverse then pen.(fg := FgOf(pal, st.bg, v == 5)) else pen.(bg := BgOf(pal, st.bg, v == 5))
    else if 30 <= v <= 37 then
      if st.reverse then pen.(bg := BgOf(pal, v - 30, st.bold)) else pen.(fg := FgOf(pal, v - 30, st.bold))
    else if 40 <= v <= 47 then
      if st.reverse then pen.(fg := FgOf(pal, v - 40, st.bgBold)) else pen.(bg := BgOf(pal, v - 40, st.bgBold))
    else if 90 <= v <= 97 then
      if st.reverse then pen.(bg := pal.bright[v - 90]) else pen.(fg := pal.bright[v - 90])
    else if 100 <= v <= 107 then
      if st.reverse then pen.(fg := pal.bright[v - 100]) else pen.(bg := pal.bright[v - 100])
    else if v == 39 then
      if st.reverse then pen.(bg := FgOf(pal, UNSET, st.bold)) else pen.(fg := FgOf(pal, UNSET, st.bold))
    else if v == 49 then
      if st.reverse then pen.(fg := BgOf(pal, UNSET, st.bgBold)) else pen.(bg := BgOf(pal, UNSET, st.bgBold))
    else if (v == 7 && !st.reverse) || (v == 27 && st.reverse) then Swapped(pen)
    else pen
  }

  /** The packed colour of three values, each shifted in a 32-bit word. */
  function Rgb(r: nat, g: nat, b: nat): nat {
    Or(Or((r * 0x1_0000) % U32_SIZE, (g * 0x100) % U32_SIZE), b)
  }

  function Coloured(pen: Pen, fg: bool, colour: nat): Pen {
    if fg then pen.(fg := colour) else pen.(bg := colour)
  }

  /** One of 256 colours; larger numbers change nothing. */
  function Indexed(tb: Tables, pal: Palette, pen: Pen, fg: bool, col: nat): Pen
    requires PaletteOk(pal) && |tb.col256| == 240
  {
    if col < 8 then Coloured(pen, fg, pal.ansi[col])
    else if col < 16 then Coloured(pen, fg, pal.bright[col - 8])
    else if col < 256 then Coloured(pen, fg, pal.convert(tb.col256[col - 16]))
    else pen
  }

  /** Attributes and colours after the values from `i` on of a `CSI m` sequence. */
  function Sgr(tb: Tables, pal: Palette, st: Style, pen: Pen, values: seq<nat>, i: nat): (r: (Style, Pen))
    requires PaletteOk(pal) && StyleOk(st) && |tb.col256| == 240
    ensures StyleOk(r.0)
    decreases |values| - i
  {
    hide StyleOk, PaletteOk, SgrPen, SgrStyle;
    if i >= |values| then (st, pen)
    else if values[i] != 38 && values[i] != 48 then
      Sgr(tb, pal, SgrStyle(st, values[i]), SgrPen(st, pal, pen, values[i]), values, i + 1)
    else if i + 1 >= |values| then (st, pen)
    else if values[i + 1] == 2 then
      if i + 4 >= |values| then (st, pen)
      else
        var colour := pal.convert(Rgb(values[i + 2], values[i + 3], values[i + 4]));
        Sgr(tb, pal, st, Coloured(pen, values[i] == 38, colour), values, i + 5)
    else if values[i + 1] == 5 then
      if i + 2 >= |values| then (st, pen)
      else Sgr(tb, pal, st, Indexed(tb, pal, pen, values[i] == 38, values[i + 2]), values, i + 3)
    else Sgr(tb, pal, st, pen, values, i + 2)
  }

  /** A whole `CSI m`; without values it resets everything. */
  function SgrAll(tb: Tables, pal: Palette, st: Style, pen: Pen, values: seq<nat>): (r: (Style, Pen))
    requires PaletteOk(pal) && StyleOk(st) && |tb.col256| == 240
    ensures StyleOk(r.0)
  {
    if values == [] then (SgrStyle(st, 0), SgrPen(st, pal, pen, 0)) else Sgr(tb, pal, st, pen, values, 0)
  }

  // --- Control sequences -----------------------------------------------------------------------

  /** The row `n` above `y`: from inside or below the scroll region not above its top margin. */
  function Up(t: Term, y: nat, n: nat): nat
    requires n <= y
  {
    var dest := y - n;
    var inRegion := dest <= t.top <= y || dest <= t.bottom <= y;
    if inRegion && dest < t.top then t.top else dest
  }

  /** The row `n` below `y`: from inside or above the scroll region not below its last row. */
  function Down(t: Term, y: nat, n: nat): nat
    requires 1 <= t.bottom
  {
    var dest := y + n;
    var inRegion := y <= t.top <= dest || y <= t.bottom <= dest;
    if inRegion && dest >= t.bottom then t.bottom - 1 else dest
  }

  /** The number of cells from `(x, y)` to the end of the screen. */
  function CellsFrom(t: Term, x: nat, y: nat): nat
    requires x < t.cols && y < t.rows
  {
    MulMono(t.cols, 0, t.rows - (y + 1));
    (t.rows - (y + 1)) * t.cols + (t.cols - (x + 1)) + 1
  }

  /** `CSI J` with the cursor reported at `(x, y)` */
  function EraseScreen(t: Term, x: nat, y: nat, mode: nat): (t': Term)
    requires TermOk(t) && x < t.cols && y < t.rows
    ensures TermOk(t') && Same(t, t')
  {
    hide Sized, Region, PutN, Place, CellsFrom;
    if mode == 0 then Place(PutN(t, SPACE, CellsFrom(t, x, y)), x, y)
    else if mode == 1 then Place(PutN(Place(t, 0, 0), SPACE, y * t.cols + x + 1), x, y)
    else if mode == 2 || mode == 3 then Cleared(t)
    else t
  }

  function Cleared(t: Term): (t': Term)
    requires TermOk(t)
    ensures TermOk(t') && Same(t, t')
  {
    Clear(t, false)
  }

  /** `CSI K` */
  function EraseLine(t: Term, x: nat, y: nat, mode: nat): (t': Term)
    requires TermOk(t) && x < t.cols && y < t.rows
    ensures TermOk(t') && Same(t, t')
  {
    hide Sized, Region, PutN, Place;
    if mode == 0 then Place(PutN(t, SPACE, t.cols - x), x, y)
    else if mode == 1 then PutN(Place(t, 0, y), SPACE, x)
    else if mode == 2 then Place(PutN(Place(t, 0, y), SPACE, t.cols), x, y)
    else t
  }

  /** `CSI X` */
  function EraseChars(t: Term, x: nat, y: nat, n: nat): (t': Term)
    requires TermOk(t)
    ensures TermOk(t') && Same(t, t')
  {
    hide Sized, Region, PutN, Place;
    Place(PutN(t, SPACE, Min(n, t.cols)), x, y)
  }

  /** `CSI P`, which ends in `CSI X` */
  function DeleteChars(t: Term, x: nat, y: nat, n: nat): (t': Term)
    requires TermOk(t) && n < U32_SIZE
    ensures TermOk(t') && Same(t, t')
  {
    EraseChars(Place(MoveLeft(t, n, y, x + n), Less(t.cols, n), y), x, y, n)
  }

  /** `CSI L`: reverse scroll with the top margin moved to the cursor row. */
  function InsertLines(t: Term, y: nat, n: nat): (t': Term)
    requires TermOk(t) && y < t.rows
    ensures TermOk(t') && Same(t, t')
  {
    RevScrollN(t.(top := y), Min(n, t.rows)).(top := t.top)
  }

  /** `CSI r`: the new scroll region, or the whole screen if it is not usable. */
  function SetMargins(t: Term, count: nat, first: nat, second: nat): (t': Term)
    requires Sized(t) && 1 <= first && 1 <= second
    ensures TermOk(t') && t'.(top := t.top, bottom := t.bottom, x := t.x, y := t.y) == t
  {
    var top := if count > 0 then first - 1 else 0;
    var bottom := if count > 1 then second else t.rows;
    var t1 := if top >= t.rows || bottom > t.rows || top >= bottom - 1 then t.(top := 0, bottom := t.rows)
              else t.(top := top, bottom := bottom);
    SetCursor(t1, 0, 0)
  }

  /** `v - 1` on 32 bits, at most `limit - 1` */
  function OneBased(v: nat, limit: nat): (r: nat)
    requires v < U32_SIZE && 0 < limit
    ensures r < limit
  {
    var w := if v == 0 then U32_SIZE - 1 else v - 1;
    if w >= limit then limit - 1 else w
  }

  /** `v - 1` but not below zero, at most `limit - 1` */
  function ZeroBased(v: nat, limit: nat): (r: nat)
    requires 0 < limit
    ensures r < limit
  {
    var w := if v != 0 then v - 1 else 0;
    if w >= limit then limit - 1 else w
  }

  function WithPen(t: Term, pen: Pen): (t': Term)
    requires TermOk(t)
    ensures TermOk(t') && t'.scrollOn == t.scrollOn
  {
    t.(fg := pen.fg, bg := pen.bg)
  }

  function WithScroll(t: Term, on: bool): (t': Term)
    requires TermOk(t)
    ensures TermOk(t') && t'.scrollOn == on
  {
    t.(scrollOn := on)
  }

  function WithCursor(t: Term, on: bool): (t': Term)
    requires TermOk(t)
    ensures TermOk(t') && t'.scrollOn == t.scrollOn
  {
    t.(cursorOn := on)
  }

  lemma TermFacts(t: Term)
    requires TermOk(t)
    ensures Sized(t) && t.cols > 0 && t.rows > 0 && CursorX(t) < t.cols && CursorY(t) < t.rows && PaletteOk(t.palette)
    ensures t.cols < 0x8000_0000 && t.rows < 0x8000_0000
  {}

  lemma SameFacts(t: Term, t': Term)
    requires Same(t, t')
    ensures t'.scrollOn == t.scrollOn && t'.cols == t.cols && t'.rows == t.rows
  {}

  /** Where a control sequence takes the cursor, and the parameters it leaves behind. */
  datatype Target = Target(x: nat, y: nat, values: seq<nat>)

  /** The cursor moves of a control sequence ending in `c`, from the reported position `(x, y)`. */
  function Move(t: Term, x: nat, y: nat, values: seq<nat>, savedX: nat, savedY: nat, c: char): (r: Target)
    requires TermOk(t) && x < t.cols && y < t.rows && ValuesOk(values)
    ensures ValuesOk(r.values)
  {
    var v := values[0];
    match c
    case 'A' =>
      var n := Min(v, y);
      Target(x, Up(t, y, n), values[0 := n])
    case 'F' =>
      var n := Min(v, y);
      Target(0, Up(t, y, n), values[0 := n])
    case 'B' =>
      var n := Min(v, t.rows - 1 - y);
      Target(x, Down(t, y, n), values[0 := n])
    case 'e' =>
      var n := Min(v, t.rows - 1 - y);
      Target(x, Down(t, y, n), values[0 := n])
    case 'E' =>
      var n := Min(v, t.rows - 1 - y);
      Target(0, Down(t, y, n), values[0 := n])
    case 'C' =>
      var n := Min(v, t.cols - 1 - x);
      Target(x + n, y, values[0 := n])
    case 'a' =>
      var n := Min(v, t.cols - 1 - x);
      Target(x + n, y, values[0 := n])
    case 'D' =>
      var n := Min(v, x);
      Target(x - n, y, values[0 := n])
    case 'd' =>
      var n := OneBased(v, t.rows);
      Target(x, n, values[0 := n])
    case 'G' =>
      var n := OneBased(v, t.cols);
      Target(n, y, values[0 := n])
    case '`' =>
      var n := OneBased(v, t.cols);
      Target(n, y, values[0 := n])
    case 'H' =>
      var row, col := ZeroBased(v, t.rows), ZeroBased(values[1], t.cols);
      Target(col, row, values[0 := row][1 := col])
    case 'f' =>
      var row, col := ZeroBased(v, t.rows), ZeroBased(values[1], t.cols);
      Target(col, row, values[0 := row][1 := col])
    case 'u' => Target(savedX, savedY, values)
    case _ => Target(x, y, values)
  }

  /** The final bytes of the sequences that set the cursor. */
  const MOVES: string := "AFBeECaDdG`Hfu"
  /** The final bytes of the sequences that change cells. */
  const EDITS: string := "MLJ@PXK"

  function Edit(t: Term, v: nat, c: char): (t': Term)
    requires TermOk(t) && v < U32_SIZE
    ensures TermOk(t') && Same(t, t')
  {
    hide TermOk, Same, Sized, Region, CursorX, CursorY, ScrollN, InsertLines, EraseScreen, InsertBlanks, DeleteChars, EraseChars,
         EraseLine, SetCursor;
    TermFacts(t);
    var x, y := CursorX(t), CursorY(t);
    match c
    case 'M' => ScrollN(t, Min(v, t.rows))
    case 'L' => InsertLines(t, y, v)
    case 'J' => EraseScreen(t, x, y, v)
    case '@' => InsertChars(t, x, y, v)
    case 'P' => DeleteChars(t, x, y, v)
    case 'X' => EraseChars(t, x, y, v)
    case 'K' => EraseLine(t, x, y, v)
    case _ =>
      SameSelf(t);
      t
  }

  lemma SameSelf(t: Term)
    ensures Same(t, t)
  {}

  /** `CSI m` */
  function Styled(tb: Tables, s: State): (s': State)
    requires ParserOk(s.p) && TermOk(s.t) && |tb.col256| == 240
    ensures ParserOk(s'.p) && s'.p.osc == s.p.osc && TermOk(s'.t) && s'.t.scrollOn == s.t.scrollOn
  {
    hide StyleOk, FlagsOk, SgrAll, ValuesOk;
    var r := SgrAll(tb, s.t.palette, s.p.style, Pen(s.t.fg, s.t.bg), Taken(s.p));
    State(WithStyle(s.p, r.0), WithPen(s.t, r.1))
  }

  /** A complete control sequence ending in `c`, with scrolling switched off. Sequences that only
      call the client's callback, which the kernel never sets, do nothing. */
  function Command(tb: Tables, s: State, c: char): (s': State)
    requires ParserOk(s.p) && TermOk(s.t) && |tb.col256| == 240
    ensures ParserOk(s'.p) && s'.p.osc == s.p.osc && TermOk(s'.t) && s'.t.scrollOn == s.t.scrollOn
  {
    hide TermOk, Same, StyleOk, FlagsOk, CursorX, CursorY, Styled, Edit, Move, PaletteOk, Place, SetMargins, Sized;
    TermFacts(s.t);
    var x, y := CursorX(s.t), CursorY(s.t);
    if c in EDITS then
      var t := Edit(s.t, s.p.values[0], c);
      SameFacts(s.t, t);
      s.(t := t)
    else if c in MOVES then
      var to := Move(s.t, x, y, s.p.values, s.p.savedX, s.p.savedY, c);
      var t := Place(s.t, to.x, to.y);
      SameFacts(s.t, t);
      State(WithValues(s.p, to.values), t)
    else if c == 'm' then Styled(tb, s)
    else if c == 'r' then
      var first, second := Max1(s.p.values[0]), Max1(s.p.values[1]);
      State(WithValues(s.p, s.p.values[0 := first][1 := second]), SetMargins(s.t, s.p.count, first, second))
    else if c == 's' then s.(p := WithSaved(s.p, x, y))
    else if c == 'l' || c == 'h' then s.(p := WithMode(s.p, c == 'h'))
    else s
  }

  /** The parameters that were given. */
  function Taken(p: Parser): seq<nat>
    requires ParserOk(p)
  {
    p.values[..p.count]
  }

  function Max1(v: nat): (r: nat)
    ensures r >= 1
  {
    if v == 0 then 1 else v
  }

  function WithValues(p: Parser, values: seq<nat>): (p': Parser)
    requires ParserOk(p) && ValuesOk(values)
    ensures ParserOk(p') && p'.osc == p.osc
  {
    p.(values := values)
  }

  function WithStyle(p: Parser, st: Style): (p': Parser)
    requires ParserOk(p) && StyleOk(st)
    ensures ParserOk(p') && p'.osc == p.osc
  {
    p.(style := st)
  }

  function WithSaved(p: Parser, x: nat, y: nat): (p': Parser)
    requires ParserOk(p) && x < U64_SIZE && y < U64_SIZE
    ensures ParserOk(p') && p'.osc == p.osc
  {
    p.(savedX := x, savedY := y)
  }

  /** `mode_toggle` */
  function WithMode(p: Parser, set_: bool): (p': Parser)
    requires ParserOk(p)
    ensures ParserOk(p') && p'.osc == p.osc
  {
    if p.count > 0 && p.values[0] == 4 then p.(insertMode := set_) else p
  }

  function Ended(p: Parser): (p': Parser)
    requires ParserOk(p) && !p.osc
    ensures ParserOk(p')
  {
    p.(controlSequence := false, escape := false)
  }

  /** The numeric parameters, padded with the default of the final byte `c`. */
  function Padded(p: Parser, c: char): (p': Parser)
    requires ParserOk(p)
    ensures ParserOk(p') && p'.osc == p.osc
    ensures forall i :: 0 <= i < MAX_VALUES ==>
              p'.values[i] == if i < p.count then p.values[i] else if c in "JKq" then 0 else 1
  {
    p.(values := p.values[..p.count] + seq(MAX_VALUES - p.count, _ => if c in "JKq" then 0 else 1))
  }

  /** `dec_private_parse` */
  function DecPrivate(s: State, c: char): (s': State)
    requires ParserOk(s.p) && TermOk(s.t)
    ensures ParserOk(s'.p) && s'.p.osc == s.p.osc && TermOk(s'.t) && s'.t.scrollOn == s.t.scrollOn
  {
    hide TermOk, StyleOk, FlagsOk;
    var t := if s.p.count > 0 && (c == 'h' || c == 'l') && s.p.values[0] == 25 then WithCursor(s.t, c == 'h') else s.t;
    State(WithPrivate(s.p, false), t)
  }

  function WithPrivate(p: Parser, on: bool): (p': Parser)
    requires ParserOk(p)
    ensures ParserOk(p') && p'.osc == p.osc
  {
    p.(decPrivate := on)
  }

  /** The final byte of a control sequence. */
  function Finish(tb: Tables, s: State, c: char): (s': State)
    requires ParserOk(s.p) && !s.p.osc && TermOk(s.t) && |tb.col256| == 240
    ensures ParserOk(s'.p) && TermOk(s'.t) && s'.t.scrollOn == s.t.scrollOn
  {
    hide TermOk, ParserOk, Command, DecPrivate, Padded, WithScroll;
    var p := Padded(s.p, c);
    var r := if p.decPrivate then DecPrivate(State(p, s.t), c)
             else Command(tb, State(p, WithScroll(s.t, false)), c);
    State(Ended(r.p), WithScroll(r.t, s.t.scrollOn))
  }

  /** A digit of the parameter being read; too many parameters are ignored. */
  function Digit(p: Parser, d: nat): (p': Parser)
    requires ParserOk(p)
    ensures ParserOk(p')
  {
    if p.count == MAX_VALUES then p
    else p.(rrr := true, values := p.values[p.count := (p.values[p.count] * 10 + d) % U32_SIZE])
  }

  /** `;` without digits before it: an empty parameter counts as 0. */
  function EmptyValue(p: Parser): (p': Parser)
    requires ParserOk(p)
    ensures !p.rrr ==> ParserOk(p')
  {
    if p.count == MAX_VALUES then p else p.(count := p.count + 1, values := p.values[p.count := 0])
  }

  function EndValue(p: Parser): (p': Parser)
    requires ParserOk(p) && p.rrr
    ensures ParserOk(p') && p'.osc == p.osc
  {
    p.(count := p.count + 1, rrr := false)
  }

  /** `CSI [`: the next byte is thrown away. */
  function Discarding(p: Parser): (p': Parser)
    requires ParserOk(p) && !p.osc
    ensures ParserOk(p')
  {
    p.(discardNext := true, controlSequence := false, escape := false)
  }

  /** `control_sequence_parse` */
  function ControlSequence(tb: Tables, s: State, c: char): (s': State)
    requires ParserOk(s.p) && !s.p.osc && TermOk(s.t) && |tb.col256| == 240
    ensures ParserOk(s'.p) && TermOk(s'.t) && s'.t.scrollOn == s.t.scrollOn
  {
    hide TermOk, ParserOk, Finish, Digit, EmptyValue, EndValue;
    var p := s.p;
    if p.escapeOffset == 2 && c == '[' then s.(p := Discarding(p))
    else if p.escapeOffset == 2 && c == '?' then s.(p := WithPrivate(p, true))
    else if '0' <= c <= '9' then s.(p := Digit(p, c as nat - 48))
    else if p.rrr && c == ';' then s.(p := EndValue(p))
    else if p.rrr then Finish(tb, s.(p := EndValue(p)), c)
    else if c == ';' then s.(p := EmptyValue(p))
    else Finish(tb, s, c)
  }

  function OscEnded(p: Parser): (p': Parser)
    requires ParserOk(p) && p.osc
    ensures ParserOk(p')
  {
    p.(oscEscape := false, osc := false, escape := false)
  }

  function OscGoesOn(p: Parser, escaped: bool): (p': Parser)
    requires ParserOk(p)
    ensures ParserOk(p')
  {
    p.(oscEscape := escaped)
  }

  /** `osc_parse`: BEL or ESC \\ ends the sequence. */
  function Osc(p: Parser, c: char): (p': Parser)
    requires ParserOk(p) && p.osc
    ensures ParserOk(p')
  {
    if (p.oscEscape && c == '\\') || c as nat == 7 then OscEnded(p) else OscGoesOn(p, c as nat == ESCAPE)
  }

  /** `flanterm_context_reinit`; the code point, the parameters and what `ESC 7` saved stay. */
  function Reset(p: Parser): (p': Parser)
    requires ParserOk(p)
    ensures ParserOk(p')
  {
    p.(tabSize := 8, autoflush := true, onlcr := true, controlSequence := false, escape := false, osc := false,
       oscEscape := false, rrr := false, discardNext := false, decPrivate := false, insertMode := false,
       remaining := 0, gSelect := 0, charsets := [0, 1], escapeOffset := 0, count := 0, savedX := 0, savedY := 0,
       style := Style(false, false, false, 0, UNSET, UNSET))
  }

  function ResetScreen(t: Term): (t': Term)
    requires TermOk(t)
    ensures TermOk(t') && t'.scrollOn
  {
    Clear(t.(cursorOn := true, scrollOn := true, top := 0, bottom := t.rows), true)
  }

  function Closed(p: Parser): (p': Parser)
    requires ParserOk(p) && !p.controlSequence && !p.osc
    ensures ParserOk(p')
  {
    p.(escape := false)
  }

  function OpenOsc(p: Parser): (p': Parser)
    requires ParserOk(p) && p.escape && !p.controlSequence
    ensures ParserOk(p')
  {
    p.(oscEscape := false, osc := true)
  }

  function OpenControl(p: Parser): (p': Parser)
    requires ParserOk(p) && p.escape && !p.osc
    ensures ParserOk(p')
  {
    p.(values := seq(MAX_VALUES, _ => 0), count := 0, rrr := false, controlSequence := true)
  }

  function Selecting(p: Parser, g: nat): (p': Parser)
    requires ParserOk(p) && g <= 2
    ensures ParserOk(p')
  {
    p.(gSelect := g)
  }

  function Counted(p: Parser): (p': Parser)
    requires ParserOk(p)
    ensures ParserOk(p') && p'.escape == p.escape && p'.osc == p.osc && p'.controlSequence == p.controlSequence
  {
    p.(escapeOffset := (p.escapeOffset + 1) % U64_SIZE)
  }

  function Stored(p: Parser): (p': Parser)
    requires ParserOk(p)
    ensures ParserOk(p') && p'.escape == p.escape && p'.osc == p.osc && p'.controlSequence == p.controlSequence
  {
    p.(savedStyle := p.style)
  }

  function Recalled(p: Parser): (p': Parser)
    requires ParserOk(p)
    ensures ParserOk(p') && p'.escape == p.escape && p'.osc == p.osc && p'.controlSequence == p.controlSequence
  {
    p.(style := p.savedStyle)
  }

  function SavedScreen(t: Term): (t': Term)
    requires TermOk(t)
    ensures TermOk(t') && t'.scrollOn == t.scrollOn
  {
    Saved(t)
  }

  function RestoredScreen(t: Term): (t': Term)
    requires TermOk(t)
    ensures TermOk(t') && t'.scrollOn == t.scrollOn
  {
    Restored(t)
  }

  function LineFeed(t: Term, home: bool): (t': Term)
    requires TermOk(t)
    ensures TermOk(t') && t'.scrollOn == t.scrollOn
  {
    NextLine(t, if home then 0 else CursorX(t))
  }

  /** The byte after ESC. */
  function Opener(s: State, c: char): (s': State)
    requires ParserOk(s.p) && TermOk(s.t) && s.t.scrollOn && s.p.escape && !s.p.osc && !s.p.controlSequence
    ensures ParserOk(s'.p) && TermOk(s'.t) && s'.t.scrollOn
  {
    hide TermOk, ParserOk, LineFeed, Closed, OpenOsc, OpenControl, Reset, ResetScreen, Selecting, ReverseLine, SavedScreen, RestoredScreen;
    match c
    case ']' => State(OpenOsc(s.p), s.t)
    case '[' => State(OpenControl(s.p), s.t)
    case '7' => State(Closed(Stored(s.p)), SavedScreen(s.t))
    case '8' => State(Closed(Recalled(s.p)), RestoredScreen(s.t))
    case 'c' => State(Reset(s.p), ResetScreen(s.t))
    case 'D' => State(Closed(s.p), LineFeed(s.t, false))
    case 'E' => State(Closed(s.p), LineFeed(s.t, true))
    case 'M' =>
      SameFacts(s.t, ReverseLine(s.t));
      State(Closed(s.p), ReverseLine(s.t))
    case '(' => State(Selecting(Closed(s.p), 1), s.t)
    case ')' => State(Selecting(Closed(s.p), 2), s.t)
    case _ => State(Closed(s.p), s.t)
  }

  /** `escape_parse` */
  function Escape(tb: Tables, s: State, c: char): (s': State)
    requires Ok(s) && |tb.col256| == 240 && s.p.escape
    ensures Ok(s')
  {
    hide TermOk, ParserOk, ControlSequence, Opener, Osc, Counted;
    var p := Counted(s.p);
    if p.osc then State(Osc(p, c), s.t)
    else if p.controlSequence then ControlSequence(tb, State(p, s.t), c)
    else Opener(State(p, s.t), c)
  }

  // --- Characters ------------------------------------------------------------------------------

  /** Linear membership in an interval table. */
  predicate InTable(u: nat, table: seq<Interval>) {
    exists i :: 0 <= i < |table| && table[i].first <= u <= table[i].last
  }

  predicate Wide(u: nat) {
    || 0x1100 <= u <= 0x115F || u == 0x2329 || u == 0x232A || (0x2E80 <= u <= 0xA4CF && u != 0x303F)
    || 0xAC00 <= u <= 0xD7A3 || 0xF900 <= u <= 0xFAFF || 0xFE10 <= u <= 0xFE19 || 0xFE30 <= u <= 0xFE6F
    || 0xFF00 <= u <= 0xFF60 || 0xFFE0 <= u <= 0xFFE6 || 0x20000 <= u <= 0x2FFFD || 0x30000 <= u <= 0x3FFFD
  }

  /** `mk_wcwidth` */
  function Width(tb: Tables, u: nat): (w: nat)
    ensures w <= 2
  {
    if u == 0 then 0
    else if u < 32 || 0x7F <= u < 0xA0 then 1
    else if InTable(u, tb.combining) then 0
    else if Wide(u) then 2 else 1
  }

  /** Print a decoded code point: its glyph, or a replacement of the same width. */
  function Print(tb: Tables, t: Term, u: nat): (t': Term)
    requires TermOk(t)
    ensures TermOk(t') && t'.scrollOn == t.scrollOn
  {
    hide Width;
    var glyph := tb.cp437(u);
    if glyph >= 0 then PutN(t, glyph, 1)
    else if Width(tb, u) == 0 then t
    else PutN(PutN(t, REPLACEMENT, 1), SPACE, Width(tb, u) - 1)
  }

  function WithCodePoint(p: Parser, more: nat, bits: nat): (p': Parser)
    requires ParserOk(p) && more <= 3
    ensures ParserOk(p')
  {
    p.(remaining := more, codePoint := bits)
  }

  /** A lead byte `0xC0 .. 0xF7`. */
  function Lead(p: Parser, c: nat): (p': Parser)
    requires ParserOk(p) && 0xC0 <= c <= 0xF7
    ensures ParserOk(p')
  {
    if c <= 0xDF then WithCodePoint(p, 1, (c % 0x20) * 0x40)
    else if c <= 0xEF then WithCodePoint(p, 2, (c % 0x10) * 0x1000)
    else WithCodePoint(p, 3, (c % 8) * 0x4_0000)
  }

  /** `n << 6 * k` */
  function Sextet(n: nat, k: nat): nat {
    if k == 0 then n else Sextet(n, k - 1) * 0x40
  }

  /** The code point and the bytes to come after a continuation byte. */
  function Continued(p: Parser, c: nat): (p': Parser)
    requires ParserOk(p) && p.remaining > 0
    ensures ParserOk(p')
  {
    WithCodePoint(p, p.remaining - 1, Or(p.codePoint, Sextet(c % 0x40, p.remaining - 1)))
  }

  /** A continuation byte; the last one prints. */
  function Continue(tb: Tables, s: State, c: nat): (s': State)
    requires Ok(s) && s.p.remaining > 0
    ensures Ok(s')
  {
    hide TermOk, ParserOk, Print, Continued;
    var p := Continued(s.p, c);
    State(p, if p.remaining == 0 then Print(tb, s.t, p.codePoint) else s.t)
  }

  /** The final byte of `ESC (` and `ESC )`. */
  function Designate(p: Parser, c: char): (p': Parser)
    requires ParserOk(p) && p.gSelect > 0
    ensures ParserOk(p')
  {
    hide ValuesOk, StyleOk;
    var g := p.gSelect - 1;
    p.(gSelect := 0,
       charsets := if c == 'B' then p.charsets[g := 0] else if c == '0' then p.charsets[g := 1] else p.charsets)
  }

  /** A printable character: its glyph in the current character set. */
  function Glyph(tb: Tables, p: Parser, c: nat): nat
    requires ParserOk(p)
  {
    if p.charsets[p.style.charset] == 1 && tb.decSpecial(c) >= 0 then tb.decSpecial(c)
    else if 0x20 <= c <= 0x7E then c else REPLACEMENT
  }

  /** Write a glyph at the cursor, in insert mode after moving the rest of the row right. */
  function Show(t: Term, insert: bool, glyph: nat): (t': Term)
    requires TermOk(t)
    ensures TermOk(t') && t'.scrollOn == t.scrollOn
  {
    hide CursorX, CursorY, RawPut, MoveCell;
    TermFacts(t);
    PutN(if insert then ShiftRight(t, CursorX(t), CursorY(t), t.cols - 1) else t, glyph, 1)
  }

  function Tab(t: Term, size: nat): (t': Term)
    requires TermOk(t) && size > 0
    ensures TermOk(t') && t'.scrollOn == t.scrollOn
  {
    var x, y := CursorX(t), CursorY(t);
    if x / size + 1 >= t.cols then SetCursor(t, t.cols - 1, y) else SetCursor(t, (x / size + 1) * size, y)
  }

  function Column(t: Term, x: nat): (t': Term)
    requires TermOk(t)
    ensures TermOk(t') && t'.scrollOn == t.scrollOn
  {
    SetCursor(t, x, CursorY(t))
  }

  function WithCharset(p: Parser, n: nat): (p': Parser)
    requires ParserOk(p) && n < 2
    ensures ParserOk(p')
  {
    p.(style := p.style.(charset := n))
  }

  function Escaping(p: Parser): (p': Parser)
    requires ParserOk(p)
    ensures ParserOk(p')
  {
    p.(escapeOffset := 0, escape := true)
  }

  /** A control or printable byte outside any sequence. */
  function Plain(tb: Tables, s: State, c: nat): (s': State)
    requires Ok(s)
    ensures Ok(s')
  {
    hide TermOk, Show, Glyph, LineFeed, Tab, Column, WithCharset, Escaping, StyleOk, ValuesOk, FlagsOk, CursorX, Sized;
    if c == 0 || c == 0x7F || c == 7 then s
    else if c == ESCAPE then s.(p := Escaping(s.p))
    else if c == 9 then s.(t := Tab(s.t, s.p.tabSize))
    else if 10 <= c <= 12 then s.(t := LineFeed(s.t, s.p.onlcr))
    else if c == 8 then
      TermFacts(s.t);
      s.(t := Column(s.t, Less(CursorX(s.t), 1)))
    else if c == 13 then s.(t := Column(s.t, 0))
    else if c == 14 then s.(p := WithCharset(s.p, 1))
    else if c == 15 then s.(p := WithCharset(s.p, 0))
    else s.(t := Show(s.t, s.p.insertMode, Glyph(tb, s.p, c)))
  }

  /** CAN, SUB or a byte to be discarded ends every sequence; `decPrivate` survives. */
  function Abort(p: Parser): (p': Parser)
    requires ParserOk(p)
    ensures ParserOk(p')
  {
    p.(discardNext := false, escape := false, controlSequence := false, remaining := 0, osc := false, oscEscape := false,
       gSelect := 0)
  }

  function Resync(p: Parser): (p': Parser)
    requires ParserOk(p)
    ensures ParserOk(p') && p'.remaining == 0
  {
    p.(remaining := 0)
  }

  /** A byte that does not continue a UTF-8 sequence. */
  function Fresh(tb: Tables, s: State, c: nat): (s': State)
    requires Ok(s) && |tb.col256| == 240 && c < 256
    ensures Ok(s')
  {
    hide TermOk, ParserOk, Escape, Plain, Lead, Designate;
    if 0xC0 <= c <= 0xF7 then s.(p := Lead(s.p, c))
    else if s.p.escape then Escape(tb, s, c as char)
    else if s.p.gSelect > 0 then s.(p := Designate(s.p, c as char))
    else Plain(tb, s, c)
  }

  /** `flanterm_putchar` */
  function PutChar(tb: Tables, s: State, c: nat): (s': State)
    requires Ok(s) && |tb.col256| == 240 && c < 256
    ensures Ok(s')
  {
    hide TermOk, ParserOk, Fresh, Continue, Abort;
    if s.p.discardNext || c == 0x18 || c == 0x1A then s.(p := Abort(s.p))
    else if s.p.remaining == 0 then Fresh(tb, s, c)
    else if c / 0x40 == 2 then Continue(tb, s, c)
    else Fresh(tb, s.(p := Resync(s.p)), c)
  }

  ghost predicate Bytes(s: seq<nat>) {
    forall i :: 0 <= i < |s| ==> s[i] < 256
  }

  /** The state after a whole byte string. */
  function Feed(tb: Tables, s: State, bytes: seq<nat>): (s': State)
    requires Ok(s) && |tb.col256| == 240 && Bytes(bytes)
    ensures Ok(s')
    decreases |bytes|
  {
    hide PutChar, Ok;
    if bytes == [] then s else Feed(tb, PutChar(tb, s, bytes[0]), bytes[1..])
  }

  // --- Whole runs ------------------------------------------------------------------------------

  function Flat(chunks: seq<seq<nat>>): seq<nat> {
    if chunks == [] then [] else chunks[0] + Flat(chunks[1..])
  }

  /** Feeding a string piece by piece is feeding it at once. */
  lemma {:induction false} FeedConcat(tb: Tables, s: State, a: seq<nat>, b: seq<nat>)
    requires Ok(s) && |tb.col256| == 240 && Bytes(a) && Bytes(b)
    ensures Feed(tb, s, a + b) == Feed(tb, Feed(tb, s, a), b)
    decreases |a|
  {
    hide PutChar, Ok;
    if a == [] {
      assert a + b == b;
    } else {
      assert (a + b)[0] == a[0] && (a + b)[1..] == a[1..] + b;
      FeedConcat(tb, PutChar(tb, s, a[0]), a[1..], b);
    }
  }

  lemma {:induction false} FlatBytes(chunks: seq<seq<nat>>)
    requires forall i :: 0 <= i < |chunks| ==> Bytes(chunks[i])
    ensures Bytes(Flat(chunks))
  {
    if chunks != [] {
      FlatBytes(chunks[1..]);
    }
  }

  lemma StartOk(cols: nat, rows: nat, palette: Palette)
    requires 0 < cols < 0x8000_0000 && 0 < rows < 0x8000_0000 && PaletteOk(palette)
    ensures Ok(Start(cols, rows, palette))
  {
    MulMono(cols, 0, rows);
  }

  /** After every byte string from power-up: parameters and their count stay in range, an open sequence
      is inside an escape and of one kind, the scroll region is a non-empty part of the screen,
      scrolling is on, and every palette index, saved ones included, is 0..7 or unset. */
  lemma AlwaysSane(tb: Tables, cols: nat, rows: nat, palette: Palette, bytes: seq<nat>)
    requires 0 < cols < 0x8000_0000 && 0 < rows < 0x8000_0000 && PaletteOk(palette)
    requires |tb.col256| == 240 && Bytes(bytes)
    ensures Ok(Start(cols, rows, palette))
    ensures var s := Feed(tb, Start(cols, rows, palette), bytes);
            && s.p.count <= 16 && (s.p.rrr ==> s.p.count < 16) && (forall i :: 0 <= i < 16 ==> s.p.values[i] < U32_SIZE)
            && (s.p.controlSequence || s.p.osc ==> s.p.escape) && !(s.p.controlSequence && s.p.osc)
            && s.t.top < s.t.bottom <= s.t.rows && s.t.scrollOn && |s.t.screen| == s.t.rows * s.t.cols
            && -1 <= s.p.style.primary <= 7 && -1 <= s.p.style.bg <= 7
            && -1 <= s.p.savedStyle.primary <= 7 && -1 <= s.p.savedStyle.bg <= 7
  {
    hide Feed, Start;
    StartOk(cols, rows, palette);
  }
}
