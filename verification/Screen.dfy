/** The terminal screen as a plain two-dimensional array of cells: the specification that the
    write-back framebuffer backend (kernel/src/flanterm/backends/fb.c) is held to. */
module Screen {
  import opened Bits

  /** What one character cell shows: a glyph and its two colours. */
  datatype Cell = Cell(c: nat, fg: nat, bg: nat)

  const SPACE: nat := 0x20
  /** The background value that stands for "no colour". */
  const NO_COLOUR: nat := 0xFFFF_FFFF

  /** Fixed colour tables of a terminal; `convert` packs an RGB value for the framebuffer. */
  datatype Palette = Palette(ansi: seq<nat>, bright: seq<nat>, fg: nat, fgBright: nat, bgBright: nat, convert: nat -> nat)

  /** Screen, cursor, colours and scroll region. `screen` holds `rows` rows of `cols` cells. */
  datatype Term = Term(
    cols: nat, rows: nat, screen: seq<Cell>,
    x: nat, y: nat, fg: nat, bg: nat,
    savedX: nat, savedY: nat, savedFg: nat, savedBg: nat,
    top: nat, bottom: nat, scrollOn: bool, cursorOn: bool,
    palette: Palette)

  ghost predicate Sized(t: Term) {
    && t.cols > 0 && t.rows > 0 && |t.screen| == t.rows * t.cols
    && |t.palette.ansi| == 8 == |t.palette.bright|
    && t.cols < 0x8000_0000 && t.rows < 0x8000_0000
  }

  /** A usable scroll region; `revscroll` also copes with a top margin below the region. */
  ghost predicate Region(t: Term) {
    t.top < t.rows && 1 <= t.bottom <= t.rows
  }

  function Blank(t: Term): Cell {
    Cell(SPACE, t.fg, t.bg)
  }

  function Blanks(n: nat, c: Cell): (s: seq<Cell>)
    ensures |s| == n && forall i :: 0 <= i < n ==> s[i] == c
  {
    seq(n, _ => c)
  }

  lemma RowBounds(y: nat, rows: nat, cols: nat)
    requires y < rows
    ensures y * cols + cols == (y + 1) * cols <= rows * cols
  {
    MulMono(cols, y + 1, rows);
  }

  lemma CellIndex(x: nat, y: nat, cols: nat, rows: nat)
    requires x < cols && y < rows
    ensures y * cols + x < rows * cols
    ensures (y * cols + x) / cols == y && (y * cols + x) % cols == x
  {
    RowBounds(y, rows, cols);
    QuotientIs(y * cols + x, cols, y, x);
  }

  lemma IndexCell(i: nat, cols: nat, rows: nat)
    requires cols > 0 && i < rows * cols
    ensures i / cols < rows && i % cols < cols && (i / cols) * cols + i % cols == i
  {
    if i / cols >= rows {
      MulMono(cols, rows, i / cols);
    }
  }

  /** The cell at column `x`, row `y`. */
  function At(t: Term, x: nat, y: nat): Cell
    requires Sized(t) && x < t.cols && y < t.rows
  {
    CellIndex(x, y, t.cols, t.rows);
    t.screen[y * t.cols + x]
  }

  /** The screen of a terminal that has just been set up. */
  function Initial(cols: nat, rows: nat, palette: Palette): Term {
    Term(cols, rows, Blanks(rows * cols, Cell(SPACE, palette.fg, NO_COLOUR)), 0, 0, palette.fg, NO_COLOUR, 0, 0, 0, 0,
         0, rows, true, true, palette)
  }

  // --- Operations ------------------------------------------------------------------------------

  /** Write one cell; positions off the screen are ignored. */
  function Put(t: Term, c: Cell, x: nat, y: nat): (t': Term)
    requires Sized(t)
    ensures Sized(t')
  {
    if x >= t.cols || y >= t.rows then t
    else
      CellIndex(x, y, t.cols, t.rows);
      t.(screen := t.screen[y * t.cols + x := c])
  }

  /** Rows `top..bottom` of a screen move up by one; the last one is filled with `blank`. */
  function ShiftUp(s: seq<Cell>, lo: nat, hi: nat, cols: nat, blank: Cell): (r: seq<Cell>)
    requires lo + cols <= hi <= |s|
    ensures |r| == |s|
  {
    s[..lo] + s[lo + cols..hi] + Blanks(cols, blank) + s[hi..]
  }

  function ShiftDown(s: seq<Cell>, lo: nat, hi: nat, cols: nat, blank: Cell): (r: seq<Cell>)
    requires lo + cols <= |s| && hi <= |s|
    ensures |r| == |s|
  {
    if lo + cols <= hi then s[..lo] + Blanks(cols, blank) + s[lo..hi - cols] + s[hi..]
    else s[..lo] + Blanks(cols, blank) + s[lo + cols..]
  }

  /** Cells `from .. from + n` blanked. */
  ghost function Blanked(s: seq<Cell>, from: nat, n: nat, c: Cell): (r: seq<Cell>)
    requires from + n <= |s|
    ensures |r| == |s|
  {
    s[..from] + Blanks(n, c) + s[from + n..]
  }

  function Scroll(t: Term): (t': Term)
    requires Sized(t) && Region(t) && t.top < t.bottom
    ensures Sized(t')
  {
    RowBounds(t.bottom - 1, t.rows, t.cols);
    MulMono(t.cols, t.top + 1, t.bottom);
    t.(screen := ShiftUp(t.screen, t.top * t.cols, t.bottom * t.cols, t.cols, Blank(t)))
  }

  function RevScroll(t: Term): (t': Term)
    requires Sized(t) && Region(t)
    ensures Sized(t')
  {
    RowBounds(t.top, t.rows, t.cols);
    MulMono(t.cols, t.bottom, t.rows);
    t.(screen := ShiftDown(t.screen, t.top * t.cols, t.bottom * t.cols, t.cols, Blank(t)))
  }

  function Clear(t: Term, home: bool): (t': Term)
    requires Sized(t)
    ensures Sized(t')
  {
    var t1 := t.(screen := Blanks(|t.screen|, Blank(t)));
    if home then t1.(x := 0, y := 0) else t1
  }

  /** `(int)v < 0` for a `size_t` */
  predicate NegativeInt(v: nat) {
    v % 0x1_0000_0000 >= 0x8000_0000
  }

  function Clamp(v: nat, limit: nat): (r: nat)
    requires limit > 0
    ensures r < limit
  {
    if v < limit then v else if NegativeInt(v) then 0 else limit - 1
  }

  function SetCursor(t: Term, x: nat, y: nat): (t': Term)
    requires Sized(t)
    ensures Sized(t') && t'.x < t.cols && t'.y < t.rows
  {
    t.(x := Clamp(x, t.cols), y := Clamp(y, t.rows))
  }

  function CursorX(t: Term): (x: nat)
    requires Sized(t)
    ensures x < t.cols
  {
    if t.x >= t.cols then t.cols - 1 else t.x
  }

  function CursorY(t: Term): (y: nat)
    requires Sized(t)
    ensures y < t.rows
  {
    if t.y >= t.rows then t.rows - 1 else t.y
  }

  function MoveCell(t: Term, newX: nat, newY: nat, oldX: nat, oldY: nat): (t': Term)
    requires Sized(t)
    ensures Sized(t')
  {
    if oldX >= t.cols || oldY >= t.rows || newX >= t.cols || newY >= t.rows then t
    else Put(t, At(t, oldX, oldY), newX, newY)
  }

  /** The pending wrap before a character is written. The last clamp compares a row with the number
      of columns, as the source does. */
  function Wrap(t: Term): (t': Term)
    requires Sized(t) && Region(t) && t.top < t.bottom
    ensures Sized(t') && Region(t') && t'.top == t.top && t'.bottom == t.bottom
  {
    if t.x >= t.cols && (t.y < t.bottom - 1 || t.scrollOn) then
      var t1 := t.(x := 0, y := t.y + 1);
      var t2 := if t1.y == t1.bottom then Scroll(t1.(y := t1.y - 1)) else t1;
      if t2.y >= t2.cols then t2.(y := t2.cols - 1) else t2
    else t
  }

  /** Write a character at the cursor and step right. */
  function RawPut(t: Term, c: nat): (t': Term)
    requires Sized(t) && Region(t) && t.top < t.bottom
    ensures Sized(t') && Region(t') && t'.top == t.top && t'.bottom == t.bottom
  {
    var w := Wrap(t);
    Put(w, Cell(c, w.fg, w.bg), w.x, w.y).(x := w.x + 1)
  }

  function SwapColours(t: Term): Term {
    t.(fg := t.bg, bg := t.fg)
  }

  function Saved(t: Term): Term {
    t.(savedFg := t.fg, savedBg := t.bg, savedX := t.x, savedY := t.y)
  }

  function Restored(t: Term): Term {
    t.(fg := t.savedFg, bg := t.savedBg, x := t.savedX, y := t.savedY)
  }

  // --- The screen as rows and columns ----------------------------------------------------------

  lemma ShiftUpAt(s: seq<Cell>, lo: nat, hi: nat, cols: nat, blank: Cell, j: nat)
    requires lo + cols <= hi <= |s| && j < |s|
    ensures ShiftUp(s, lo, hi, cols, blank)[j]
            == if lo <= j < hi - cols then s[j + cols] else if hi - cols <= j < hi then blank else s[j]
  {}

  lemma ShiftDownAt(s: seq<Cell>, lo: nat, hi: nat, cols: nat, blank: Cell, j: nat)
    requires lo + cols <= |s| && hi <= |s| && j < |s|
    ensures ShiftDown(s, lo, hi, cols, blank)[j]
            == if lo <= j < lo + cols then blank else if lo + cols <= j < hi then s[j - cols] else s[j]
  {}

  /** Scrolling moves rows `top + 1 .. bottom - 1` up by one, blanks the last row of the region and
      leaves every row outside the region alone. */
  lemma ScrollRows(t: Term, x: nat, y: nat)
    requires Sized(t) && Region(t) && t.top < t.bottom && x < t.cols && y < t.rows
    ensures At(Scroll(t), x, y)
            == if t.top <= y < t.bottom - 1 then At(t, x, y + 1) else if y == t.bottom - 1 then Blank(t) else At(t, x, y)
  {
    hide ShiftUp;
    var cols := t.cols;
    var j, lo, hi := y * cols + x, t.top * cols, t.bottom * cols;
    CellIndex(x, y, cols, t.rows);
    RowBounds(t.bottom - 1, t.rows, cols);
    RowBounds(t.top, t.bottom, cols);
    ShiftUpAt(t.screen, lo, hi, cols, Blank(t), j);
    InRow(j, x, y, t.top, cols, lo);
    InRow(j, x, y, t.bottom, cols, hi);
    InRow(j, x, y, t.bottom - 1, cols, hi - cols);
    if t.top <= y < t.bottom - 1 {
      CellIndex(x, y + 1, cols, t.rows);
      NextRow(j, x, y, cols);
    }
  }

  lemma NextRow(j: int, x: nat, y: nat, cols: nat)
    ensures j == y * cols + x <==> (y + 1) * cols + x == j + cols
  {}

  /** Cell `j` of row `y` lies before offset `b * cols` exactly if row `y` is above row `b`. */
  lemma InRow(j: nat, x: nat, y: nat, b: nat, cols: nat, offset: nat)
    requires j == y * cols + x && x < cols && offset == b * cols
    ensures j < offset <==> y < b
  {
    if y < b {
      MulMono(cols, y + 1, b);
    } else {
      MulMono(cols, b, y);
    }
  }

  /** Reverse scrolling moves rows `top .. bottom - 2` down by one and blanks the top row. */
  lemma RevScrollRows(t: Term, x: nat, y: nat)
    requires Sized(t) && Region(t) && x < t.cols && y < t.rows
    ensures At(RevScroll(t), x, y)
            == if y == t.top then Blank(t) else if t.top < y < t.bottom then At(t, x, y - 1) else At(t, x, y)
  {
    var j, lo, hi := y * t.cols + x, t.top * t.cols, t.bottom * t.cols;
    hide At, RevScroll;
    AtIndex(t, x, y, j);
    RevScrollIndex(t, j, lo, hi);
    AtIndex(RevScroll(t), x, y, j);
    RevCases(t, x, y, j, lo, hi);
    if t.top < y < t.bottom {
      NextRow(j - t.cols, x, y - 1, t.cols);
      AtIndex(t, x, y - 1, j - t.cols);
    }
  }

  lemma AtIndex(t: Term, x: nat, y: nat, j: int)
    requires Sized(t) && x < t.cols && y < t.rows && j == y * t.cols + x
    ensures 0 <= j < |t.screen| && At(t, x, y) == t.screen[j]
  {
    CellIndex(x, y, t.cols, t.rows);
  }

  lemma RevCases(t: Term, x: nat, y: nat, j: nat, lo: nat, hi: nat)
    requires x < t.cols && j == y * t.cols + x && lo == t.top * t.cols && hi == t.bottom * t.cols
    ensures lo <= j < lo + t.cols <==> y == t.top
    ensures lo + t.cols <= j < hi <==> t.top < y < t.bottom
  {
    InRow(j, x, y, t.top, t.cols, lo);
    InRow(j, x, y, t.bottom, t.cols, hi);
    NextRow(lo, 0, t.top, t.cols);
    InRow(j, x, y, t.top + 1, t.cols, lo + t.cols);
  }

  lemma RevScrollIndex(t: Term, j: nat, lo: nat, hi: nat)
    requires Sized(t) && Region(t) && j < |t.screen| && lo == t.top * t.cols && hi == t.bottom * t.cols
    ensures var t' := RevScroll(t);
            t'.cols == t.cols && t'.rows == t.rows && |t'.screen| == |t.screen|
            && t'.screen[j] == if lo <= j < lo + t.cols then Blank(t) else if lo + t.cols <= j < hi then t.screen[j - t.cols] else t.screen[j]
  {
    RowBounds(t.top, t.rows, t.cols);
    MulMono(t.cols, t.bottom, t.rows);
    ShiftDownAt(t.screen, lo, hi, t.cols, Blank(t), j);
  }

  /** A written cell shows, and no other cell changes. */
  lemma PutCell(t: Term, c: Cell, x: nat, y: nat, x': nat, y': nat)
    requires Sized(t) && x' < t.cols && y' < t.rows
    ensures At(Put(t, c, x, y), x', y') == if (x', y') == (x, y) then c else At(t, x', y')
  {
    CellIndex(x', y', t.cols, t.rows);
    if x < t.cols && y < t.rows {
      CellIndex(x, y, t.cols, t.rows);
    }
  }
}
