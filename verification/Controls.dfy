/** What the bytes a client writes do to cells, cursor and modes (kernel/src/flanterm/flanterm.c), from the
    ground state of the parser on. */
module Controls {
  import opened Bits
  import opened Screen
  import opened Parser
  import opened Sequences
  import opened Editing

  // --- What can be seen ------------------------------------------------------------------------

  /** Column and row of the cursor; behind the last column it is waiting to wrap. */
  function Col(t: Term): (x: nat)
    requires t.cols > 0
    ensures x < t.cols
  {
    if t.x < t.cols then t.x else t.cols - 1
  }

  function Row(t: Term): (y: nat)
    requires t.rows > 0
    ensures y < t.rows
  {
    if t.y < t.rows then t.y else t.rows - 1
  }

  /** All cells are as before. */
  predicate SameCells(t: Term, t': Term) {
    t'.cols == t.cols && t'.rows == t.rows && t'.screen == t.screen
  }

  /** Cell `(x, y)` after the rows of the scroll region have moved up by one: the last one is blank, and the
      others are as before. */
  function UpCell(t: Term, x: nat, y: nat): Cell
    requires Sized(t) && t.bottom <= t.rows && x < t.cols && y < t.rows
  {
    if t.top <= y && y + 1 < t.bottom then At(t, x, y + 1) else if y + 1 == t.bottom then Cell(0x20, t.fg, t.bg) else At(t, x, y)
  }

  /** After they have moved down by one: the first one is blank. */
  function DownCell(t: Term, x: nat, y: nat): Cell
    requires Sized(t) && x < t.cols && y < t.rows
  {
    if y == t.top then Cell(0x20, t.fg, t.bg) else if t.top < y < t.bottom then At(t, x, y - 1) else At(t, x, y)
  }

  ghost predicate MovedUp(t: Term, t': Term) {
    && Sized(t) && Sized(t') && t'.cols == t.cols && t'.rows == t.rows && t.bottom <= t.rows
    && forall x: nat, y: nat :: x < t.cols && y < t.rows ==> At(t', x, y) == UpCell(t, x, y)
  }

  ghost predicate MovedDown(t: Term, t': Term) {
    && Sized(t) && Sized(t') && t'.cols == t.cols && t'.rows == t.rows
    && forall x: nat, y: nat :: x < t.cols && y < t.rows ==> At(t', x, y) == DownCell(t, x, y)
  }

  /** Apart from cells and cursor the terminal is as before. */
  ghost predicate RestSame(t: Term, t': Term) {
    t' == t.(screen := t'.screen, x := t'.x, y := t'.y)
  }

  /** Apart from what a sequence leaves in its registers the parser is as before. */
  predicate Aside(p: Parser, p': Parser) {
    p' == p.(escapeOffset := p'.escapeOffset, values := p'.values, count := p'.count, rrr := p'.rrr)
  }

  // --- From bytes to steps ---------------------------------------------------------------------

  /** A byte on its own. */
  lemma PlainByte(tb: Tables, s: State, c: nat)
    requires Ok(s) && |tb.col256| == 240 && Ground(s.p) && c < 256 && c != 0x18 && c != 0x1A && !(0xC0 <= c <= 0xF7)
    ensures Feed(tb, s, [c]) == Plain(tb, s, c)
  {
    FeedOne(tb, s, c);
    hide TermOk, Plain;
  }

  /** ESC and one byte. */
  lemma EscapeByte(tb: Tables, s: State, c: nat)
    requires Ok(s) && |tb.col256| == 240 && Ground(s.p) && c < 0x80 && c != 0x18 && c != 0x1A
    ensures ParserOk(Counted(Escaping(s.p))) && Counted(Escaping(s.p)).escape
    ensures Feed(tb, s, [0x1B, c]) == Opener(State(Counted(Escaping(s.p)), s.t), c as char)
  {
    FeedTwo(tb, s, 0x1B, c);
    hide TermOk, Opener;
    var s1 := s.(p := Escaping(s.p));
    assert PutChar(tb, s, 0x1B) == s1;
    assert PutChar(tb, s1, c) == Escape(tb, s1, c as char);
  }

  // --- Line feeds ------------------------------------------------------------------------------

  lemma UpCellIs(t: Term, x: nat, y: nat)
    requires TermOk(t) && x < t.cols && y < t.rows
    ensures At(Scroll(t), x, y) == UpCell(t, x, y)
  {
    ScrollRows(t, x, y);
    hide At, Scroll;
  }

  lemma UpOne(t: Term)
    requires TermOk(t)
    ensures MovedUp(t, Scroll(t)) && RestSame(t, Scroll(t)) && Scroll(t).x == t.x && Scroll(t).y == t.y
  {
    ScrollSame(t);
    hide Scroll, At, UpCell;
    forall x: nat, y: nat | x < t.cols && y < t.rows ensures At(Scroll(t), x, y) == UpCell(t, x, y) {
      UpCellIs(t, x, y);
    }
  }

  lemma ScrollSame(t: Term)
    requires TermOk(t)
    ensures RestSame(t, Scroll(t)) && Scroll(t).x == t.x && Scroll(t).y == t.y
  {
    hide ShiftUp;
  }

  lemma RevScrollSame(t: Term)
    requires TermOk(t)
    ensures RestSame(t, RevScroll(t)) && RevScroll(t).x == t.x && RevScroll(t).y == t.y
  {
    hide ShiftDown;
  }

  lemma DownCellIs(t: Term, x: nat, y: nat)
    requires TermOk(t) && x < t.cols && y < t.rows
    ensures At(RevScroll(t), x, y) == DownCell(t, x, y)
  {
    RevScrollRows(t, x, y);
    hide At, RevScroll;
  }

  lemma DownOne(t: Term)
    requires TermOk(t)
    ensures MovedDown(t, RevScroll(t)) && RestSame(t, RevScroll(t)) && RevScroll(t).x == t.x && RevScroll(t).y == t.y
  {
    RevScrollSame(t);
    hide RevScroll, At, DownCell;
    forall x: nat, y: nat | x < t.cols && y < t.rows ensures At(RevScroll(t), x, y) == DownCell(t, x, y) {
      DownCellIs(t, x, y);
    }
  }

  /** The cursor does not matter for the cells. */
  lemma CellsAnywhere(t: Term, t1: Term, x: nat, y: nat)
    ensures MovedUp(t, t1) ==> MovedUp(t, t1.(x := x, y := y))
    ensures MovedDown(t, t1) ==> MovedDown(t, t1.(x := x, y := y))
  {
    var t2 := t1.(x := x, y := y);
    if Sized(t1) {
      assert Sized(t2);
      forall a: nat, b: nat | a < t1.cols && b < t1.rows ensures At(t2, a, b) == At(t1, a, b) {}
    }
    hide At, UpCell, DownCell, Sized;
  }

  /** The cursor one row down at column `x`; on the last row of the scroll region the region moves up instead. */
  ghost predicate SteppedDown(t: Term, t': Term, x: nat)
    requires t.rows > 0
  {
    && RestSame(t, t') && t'.x == x
    && if Row(t) + 1 == t.bottom then MovedUp(t, t') && t'.y == Row(t)
       else SameCells(t, t') && t'.y == if Row(t) + 1 < t.rows then Row(t) + 1 else Row(t)
  }

  lemma NextLineIs(t: Term, x: nat)
    requires TermOk(t) && x < t.cols
    ensures SteppedDown(t, NextLine(t, x), x)
  {
    TermFacts(t);
    if Row(t) + 1 == t.bottom {
      UpOne(t);
      CellsAnywhere(t, Scroll(t), x, Row(t));
      hide MovedUp, Scroll;
    }
  }

  /** Line feed, vertical tab and form feed: one row down in the first column, or in the same one if line
      feeds are not to return. */
  lemma LineFeedByte(tb: Tables, s: State, c: nat)
    requires Ok(s) && |tb.col256| == 240 && Ground(s.p) && 10 <= c <= 12
    ensures s.t.cols > 0 && s.t.rows > 0
    ensures var s' := Feed(tb, s, [c]); s'.p == s.p && SteppedDown(s.t, s'.t, if s.p.onlcr then 0 else Col(s.t))
  {
    PlainByte(tb, s, c);
    TermFacts(s.t);
    hide TermOk, NextLine, SteppedDown;
    NextLineIs(s.t, if s.p.onlcr then 0 else Col(s.t));
  }

  /** ESC D and ESC E do the same in the same and in the first column. */
  lemma IndexBytes(tb: Tables, s: State, home: bool)
    requires Ok(s) && |tb.col256| == 240 && Ground(s.p)
    ensures s.t.cols > 0 && s.t.rows > 0
    ensures var s' := Feed(tb, s, [0x1B, if home then 0x45 else 0x44]);
            Aside(s.p, s'.p) && SteppedDown(s.t, s'.t, if home then 0 else Col(s.t))
  {
    EscapeByte(tb, s, if home then 0x45 else 0x44);
    TermFacts(s.t);
    hide TermOk, NextLine, SteppedDown;
    NextLineIs(s.t, if home then 0 else Col(s.t));
  }

  /** The cursor one row up in the first column; on the first row of the scroll region the region moves down
      instead. */
  ghost predicate SteppedUp(t: Term, t': Term)
    requires t.rows > 0
  {
    && RestSame(t, t') && t'.x == 0
    && if Row(t) == t.top then MovedDown(t, t') && t'.y == Row(t)
       else SameCells(t, t') && t'.y == if Row(t) > 0 then Row(t) - 1 else 0
  }

  lemma LessOne(y: nat)
    requires y < U64_SIZE
    ensures Less(y, 1) == (if y > 0 then y - 1 else U64_SIZE - 1) && NegativeInt(U64_SIZE - 1)
  {}

  lemma ReverseStep(t: Term)
    requires TermOk(t) && t.rows > 0 && Row(t) != t.top
    ensures ReverseLine(t) == t.(x := 0, y := if Row(t) > 0 then Row(t) - 1 else 0)
  {
    TermFacts(t);
    LessOne(Row(t));
    hide RevScroll, Less, NegativeInt, Sized, Region;
  }

  lemma ReverseScroll(t: Term)
    requires TermOk(t) && t.rows > 0 && Row(t) == t.top
    ensures ReverseLine(t) == RevScroll(t).(x := 0, y := Row(t))
  {
    TermFacts(t);
    RevScrollSame(t);
    hide RevScroll, Less;
  }

  lemma ReverseLineIs(t: Term)
    requires TermOk(t)
    ensures t.rows > 0 && SteppedUp(t, ReverseLine(t))
  {
    TermFacts(t);
    if Row(t) == t.top {
      ReverseScroll(t);
      DownOne(t);
      CellsAnywhere(t, RevScroll(t), 0, Row(t));
    } else {
      ReverseStep(t);
    }
    hide MovedDown, RevScroll, ReverseLine;
  }

  /** ESC M. */
  lemma ReverseIndexBytes(tb: Tables, s: State)
    requires Ok(s) && |tb.col256| == 240 && Ground(s.p)
    ensures s.t.rows > 0
    ensures var s' := Feed(tb, s, [0x1B, 0x4D]); Aside(s.p, s'.p) && SteppedUp(s.t, s'.t)
  {
    EscapeByte(tb, s, 0x4D);
    ReverseLineIs(s.t);
    hide TermOk, ReverseLine, SteppedUp;
  }

  // --- Moves of one byte -----------------------------------------------------------------------

  /** The column a byte moves to: the next multiple of eight, or the last one, for a tab. The clamp takes a
      column of 2^31 or more for a negative one. */
  function ColumnAfter(t: Term, c: nat): nat
    requires t.cols > 0
  {
    var stop := (Col(t) / 8 + 1) * 8;
    if c == 8 then (if Col(t) > 0 then Col(t) - 1 else 0)
    else if c == 13 then 0
    else if stop < t.cols then stop
    else if stop < 0x8000_0000 then t.cols - 1 else 0
  }

  lemma TabIs(t: Term)
    requires TermOk(t)
    ensures Tab(t, 8) == t.(x := ColumnAfter(t, 9), y := Row(t))
  {
    TermFacts(t);
    assert t.cols == 1 ==> Col(t) == 0;
  }

  lemma ColumnIs(t: Term, x: nat, c: nat)
    requires TermOk(t) && ((c == 8 && x == Less(CursorX(t), 1)) || (c == 13 && x == 0))
    ensures Column(t, x) == t.(x := ColumnAfter(t, c), y := Row(t))
  {
    TermFacts(t);
  }

  /** Backspace, tab and carriage return move within the row; cells stay. */
  lemma MoveBytes(tb: Tables, s: State, c: nat)
    requires Ok(s) && |tb.col256| == 240 && Ground(s.p) && (c == 8 || c == 9 || c == 13)
    ensures s.t.cols > 0 && s.t.rows > 0
    ensures Feed(tb, s, [c]) == s.(t := s.t.(x := ColumnAfter(s.t, c), y := Row(s.t)))
  {
    PlainByte(tb, s, c);
    TermFacts(s.t);
    assert s.p.tabSize == 8;
    if c == 9 {
      TabIs(s.t);
    } else {
      ColumnIs(s.t, if c == 8 then Less(CursorX(s.t), 1) else 0, c);
    }
    hide Feed, TermOk, Tab, Column, ColumnAfter, CursorX, Less;
  }

  /** NUL, BEL and DEL do nothing. */
  lemma IgnoredBytes(tb: Tables, s: State, c: nat)
    requires Ok(s) && |tb.col256| == 240 && Ground(s.p) && (c == 0 || c == 7 || c == 0x7F)
    ensures Feed(tb, s, [c]) == s
  {
    PlainByte(tb, s, c);
  }

  // --- Printing --------------------------------------------------------------------------------

  /** A byte that is shown as a glyph. */
  predicate IsShown(c: nat) {
    (0 < c < 0xC0 && !(7 <= c <= 15) && c != 0x18 && c != 0x1A && c != 0x1B && c != 0x7F) || 0xF8 <= c < 256
  }

  /** Its glyph: the character itself, in the line-drawing character set the drawing if it has one, and the
      replacement for what is not printable ASCII. */
  function GlyphOf(tb: Tables, p: Parser, c: nat): nat
    requires ParserOk(p)
  {
    if p.charsets[p.style.charset] == 1 && tb.decSpecial(c) >= 0 then tb.decSpecial(c)
    else if 0x20 <= c < 0x7F then c else 0xFE
  }

  /** One cell shows `c`, and all others are as before. */
  ghost predicate OnlyAt(t: Term, t': Term, x: nat, y: nat, c: Cell) {
    && Sized(t) && Sized(t') && t'.cols == t.cols && t'.rows == t.rows
    && forall a: nat, b: nat :: a < t.cols && b < t.rows ==> At(t', a, b) == if (a, b) == (x, y) then c else At(t, a, b)
  }

  lemma PutOnly(t: Term, c: Cell, x: nat, y: nat, cx: nat)
    requires TermOk(t)
    ensures var t' := Put(t, c, x, y).(x := cx); OnlyAt(t, t', x, y, c) && RestSame(t, t') && t'.y == t.y && t'.x == cx
  {
    var t1 := Put(t, c, x, y);
    var t' := t1.(x := cx);
    forall a: nat, b: nat | a < t.cols && b < t.rows ensures At(t', a, b) == if (a, b) == (x, y) then c else At(t, a, b) {
      PutCell(t, c, x, y, a, b);
      assert At(t', a, b) == At(t1, a, b);
    }
    hide At;
  }

  lemma RawPutHere(t: Term, g: nat)
    requires TermOk(t) && t.x < t.cols
    ensures PutN(t, g, 1) == Put(t, Cell(g, t.fg, t.bg), t.x, t.y).(x := t.x + 1)
  {
    assert PutN(t, g, 0) == t;
    assert PutN(t, g, 1) == RawPut(PutN(t, g, 0), g);
    assert Wrap(t) == t;
  }

  /** A character goes to the cell of the cursor in the current colours, and the cursor one column on; behind
      the last column it waits to wrap. */
  lemma ShownByte(tb: Tables, s: State, c: nat)
    requires Ok(s) && |tb.col256| == 240 && Ground(s.p) && IsShown(c) && !s.p.insertMode && s.t.x < s.t.cols
    ensures var t, s' := s.t, Feed(tb, s, [c]);
            && s'.p == s.p && RestSame(t, s'.t) && s'.t.x == t.x + 1 && s'.t.y == t.y
            && OnlyAt(t, s'.t, t.x, t.y, Cell(GlyphOf(tb, s.p, c), t.fg, t.bg))
  {
    PlainByte(tb, s, c);
    var g := GlyphOf(tb, s.p, c);
    RawPutHere(s.t, g);
    PutOnly(s.t, Cell(g, s.t.fg, s.t.bg), s.t.x, s.t.y, s.t.x + 1);
    PlainShows(tb, s, c);
    hide TermOk, OnlyAt, PutN, Put;
  }

  lemma PlainShows(tb: Tables, s: State, c: nat)
    requires Ok(s) && IsShown(c)
    ensures var t := if s.p.insertMode then ShiftRight(s.t, CursorX(s.t), CursorY(s.t), s.t.cols - 1) else s.t;
            TermOk(t) && Plain(tb, s, c) == s.(t := PutN(t, GlyphOf(tb, s.p, c), 1))
  {
    hide PutN, ShiftRight, CursorX, CursorY;
    TermFacts(s.t);
    assert Glyph(tb, s.p, c) == GlyphOf(tb, s.p, c);
    assert Plain(tb, s, c) == s.(t := Show(s.t, s.p.insertMode, GlyphOf(tb, s.p, c)));
  }

  /** The row a pending wrap leads to: the next one, or the same one if the region moves up; rows beyond the
      number of columns are cut to that, as the source does. */
  function WrapsTo(t: Term): nat
    requires t.cols > 0
  {
    var y := if t.y + 1 == t.bottom then t.y else t.y + 1;
    if y < t.cols then y else t.cols - 1
  }

  lemma WrapIs(t: Term)
    requires TermOk(t) && t.x >= t.cols && t.scrollOn
    ensures Wrap(t) == (if t.y + 1 == t.bottom then Scroll(t) else t).(x := 0, y := WrapsTo(t))
  {
    hide ShiftUp;
    if t.y + 1 == t.bottom {
      ScrollElsewhere(t, 0, t.y);
      ScrollSame(t);
      hide Scroll;
    }
  }

  lemma ScrollElsewhere(t: Term, x: nat, y: nat)
    requires TermOk(t)
    ensures TermOk(t.(x := x, y := y)) && Scroll(t.(x := x, y := y)) == Scroll(t).(x := x, y := y)
  {
    hide ShiftUp;
  }

  lemma RawPutWraps(t: Term, g: nat)
    requires TermOk(t) && t.x >= t.cols && t.scrollOn
    ensures TermOk(Wrap(t))
    ensures PutN(t, g, 1) == Put(Wrap(t), Cell(g, Wrap(t).fg, Wrap(t).bg), Wrap(t).x, Wrap(t).y).(x := Wrap(t).x + 1)
  {
    assert PutN(t, g, 0) == t;
    assert PutN(t, g, 1) == RawPut(PutN(t, g, 0), g);
    hide Wrap, Put;
  }

  /** With a wrap pending the character goes to the first column of the next row; below the last row of the
      scroll region the region moves up first. */
  lemma WrappedByte(tb: Tables, s: State, c: nat) returns (t1: Term)
    requires Ok(s) && |tb.col256| == 240 && Ground(s.p) && IsShown(c) && !s.p.insertMode && s.t.x >= s.t.cols
    ensures s.t.cols > 0 && RestSame(s.t, t1) && if s.t.y + 1 == s.t.bottom then MovedUp(s.t, t1) else SameCells(s.t, t1)
    ensures var t, s', y := s.t, Feed(tb, s, [c]), WrapsTo(s.t);
            && s'.p == s.p && RestSame(t, s'.t) && s'.t.x == 1 && s'.t.y == y
            && OnlyAt(t1, s'.t, 0, y, Cell(GlyphOf(tb, s.p, c), t.fg, t.bg))
  {
    PlainByte(tb, s, c);
    PlainShows(tb, s, c);
    TermFacts(s.t);
    var g := GlyphOf(tb, s.p, c);
    t1 := Wrap(s.t);
    RawPutWraps(s.t, g);
    WrapIs(s.t);
    if s.t.y + 1 == s.t.bottom {
      UpOne(s.t);
      CellsAnywhere(s.t, Scroll(s.t), 0, WrapsTo(s.t));
    }
    hide Scroll, MovedUp, Wrap, Plain, Feed, GlyphOf;
    PutOnly(t1, Cell(g, s.t.fg, s.t.bg), 0, WrapsTo(s.t), 1);
    hide TermOk, OnlyAt, PutN, Put;
  }

  /** Cell `(j, r)` after the cells of row `y` from column `x` on have moved right by one; the last one is gone. */
  function RightCell(t: Term, x: nat, y: nat, j: nat, r: nat): Cell
    requires Sized(t) && j < t.cols && r < t.rows
  {
    if r == y && x < j then At(t, j - 1, y) else At(t, j, r)
  }

  ghost predicate MovedRight(t: Term, t': Term, x: nat, y: nat) {
    && Sized(t) && Sized(t') && t'.cols == t.cols && t'.rows == t.rows
    && forall j: nat, r: nat :: j < t.cols && r < t.rows && (j, r) != (x, y) ==> At(t', j, r) == RightCell(t, x, y, j, r)
  }

  lemma {:induction false} ShiftRightAt(t: Term, x: nat, y: nat, i: nat, j: nat, r: nat)
    requires TermOk(t) && x <= i < t.cols && y < t.rows && j < t.cols && r < t.rows
    ensures TermOk(ShiftRight(t, x, y, i))
    ensures At(ShiftRight(t, x, y, i), j, r) == if r == y && x < j <= i + 1 then At(t, j - 1, y) else At(t, j, r)
    decreases i
  {
    var t1 := MoveCell(t, i + 1, y, i, y);
    MoveCellAt(t, i, i + 1, y, j, r);
    MovedSame(t, i + 1, i, y);
    if i > x {
      if r == y && x < j <= i {
        MoveCellAt(t, i, i + 1, y, j - 1, y);
      }
      ShiftRightAt(t1, x, y, i - 1, j, r);
    }
    hide At, MoveCell;
  }

  lemma ShiftedRight(t: Term, x: nat, y: nat)
    requires TermOk(t) && x < t.cols && y < t.rows
    ensures var t' := ShiftRight(t, x, y, t.cols - 1); TermOk(t') && Same(t, t') && t'.x == t.x && t'.y == t.y && MovedRight(t, t', x, y)
  {
    var t' := ShiftRight(t, x, y, t.cols - 1);
    ShiftKeepsCursor(t, x, y, t.cols - 1);
    ShiftRightAt(t, x, y, t.cols - 1, 0, 0);
    hide At, ShiftRight, RightCell;
    forall j: nat, r: nat | j < t.cols && r < t.rows ensures At(t', j, r) == RightCell(t, x, y, j, r) {
      ShiftedCell(t, x, y, j, r);
    }
  }

  lemma ShiftedCell(t: Term, x: nat, y: nat, j: nat, r: nat)
    requires TermOk(t) && x < t.cols && y < t.rows && j < t.cols && r < t.rows
    ensures At(ShiftRight(t, x, y, t.cols - 1), j, r) == RightCell(t, x, y, j, r)
  {
    ShiftRightAt(t, x, y, t.cols - 1, j, r);
    hide At, ShiftRight;
  }

  lemma {:induction false} ShiftKeepsCursor(t: Term, x: nat, y: nat, i: nat)
    requires Sized(t) && x <= i + 1
    ensures ShiftRight(t, x, y, i).x == t.x && ShiftRight(t, x, y, i).y == t.y
    decreases i
  {
    if i > x {
      ShiftKeepsCursor(MoveCell(t, i + 1, y, i, y), x, y, i - 1);
    }
  }

  /** In insert mode the rest of the row moves right to make room. */
  lemma InsertedByte(tb: Tables, s: State, c: nat)
    requires Ok(s) && |tb.col256| == 240 && Ground(s.p) && IsShown(c) && s.p.insertMode && OnScreen(s.t)
    ensures var t, s' := s.t, Feed(tb, s, [c]);
            && s'.p == s.p && RestSame(t, s'.t) && s'.t.x == t.x + 1 && s'.t.y == t.y && MovedRight(t, s'.t, t.x, t.y)
            && At(s'.t, t.x, t.y) == Cell(GlyphOf(tb, s.p, c), t.fg, t.bg)
  {
    PlainByte(tb, s, c);
    PlainShows(tb, s, c);
    var t, g := s.t, GlyphOf(tb, s.p, c);
    ShiftedRight(t, t.x, t.y);
    var t1 := ShiftRight(t, t.x, t.y, t.cols - 1);
    RawPutHere(t1, g);
    PutOnly(t1, Cell(g, t1.fg, t1.bg), t1.x, t1.y, t1.x + 1);
    var t2 := PutN(t1, g, 1);
    hide Feed, Plain, GlyphOf, ShiftRight, PutN, Put, At;
    MovedThenPut(t, t1, t2, Cell(g, t1.fg, t1.bg));
  }

  lemma MovedThenPut(t: Term, t1: Term, t2: Term, c: Cell)
    requires OnScreen(t) && MovedRight(t, t1, t.x, t.y) && OnlyAt(t1, t2, t.x, t.y, c)
    ensures MovedRight(t, t2, t.x, t.y) && At(t2, t.x, t.y) == c
  {
    hide At, RightCell, Sized;
    forall j: nat, r: nat | j < t.cols && r < t.rows && (j, r) != (t.x, t.y) ensures At(t2, j, r) == RightCell(t, t.x, t.y, j, r) {
      assert At(t2, j, r) == At(t1, j, r);
    }
  }

  // --- Parameters ------------------------------------------------------------------------------

  /** The digits of each parameter, separated by semicolons. */
  function ParamBytes(pss: seq<seq<nat>>): (bs: seq<nat>)
    requires pss != []
    decreases |pss|
  {
    if |pss| == 1 then DigitBytes(pss[0]) else DigitBytes(pss[0]) + ([0x3B] + ParamBytes(pss[1..]))
  }

  ghost predicate AllDigits(pss: seq<seq<nat>>) {
    forall i :: 0 <= i < |pss| ==> Digits(pss[i])
  }

  lemma {:induction false} ParamsAreBytes(pss: seq<seq<nat>>)
    requires pss != [] && AllDigits(pss)
    ensures Bytes(ParamBytes(pss))
    decreases |pss|
  {
    assert Digits(pss[0]);
    if |pss| > 1 {
      assert forall i :: 0 <= i < |pss[1..]| ==> pss[1..][i] == pss[i + 1];
      ParamsAreBytes(pss[1..]);
    }
  }

  /** The number of parameters given: without digits at the end, one less than there are places. */
  function Given(pss: seq<seq<nat>>): nat
    requires pss != []
  {
    if pss[|pss| - 1] == [] then |pss| - 1 else |pss|
  }

  /** Parameter `i` of the final byte `c`: the number written, 0 for an empty one in front of others, and the
      default for those that are missing. */
  function ValueAt(pss: seq<seq<nat>>, i: nat, c: char): nat
    requires pss != []
  {
    if i < Given(pss) then Parameter(pss[i], 0) else if c == 'J' || c == 'K' || c == 'q' then 0 else 1
  }

  /** Inside a control sequence. */
  predicate InCsi(p: Parser) {
    p.escape && p.controlSequence && !p.osc && !p.discardNext && p.remaining == 0 && p.gSelect == 0
  }

  /** Parameter `count` is about to be read. */
  ghost predicate Reading(p: Parser, count: nat) {
    && ParserOk(p) && InCsi(p) && !p.rrr && p.count == count < MAX_VALUES
    && forall i :: count <= i < MAX_VALUES ==> p.values[i] == 0
  }

  lemma CsiByte(tb: Tables, s: State, c: nat)
    requires Ok(s) && |tb.col256| == 240 && InCsi(s.p) && c < 0x80 && c != 0x18 && c != 0x1A
    ensures ParserOk(Counted(s.p)) && PutChar(tb, s, c) == ControlSequence(tb, State(Counted(s.p), s.t), c as char)
  {
    hide TermOk, ControlSequence, StyleOk, ValuesOk;
    assert PutChar(tb, s, c) == Escape(tb, s, c as char);
  }

  /** One more digit. */
  lemma CsiDigit(tb: Tables, s: State, d: nat)
    requires Ok(s) && |tb.col256| == 240 && InCsi(s.p) && d < 10 && s.p.count < MAX_VALUES
    ensures var s', k := PutChar(tb, s, 48 + d), s.p.count;
            && s'.t == s.t && Aside(s.p, s'.p) && s'.p.count == k && s'.p.rrr
            && s'.p.values == s.p.values[k := (s.p.values[k] * 10 + d) % U32_SIZE]
  {
    CsiByte(tb, s, 48 + d);
    hide TermOk, Finish, StyleOk, PutChar;
    assert ControlSequence(tb, State(Counted(s.p), s.t), (48 + d) as char) == State(Digit(Counted(s.p), d), s.t);
  }

  lemma {:induction false} CsiDigits(tb: Tables, s: State, ds: seq<nat>)
    requires Ok(s) && |tb.col256| == 240 && InCsi(s.p) && Digits(ds) && s.p.count < MAX_VALUES
    ensures Bytes(DigitBytes(ds))
    ensures var s', k := Feed(tb, s, DigitBytes(ds)), s.p.count;
            && s'.t == s.t && Aside(s.p, s'.p) && s'.p.count == k && s'.p.rrr == (s.p.rrr || ds != [])
            && s'.p.values == s.p.values[k := Parameter(ds, s.p.values[k])]
    decreases |ds|
  {
    hide PutChar, TermOk;
    var k := s.p.count;
    if ds == [] {
      assert s.p.values[k := s.p.values[k]] == s.p.values;
    } else {
      CsiDigit(tb, s, ds[0]);
      var s1 := PutChar(tb, s, 48 + ds[0]);
      assert DigitBytes(ds)[1..] == DigitBytes(ds[1..]);
      CsiDigits(tb, s1, ds[1..]);
      assert Feed(tb, s, DigitBytes(ds)) == Feed(tb, s1, DigitBytes(ds[1..]));
      Overwritten(s.p.values, k, s1.p.values[k], Parameter(ds, s.p.values[k]));
    }
  }

  lemma Overwritten(v: seq<nat>, k: nat, a: nat, b: nat)
    requires k < |v|
    ensures v[k := a][k := b] == v[k := b]
  {}

  /** A semicolon ends a parameter; an empty one is 0. */
  lemma CsiSemicolon(tb: Tables, s: State)
    requires Ok(s) && |tb.col256| == 240 && InCsi(s.p) && s.p.count < MAX_VALUES
    ensures var s', k := PutChar(tb, s, 0x3B), s.p.count;
            && s'.t == s.t && Aside(s.p, s'.p) && s'.p.count == k + 1 && !s'.p.rrr
            && s'.p.values == if s.p.rrr then s.p.values else s.p.values[k := 0]
  {
    CsiByte(tb, s, 0x3B);
    hide TermOk, Finish, StyleOk, PutChar;
  }

  /** The parameters as far as they are read: the last one is still open if it has digits. */
  ghost predicate ReadAs(p: Parser, values: seq<nat>, k: nat, pss: seq<seq<nat>>)
    requires pss != []
  {
    && |p.values| == MAX_VALUES == |values| && k + |pss| <= MAX_VALUES
    && p.count == k + |pss| - 1 && p.rrr == (pss[|pss| - 1] != [])
    && (forall i :: 0 <= i < k ==> p.values[i] == values[i])
    && (forall i :: 0 <= i < |pss| ==> p.values[k + i] == Parameter(pss[i], 0))
  }

  lemma FirstParam(tb: Tables, s: State, k: nat, pss: seq<seq<nat>>) returns (s1: State)
    requires Ok(s) && |tb.col256| == 240 && Reading(s.p, k) && AllDigits(pss) && |pss| > 1 && k + |pss| <= MAX_VALUES
    ensures Bytes(DigitBytes(pss[0]) + [0x3B]) && s1 == Feed(tb, s, DigitBytes(pss[0]) + [0x3B])
    ensures Ok(s1) && s1.t == s.t && Aside(s.p, s1.p) && Reading(s1.p, k + 1)
    ensures s1.p.values[k] == Parameter(pss[0], 0) && forall i :: 0 <= i < k ==> s1.p.values[i] == s.p.values[i]
  {
    assert Digits(pss[0]);
    CsiDigits(tb, s, pss[0]);
    var s0 := Feed(tb, s, DigitBytes(pss[0]));
    hide TermOk, PutChar, Feed, StyleOk;
    CsiSemicolon(tb, s0);
    FeedOne(tb, s0, 0x3B);
    FeedConcat(tb, s, DigitBytes(pss[0]), [0x3B]);
    s1 := PutChar(tb, s0, 0x3B);
  }

  lemma LastParam(tb: Tables, s: State, k: nat, pss: seq<seq<nat>>)
    requires Ok(s) && |tb.col256| == 240 && Reading(s.p, k) && |pss| == 1 && AllDigits(pss)
    ensures Bytes(ParamBytes(pss))
    ensures var s' := Feed(tb, s, ParamBytes(pss)); s'.t == s.t && Aside(s.p, s'.p) && ReadAs(s'.p, s.p.values, k, pss)
  {
    assert Digits(pss[0]);
    CsiDigits(tb, s, pss[0]);
    hide TermOk, Feed, StyleOk;
  }

  lemma RestDigits(pss: seq<seq<nat>>)
    requires AllDigits(pss) && pss != []
    ensures AllDigits(pss[1..])
  {
    assert forall i :: 0 <= i < |pss[1..]| ==> pss[1..][i] == pss[i + 1];
  }

  lemma ParamsSplit(pss: seq<seq<nat>>)
    requires |pss| > 1
    ensures ParamBytes(pss) == (DigitBytes(pss[0]) + [0x3B]) + ParamBytes(pss[1..])
  {
    hide DigitBytes;
    assert DigitBytes(pss[0]) + ([0x3B] + ParamBytes(pss[1..])) == (DigitBytes(pss[0]) + [0x3B]) + ParamBytes(pss[1..]);
  }

  lemma {:induction false} ParamsRead(tb: Tables, s: State, k: nat, pss: seq<seq<nat>>)
    requires Ok(s) && |tb.col256| == 240 && Reading(s.p, k) && pss != [] && AllDigits(pss) && k + |pss| <= MAX_VALUES
    ensures Bytes(ParamBytes(pss))
    ensures var s' := Feed(tb, s, ParamBytes(pss)); s'.t == s.t && Aside(s.p, s'.p) && ReadAs(s'.p, s.p.values, k, pss)
    decreases |pss|
  {
    hide Reading, Digits, AllDigits, TermOk, Feed, Ok, DigitBytes, ParamBytes, ReadAs, Aside, Bytes;
    ParamsAreBytes(pss);
    if |pss| == 1 {
      LastParam(tb, s, k, pss);
    } else {
      var s1 := FirstParam(tb, s, k, pss);
      var rest := pss[1..];
      RestDigits(pss);
      ParamsRead(tb, s1, k + 1, rest);
      ParamsSplit(pss);
      FeedConcat(tb, s, DigitBytes(pss[0]) + [0x3B], ParamBytes(rest));
      var s' := Feed(tb, s1, ParamBytes(rest));
      ReadingSize(s.p, k);
      ReadOneMore(s'.p, s.p.values, s1.p.values, k, pss);
      AsideTrans(s.p, s1.p, s'.p);
    }
  }

  lemma ReadingSize(p: Parser, k: nat)
    requires Reading(p, k)
    ensures |p.values| == MAX_VALUES && InCsi(p)
  {}

  lemma AsideTrans(p: Parser, p1: Parser, p2: Parser)
    requires Aside(p, p1) && Aside(p1, p2)
    ensures Aside(p, p2)
  {}

  lemma ReadOneMore(p: Parser, values: seq<nat>, values1: seq<nat>, k: nat, pss: seq<seq<nat>>)
    requires |pss| > 1 && |values| == MAX_VALUES && k + |pss| <= MAX_VALUES && ReadAs(p, values1, k + 1, pss[1..])
    requires values1[k] == Parameter(pss[0], 0) && forall i :: 0 <= i < k ==> values1[i] == values[i]
    ensures ReadAs(p, values, k, pss)
  {
    var rest := pss[1..];
    forall i | 0 <= i < |pss| ensures p.values[k + i] == Parameter(pss[i], 0) {
      if i > 0 {
        assert p.values[k + 1 + (i - 1)] == Parameter(rest[i - 1], 0);
      } else {
        assert p.values[k] == values1[k];
      }
    }
    assert rest[|rest| - 1] == pss[|pss| - 1];
  }

  /** ESC and `[` open a control sequence. */
  lemma CsiOpens(tb: Tables, s: State)
    requires Ok(s) && |tb.col256| == 240 && Ground(s.p)
    ensures var s' := Feed(tb, s, [0x1B, 0x5B]);
            && s'.t == s.t && Reading(s'.p, 0) && s'.p.escapeOffset == 1
            && s'.p == s.p.(escape := true, controlSequence := true, escapeOffset := s'.p.escapeOffset, values := s'.p.values, count := 0, rrr := false)
  {
    EscapeByte(tb, s, 0x5B);
    hide TermOk, StyleOk;
  }

  /** A byte that ends a control sequence. */
  predicate IsFinal(c: nat) {
    0x40 <= c < 0x7F && c != 0x5B
  }

  /** The bytes of a control sequence. */
  function Csi(pss: seq<seq<nat>>, c: nat): seq<nat>
    requires pss != []
  {
    [0x1B, 0x5B] + (ParamBytes(pss) + [c])
  }

  /** The parser at the end of a control sequence, with the parameters padded. */
  ghost predicate AtEnd(p: Parser, p': Parser, pss: seq<seq<nat>>, c: nat)
    requires pss != [] && c < 0x80
  {
    && ParserOk(p') && !p'.osc && !p'.decPrivate && |pss| <= MAX_VALUES && p'.count == Given(pss)
    && (forall i :: 0 <= i < MAX_VALUES ==> p'.values[i] == ValueAt(pss, i, c as char))
    && p' == p.(escape := true, controlSequence := true, escapeOffset := p'.escapeOffset, values := p'.values, count := p'.count, rrr := false)
  }

  lemma FinalRuns(tb: Tables, s: State, pss: seq<seq<nat>>, c: nat, values: seq<nat>, p0: Parser) returns (p: Parser)
    requires Ok(s) && |tb.col256| == 240 && InCsi(s.p) && pss != [] && ReadAs(s.p, values, 0, pss) && IsFinal(c)
    requires s.p == p0.(escape := true, controlSequence := true, escapeOffset := s.p.escapeOffset, values := s.p.values, count := s.p.count, rrr := s.p.rrr)
    requires Ground(p0)
    ensures AtEnd(p0, p, pss, c)
    ensures var r := Command(tb, State(p, WithScroll(s.t, false)), c as char);
            PutChar(tb, s, c) == State(Ended(r.p), WithScroll(r.t, s.t.scrollOn))
  {
    CsiByte(tb, s, c);
    var p1 := Counted(s.p);
    var p2 := if p1.rrr then EndValue(p1) else p1;
    ControlIsFinish(tb, State(p1, s.t), c);
    FinishRuns(tb, State(p2, s.t), c as char);
    p := Padded(p2, c as char);
    PaddedIs(p2, c as char);
    EndRegisters(s.p, p2, p, pss, c, values, p0);
    hide Finish, ControlSequence, Command, PutChar, TermOk;
  }

  lemma EndRegisters(p: Parser, p2: Parser, p3: Parser, pss: seq<seq<nat>>, c: nat, values: seq<nat>, p0: Parser)
    requires ParserOk(p) && InCsi(p) && pss != [] && ReadAs(p, values, 0, pss) && IsFinal(c) && Ground(p0)
    requires p == p0.(escape := true, controlSequence := true, escapeOffset := p.escapeOffset, values := p.values, count := p.count, rrr := p.rrr)
    requires p2 == if p.rrr then EndValue(Counted(p)) else Counted(p)
    requires p3 == Padded(p2, c as char)
    ensures AtEnd(p0, p3, pss, c)
  {
    PaddedIs(p2, c as char);
    hide Padded, StyleOk, ValuesOk;
  }

  lemma ControlIsFinish(tb: Tables, s: State, c: nat)
    requires ParserOk(s.p) && !s.p.osc && TermOk(s.t) && |tb.col256| == 240 && IsFinal(c)
    ensures ControlSequence(tb, s, c as char) == Finish(tb, s.(p := if s.p.rrr then EndValue(s.p) else s.p), c as char)
  {
    hide Finish, TermOk, ParserOk;
  }

  lemma FinishRuns(tb: Tables, s: State, c: char)
    requires ParserOk(s.p) && !s.p.osc && !s.p.decPrivate && TermOk(s.t) && |tb.col256| == 240
    ensures var r := Command(tb, State(Padded(s.p, c), WithScroll(s.t, false)), c);
            Finish(tb, s, c) == State(Ended(r.p), WithScroll(r.t, s.t.scrollOn))
  {
    PaddedIs(s.p, c);
    hide Command, TermOk, ParserOk;
  }

  lemma PaddedIs(p: Parser, c: char)
    requires ParserOk(p)
    ensures Padded(p, c) == p.(values := Padded(p, c).values)
    ensures forall i :: 0 <= i < MAX_VALUES ==>
              Padded(p, c).values[i] == if i < p.count then p.values[i] else if c == 'J' || c == 'K' || c == 'q' then 0 else 1
  {}

  lemma FinalIsByte(pss: seq<seq<nat>>, c: nat)
    requires pss != [] && Bytes(ParamBytes(pss)) && c < 256
    ensures Bytes([c]) && Bytes([0x1B, 0x5B]) && Bytes(ParamBytes(pss) + [c]) && Bytes(Csi(pss, c))
  {
    hide ParamBytes;
  }

  /** A whole control sequence: the command of its final byte, with these parameters and scrolling off. */
  lemma CsiRuns(tb: Tables, s: State, pss: seq<seq<nat>>, c: nat) returns (p: Parser)
    requires Ok(s) && |tb.col256| == 240 && Ground(s.p) && pss != [] && AllDigits(pss) && |pss| <= MAX_VALUES && IsFinal(c)
    ensures Bytes(Csi(pss, c)) && AtEnd(s.p, p, pss, c)
    ensures var r := Command(tb, State(p, WithScroll(s.t, false)), c as char);
            Feed(tb, s, Csi(pss, c)) == State(Ended(r.p), WithScroll(r.t, s.t.scrollOn))
  {
    hide TermOk, Command, StyleOk, PutChar, Feed, ReadAs, AtEnd, ParserOk, Reading, AllDigits, ParamBytes, Bytes;
    ParamsAreBytes(pss);
    FinalIsByte(pss, c);
    CsiOpens(tb, s);
    var s1 := Feed(tb, s, [0x1B, 0x5B]);
    ReadingSize(s1.p, 0);
    ParamsRead(tb, s1, 0, pss);
    var s2 := Feed(tb, s1, ParamBytes(pss));
    assert InCsi(s2.p) && s2.t == s.t;
    p := FinalRuns(tb, s2, pss, c, s1.p.values, s.p);
    FeedOne(tb, s2, c);
    FeedConcat(tb, s1, ParamBytes(pss), [c]);
    FeedConcat(tb, s, [0x1B, 0x5B], ParamBytes(pss) + [c]);
  }
}
