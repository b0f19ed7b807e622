/** Inserting and deleting lines (kernel/src/flanterm/flanterm.c), and the editing control sequences as
    the bytes a client writes. */
module Editing {
  import opened Bits
  import opened Screen
  import opened Parser
  import opened Sequences

  // --- Lines -----------------------------------------------------------------------------------

  /** What `n` scrolls leave at column `x`, row `r`. */
  function ScrolledUp(t: Term, n: nat, x: nat, r: nat): Cell
    requires Sized(t) && Region(t) && x < t.cols && r < t.rows
  {
    if t.top <= r < t.bottom then (if r + n < t.bottom then At(t, x, r + n) else Blank(t)) else At(t, x, r)
  }

  lemma {:induction false} ScrollNAt(t: Term, n: nat, x: nat, r: nat)
    requires TermOk(t) && x < t.cols && r < t.rows
    ensures At(ScrollN(t, n), x, r) == ScrolledUp(t, n, x, r)
  {
    hide At, Blank, Scroll;
    if n > 0 {
      var t1 := ScrollN(t, n - 1);
      ScrollRows(t1, x, r);
      SameBlank(t, t1);
      ScrollNAt(t, n - 1, x, r);
      if t.top <= r < t.bottom - 1 {
        ScrollNAt(t, n - 1, x, r + 1);
      }
    }
  }

  /** `CSI M` scrolls the whole scroll region, wherever the cursor is. */
  lemma DeleteLinesAt(t: Term, n: nat, x: nat, r: nat)
    requires TermOk(t) && n < U32_SIZE && x < t.cols && r < t.rows
    ensures At(Edit(t, n, 'M'), x, r) == ScrolledUp(t, n, x, r)
  {
    ScrollNAt(t, Min(n, t.rows), x, r);
    hide At, Blank, ScrollN;
    EditLines(t, n);
  }

  lemma EditLines(t: Term, n: nat)
    requires TermOk(t) && n < U32_SIZE
    ensures Edit(t, n, 'M') == ScrollN(t, Min(n, t.rows))
    ensures Edit(t, n, 'L') == InsertLines(t, CursorY(t), n)
  {
    hide ScrollN, InsertLines, TermOk, Sized;
  }

  /** The lines below a deletion at row `y`: those of the region from `y` on move up by `n` and blank
      ones follow; outside the region nothing happens. */
  function LinesDeleted(t: Term, y: nat, n: nat, x: nat, r: nat): Cell
    requires Sized(t) && Region(t) && x < t.cols && r < t.rows
  {
    if t.top <= y <= r < t.bottom then (if r + n < t.bottom then At(t, x, r + n) else Blank(t)) else At(t, x, r)
  }

  /** Deleting lines at the cursor is what `CSI M` does on the first row of the region. */
  lemma DeleteLinesExactly(t: Term, n: nat, x: nat, r: nat)
    requires TermOk(t) && n < U32_SIZE && x < t.cols && r < t.rows && (n == 0 || CursorY(t) == t.top)
    ensures At(Edit(t, n, 'M'), x, r) == LinesDeleted(t, CursorY(t), n, x, r)
  {
    hide At, Blank, Edit;
    DeleteLinesAt(t, n, x, r);
  }

  /** The screen of `t` with a single mark, at the start of the scroll region. */
  ghost function Marked(t: Term): (t': Term)
    requires TermOk(t)
    ensures TermOk(t') && Same(t, t')
  {
    CellIndex(0, t.top, t.cols, t.rows);
    t.(screen := Blanks(|t.screen|, Blank(t))[t.top * t.cols := Cell(SPACE + 1, t.fg, t.bg)])
  }

  /** On any other row it also takes the first row of the region away, which is not among the lines to
      delete; this shows as soon as something stands there. */
  lemma DeleteLinesMisses(t: Term, n: nat)
    requires TermOk(t) && 0 < n < U32_SIZE && CursorY(t) != t.top
    ensures CursorY(Marked(t)) == CursorY(t)
    ensures At(Edit(Marked(t), n, 'M'), 0, t.top) != LinesDeleted(Marked(t), CursorY(t), n, 0, t.top) == At(Marked(t), 0, t.top)
  {
    var m := Marked(t);
    hide Edit;
    DeleteLinesAt(m, n, 0, t.top);
    MarkAt(t, t.top);
    if t.top + n < t.bottom {
      MarkAt(t, t.top + n);
    }
  }

  lemma MarkAt(t: Term, r: nat)
    requires TermOk(t) && r < t.rows
    ensures At(Marked(t), 0, r) == if r == t.top then Cell(SPACE + 1, t.fg, t.bg) else Blank(t)
  {
    CellIndex(0, r, t.cols, t.rows);
    CellIndex(0, t.top, t.cols, t.rows);
    if r != t.top {
      InRow(r * t.cols, 0, r, t.top, t.cols, t.top * t.cols);
      InRow(t.top * t.cols, 0, t.top, r, t.cols, r * t.cols);
    }
  }

  /** What `n` reverse scrolls with the top margin at row `y` leave: a margin below the region keeps
      blanking its own row. */
  function ScrolledDown(t: Term, y: nat, n: nat, x: nat, r: nat): Cell
    requires Sized(t) && Region(t) && x < t.cols && r < t.rows
  {
    if r == y && n > 0 then Blank(t)
    else if y < r < t.bottom then (if r >= y + n then At(t, x, r - n) else Blank(t))
    else At(t, x, r)
  }

  lemma {:induction false} RevScrollNAt(t: Term, n: nat, x: nat, r: nat)
    requires Sized(t) && Region(t) && x < t.cols && r < t.rows
    ensures At(RevScrollN(t, n), x, r) == ScrolledDown(t, t.top, n, x, r)
  {
    hide At, Blank, RevScroll;
    if n > 0 {
      var t1 := RevScrollN(t, n - 1);
      RevScrollRows(t1, x, r);
      SameBlank(t, t1);
      RevScrollNAt(t, n - 1, x, r);
      if t.top < r < t.bottom {
        RevScrollNAt(t, n - 1, x, r - 1);
      }
    }
  }

  /** `CSI L` cell by cell. */
  lemma InsertLinesAt(t: Term, n: nat, x: nat, r: nat)
    requires TermOk(t) && n < U32_SIZE && x < t.cols && r < t.rows
    ensures At(Edit(t, n, 'L'), x, r) == ScrolledDown(t, CursorY(t), n, x, r)
  {
    var y := CursorY(t);
    var t1 := t.(top := y);
    RevScrollNAt(t1, Min(n, t.rows), x, r);
    EditLines(t, n);
    assert ScrolledDown(t1, y, Min(n, t.rows), x, r) == ScrolledDown(t, y, n, x, r) by {
      if y < r < t.bottom && r >= y + n {
        assert At(t1, x, r - n) == At(t, x, r - n);
      }
    }
    hide Blank, RevScrollN;
    assert At(InsertLines(t, y, n), x, r) == At(RevScrollN(t1, Min(n, t.rows)), x, r);
  }

  /** The lines of the region from `y` on move down by `n` and blank ones come in; outside the region
      nothing happens. */
  function LinesInserted(t: Term, y: nat, n: nat, x: nat, r: nat): Cell
    requires Sized(t) && Region(t) && x < t.cols && r < t.rows
  {
    if t.top <= y <= r < t.bottom then (if r >= y + n then At(t, x, r - n) else Blank(t)) else At(t, x, r)
  }

  /** Inserting lines at the cursor is what `CSI L` does inside the scroll region. */
  lemma InsertLinesExactly(t: Term, n: nat, x: nat, r: nat)
    requires TermOk(t) && n < U32_SIZE && x < t.cols && r < t.rows && (n == 0 || t.top <= CursorY(t) < t.bottom)
    ensures At(Edit(t, n, 'L'), x, r) == LinesInserted(t, CursorY(t), n, x, r)
  {
    hide At, Blank, Edit;
    InsertLinesAt(t, n, x, r);
  }

  /** Outside it the source still blanks the cursor row. */
  lemma InsertLinesMisses(t: Term, n: nat, x: nat)
    requires TermOk(t) && 0 < n < U32_SIZE && x < t.cols && !(t.top <= CursorY(t) < t.bottom)
    ensures At(Edit(t, n, 'L'), x, CursorY(t)) == Blank(t)
    ensures LinesInserted(t, CursorY(t), n, x, CursorY(t)) == At(t, x, CursorY(t))
  {
    hide At, Blank, Edit;
    InsertLinesAt(t, n, x, CursorY(t));
  }

  // --- Bytes -----------------------------------------------------------------------------------

  /** Outside any sequence. */
  predicate Ground(p: Parser) {
    !p.escape && !p.discardNext && p.remaining == 0 && p.gSelect == 0 && !p.decPrivate
  }

  /** In a control sequence after `ESC [`. */
  predicate InControl(p: Parser) {
    && p.escape && p.controlSequence && !p.osc && !p.discardNext && p.remaining == 0 && p.gSelect == 0 && !p.decPrivate
    && p.count == 0
  }

  lemma {:induction false} FeedOne(tb: Tables, s: State, c: nat)
    requires Ok(s) && |tb.col256| == 240 && c < 256
    ensures Feed(tb, s, [c]) == PutChar(tb, s, c)
  {
    hide PutChar, Ok;
    assert [c][1..] == [];
    assert Feed(tb, PutChar(tb, s, c), []) == PutChar(tb, s, c);
  }

  /** `ESC [` */
  lemma OpenSequence(tb: Tables, s: State)
    requires Ok(s) && |tb.col256| == 240 && Ground(s.p)
    ensures var s1 := PutChar(tb, PutChar(tb, s, 0x1B), 0x5B);
            s1.t == s.t && InControl(s1.p) && !s1.p.rrr && s1.p.values[0] == 0
  {
    hide TermOk;
    var s1 := PutChar(tb, s, 0x1B);
    assert s1 == s.(p := Escaping(s.p));
    assert PutChar(tb, s1, 0x5B) == Escape(tb, s1, '[');
    assert Escape(tb, s1, '[') == Opener(State(Counted(s1.p), s1.t), '[');
  }

  lemma DigitByte(tb: Tables, s: State, d: nat)
    requires Ok(s) && |tb.col256| == 240 && InControl(s.p) && d < 10
    ensures var s1 := PutChar(tb, s, 48 + d);
            s1.t == s.t && InControl(s1.p) && s1.p.rrr && s1.p.values[0] == (s.p.values[0] * 10 + d) % U32_SIZE
  {
    hide TermOk, Finish;
    var c := (48 + d) as char;
    var p := Counted(s.p);
    assert PutChar(tb, s, 48 + d) == Escape(tb, s, c);
    assert Escape(tb, s, c) == ControlSequence(tb, State(p, s.t), c);
    assert ControlSequence(tb, State(p, s.t), c) == State(Digit(p, d), s.t);
  }

  /** The value of the parameter the digits `ds` make, read after `acc`. */
  function Parameter(ds: seq<nat>, acc: nat): nat {
    if ds == [] then acc else Parameter(ds[1..], (acc * 10 + ds[0]) % U32_SIZE)
  }

  ghost predicate Digits(ds: seq<nat>) {
    forall i :: 0 <= i < |ds| ==> ds[i] < 10
  }

  function DigitBytes(ds: seq<nat>): (bs: seq<nat>)
    ensures |bs| == |ds| && forall i :: 0 <= i < |bs| ==> bs[i] == 48 + ds[i]
  {
    seq(|ds|, i requires 0 <= i < |ds| => 48 + ds[i])
  }

  lemma {:induction false} DigitsRead(tb: Tables, s: State, ds: seq<nat>)
    requires Ok(s) && |tb.col256| == 240 && InControl(s.p) && Digits(ds)
    ensures Bytes(DigitBytes(ds))
    ensures var s1 := Feed(tb, s, DigitBytes(ds));
            s1.t == s.t && InControl(s1.p) && s1.p.rrr == (s.p.rrr || ds != []) && s1.p.values[0] == Parameter(ds, s.p.values[0])
    decreases |ds|
  {
    hide PutChar, TermOk, InControl;
    if ds != [] {
      DigitByte(tb, s, ds[0]);
      DigitsRead(tb, PutChar(tb, s, 48 + ds[0]), ds[1..]);
      assert DigitBytes(ds)[1..] == DigitBytes(ds[1..]);
    }
  }

  /** A missing parameter. */
  function Default(c: char): nat {
    if c in "JKq" then 0 else 1
  }

  /** The effect of an editing command on the screen: scrolling is off while it runs. */
  function Edited(t: Term, n: nat, c: char): (t': Term)
    requires TermOk(t) && n < U32_SIZE
    ensures TermOk(t')
  {
    WithScroll(Edit(WithScroll(t, false), n, c), t.scrollOn)
  }

  lemma FinalByte(tb: Tables, s: State, c: char)
    requires Ok(s) && |tb.col256| == 240 && InControl(s.p) && c in EDITS
    ensures var n := if s.p.rrr then s.p.values[0] else Default(c);
            n < U32_SIZE && PutChar(tb, s, c as nat).t == Edited(s.t, n, c)
    ensures Ground(PutChar(tb, s, c as nat).p)
  {
    hide TermOk, Edit, StyleOk, ValuesOk, Finish;
    var p := Counted(s.p);
    var p1 := if p.rrr then EndValue(p) else p;
    assert PutChar(tb, s, c as nat) == Escape(tb, s, c);
    assert Escape(tb, s, c) == ControlSequence(tb, State(p, s.t), c);
    assert ControlSequence(tb, State(p, s.t), c) == Finish(tb, State(p1, s.t), c);
    FinishEdit(tb, State(p1, s.t), c);
  }

  lemma FinishEdit(tb: Tables, s: State, c: char)
    requires ParserOk(s.p) && TermOk(s.t) && |tb.col256| == 240 && c in EDITS && s.p.count <= 1
    requires s.p.escape && s.p.controlSequence && !s.p.osc && !s.p.discardNext && s.p.remaining == 0 && s.p.gSelect == 0 && !s.p.decPrivate
    ensures var n := if s.p.count == 1 then s.p.values[0] else Default(c);
            n < U32_SIZE && Finish(tb, s, c).t == Edited(s.t, n, c)
    ensures Ground(Finish(tb, s, c).p)
  {
    hide TermOk, Edit, StyleOk;
    var p := Padded(s.p, c);
    assert p.values[0] == if s.p.count == 1 then s.p.values[0] else Default(c);
  }

  /** The bytes of a control sequence with at most one parameter. */
  function CsiBytes(ds: seq<nat>, c: char): (bs: seq<nat>)
    requires c as nat < 256
  {
    [0x1B, 0x5B] + DigitBytes(ds) + [c as nat]
  }

  /** A client that writes `ESC [ digits c` outside any sequence gets exactly the editing command `c`
      with that number, or with the default if there are no digits. */
  lemma EditBytes(tb: Tables, s: State, ds: seq<nat>, c: char)
    requires Ok(s) && |tb.col256| == 240 && Ground(s.p) && Digits(ds) && c in EDITS
    ensures Bytes(CsiBytes(ds, c))
    ensures var s1, n := Feed(tb, s, CsiBytes(ds, c)), if ds == [] then Default(c) else Parameter(ds, 0);
            n < U32_SIZE && s1.t == Edited(s.t, n, c) && Ground(s1.p)
  {
    hide PutChar, Ok, Edited, InControl, Ground;
    var open := PutChar(tb, PutChar(tb, s, 0x1B), 0x5B);
    OpenSequence(tb, s);
    DigitsRead(tb, open, ds);
    var read := Feed(tb, open, DigitBytes(ds));
    FinalByte(tb, read, c);
    FeedOne(tb, read, c as nat);
    FeedConcat(tb, open, DigitBytes(ds), [c as nat]);
    FeedTwo(tb, s, 0x1B, 0x5B);
    FeedConcat(tb, s, [0x1B, 0x5B], DigitBytes(ds) + [c as nat]);
    assert CsiBytes(ds, c) == [0x1B, 0x5B] + (DigitBytes(ds) + [c as nat]);
    ParameterBound(ds, 0);
  }

  lemma FeedTwo(tb: Tables, s: State, a: nat, b: nat)
    requires Ok(s) && |tb.col256| == 240 && a < 256 && b < 256
    ensures Feed(tb, s, [a, b]) == PutChar(tb, PutChar(tb, s, a), b)
  {
    hide PutChar, Ok;
    FeedOne(tb, PutChar(tb, s, a), b);
    assert [a, b][1..] == [b];
  }

  lemma {:induction false} ParameterBound(ds: seq<nat>, acc: nat)
    requires acc < U32_SIZE
    ensures Parameter(ds, acc) < U32_SIZE
    decreases |ds|
  {
    if ds != [] {
      ParameterBound(ds[1..], (acc * 10 + ds[0]) % U32_SIZE);
    }
  }

  /** The decimal digits of a number, the first one first. */
  function Decimal(n: nat): (ds: seq<nat>)
    ensures ds != [] && forall i :: 0 <= i < |ds| ==> ds[i] < 10
  {
    if n < 10 then [n] else Decimal(n / 10) + [n % 10]
  }

  lemma {:induction false} ParameterAppend(ds: seq<nat>, d: nat, acc: nat)
    ensures Parameter(ds + [d], acc) == (Parameter(ds, acc) * 10 + d) % U32_SIZE
    decreases |ds|
  {
    if ds == [] {
      assert [d][1..] == [];
      assert Parameter([d], acc) == Parameter([], (acc * 10 + d) % U32_SIZE);
      assert [] + [d] == [d];
    } else {
      assert (ds + [d])[1..] == ds[1..] + [d];
      ParameterAppend(ds[1..], d, (acc * 10 + ds[0]) % U32_SIZE);
    }
  }

  /** Every 32-bit number can be written. */
  lemma {:induction false} DecimalRead(n: nat)
    requires n < U32_SIZE
    ensures Parameter(Decimal(n), 0) == n
  {
    if n < 10 {
      assert [n][1..] == [];
      assert Parameter([n], 0) == Parameter([], n);
    } else {
      DecimalRead(n / 10);
      ParameterAppend(Decimal(n / 10), n % 10, 0);
    }
  }

  /** `ESC [ n P`: with the condition of `DeletesChars` the bytes delete `n` characters at the cursor. */
  lemma DeleteBytes(tb: Tables, s: State, n: nat, j: nat, r: nat)
    requires Ok(s) && |tb.col256| == 240 && Ground(s.p) && n < U32_SIZE && j < s.t.cols && r < s.t.rows
    requires DeletesChars(s.t, CursorX(s.t), CursorY(s.t), n)
    ensures Bytes(CsiBytes(Decimal(n), 'P'))
    ensures var t1, x, y := Feed(tb, s, CsiBytes(Decimal(n), 'P')).t, CursorX(s.t), CursorY(s.t);
            && t1.cols == s.t.cols && t1.rows == s.t.rows
            && At(t1, j, r) == if r != y || j < x then At(s.t, j, r) else if j + n < s.t.cols then At(s.t, j + n, y) else Blank(s.t)
  {
    hide Decimal, Feed, Edited, TermOk, Ground, DeletesChars, DeleteChars, At;
    EditBytes(tb, s, Decimal(n), 'P');
    DecimalRead(n);
    EditedDelete(s.t, n, j, r);
  }

  lemma EditedDelete(t: Term, n: nat, j: nat, r: nat)
    requires TermOk(t) && n < U32_SIZE && j < t.cols && r < t.rows && DeletesChars(t, CursorX(t), CursorY(t), n)
    ensures var t1, x, y := Edited(t, n, 'P'), CursorX(t), CursorY(t);
            && t1.cols == t.cols && t1.rows == t.rows
            && At(t1, j, r) == if r != y || j < x then At(t, j, r) else if j + n < t.cols then At(t, j + n, y) else Blank(t)
  {
    hide DeleteChars, At, TermOk;
    var t0 := WithScroll(t, false);
    TermFacts(t0);
    var x, y := CursorX(t), CursorY(t);
    DeleteCharsExactly(t0, x, y, n, j, r);
    Rescrolled(t, false, j, r);
    if r == y && j + n < t.cols {
      Rescrolled(t, false, j + n, y);
    }
    EditDelete(t0, n);
    Rescrolled(DeleteChars(t0, x, y, n), t.scrollOn, j, r);
  }

  lemma EditDelete(t: Term, n: nat)
    requires TermOk(t) && n < U32_SIZE
    ensures Edit(t, n, 'P') == DeleteChars(t, CursorX(t), CursorY(t), n)
  {
    hide DeleteChars, TermOk, Sized;
  }

  lemma Rescrolled(t: Term, on: bool, j: nat, r: nat)
    requires TermOk(t) && j < t.cols && r < t.rows
    ensures At(WithScroll(t, on), j, r) == At(t, j, r) && Blank(WithScroll(t, on)) == Blank(t)
    ensures CursorX(WithScroll(t, on)) == CursorX(t) && CursorY(WithScroll(t, on)) == CursorY(t)
  {}

  // --- A pending wrap is reached ---------------------------------------------------------------

  /** The letter A, `n` times. */
  function Letters(n: nat): (bs: seq<nat>)
    ensures |bs| == n && forall i :: 0 <= i < n ==> bs[i] == 0x41
  {
    seq(n, _ => 0x41)
  }

  lemma LetterByte(tb: Tables, s: State)
    requires Ok(s) && |tb.col256| == 240 && Ground(s.p) && !s.p.insertMode && s.p.style.charset == 0 && s.p.charsets[0] == 0
    requires OnScreen(s.t)
    ensures PutChar(tb, s, 0x41) == s.(t := Put(s.t, Cell(0x41, s.t.fg, s.t.bg), s.t.x, s.t.y).(x := s.t.x + 1))
  {
    hide TermOk;
    assert PutChar(tb, s, 0x41) == Plain(tb, s, 0x41);
    assert Glyph(tb, s.p, 0x41) == 0x41;
    assert Plain(tb, s, 0x41) == s.(t := Show(s.t, false, 0x41));
    ShowLetter(s.t);
  }

  lemma ShowLetter(t: Term)
    requires TermOk(t) && OnScreen(t)
    ensures Show(t, false, 0x41) == Put(t, Cell(0x41, t.fg, t.bg), t.x, t.y).(x := t.x + 1)
  {
    assert PutN(t, 0x41, 0) == t;
    assert PutN(t, 0x41, 1) == RawPut(PutN(t, 0x41, 0), 0x41);
    assert Wrap(t) == t;
  }

  /** `n` letters in the first row of an otherwise untouched screen, the cursor behind them. */
  ghost predicate Lettered(s0: State, s: State, n: nat) {
    && s.p == s0.p && Same(s0.t, s.t) && TermOk(s.t) && s.t.x == n && s.t.y == 0
    && forall x: nat :: x < s.t.cols ==> At(s.t, x, 0) == Cell(if x < n then 0x41 else SPACE, s.t.fg, s.t.bg)
  }

  lemma LetterStep(tb: Tables, s0: State, s: State, n: nat)
    requires Ok(s) && |tb.col256| == 240 && Ground(s.p) && !s.p.insertMode && s.p.style.charset == 0 && s.p.charsets[0] == 0
    requires Lettered(s0, s, n) && n < s.t.cols
    ensures Lettered(s0, PutChar(tb, s, 0x41), n + 1)
  {
    hide PutChar, At, TermOk;
    var c := Cell(0x41, s.t.fg, s.t.bg);
    TermFacts(s.t);
    LetterByte(tb, s);
    var t1 := Put(s.t, c, n, 0).(x := n + 1);
    forall x: nat | x < s.t.cols ensures At(t1, x, 0) == Cell(if x < n + 1 then 0x41 else SPACE, s.t.fg, s.t.bg) {
      PutCell(s.t, c, n, 0, x, 0);
      LetterAt(s.t, n + 1, x);
    }
    LetterAt(s.t, n + 1, n);
  }

  /** Any number of letters that fit in the first row of a fresh screen. */
  lemma {:induction false} LettersPrinted(tb: Tables, cols: nat, rows: nat, palette: Palette, n: nat)
    requires 0 < cols < 0x8000_0000 && 0 < rows < 0x8000_0000 && PaletteOk(palette) && |tb.col256| == 240 && n <= cols
    ensures Ok(Start(cols, rows, palette))
    ensures Lettered(Start(cols, rows, palette), Feed(tb, Start(cols, rows, palette), Letters(n)), n)
  {
    StartOk(cols, rows, palette);
    var s0 := Start(cols, rows, palette);
    if n == 0 {
      forall x: nat | x < cols ensures At(s0.t, x, 0) == Cell(SPACE, palette.fg, NO_COLOUR) {
        FreshCell(cols, rows, palette, x);
      }
    } else {
      StartGround(cols, rows, palette);
      hide Feed, PutChar, Ok, Lettered, Start, Ground, Letters;
      LettersPrinted(tb, cols, rows, palette, n - 1);
      var s := Feed(tb, s0, Letters(n - 1));
      assert Letters(n) == Letters(n - 1) + [0x41];
      FeedConcat(tb, s0, Letters(n - 1), [0x41]);
      FeedOne(tb, s, 0x41);
      LetteredFacts(s0, s, n - 1);
      LetterStep(tb, s0, s, n - 1);
    }
  }

  lemma LetteredFacts(s0: State, s: State, n: nat)
    requires Lettered(s0, s, n)
    ensures s.p == s0.p && s.t.cols == s0.t.cols
  {}

  lemma StartGround(cols: nat, rows: nat, palette: Palette)
    ensures var s := Start(cols, rows, palette);
            Ground(s.p) && !s.p.insertMode && s.p.style.charset == 0 && |s.p.charsets| == 2 && s.p.charsets[0] == 0 && s.t.cols == cols
  {}

  lemma LetterAt(t: Term, n: nat, x: nat)
    requires TermOk(t) && t.x + 1 == n <= t.cols && t.y == 0 && x < t.cols
    ensures var t1 := Put(t, Cell(0x41, t.fg, t.bg), t.x, t.y);
            Same(t, t1.(x := n)) && t1.y == 0 && At(t1.(x := n), x, 0) == At(t1, x, 0)
  {}

  lemma FreshCell(cols: nat, rows: nat, palette: Palette, x: nat)
    requires 0 < cols < 0x8000_0000 && 0 < rows < 0x8000_0000 && PaletteOk(palette) && x < cols
    ensures var t := Start(cols, rows, palette).t; Sized(t) && At(t, x, 0) == Cell(SPACE, palette.fg, NO_COLOUR)
  {
    CellIndex(x, 0, cols, rows);
  }

  /** On every fresh screen of at least two columns: print a full row of A, then `ESC [ K`. The cell
      the cursor is reported on, which is to be blanked, still shows an A. */
  lemma EraseLineFails(tb: Tables, cols: nat, rows: nat, palette: Palette)
    requires 2 <= cols < 0x8000_0000 && 0 < rows < 0x8000_0000 && PaletteOk(palette) && |tb.col256| == 240
    ensures Ok(Start(cols, rows, palette)) && Bytes(Letters(cols) + CsiBytes([], 'K'))
    ensures var t := Feed(tb, Start(cols, rows, palette), Letters(cols) + CsiBytes([], 'K')).t;
            t.cols == cols && t.rows == rows && CursorX(t) == cols - 1 && CursorY(t) == 0
            && At(t, cols - 1, 0) == Cell(0x41, palette.fg, NO_COLOUR)
  {
    hide Feed, At, TermOk;
    StartOk(cols, rows, palette);
    var s0 := Start(cols, rows, palette);
    LettersPrinted(tb, cols, rows, palette, cols);
    var s := Feed(tb, s0, Letters(cols));
    assert Ground(s.p);
    EditBytes(tb, s, [], 'K');
    FeedConcat(tb, s0, Letters(cols), CsiBytes([], 'K'));
    EditedLine(s.t);
  }

  lemma EditedLine(t: Term)
    requires TermOk(t) && t.x == t.cols > 1 && t.y == 0
    ensures var t1 := Edited(t, 0, 'K');
            && t1.cols == t.cols && t1.rows == t.rows && CursorX(t1) == t.cols - 1 && CursorY(t1) == 0
            && At(t1, t.cols - 1, 0) == At(t, t.cols - 1, 0)
  {
    hide EraseLine, At, TermOk;
    var t0 := WithScroll(t, false);
    TermFacts(t0);
    EraseLineMisses(t0);
    Rescrolled(t, false, t.cols - 1, 0);
    EditErase(t0);
    Rescrolled(EraseLine(t0, CursorX(t0), CursorY(t0), 0), t.scrollOn, t.cols - 1, 0);
  }

  lemma EditErase(t: Term)
    requires TermOk(t)
    ensures var t1 := EraseLine(t, CursorX(t), CursorY(t), 0);
            Edit(t, 0, 'K') == t1 && CursorX(t1) == CursorX(t) && CursorY(t1) == CursorY(t)
  {
    hide PutN;
  }
}
