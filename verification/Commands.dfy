/** What control and escape sequences do (kernel/src/flanterm/flanterm.c), from their bytes to cells, cursor,
    colours and modes. */
module Commands {
  import opened Bits
  import opened Screen
  import opened Parser
  import opened Sequences
  import opened Editing
  import opened Controls
  import Utf8

  // --- Cursor movement -------------------------------------------------------------------------

  function AtMost(a: nat, b: nat): nat {
    if a <= b then a else b
  }

  /** The 1-based position `a` of `n`; 0 counts from the other end. */
  function LastForZero(a: nat, n: nat): nat
    requires n > 0
  {
    if a == 0 then n - 1 else AtMost(a - 1, n - 1)
  }

  function FirstForZero(a: nat, n: nat): nat
    requires n > 0
  {
    if a == 0 then 0 else AtMost(a - 1, n - 1)
  }

  /** A position that was saved; the source takes 2^31 and more for negative where it has to clamp. */
  function Clamped(v: nat, n: nat): nat
    requires n > 0
  {
    if v < n then v else if v % 0x1_0000_0000 >= 0x8000_0000 then 0 else n - 1
  }

  /** Column and row that a sequence ending in `c` with parameters `a` and `b` leads to. Upward moves stop at
      the top of the scroll region unless they start above it, downward ones at its last row unless they start
      below the row behind it; from that row they lead back into the region. */
  function Goal(t: Term, savedX: nat, savedY: nat, c: char, a: nat, b: nat): (nat, nat)
    requires t.cols > 0 && t.rows > 0 && t.bottom > 0
  {
    var x, y := Col(t), Row(t);
    var up, down := if a < y then y - a else 0, AtMost(y + a, t.rows - 1);
    var upRow := if up < t.top <= y then t.top else up;
    var downRow := if y <= t.bottom <= down then t.bottom - 1 else down;
    if c == 'A' then (x, upRow)
    else if c == 'F' then (0, upRow)
    else if c == 'B' || c == 'e' then (x, downRow)
    else if c == 'E' then (0, downRow)
    else if c == 'C' || c == 'a' then (AtMost(x + a, t.cols - 1), y)
    else if c == 'D' then (if a < x then x - a else 0, y)
    else if c == 'd' then (x, LastForZero(a, t.rows))
    else if c == 'G' || c == '`' then (LastForZero(a, t.cols), y)
    else if c == 'H' || c == 'f' then (FirstForZero(b, t.cols), FirstForZero(a, t.rows))
    else (Clamped(savedX, t.cols), Clamped(savedY, t.rows))
  }

  predicate IsMove(c: char) {
    c in {'A', 'F', 'B', 'e', 'E', 'C', 'a', 'D', 'd', 'G', '`', 'H', 'f', 'u'}
  }

  lemma MoveCommand(tb: Tables, s: State, c: char)
    requires ParserOk(s.p) && TermOk(s.t) && |tb.col256| == 240 && IsMove(c)
    ensures CursorX(s.t) < s.t.cols && CursorY(s.t) < s.t.rows
    ensures var to := Move(s.t, CursorX(s.t), CursorY(s.t), s.p.values, s.p.savedX, s.p.savedY, c);
            Command(tb, s, c) == State(WithValues(s.p, to.values), Place(s.t, to.x, to.y))
  {
    TermFacts(s.t);
    assert c in MOVES && c !in EDITS;
    hide TermOk, Move, Place, ParserOk;
  }

  lemma VerticalGoal(t: Term, a: nat)
    requires TermOk(t)
    ensures CursorX(t) == Col(t) && CursorY(t) == Row(t) < t.rows
    ensures var y := Row(t);
            && Up(t, y, Min(a, y)) == (var up := if a < y then y - a else 0; if up < t.top <= y then t.top else up)
            && Down(t, y, Min(a, t.rows - 1 - y)) == (var down := AtMost(y + a, t.rows - 1); if y <= t.bottom <= down then t.bottom - 1 else down)
  {}

  lemma BasedGoal(a: nat, n: nat)
    requires a < U32_SIZE && 0 < n < 0x8000_0000
    ensures OneBased(a, n) == LastForZero(a, n) && ZeroBased(a, n) == FirstForZero(a, n)
  {}

  lemma MoveGoal(t: Term, values: seq<nat>, savedX: nat, savedY: nat, c: char)
    requires TermOk(t) && ValuesOk(values) && IsMove(c)
    ensures CursorX(t) < t.cols && CursorY(t) < t.rows && t.cols > 0 && t.rows > 0 && t.bottom > 0
    ensures var to, goal := Move(t, CursorX(t), CursorY(t), values, savedX, savedY, c), Goal(t, savedX, savedY, c, values[0], values[1]);
            if c == 'u' then to.x == savedX && to.y == savedY else (to.x, to.y) == goal && to.x < t.cols && to.y < t.rows
  {
    TermFacts(t);
    VerticalGoal(t, values[0]);
    BasedGoal(values[0], t.rows);
    BasedGoal(values[0], t.cols);
    BasedGoal(values[1], t.cols);
    hide Up, Down, OneBased, ZeroBased, LastForZero, FirstForZero, CursorX, CursorY, Sized;
  }

  lemma PlaceIs(t: Term, x: nat, y: nat)
    requires TermOk(t)
    ensures t.cols > 0 && t.rows > 0 && Place(t, x, y) == t.(x := Clamped(x, t.cols), y := Clamped(y, t.rows))
  {}

  /** A cursor movement changes the cursor and nothing else that can be seen. */
  lemma MoveSequence(tb: Tables, s: State, pss: seq<seq<nat>>, c: char)
    requires Ok(s) && |tb.col256| == 240 && Ground(s.p) && pss != [] && AllDigits(pss) && |pss| <= MAX_VALUES && IsMove(c)
    ensures Bytes(Csi(pss, c as nat)) && s.t.cols > 0 && s.t.rows > 0 && s.t.bottom > 0
    ensures var s', goal := Feed(tb, s, Csi(pss, c as nat)), Goal(s.t, s.p.savedX, s.p.savedY, c, ValueAt(pss, 0, c), ValueAt(pss, 1, c));
            s'.t == s.t.(x := goal.0, y := goal.1) && Aside(s.p, s'.p)
  {
    var p := CsiRuns(tb, s, pss, c as nat);
    var t := WithScroll(s.t, false);
    EndFacts(s.p, p, pss, c);
    hide Feed, AtEnd, Command, Move, Place, ParserOk, TermOk, Goal, AllDigits, Csi, ValueAt, ValuesOk, IsMove;
    MoveCommand(tb, State(p, t), c);
    MoveGoal(t, p.values, p.savedX, p.savedY, c);
    var to := Move(t, CursorX(t), CursorY(t), p.values, p.savedX, p.savedY, c);
    PlaceIs(t, to.x, to.y);
    GoalScroll(s.t, p.savedX, p.savedY, c, p.values[0], p.values[1]);
    EndAside(s.p, WithValues(p, to.values), p);
  }

  lemma GoalScroll(t: Term, savedX: nat, savedY: nat, c: char, a: nat, b: nat)
    requires TermOk(t)
    ensures t.cols > 0 && t.rows > 0 && t.bottom > 0
    ensures Goal(WithScroll(t, false), savedX, savedY, c, a, b) == Goal(t, savedX, savedY, c, a, b)
    ensures c == 'u' ==> Goal(t, savedX, savedY, c, a, b) == (Clamped(savedX, t.cols), Clamped(savedY, t.rows))
    ensures forall v: nat :: v < t.cols ==> Clamped(v, t.cols) == v
    ensures forall v: nat :: v < t.rows ==> Clamped(v, t.rows) == v
  {}

  lemma EndFacts(p: Parser, p': Parser, pss: seq<seq<nat>>, c: char)
    requires pss != [] && (c as nat) < 0x80 && AtEnd(p, p', pss, c as nat)
    ensures ParserOk(p') && ValuesOk(p'.values) && p'.savedX == p.savedX && p'.savedY == p.savedY && p'.style == p.style
    ensures p'.values[0] == ValueAt(pss, 0, c) && p'.values[1] == ValueAt(pss, 1, c)
    ensures p' == p.(escape := true, controlSequence := true, escapeOffset := p'.escapeOffset, values := p'.values, count := p'.count, rrr := false)
    ensures p'.count == Given(pss) && !p'.osc
  {}

  lemma EndAside(p: Parser, p2: Parser, p': Parser)
    requires ParserOk(p) && Ground(p) && ParserOk(p2) && !p2.osc && p2 == p'.(values := p2.values)
    requires p' == p.(escape := true, controlSequence := true, escapeOffset := p'.escapeOffset, values := p'.values, count := p'.count, rrr := false)
    ensures Aside(p, Ended(p2))
  {}

  // --- Editing ---------------------------------------------------------------------------------

  /** Cell `(j, r)` after the editing sequence ending in `c` with number `n`. */
  function EditedCell(t: Term, c: char, n: nat, j: nat, r: nat): Cell
    requires Sized(t) && Region(t) && j < t.cols && r < t.rows
  {
    var x, y := Col(t), Row(t);
    var blank, same := Cell(0x20, t.fg, t.bg), At(t, j, r);
    var before, after := r < y || (r == y && j <= x), r > y || (r == y && j >= x);
    if c == 'J' then
      if (n == 0 && after) || (n == 1 && before) || n == 2 || n == 3 then blank else same
    else if c == 'K' then
      if r == y && ((n == 0 && j >= x) || (n == 1 && j < x) || n == 2) then blank else same
    else if c == 'X' then if r == y && x <= j < x + n then blank else same
    else if c == '@' then
      if r != y || j < x then same else if n == 0 || j < x + n then blank else At(t, j - n, r)
    else if c == 'P' then
      if r != y || j < x then same else if j + n < t.cols then At(t, j + n, r) else blank
    else if c == 'L' then ScrolledDown(t, y, n, j, r)
    else ScrolledUp(t, n, j, r)
  }

  /** When the sequence reaches the cells it is meant to. */
  predicate Reaches(t: Term, c: char, n: nat)
    requires t.cols > 0 && t.rows > 0
  {
    && (c == 'J' && n == 0 ==> ErasesBelow(t))
    && (c == 'J' && n == 1 ==> Row(t) < t.bottom && Row(t) < t.cols)
    && (c == 'K' && n == 0 ==> ErasesLine(t))
    && (c == 'X' ==> ErasesChars(t, n))
    && (c == 'P' ==> DeletesChars(t, Col(t), Row(t), n))
  }

  /** Erasing and editing within the row bring the cursor back onto the screen; the others leave it. */
  predicate BringsBack(c: char, n: nat) {
    (c == 'J' && n < 2) || (c == 'K' && n < 3) || c == 'X' || c == '@' || c == 'P'
  }

  lemma CursorIs(t: Term)
    requires TermOk(t)
    ensures CursorX(t) == Col(t) < t.cols && CursorY(t) == Row(t) < t.rows && Blank(t) == Cell(0x20, t.fg, t.bg)
  {}

  /** Cells by their index. */
  lemma ErasedPlace(t: Term, o: nat, n: nat, x: nat, y: nat, i: nat, j: nat, r: nat)
    requires Sized(t) && o + n <= |t.screen| && IsCell(t, i, j, r)
    ensures var t1 := Erased(t, o, n).(x := x, y := y);
            Sized(t1) && t1.cols == t.cols && t1.rows == t.rows && At(t1, j, r) == if o <= i < o + n then Blank(t) else At(t, j, r)
  {
    ErasedIndex(t, o, n, i);
    var t1 := Erased(t, o, n).(x := x, y := y);
    CellAt(t1, i, j, r);
    CellAt(t, i, j, r);
    hide At, Blank;
  }

  /** The order of indices is that of rows and columns. */
  lemma IndexOrder(t: Term, o: nat, x: nat, y: nat, i: nat, j: nat, r: nat)
    requires IsCell(t, o, x, y) && IsCell(t, i, j, r)
    ensures i < o <==> r < y || (r == y && j < x)
  {
    InRow(i, j, r, y, t.cols, y * t.cols);
    InRow(o, x, y, r, t.cols, r * t.cols);
  }

  lemma ScreenCell(t: Term, n: nat, j: nat, r: nat)
    requires TermOk(t) && j < t.cols && r < t.rows && Reaches(t, 'J', n)
    ensures At(EraseScreen(t, Col(t), Row(t), n), j, r) == EditedCell(t, 'J', n, j, r)
  {
    var x, y := Col(t), Row(t);
    CursorIs(t);
    var o := CellOf(t, x, y);
    var i := CellOf(t, j, r);
    IndexOrder(t, o, x, y, i, j, r);
    IndexOrder(t, i, j, r, o, x, y);
    if n == 0 {
      EraseBelow(t, o);
      ErasedPlace(t, o, |t.screen| - o, t.x, t.y, i, j, r);
    } else if n == 1 {
      EraseAbove(t, x, y, o);
      ErasedPlace(t, 0, o + 1, x, y, i, j, r);
    } else if n < 4 {
      ClearedCell(t, i, j, r);
    }
    hide At, Erased, Blank, IsCell, PutN, Place, Cleared, CellsFrom;
  }

  lemma ClearedCell(t: Term, i: nat, j: nat, r: nat)
    requires TermOk(t) && IsCell(t, i, j, r)
    ensures At(Cleared(t), j, r) == Blank(t)
  {}

  lemma LineEndCell(t: Term, j: nat, r: nat)
    requires TermOk(t) && j < t.cols && r < t.rows && ErasesLine(t)
    ensures At(EraseLine(t, Col(t), Row(t), 0), j, r) == EditedCell(t, 'K', 0, j, r)
  {
    var x, y := Col(t), Row(t);
    CursorIs(t);
    hide At, Erased, Blank, IsCell, PutN, Place, EraseLine, ErasesLine;
    var i := CellOf(t, j, r);
    var o := CellOf(t, x, y);
    EraseLineEnd(t, o);
    RowRange(t, o, t.cols - x, x, y, i, j, r);
    ErasedPlace(t, o, t.cols - x, x, y, i, j, r);
  }

  lemma LineStartCell(t: Term, n: nat, j: nat, r: nat)
    requires TermOk(t) && j < t.cols && r < t.rows && (n == 1 || n == 2)
    ensures At(EraseLine(t, Col(t), Row(t), n), j, r) == EditedCell(t, 'K', n, j, r)
  {
    var x, y := Col(t), Row(t);
    CursorIs(t);
    hide At, Erased, Blank, IsCell, PutN, Place, EraseLine;
    var i := CellOf(t, j, r);
    var o := CellOf(t, 0, y);
    EraseLineStart(t, x, y, o);
    var m := if n == 1 then x else t.cols;
    RowRange(t, o, m, 0, y, i, j, r);
    ErasedPlace(t, o, m, x, y, i, j, r);
  }

  lemma LineCell(t: Term, n: nat, j: nat, r: nat)
    requires TermOk(t) && j < t.cols && r < t.rows && Reaches(t, 'K', n)
    ensures At(EraseLine(t, Col(t), Row(t), n), j, r) == EditedCell(t, 'K', n, j, r)
  {
    hide At, ErasesLine, PutN, Place;
    if n == 0 {
      LineEndCell(t, j, r);
    } else if n < 3 {
      LineStartCell(t, n, j, r);
    }
  }

  /** Part of a row. */
  lemma RowRange(t: Term, o: nat, n: nat, x: nat, y: nat, i: nat, j: nat, r: nat)
    requires IsCell(t, o, x, y) && IsCell(t, i, j, r) && x + n <= t.cols
    ensures o <= i < o + n <==> r == y && x <= j < x + n
  {
    InRow(i, j, r, y, t.cols, y * t.cols);
    InRow(i, j, r, y + 1, t.cols, (y + 1) * t.cols);
    assert (y + 1) * t.cols == y * t.cols + t.cols;
  }

  lemma CharsCell(t: Term, n: nat, j: nat, r: nat)
    requires TermOk(t) && !t.scrollOn && j < t.cols && r < t.rows && Reaches(t, 'X', n)
    ensures At(EraseChars(t, Col(t), Row(t), n), j, r) == EditedCell(t, 'X', n, j, r)
  {
    var x, y := Col(t), Row(t);
    CursorIs(t);
    var o := CellOf(t, x, y);
    var i := CellOf(t, j, r);
    var m := AtMost(n, t.cols - x);
    EraseCharsExactly(t, o, n);
    RowRange(t, o, m, x, y, i, j, r);
    ErasedPlace(t, o, m, x, y, i, j, r);
    hide At, Erased, Blank, IsCell, PutN, Place, EraseChars;
  }

  lemma EditCell(t: Term, c: char, n: nat, j: nat, r: nat)
    requires TermOk(t) && !t.scrollOn && n < U32_SIZE && c in EDITS && j < t.cols && r < t.rows && Reaches(t, c, n)
    ensures At(Edit(t, n, c), j, r) == EditedCell(t, c, n, j, r)
  {
    CursorIs(t);
    EditIs(t, c, n);
    var x, y := Col(t), Row(t);
    if c == 'J' {
      ScreenCell(t, n, j, r);
    } else if c == 'K' {
      LineCell(t, n, j, r);
    } else if c == 'X' {
      CharsCell(t, n, j, r);
    } else if c == '@' {
      Sequences.InsertCharsAt(t, x, y, n, j, r);
    } else if c == 'P' {
      DeleteCharsExactly(t, x, y, n, j, r);
    } else if c == 'L' {
      InsertLinesAt(t, n, j, r);
    } else {
      DeleteLinesAt(t, n, j, r);
    }
    hide At, Edit, EraseScreen, EraseLine, EraseChars, InsertChars, DeleteChars, Blank, ScrolledUp, ScrolledDown;
  }

  lemma EditIs(t: Term, c: char, n: nat)
    requires TermOk(t) && n < U32_SIZE && c in EDITS
    ensures CursorX(t) == Col(t) < t.cols && CursorY(t) == Row(t) < t.rows
    ensures Edit(t, n, c) == match c case 'J' => EraseScreen(t, Col(t), Row(t), n) case 'K' => EraseLine(t, Col(t), Row(t), n)
              case 'X' => EraseChars(t, Col(t), Row(t), n) case '@' => InsertChars(t, Col(t), Row(t), n)
              case 'P' => DeleteChars(t, Col(t), Row(t), n) case 'L' => InsertLines(t, Row(t), n) case _ => ScrollN(t, Min(n, t.rows))
  {
    CursorIs(t);
    hide TermOk, EraseScreen, EraseLine, EraseChars, InsertChars, DeleteChars, InsertLines, ScrollN, CursorX, CursorY, Col, Row;
  }

  /** Column and row of the cursor after an editing sequence. */
  ghost predicate CursorAfter(t: Term, t': Term, c: char, n: nat)
    requires t.cols > 0 && t.rows > 0
  {
    RestSame(t, t') && if BringsBack(c, n) then t'.x == Col(t) && t'.y == Row(t) else t'.x == t.x && t'.y == t.y
  }

  lemma PlacedBack(t: Term, t1: Term, x: nat, y: nat)
    requires TermOk(t1) && Same(t, t1) && x < t1.cols && y < t1.rows
    ensures Place(t1, x, y).x == x && Place(t1, x, y).y == y && Same(t, Place(t1, x, y))
  {}

  lemma {:induction false} ScrollNKeeps(t: Term, n: nat)
    requires TermOk(t)
    ensures ScrollN(t, n).x == t.x && ScrollN(t, n).y == t.y
  {
    if n > 0 {
      ScrollNKeeps(t, n - 1);
      ScrollSame(ScrollN(t, n - 1));
    }
    hide Scroll;
  }

  lemma {:induction false} RevScrollNKeeps(t: Term, n: nat)
    requires Sized(t) && Region(t)
    ensures RevScrollN(t, n).x == t.x && RevScrollN(t, n).y == t.y
  {
    if n > 0 {
      RevScrollNKeeps(t, n - 1);
    }
    hide ShiftDown;
  }

  lemma InsertLinesKeeps(t: Term, y: nat, n: nat)
    requires TermOk(t) && y < t.rows
    ensures InsertLines(t, y, n).x == t.x && InsertLines(t, y, n).y == t.y
  {
    RevScrollNKeeps(t.(top := y), Min(n, t.rows));
    hide RevScrollN;
  }

  lemma ScreenCursor(t: Term, n: nat)
    requires TermOk(t)
    ensures t.cols > 0 && t.rows > 0 && CursorAfter(t, EraseScreen(t, Col(t), Row(t), n), 'J', n)
  {
    CursorIs(t);
    var x, y := Col(t), Row(t);
    if n == 0 {
      PlacedBack(t, PutN(t, SPACE, CellsFrom(t, x, y)), x, y);
    } else if n == 1 {
      var o := CellOf(t, x, y);
      PlacedBack(t, PutN(Place(t, 0, 0), SPACE, y * t.cols + x + 1), x, y);
    }
    hide PutN, Place, CellsFrom;
  }

  lemma LineCursor(t: Term, n: nat)
    requires TermOk(t)
    ensures t.cols > 0 && t.rows > 0 && CursorAfter(t, EraseLine(t, Col(t), Row(t), n), 'K', n)
  {
    CursorIs(t);
    var x, y := Col(t), Row(t);
    if n == 0 {
      PlacedBack(t, PutN(t, SPACE, t.cols - x), x, y);
    } else if n < 3 {
      var o := CellOf(t, 0, y);
      EraseLineStart(t, x, y, o);
    }
    hide PutN, Place, Blanked;
  }

  lemma RowCursor(t: Term, c: char, n: nat)
    requires TermOk(t) && n < U32_SIZE && (c == 'X' || c == '@' || c == 'P')
    ensures t.cols > 0 && t.rows > 0 && CursorAfter(t, Edit(t, n, c), c, n)
  {
    CursorIs(t);
    EditIs(t, c, n);
    var x, y := Col(t), Row(t);
    if c == 'X' {
      PlacedBack(t, PutN(t, SPACE, Min(n, t.cols)), x, y);
    } else if c == '@' {
      PlacedBack(t, InsertBlanks(t, n, x, y, t.cols - 1), x, y);
    } else {
      var t1 := Place(MoveLeft(t, n, y, x + n), Less(t.cols, n), y);
      PlacedBack(t, PutN(t1, SPACE, Min(n, t.cols)), x, y);
    }
    hide PutN, Place, InsertBlanks, MoveLeft, Edit, Less;
  }

  lemma EditCursor(t: Term, c: char, n: nat)
    requires TermOk(t) && n < U32_SIZE && c in EDITS
    ensures t.cols > 0 && t.rows > 0 && CursorAfter(t, Edit(t, n, c), c, n)
  {
    TermFacts(t);
    if c == 'X' || c == '@' || c == 'P' {
      RowCursor(t, c, n);
    } else {
      EditIs(t, c, n);
      if c == 'J' {
        ScreenCursor(t, n);
      } else if c == 'K' {
        LineCursor(t, n);
      } else if c == 'L' {
        InsertLinesKeeps(t, Row(t), n);
      } else {
        ScrollNKeeps(t, Min(n, t.rows));
      }
    }
    hide Edit, EraseScreen, EraseLine, InsertLines, ScrollN;
  }

  /** Parameters are numbers of 32 bits. */
  lemma ValueBound(pss: seq<seq<nat>>, i: nat, c: char)
    requires pss != []
    ensures ValueAt(pss, i, c) < U32_SIZE
  {
    if i < Given(pss) {
      ParameterBound(pss[i], 0);
    }
  }

  lemma EditCommand(tb: Tables, s: State, c: char)
    requires ParserOk(s.p) && TermOk(s.t) && |tb.col256| == 240 && c in EDITS
    ensures Command(tb, s, c) == s.(t := Edit(s.t, s.p.values[0], c))
  {
    hide Edit, TermOk, CursorX, CursorY;
  }

  lemma EditRuns(tb: Tables, s: State, pss: seq<seq<nat>>, c: char)
    requires Ok(s) && |tb.col256| == 240 && Ground(s.p) && pss != [] && AllDigits(pss) && |pss| <= MAX_VALUES && c in EDITS
    ensures Bytes(Csi(pss, c as nat)) && ValueAt(pss, 0, c) < U32_SIZE
    ensures var s' := Feed(tb, s, Csi(pss, c as nat));
            s'.t == WithScroll(Edit(WithScroll(s.t, false), ValueAt(pss, 0, c), c), true) && Aside(s.p, s'.p)
  {
    ValueBound(pss, 0, c);
    var p := CsiRuns(tb, s, pss, c as nat);
    var t := WithScroll(s.t, false);
    EndFacts(s.p, p, pss, c);
    hide Feed, AtEnd, Command, Edit, ParserOk, TermOk, AllDigits, Csi, ValueAt, ValuesOk;
    EditCommand(tb, State(p, t), c);
    EndAside(s.p, p, p);
  }

  lemma CellsWithScroll(t: Term, on: bool)
    requires TermOk(t)
    ensures forall j: nat, r: nat :: j < t.cols && r < t.rows ==> At(WithScroll(t, on), j, r) == At(t, j, r)
  {
    forall j: nat, r: nat | j < t.cols && r < t.rows ensures At(WithScroll(t, on), j, r) == At(t, j, r) {
      Rescrolled(t, on, j, r);
    }
    hide At, TermOk;
  }

  /** With or without scrolling. */
  lemma SameWithScroll(t: Term, c: char, n: nat, j: nat, r: nat)
    requires TermOk(t) && j < t.cols && r < t.rows
    ensures t.cols > 0 && t.rows > 0
    ensures EditedCell(WithScroll(t, false), c, n, j, r) == EditedCell(t, c, n, j, r)
    ensures Reaches(WithScroll(t, false), c, n) == Reaches(t, c, n)
  {
    CellsWithScroll(t, false);
    hide At;
  }

  /** An editing sequence changes cells, as long as it reaches them exactly those it is to, and the cursor. */
  lemma EditSequence(tb: Tables, s: State, pss: seq<seq<nat>>, c: char, j: nat, r: nat)
    requires Ok(s) && |tb.col256| == 240 && Ground(s.p) && pss != [] && AllDigits(pss) && |pss| <= MAX_VALUES && c in EDITS
    requires j < s.t.cols && r < s.t.rows
    ensures Bytes(Csi(pss, c as nat)) && s.t.cols > 0 && s.t.rows > 0
    ensures var s', n := Feed(tb, s, Csi(pss, c as nat)), ValueAt(pss, 0, c);
            && Aside(s.p, s'.p) && CursorAfter(s.t, s'.t, c, n)
            && (Reaches(s.t, c, n) ==> At(s'.t, j, r) == EditedCell(s.t, c, n, j, r))
  {
    EditRuns(tb, s, pss, c);
    var n := ValueAt(pss, 0, c);
    var t0 := WithScroll(s.t, false);
    hide Feed, Csi, AllDigits, ValueAt, Edit, EditedCell, Reaches, At, ParserOk, BringsBack, TermOk;
    SameWithScroll(s.t, c, n, j, r);
    EditCursor(t0, c, n);
    EditedOn(s.t, Edit(t0, n, c), c, n);
    if Reaches(s.t, c, n) {
      EditCell(t0, c, n, j, r);
      Rescrolled(Edit(t0, n, c), true, j, r);
    }
  }

  lemma EditedOn(t: Term, t1: Term, c: char, n: nat)
    requires TermOk(t) && TermOk(t1) && t.scrollOn && CursorAfter(WithScroll(t, false), t1, c, n)
    ensures t.cols > 0 && t.rows > 0 && CursorAfter(t, WithScroll(t1, true), c, n) && t1.cols == t.cols && t1.rows == t.rows
  {}

  // --- Margins, saved position and modes -------------------------------------------------------

  /** The region of `CSI r`: from row `a` to row `b` counted from 1, as far as they are given. */
  function Margins(t: Term, given: nat, a: nat, b: nat): (nat, nat) {
    var top := if given == 0 || a == 0 then 0 else a - 1;
    var bottom := if given < 2 then t.rows else if b == 0 then 1 else b;
    if top + 2 <= bottom <= t.rows then (top, bottom) else (0, t.rows)
  }

  lemma MarginsCommand(tb: Tables, s: State)
    requires ParserOk(s.p) && TermOk(s.t) && |tb.col256| == 240
    ensures var first, second := Max1(s.p.values[0]), Max1(s.p.values[1]);
            Command(tb, s, 'r') == State(WithValues(s.p, s.p.values[0 := first][1 := second]), SetMargins(s.t, s.p.count, first, second))
  {
    hide TermOk, CursorX, CursorY, SetMargins;
  }

  lemma MarginsAre(t: Term, given: nat, a: nat, b: nat)
    requires TermOk(t)
    ensures var m := Margins(t, given, a, b);
            SetMargins(t, given, Max1(a), Max1(b)) == t.(top := m.0, bottom := m.1, x := 0, y := 0)
  {}

  /** `CSI r` sets the scroll region and takes the cursor home. */
  lemma MarginsSequence(tb: Tables, s: State, pss: seq<seq<nat>>)
    requires Ok(s) && |tb.col256| == 240 && Ground(s.p) && pss != [] && AllDigits(pss) && |pss| <= MAX_VALUES
    ensures Bytes(Csi(pss, 0x72))
    ensures var s', m := Feed(tb, s, Csi(pss, 0x72)), Margins(s.t, Given(pss), ValueAt(pss, 0, 'r'), ValueAt(pss, 1, 'r'));
            s'.t == s.t.(top := m.0, bottom := m.1, x := 0, y := 0) && Aside(s.p, s'.p)
  {
    var p := CsiRuns(tb, s, pss, 0x72);
    var t := WithScroll(s.t, false);
    EndFacts(s.p, p, pss, 'r');
    hide Feed, AtEnd, Command, ParserOk, TermOk, AllDigits, Csi, ValueAt, ValuesOk, SetMargins;
    MarginsCommand(tb, State(p, t));
    MarginsAre(t, p.count, p.values[0], p.values[1]);
    EndAside(s.p, WithValues(p, p.values[0 := Max1(p.values[0])][1 := Max1(p.values[1])]), p);
  }

  lemma SaveCommand(tb: Tables, s: State)
    requires ParserOk(s.p) && TermOk(s.t) && |tb.col256| == 240
    ensures s.t.cols > 0 && s.t.rows > 0 && Col(s.t) < U64_SIZE && Row(s.t) < U64_SIZE
    ensures Command(tb, s, 's') == s.(p := WithSaved(s.p, Col(s.t), Row(s.t)))
  {
    TermFacts(s.t);
    CursorIs(s.t);
    hide TermOk, CursorX, CursorY, Col, Row, WithSaved;
  }

  /** `CSI s` notes the position that `CSI u` goes to. */
  lemma SaveSequence(tb: Tables, s: State, pss: seq<seq<nat>>)
    requires Ok(s) && |tb.col256| == 240 && Ground(s.p) && pss != [] && AllDigits(pss) && |pss| <= MAX_VALUES
    ensures Bytes(Csi(pss, 0x73)) && s.t.cols > 0 && s.t.rows > 0
    ensures var s' := Feed(tb, s, Csi(pss, 0x73));
            s'.t == s.t && Aside(s.p.(savedX := Col(s.t), savedY := Row(s.t)), s'.p)
  {
    var p := CsiRuns(tb, s, pss, 0x73);
    var t := WithScroll(s.t, false);
    EndFacts(s.p, p, pss, 's');
    hide Feed, AtEnd, Command, TermOk, AllDigits, Csi, ValueAt, ValuesOk, StyleOk;
    SaveCommand(tb, State(p, t));
  }

  lemma ModeCommand(tb: Tables, s: State, c: char)
    requires ParserOk(s.p) && TermOk(s.t) && |tb.col256| == 240 && (c == 'h' || c == 'l')
    ensures Command(tb, s, c) == s.(p := WithMode(s.p, c == 'h'))
  {
    hide TermOk, CursorX, CursorY, WithMode;
  }

  /** `CSI 4 h` and `CSI 4 l` switch insert mode; other numbers do nothing. */
  lemma ModeSequence(tb: Tables, s: State, pss: seq<seq<nat>>, c: char)
    requires Ok(s) && |tb.col256| == 240 && Ground(s.p) && pss != [] && AllDigits(pss) && |pss| <= MAX_VALUES
    requires c == 'h' || c == 'l'
    ensures Bytes(Csi(pss, c as nat))
    ensures var s', insert := Feed(tb, s, Csi(pss, c as nat)), if Parameter(pss[0], 0) == 4 then c == 'h' else s.p.insertMode;
            s'.t == s.t && Aside(s.p.(insertMode := insert), s'.p)
  {
    var p := CsiRuns(tb, s, pss, c as nat);
    var t := WithScroll(s.t, false);
    EndFacts(s.p, p, pss, c);
    hide Feed, AtEnd, Command, TermOk, AllDigits, Csi, ValuesOk, StyleOk;
    ModeCommand(tb, State(p, t), c);
    assert Given(pss) == 0 ==> Parameter(pss[0], 0) == 0;
    hide Parameter;
  }

  /** A final byte that does nothing; `c`, `n` and `q` would only call back. */
  predicate IsIdle(c: char) {
    IsFinal(c as nat) && !IsMove(c) && c !in {'M', 'L', 'J', '@', 'P', 'X', 'K', 'm', 'r', 's', 'l', 'h'}
  }

  lemma IdleCommand(tb: Tables, s: State, c: char)
    requires ParserOk(s.p) && TermOk(s.t) && |tb.col256| == 240 && IsIdle(c)
    ensures Command(tb, s, c) == s
  {
    assert c !in MOVES && c !in EDITS;
    hide TermOk, CursorX, CursorY;
  }

  lemma IdleSequence(tb: Tables, s: State, pss: seq<seq<nat>>, c: char)
    requires Ok(s) && |tb.col256| == 240 && Ground(s.p) && pss != [] && AllDigits(pss) && |pss| <= MAX_VALUES && IsIdle(c)
    ensures Bytes(Csi(pss, c as nat))
    ensures var s' := Feed(tb, s, Csi(pss, c as nat)); s'.t == s.t && Aside(s.p, s'.p)
  {
    var p := CsiRuns(tb, s, pss, c as nat);
    var t := WithScroll(s.t, false);
    EndFacts(s.p, p, pss, c);
    hide Feed, AtEnd, Command, TermOk, AllDigits, Csi, ValueAt, ValuesOk, ParserOk;
    IdleCommand(tb, State(p, t), c);
    EndAside(s.p, p, p);
  }

  // --- Private sequences -----------------------------------------------------------------------

  /** The bytes of a private control sequence. */
  function PrivateCsi(pss: seq<seq<nat>>, c: nat): seq<nat>
    requires pss != []
  {
    [0x1B, 0x5B] + ([0x3F] + (ParamBytes(pss) + [c]))
  }

  /** A question mark behind `ESC [` */
  lemma PrivateOpens(tb: Tables, s: State)
    requires Ok(s) && |tb.col256| == 240 && Reading(s.p, 0) && s.p.escapeOffset == 1
    ensures var s' := PutChar(tb, s, 0x3F); s'.t == s.t && Reading(s'.p, 0) && s'.p == s.p.(decPrivate := true, escapeOffset := 2)
  {
    CsiByte(tb, s, 0x3F);
    hide TermOk, Finish, StyleOk, PutChar;
  }

  lemma PrivateFinish(tb: Tables, s: State, c: char)
    requires ParserOk(s.p) && !s.p.osc && s.p.decPrivate && TermOk(s.t) && s.t.scrollOn && |tb.col256| == 240
    ensures var on := if s.p.count > 0 && s.p.values[0] == 25 && (c == 'h' || c == 'l') then c == 'h' else s.t.cursorOn;
            Finish(tb, s, c) == State(s.p.(values := Padded(s.p, c).values, decPrivate := false, controlSequence := false, escape := false),
                                      s.t.(cursorOn := on))
  {
    hide TermOk, StyleOk, Command;
  }

  lemma PrivateEnds(tb: Tables, s: State, pss: seq<seq<nat>>, c: nat, values: seq<nat>)
    requires Ok(s) && |tb.col256| == 240 && InCsi(s.p) && s.p.decPrivate && pss != [] && ReadAs(s.p, values, 0, pss) && IsFinal(c)
    ensures var s', on := PutChar(tb, s, c), if Parameter(pss[0], 0) == 25 && (c == 0x68 || c == 0x6C) then c == 0x68 else s.t.cursorOn;
            && s'.t == s.t.(cursorOn := on)
            && Aside(s.p.(decPrivate := false, controlSequence := false, escape := false), s'.p)
  {
    CsiByte(tb, s, c);
    var p1 := Counted(s.p);
    var p2 := if p1.rrr then EndValue(p1) else p1;
    ControlIsFinish(tb, State(p1, s.t), c);
    PrivateFinish(tb, State(p2, s.t), c as char);
    assert p2.count > 0 ==> p2.values[0] == Parameter(pss[0], 0);
    assert p2.count == 0 ==> Parameter(pss[0], 0) == 0;
    hide Finish, ControlSequence, PutChar, TermOk, Parameter, Padded;
  }

  /** `CSI ? 25 h` and `CSI ? 25 l` show and hide the cursor; other private sequences do nothing. */
  lemma PrivateSequence(tb: Tables, s: State, pss: seq<seq<nat>>, c: nat)
    requires Ok(s) && |tb.col256| == 240 && Ground(s.p) && pss != [] && AllDigits(pss) && |pss| <= MAX_VALUES && IsFinal(c)
    ensures Bytes(PrivateCsi(pss, c))
    ensures var s', on := Feed(tb, s, PrivateCsi(pss, c)), if Parameter(pss[0], 0) == 25 && (c == 0x68 || c == 0x6C) then c == 0x68 else s.t.cursorOn;
            s'.t == s.t.(cursorOn := on) && Aside(s.p, s'.p)
  {
    assert !s.p.controlSequence;
    hide TermOk, StyleOk, PutChar, Feed, ReadAs, ParserOk, Reading, AllDigits, ParamBytes, Bytes, Parameter;
    ParamsAreBytes(pss);
    FinalIsByte(pss, c);
    PrivateBytes(pss, c);
    CsiOpens(tb, s);
    var s1 := Feed(tb, s, [0x1B, 0x5B]);
    PrivateOpens(tb, s1);
    var s2 := PutChar(tb, s1, 0x3F);
    ReadingSize(s2.p, 0);
    ParamsRead(tb, s2, 0, pss);
    var s3 := Feed(tb, s2, ParamBytes(pss));
    assert InCsi(s3.p) && s3.t == s.t;
    PrivateEnds(tb, s3, pss, c, s2.p.values);
    FeedOne(tb, s3, c);
    FeedConcat(tb, s2, ParamBytes(pss), [c]);
    FeedOne(tb, s1, 0x3F);
    FeedConcat(tb, s1, [0x3F], ParamBytes(pss) + [c]);
    FeedConcat(tb, s, [0x1B, 0x5B], [0x3F] + (ParamBytes(pss) + [c]));
  }

  lemma PrivateBytes(pss: seq<seq<nat>>, c: nat)
    requires pss != [] && Bytes(ParamBytes(pss) + [c])
    ensures Bytes([0x3F]) && Bytes([0x3F] + (ParamBytes(pss) + [c])) && Bytes(PrivateCsi(pss, c))
  {
    hide ParamBytes;
  }

  // --- Colours ---------------------------------------------------------------------------------

  /** The numbers given. */
  function Numbers(pss: seq<seq<nat>>): (r: seq<nat>)
    requires pss != []
    ensures |r| == Given(pss) && forall i :: 0 <= i < |r| ==> r[i] == Parameter(pss[i], 0)
  {
    seq(Given(pss), i requires 0 <= i < Given(pss) => Parameter(pss[i], 0))
  }

  lemma StyleCommand(tb: Tables, s: State)
    requires ParserOk(s.p) && TermOk(s.t) && |tb.col256| == 240 && s.p.count <= |s.p.values|
    ensures PaletteOk(s.t.palette) && StyleOk(s.p.style)
    ensures var r := SgrAll(tb, s.t.palette, s.p.style, Pen(s.t.fg, s.t.bg), s.p.values[..s.p.count]);
            Command(tb, s, 'm') == State(s.p.(style := r.0), s.t.(fg := r.1.fg, bg := r.1.bg))
  {
    TermFacts(s.t);
    hide TermOk, CursorX, CursorY, SgrAll;
  }

  lemma TakenAre(p: Parser, p': Parser, pss: seq<seq<nat>>)
    requires pss != [] && AtEnd(p, p', pss, 0x6D)
    ensures |p'.values| == MAX_VALUES && p'.count == Given(pss) <= MAX_VALUES && p'.values[..p'.count] == Numbers(pss)
  {
    hide ParserOk;
    assert |p'.values| == MAX_VALUES by { EndFacts(p, p', pss, 'm'); }
    forall i | 0 <= i < Given(pss) ensures p'.values[i] == Parameter(pss[i], 0) {
      assert p'.values[i] == ValueAt(pss, i, 'm');
    }
    hide Parameter;
    assert p'.values[..p'.count] == Numbers(pss);
  }

  /** `CSI m` changes attributes and colours, by the values given one after the other. */
  lemma StyleSequence(tb: Tables, s: State, pss: seq<seq<nat>>)
    requires Ok(s) && |tb.col256| == 240 && Ground(s.p) && pss != [] && AllDigits(pss) && |pss| <= MAX_VALUES
    ensures Bytes(Csi(pss, 0x6D)) && PaletteOk(s.t.palette) && StyleOk(s.p.style)
    ensures var s' := Feed(tb, s, Csi(pss, 0x6D));
            var r := SgrAll(tb, s.t.palette, s.p.style, Pen(s.t.fg, s.t.bg), Numbers(pss));
            s'.t == s.t.(fg := r.1.fg, bg := r.1.bg) && Aside(s.p.(style := r.0), s'.p)
  {
    var p := CsiRuns(tb, s, pss, 0x6D);
    var t := WithScroll(s.t, false);
    EndFacts(s.p, p, pss, 'm');
    TakenAre(s.p, p, pss);
    hide Feed, AtEnd, Command, TermOk, AllDigits, Csi, ValueAt, ValuesOk, StyleOk, SgrAll;
    StyleCommand(tb, State(p, t));
  }

  lemma OneValue(tb: Tables, pal: Palette, st: Style, pen: Pen, v: nat)
    requires PaletteOk(pal) && StyleOk(st) && |tb.col256| == 240 && v != 38 && v != 48
    ensures SgrAll(tb, pal, st, pen, [v]) == (SgrStyle(st, v), SgrPen(st, pal, pen, v))
  {
    hide SgrStyle, SgrPen, StyleOk, PaletteOk;
    assert Sgr(tb, pal, SgrStyle(st, v), SgrPen(st, pal, pen, v), [v], 1) == (SgrStyle(st, v), SgrPen(st, pal, pen, v));
  }

  /** A number of one digit, or of two or three. */
  lemma ShortNumbers(a: nat, b: nat, c: nat)
    requires a < 10 && b < 10 && c < 10
    ensures Parameter([a], 0) == a && Parameter([a, b], 0) == 10 * a + b && Parameter([a, b, c], 0) == 100 * a + 10 * b + c
  {
    assert [a][1..] == [] && [a, b][1..] == [b] && [a, b, c][1..] == [b, c] && [b][1..] == [] && [b, c][1..] == [c] && [c][1..] == [];
    assert Parameter([a], 0) == Parameter([], a);
    assert Parameter([a, b], 0) == Parameter([b], a) == Parameter([], 10 * a + b);
    assert Parameter([a, b, c], 0) == Parameter([b, c], a) == Parameter([c], 10 * a + b) == Parameter([], 100 * a + 10 * b + c);
  }

  lemma OneNumber(ds: seq<nat>)
    requires ds != [] && Digits(ds)
    ensures AllDigits([ds]) && Numbers([ds]) == [Parameter(ds, 0)]
  {
    hide Parameter;
  }

  /** A single number. */
  lemma OneSequence(tb: Tables, s: State, ds: seq<nat>, v: nat)
    requires Ok(s) && |tb.col256| == 240 && Ground(s.p) && ds != [] && Digits(ds) && v == Parameter(ds, 0) && v != 38 && v != 48
    ensures Bytes(Csi([ds], 0x6D)) && PaletteOk(s.t.palette) && StyleOk(s.p.style)
    ensures var s', pen := Feed(tb, s, Csi([ds], 0x6D)), SgrPen(s.p.style, s.t.palette, Pen(s.t.fg, s.t.bg), v);
            s'.t == s.t.(fg := pen.fg, bg := pen.bg) && Aside(s.p.(style := SgrStyle(s.p.style, v)), s'.p)
  {
    hide Parameter, Feed, Csi, Numbers, SgrAll, ParserOk, TermOk, SgrPen, SgrStyle;
    OneNumber(ds);
    StyleSequence(tb, s, [ds]);
    OneValue(tb, s.t.palette, s.p.style, Pen(s.t.fg, s.t.bg), v);
  }

  function BaseOf(tens: seq<nat>): nat {
    if tens == [3] then 30 else if tens == [4] then 40 else if tens == [9] then 90 else 100
  }

  lemma ColourNumber(tens: seq<nat>, k: nat)
    requires k < 8 && tens in {[3], [4], [9], [1, 0]}
    ensures Digits(tens + [k]) && Parameter(tens + [k], 0) == BaseOf(tens) + k && (BaseOf(tens) < 31 || BaseOf(tens) == 40 || BaseOf(tens) > 50)
  {
    ShortNumbers(tens[0], if |tens| == 1 then k else 0, k);
    hide Parameter;
    assert |tens| == 1 ==> tens + [k] == [tens[0], k];
    assert |tens| == 2 ==> tens + [k] == [tens[0], tens[1], k];
  }

  lemma ColourValue(pal: Palette, st: Style, pen: Pen, tens: seq<nat>, k: nat)
    requires PaletteOk(pal) && StyleOk(st) && k < 8 && tens in {[3], [4], [9], [1, 0]}
    ensures var text, bright := tens in {[3], [9]}, tens in {[9], [1, 0]} || if tens == [3] then st.bold else st.bgBold;
            var colour, v := if bright then pal.bright[k] else pal.ansi[k], BaseOf(tens) + k;
            && SgrPen(st, pal, pen, v) == (if text != st.reverse then pen.(fg := colour) else pen.(bg := colour))
            && SgrStyle(st, v) == if text then st.(primary := k) else st.(bg := k)
  {}

  /** The eight colours: `3k` and `9k` set the colour of text, `4k` and `10k` that of the background, to entry
      `k` of the palette; the first of the two in bright if the attribute says so, the second always. Reverse
      video exchanges what is set. */
  lemma ColourSequence(tb: Tables, s: State, tens: seq<nat>, k: nat)
    requires Ok(s) && |tb.col256| == 240 && Ground(s.p) && k < 8 && tens in {[3], [4], [9], [1, 0]}
    ensures Bytes(Csi([tens + [k]], 0x6D)) && PaletteOk(s.t.palette)
    ensures var s', pal, st := Feed(tb, s, Csi([tens + [k]], 0x6D)), s.t.palette, s.p.style;
            var text, bright := tens in {[3], [9]}, tens in {[9], [1, 0]} || if tens == [3] then st.bold else st.bgBold;
            var colour := if bright then pal.bright[k] else pal.ansi[k];
            && s'.t == (if text != st.reverse then s.t.(fg := colour) else s.t.(bg := colour))
            && Aside(s.p.(style := if text then st.(primary := k) else st.(bg := k)), s'.p)
  {
    hide Parameter, Feed, Csi, ParserOk, TermOk, SgrPen, SgrStyle, StyleOk, Digits, BaseOf, Aside, PaletteOk;
    ColourNumber(tens, k);
    OneSequence(tb, s, tens + [k], Parameter(tens + [k], 0));
    ColourValue(s.t.palette, s.p.style, Pen(s.t.fg, s.t.bg), tens, k);
  }

  /** The attributes and default colours, by their digits. */
  predicate IsAttribute(ds: seq<nat>) {
    ds in {[0], [1], [2, 2], [5], [2, 5], [7], [2, 7], [3, 9], [4, 9]}
  }

  /** What they do without reverse video. */
  ghost predicate Attributed(pal: Palette, ds: seq<nat>, st: Style, st': Style, pen: Pen, pen': Pen)
    requires PaletteOk(pal) && StyleOk(st)
  {
    && (ds == [0] ==> st' == Style(false, false, false, st.charset, UNSET, UNSET) && pen' == Pen(pal.fg, NO_COLOUR))
    && (ds == [1] || ds == [2, 2] ==>
          var on := ds == [1];
          && st' == st.(bold := on) && pen'.bg == pen.bg
          && pen'.fg == if st.primary == UNSET then (if on then pal.fgBright else pal.fg)
                        else if on then pal.bright[st.primary] else pal.ansi[st.primary])
    && (ds == [5] || ds == [2, 5] ==>
          var on := ds == [5];
          && st' == st.(bgBold := on) && pen'.fg == pen.fg
          && pen'.bg == if st.bg == UNSET then (if on then pal.bgBright else NO_COLOUR)
                        else if on then pal.bright[st.bg] else pal.ansi[st.bg])
    && (ds == [7] ==> st' == st.(reverse := true) && pen' == Pen(pen.bg, pen.fg))
    && (ds == [2, 7] ==> st' == st && pen' == pen)
    && (ds == [3, 9] ==> st' == st.(primary := UNSET) && pen' == Pen(if st.bold then pal.fgBright else pal.fg, pen.bg))
    && (ds == [4, 9] ==> st' == st.(bg := UNSET) && pen' == Pen(pen.fg, if st.bgBold then pal.bgBright else NO_COLOUR))
  }

  lemma AttributeNumber(ds: seq<nat>)
    requires IsAttribute(ds)
    ensures ds != [] && Digits(ds) && Parameter(ds, 0) == (if |ds| == 1 then ds[0] else 10 * ds[0] + ds[1])
    ensures Parameter(ds, 0) != 38 && Parameter(ds, 0) != 48
  {
    ShortNumbers(ds[0], if |ds| == 1 then 0 else ds[1], 0);
    hide Parameter;
    assert |ds| == 1 ==> ds == [ds[0]];
    assert |ds| == 2 ==> ds == [ds[0], ds[1]];
  }

  lemma AttributeValue(pal: Palette, st: Style, pen: Pen, ds: seq<nat>)
    requires PaletteOk(pal) && StyleOk(st) && IsAttribute(ds) && !st.reverse
    ensures var v := if |ds| == 1 then ds[0] else 10 * ds[0] + ds[1];
            Attributed(pal, ds, st, SgrStyle(st, v), pen, SgrPen(st, pal, pen, v))
  {}

  lemma AttributeSequence(tb: Tables, s: State, ds: seq<nat>)
    requires Ok(s) && |tb.col256| == 240 && Ground(s.p) && IsAttribute(ds) && !s.p.style.reverse
    ensures Bytes(Csi([ds], 0x6D)) && PaletteOk(s.t.palette) && StyleOk(s.p.style)
    ensures var s' := Feed(tb, s, Csi([ds], 0x6D));
            && Aside(s.p.(style := s'.p.style), s'.p) && s'.t == s.t.(fg := s'.t.fg, bg := s'.t.bg)
            && Attributed(s.t.palette, ds, s.p.style, s'.p.style, Pen(s.t.fg, s.t.bg), Pen(s'.t.fg, s'.t.bg))
  {
    hide Parameter, Feed, Csi, ParserOk, TermOk, SgrPen, SgrStyle, StyleOk, Digits, PaletteOk, Attributed, IsAttribute;
    AttributeNumber(ds);
    OneSequence(tb, s, ds, Parameter(ds, 0));
    AttributeValue(s.t.palette, s.p.style, Pen(s.t.fg, s.t.bg), ds);
  }

  // Extended colours

  /** One of 256 colours. */
  lemma IndexedSequence(tb: Tables, s: State, text: bool, ds: seq<nat>)
    requires Ok(s) && |tb.col256| == 240 && Ground(s.p) && ds != [] && Digits(ds)
    ensures var pss := [[if text then 3 else 4, 8], [5], ds]; Bytes(Csi(pss, 0x6D)) && PaletteOk(s.t.palette)
    ensures var s', pal, n := Feed(tb, s, Csi([[if text then 3 else 4, 8], [5], ds], 0x6D)), s.t.palette, Parameter(ds, 0);
            var was := if text then s.t.fg else s.t.bg;
            var colour := if n < 8 then pal.ansi[n] else if n < 16 then pal.bright[n - 8] else if n < 256 then pal.convert(tb.col256[n - 16]) else was;
            s'.t == (if text then s.t.(fg := colour) else s.t.(bg := colour)) && Aside(s.p, s'.p)
  {
    var pss := [[if text then 3 else 4, 8], [5], ds];
    hide Parameter, Feed, Csi, ParserOk, TermOk, SgrAll, StyleOk, PaletteOk, Indexed;
    IndexedNumbers(text, ds);
    StyleSequence(tb, s, pss);
    IndexedValues(tb, s.t.palette, s.p.style, Pen(s.t.fg, s.t.bg), text, Parameter(ds, 0));
    IndexedIs(tb, s.t.palette, Pen(s.t.fg, s.t.bg), text, Parameter(ds, 0));
  }

  lemma IndexedNumbers(text: bool, ds: seq<nat>)
    requires ds != [] && Digits(ds)
    ensures var pss := [[if text then 3 else 4, 8], [5], ds];
            AllDigits(pss) && Numbers(pss) == [if text then 38 else 48, 5, Parameter(ds, 0)]
  {
    ShortNumbers(if text then 3 else 4, 8, 0);
    ShortNumbers(5, 0, 0);
    hide Parameter;
  }

  lemma IndexedValues(tb: Tables, pal: Palette, st: Style, pen: Pen, text: bool, n: nat)
    requires PaletteOk(pal) && StyleOk(st) && |tb.col256| == 240
    ensures SgrAll(tb, pal, st, pen, [if text then 38 else 48, 5, n]) == (st, Indexed(tb, pal, pen, text, n))
  {
    hide StyleOk, PaletteOk, Indexed;
    var pen1 := Indexed(tb, pal, pen, text, n);
    assert Sgr(tb, pal, st, pen1, [if text then 38 else 48, 5, n], 3) == (st, pen1);
  }

  lemma IndexedIs(tb: Tables, pal: Palette, pen: Pen, text: bool, n: nat)
    requires PaletteOk(pal) && |tb.col256| == 240
    ensures var was := if text then pen.fg else pen.bg;
            var colour := if n < 8 then pal.ansi[n] else if n < 16 then pal.bright[n - 8] else if n < 256 then pal.convert(tb.col256[n - 16]) else was;
            Indexed(tb, pal, pen, text, n) == if text then Pen(colour, pen.bg) else Pen(pen.fg, colour)
  {}

  /** A colour by its parts, one byte each. */
  lemma DirectSequence(tb: Tables, s: State, text: bool, rs: seq<nat>, gs: seq<nat>, bs: seq<nat>)
    requires Ok(s) && |tb.col256| == 240 && Ground(s.p) && Digits(rs) && Digits(gs) && Digits(bs) && bs != []
    requires Parameter(rs, 0) < 256 && Parameter(gs, 0) < 256 && Parameter(bs, 0) < 256
    ensures Bytes(Csi([[if text then 3 else 4, 8], [2], rs, gs, bs], 0x6D))
    ensures var s' := Feed(tb, s, Csi([[if text then 3 else 4, 8], [2], rs, gs, bs], 0x6D));
            var colour := s.t.palette.convert(0x1_0000 * Parameter(rs, 0) + 0x100 * Parameter(gs, 0) + Parameter(bs, 0));
            s'.t == (if text then s.t.(fg := colour) else s.t.(bg := colour)) && Aside(s.p, s'.p)
  {
    var pss := [[if text then 3 else 4, 8], [2], rs, gs, bs];
    hide Parameter, Feed, Csi, ParserOk, TermOk, SgrAll, StyleOk, PaletteOk, Rgb;
    DirectNumbers(text, rs, gs, bs);
    StyleSequence(tb, s, pss);
    DirectValues(tb, s.t.palette, s.p.style, Pen(s.t.fg, s.t.bg), text, Parameter(rs, 0), Parameter(gs, 0), Parameter(bs, 0));
    RgbIs(Parameter(rs, 0), Parameter(gs, 0), Parameter(bs, 0));
  }

  lemma DirectNumbers(text: bool, rs: seq<nat>, gs: seq<nat>, bs: seq<nat>)
    requires Digits(rs) && Digits(gs) && Digits(bs) && bs != []
    ensures var pss := [[if text then 3 else 4, 8], [2], rs, gs, bs];
            AllDigits(pss) && Numbers(pss) == [if text then 38 else 48, 2, Parameter(rs, 0), Parameter(gs, 0), Parameter(bs, 0)]
  {
    hide *;
    LeadDigits(text);
    FiveDigits([if text then 3 else 4, 8], [2], rs, gs, bs);
    FiveNumbers([[if text then 3 else 4, 8], [2], rs, gs, bs]);
  }

  lemma LeadDigits(text: bool)
    ensures Digits([if text then 3 else 4, 8]) && Digits([2])
    ensures Parameter([if text then 3 else 4, 8], 0) == (if text then 38 else 48) && Parameter([2], 0) == 2
  {
    ShortNumbers(if text then 3 else 4, 8, 0);
    ShortNumbers(2, 0, 0);
    hide Parameter;
  }

  lemma FiveDigits(a: seq<nat>, b: seq<nat>, c: seq<nat>, d: seq<nat>, e: seq<nat>)
    requires Digits(a) && Digits(b) && Digits(c) && Digits(d) && Digits(e)
    ensures AllDigits([a, b, c, d, e])
  {
    hide Digits;
  }

  lemma FiveNumbers(pss: seq<seq<nat>>)
    requires |pss| == 5 && pss[4] != []
    ensures Numbers(pss) == [Parameter(pss[0], 0), Parameter(pss[1], 0), Parameter(pss[2], 0), Parameter(pss[3], 0), Parameter(pss[4], 0)]
  {
    hide Parameter;
  }

  lemma DirectValues(tb: Tables, pal: Palette, st: Style, pen: Pen, text: bool, r: nat, g: nat, b: nat)
    requires PaletteOk(pal) && StyleOk(st) && |tb.col256| == 240
    ensures SgrAll(tb, pal, st, pen, [if text then 38 else 48, 2, r, g, b]) == (st, Coloured(pen, text, pal.convert(Rgb(r, g, b))))
  {
    hide StyleOk, PaletteOk, Rgb;
    var pen1 := Coloured(pen, text, pal.convert(Rgb(r, g, b)));
    assert Sgr(tb, pal, st, pen1, [if text then 38 else 48, 2, r, g, b], 5) == (st, pen1);
  }

  lemma ByteShifts()
    ensures Pow2(8) == 0x100 && Pow2(16) == 0x1_0000
  {
    PowSum(8, 8);
  }

  lemma RgbIs(r: nat, g: nat, b: nat)
    requires r < 256 && g < 256 && b < 256
    ensures Rgb(r, g, b) == 0x1_0000 * r + 0x100 * g + b
  {
    hide Or, Pow2;
    ByteShifts();
    var m := g * 0x100;
    Utf8.OrAdds(r, m, 16);
    var h := 0x100 * r + g;
    Utf8.OrAdds(h, b, 8);
    assert h * 0x100 == r * 0x1_0000 + m;
  }
}
