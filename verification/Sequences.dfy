/** What the editing control sequences of kernel/src/flanterm/flanterm.c do to the screen: which
    cells they blank or move, and exactly when they reach all the cells they are meant to reach. */
module Sequences {
  import opened Bits
  import opened Screen
  import opened Parser

  /** `i` is the index of the cell at column `x`, row `y`. */
  predicate IsCell(t: Term, i: nat, x: nat, y: nat) {
    i < |t.screen| && x < t.cols && y < t.rows && i == y * t.cols + x
  }

  /** The cursor is on a cell: neither past the right edge nor below the screen. */
  predicate OnScreen(t: Term) {
    t.x < t.cols && t.y < t.rows
  }

  /** `t` with `n` cells from index `from` blanked. */
  ghost function Erased(t: Term, from: nat, n: nat): (t': Term)
    requires from + n <= |t.screen|
  {
    t.(screen := Blanked(t.screen, from, n, Blank(t)))
  }

  // --- Runs of characters ----------------------------------------------------------------------

  lemma RawPutCell(t: Term, o: nat)
    requires TermOk(t) && IsCell(t, o, t.x, t.y)
    ensures RawPut(t, SPACE) == Erased(t, o, 1).(x := t.x + 1)
  {
    assert t.screen[o := Blank(t)] == Blanked(t.screen, o, 1, Blank(t));
  }

  /** A pending wrap inside the scroll region, to a row whose number is below the number of columns. */
  lemma RawPutWrapped(t: Term, o: nat)
    requires TermOk(t) && t.x == t.cols && t.y + 1 < t.bottom && t.y + 1 < t.cols && IsCell(t, o, 0, t.y + 1)
    ensures RawPut(t, SPACE) == Erased(t, o, 1).(x := 1, y := t.y + 1)
  {
    assert Wrap(t) == t.(x := 0, y := t.y + 1);
    assert t.screen[o := Blank(t)] == Blanked(t.screen, o, 1, Blank(t));
  }

  lemma ErasedTwice(t: Term, o: nat, n: nat, x: nat, y: nat, x': nat, y': nat)
    requires o + n < |t.screen|
    ensures |Erased(t, o, n).screen| == |t.screen|
    ensures Erased(Erased(t, o, n).(x := x, y := y), o + n, 1).(x := x', y := y') == Erased(t, o, n + 1).(x := x', y := y')
  {
    var s, c := t.screen, Blank(t);
    assert Blanked(Blanked(s, o, n, c), o + n, 1, c) == Blanked(s, o, n + 1, c);
  }

  lemma ErasedCell(t: Term, o: nat, n: nat, x: nat, y: nat, i: nat, a: nat, b: nat)
    requires o + n <= |t.screen| && IsCell(t, i, a, b)
    ensures var t1 := Erased(t, o, n).(x := x, y := y);
            IsCell(t1, i, a, b) && t1.x == x && t1.y == y && t1.bottom == t.bottom && t1.cols == t.cols
  {}

  /** The cell before a cell that is not the first of its row, or is. */
  lemma CellBefore(t: Term, i: nat, x: nat, y: nat, o: nat, x0: nat, y0: nat)
    requires IsCell(t, i, x, y) && IsCell(t, o, x0, y0) && o < i
    ensures x > 0 ==> IsCell(t, i - 1, x - 1, y)
    ensures x == 0 ==> y > y0 && IsCell(t, i - 1, t.cols - 1, y - 1)
    ensures y0 <= y
  {
    InRow(i, x, y, y0, t.cols, y0 * t.cols);
    if x == 0 {
      InRow(o, x0, y0, y, t.cols, i);
      assert (y - 1) * t.cols == y * t.cols - t.cols;
    }
  }

  /** Writing past the end of a row continues on the next one, as long as every row entered is in
      the scroll region and its number below the number of columns. */
  lemma {:induction false} PutRun(t: Term, o: nat, n: nat, x: nat, y: nat)
    requires TermOk(t) && IsCell(t, o, t.x, t.y) && n > 0
    requires IsCell(t, o + n - 1, x, y) && (y == t.y || (y < t.bottom && y < t.cols))
    ensures PutN(t, SPACE, n) == Erased(t, o, n).(x := x + 1, y := y)
  {
    hide Sized, RawPut, Region, Blanked;
    if n == 1 {
      RawPutCell(t, o);
      SameRow(t, o, t.x, t.y, x, y);
      PutNothing(t);
      PutNext(t, SPACE, 0);
    } else {
      CellBefore(t, o + n - 1, x, y, o, t.x, t.y);
      var px, py := if x > 0 then x - 1 else t.cols - 1, if x > 0 then y else y - 1;
      PutRun(t, o, n - 1, px, py);
      PutRunStep(t, o, n, x, y, px, py);
    }
  }

  lemma PutRunStep(t: Term, o: nat, n: nat, x: nat, y: nat, px: nat, py: nat)
    requires TermOk(t) && n > 1 && o + n <= |t.screen| && IsCell(t, o + n - 1, x, y)
    requires PutN(t, SPACE, n - 1) == Erased(t, o, n - 1).(x := px + 1, y := py)
    requires if x > 0 then px == x - 1 && py == y else px == t.cols - 1 && py == y - 1 && y < t.bottom && y < t.cols && y > 0
    ensures PutN(t, SPACE, n) == Erased(t, o, n).(x := x + 1, y := y)
  {
    hide TermOk, RawPut, PutN, IsCell, Erased, Sized, Region;
    var t1 := PutN(t, SPACE, n - 1);
    var i := o + n - 1;
    PutNext(t, SPACE, n - 1);
    ErasedCell(t, o, n - 1, px + 1, py, i, x, y);
    ErasedTwice(t, o, n - 1, px + 1, py, x + 1, y);
    StepRight(t1, i, x, y);
  }

  /** The next character after one at `(t.x - 1, t.y)`, on the same row or after a wrap. */
  lemma StepRight(t: Term, i: nat, x: nat, y: nat)
    requires TermOk(t) && IsCell(t, i, x, y)
    requires if x > 0 then t.x == x && t.y == y else t.x == t.cols && t.y == y - 1 && y < t.bottom && y < t.cols
    ensures RawPut(t, SPACE) == Erased(t, i, 1).(x := x + 1, y := y)
  {
    hide TermOk, RawPut;
    if x > 0 {
      RawPutCell(t, i);
    } else {
      RawPutWrapped(t, i);
    }
  }

  /** Off the screen and with no wrap to come, characters are dropped. */
  lemma {:induction false} PutStuck(t: Term, n: nat)
    requires TermOk(t) && !t.scrollOn && t.y + 1 >= t.bottom && !OnScreen(t)
    ensures PutN(t, SPACE, n).screen == t.screen && PutN(t, SPACE, n).y == t.y && PutN(t, SPACE, n).x >= t.x
  {
    hide Sized, RawPut, Region;
    if n == 0 {
      PutNothing(t);
    } else {
      PutStuck(t, n - 1);
      PutNext(t, SPACE, n - 1);
      StuckStep(PutN(t, SPACE, n - 1));
    }
  }

  lemma StuckStep(t: Term)
    requires TermOk(t) && !t.scrollOn && t.y + 1 >= t.bottom && !OnScreen(t)
    ensures var t' := RawPut(t, SPACE); t'.screen == t.screen && t'.y == t.y && t'.x == t.x + 1
  {}

  /** A written cell in rows up to `m` is not cell `i`, which is further down. */
  lemma PutLeaves(t: Term, c: Cell, i: nat)
    requires Sized(t) && i < |t.screen|
    requires !IsCell(t, i, t.x, t.y)
    ensures |Put(t, c, t.x, t.y).screen| == |t.screen| && Put(t, c, t.x, t.y).screen[i] == t.screen[i]
  {}

  /** Cell `i` of row `y` lies at or after row `m`'s first cell exactly if `y` does. */
  lemma RowOf(t: Term, i: nat, x: nat, y: nat, m: nat, edge: nat)
    requires IsCell(t, i, x, y) && edge == m * t.cols
    ensures edge <= i <==> m <= y
  {
    InRow(i, x, y, m, t.cols, edge);
  }

  /** One character leaves every cell alone but the one after the pending wrap. */
  lemma RawPutLeaves(t: Term, i: nat)
    requires TermOk(t) && !t.scrollOn && i < |t.screen| && Wrap(t) == t.(x := Wrap(t).x, y := Wrap(t).y)
    requires !IsCell(t, i, Wrap(t).x, Wrap(t).y)
    ensures var t' := RawPut(t, SPACE); t'.y == Wrap(t).y && |t'.screen| == |t.screen| && t'.screen[i] == t.screen[i]
  {
    hide Wrap;
    var w := Wrap(t);
    PutLeaves(w, Cell(SPACE, w.fg, w.bg), i);
    PutKeepsCursor(w, Cell(SPACE, w.fg, w.bg));
    hide Put;
  }

  /** One character reaches no row below `m`, when neither the cursor nor a wrap gets past it. */
  lemma BelowStep(t: Term, m: nat, edge: nat, i: nat)
    requires TermOk(t) && !t.scrollOn && t.y <= m && (t.bottom <= m + 1 || t.cols <= m + 1)
    requires edge == (m + 1) * t.cols && edge <= i < |t.screen|
    ensures var t' := RawPut(t, SPACE); t'.y <= m && |t'.screen| == |t.screen| && t'.screen[i] == t.screen[i]
  {
    WrapBelow(t, m);
    hide Wrap, RawPut, IsCell;
    if IsCell(t, i, Wrap(t).x, Wrap(t).y) {
      RowOf(t, i, Wrap(t).x, Wrap(t).y, m + 1, edge);
    }
    RawPutLeaves(t, i);
  }

  lemma PutKeepsCursor(t: Term, c: Cell)
    requires Sized(t)
    ensures Put(t, c, t.x, t.y).y == t.y
  {}

  lemma WrapBelow(t: Term, m: nat)
    requires TermOk(t) && !t.scrollOn && t.y <= m && (t.bottom <= m + 1 || t.cols <= m + 1)
    ensures Wrap(t).y <= m && Wrap(t) == t.(x := Wrap(t).x, y := Wrap(t).y)
  {}

  lemma {:induction false} PutBelow(t: Term, n: nat, m: nat, edge: nat, i: nat)
    requires TermOk(t) && !t.scrollOn && t.y <= m && (t.bottom <= m + 1 || t.cols <= m + 1)
    requires edge == (m + 1) * t.cols && edge <= i < |t.screen|
    ensures var t' := PutN(t, SPACE, n); t'.y <= m && |t'.screen| == |t.screen| && t'.screen[i] == t.screen[i]
  {
    hide Sized, RawPut, Region;
    if n == 0 {
      PutNothing(t);
    } else {
      PutBelow(t, n - 1, m, edge, i);
      PutNext(t, SPACE, n - 1);
      BelowStep(PutN(t, SPACE, n - 1), m, edge, i);
    }
  }

  /** One character reaches no row above `m`, when neither the cursor nor a wrap gets past it. */
  lemma AboveStep(t: Term, m: nat, edge: nat, i: nat)
    requires TermOk(t) && !t.scrollOn && m < t.cols && edge == m * t.cols && i < |t.screen| && i < edge
    requires t.y >= m || (t.y + 1 >= m && t.x >= t.cols && t.y + 1 < t.bottom)
    ensures var t' := RawPut(t, SPACE); t'.y >= m && |t'.screen| == |t.screen| && t'.screen[i] == t.screen[i]
  {
    WrapAbove(t, m);
    hide Wrap, RawPut, IsCell;
    if IsCell(t, i, Wrap(t).x, Wrap(t).y) {
      RowOf(t, i, Wrap(t).x, Wrap(t).y, m, edge);
    }
    RawPutLeaves(t, i);
  }

  lemma WrapAbove(t: Term, m: nat)
    requires TermOk(t) && !t.scrollOn && m < t.cols
    requires t.y >= m || (t.y + 1 >= m && t.x >= t.cols && t.y + 1 < t.bottom)
    ensures Wrap(t).y >= m && Wrap(t) == t.(x := Wrap(t).x, y := Wrap(t).y)
  {}

  lemma {:induction false} PutAbove(t: Term, n: nat, m: nat, edge: nat, i: nat)
    requires TermOk(t) && !t.scrollOn && m < t.cols && edge == m * t.cols && i < |t.screen| && i < edge && n > 0
    requires t.y >= m || (t.y + 1 >= m && t.x >= t.cols && t.y + 1 < t.bottom)
    ensures var t' := PutN(t, SPACE, n); t'.y >= m && |t'.screen| == |t.screen| && t'.screen[i] == t.screen[i]
  {
    hide Sized, RawPut, Region;
    PutNext(t, SPACE, n - 1);
    if n == 1 {
      PutNothing(t);
    } else {
      PutAbove(t, n - 1, m, edge, i);
    }
    AboveStep(PutN(t, SPACE, n - 1), m, edge, i);
  }

  // --- Erasing ---------------------------------------------------------------------------------

  /** `CSI 0 J` reaches the end of the screen: the cursor is on a cell, and it is on the last row
      or the scroll region ends there and no row number reaches the number of columns. */
  predicate ErasesBelow(t: Term) {
    OnScreen(t) && (t.y == t.rows - 1 || (t.bottom == t.rows && t.rows <= t.cols))
  }

  /** Exactly then it blanks every cell from the cursor to the end of the screen and leaves the
      cursor and all other cells alone. */
  lemma EraseBelow(t: Term, o: nat)
    requires TermOk(t) && ErasesBelow(t) && IsCell(t, o, t.x, t.y)
    ensures EraseScreen(t, t.x, t.y, 0) == Erased(t, o, |t.screen| - o)
  {
    var n := CellsFrom(t, t.x, t.y);
    LastCell(t, o, n);
    PutRun(t, o, n, t.cols - 1, t.rows - 1);
    hide PutN, Blanked;
  }

  lemma LastCell(t: Term, o: nat, n: nat)
    requires Sized(t) && IsCell(t, o, t.x, t.y) && n == CellsFrom(t, t.x, t.y)
    ensures o + n == |t.screen| && IsCell(t, o + n - 1, t.cols - 1, t.rows - 1) && n > 0
  {
    var a, b := t.rows - (t.y + 1), t.y + 1;
    assert a * t.cols + b * t.cols == t.rows * t.cols;
    assert b * t.cols == t.y * t.cols + t.cols;
  }

  /** Otherwise some cell it was meant to blank keeps its content. */
  lemma EraseBelowMisses(t: Term) returns (cx: nat, cy: nat)
    requires TermOk(t) && !t.scrollOn && !ErasesBelow(t)
    ensures cx < t.cols && cy < t.rows && (cy > CursorY(t) || (cy == CursorY(t) && cx >= CursorX(t)))
    ensures At(EraseScreen(t, CursorX(t), CursorY(t), 0), cx, cy) == At(t, cx, cy)
  {
    hide PutN, At, Place;
    TermFacts(t);
    var x, y := CursorX(t), CursorY(t);
    var n := CellsFrom(t, x, y);
    MulMono(t.cols, 0, t.rows - (y + 1));
    if !OnScreen(t) && (t.y + 1 >= t.bottom || t.y + 1 < t.cols) {
      cx, cy := x, y;
      PutMissesCursor(t, n);
    } else {
      cx, cy := 0, t.rows - 1;
      PutMissesLast(t, n);
    }
    PlacedAt(PutN(t, SPACE, n), t, x, y, cx, cy);
  }

  /** From off the screen, characters leave the reported cursor cell alone. */
  lemma PutMissesCursor(t: Term, n: nat)
    requires TermOk(t) && !t.scrollOn && !OnScreen(t) && (t.y + 1 >= t.bottom || t.y + 1 < t.cols) && n > 0
    ensures Untouched(t, PutN(t, SPACE, n), CursorX(t), CursorY(t))
  {
    var x, y := CursorX(t), CursorY(t);
    CellIndex(x, y, t.cols, t.rows);
    if t.y + 1 >= t.bottom {
      PutStuck(t, n);
    } else {
      RowBounds(y, t.rows, t.cols);
      PutAbove(t, n, t.y + 1, y * t.cols + t.cols, y * t.cols + x);
    }
    hide PutN;
  }

  lemma PutMissesLast(t: Term, n: nat)
    requires TermOk(t) && !t.scrollOn && !ErasesBelow(t) && t.y < t.rows
    requires OnScreen(t) || (t.y + 1 < t.bottom && t.cols <= t.y + 1)
    ensures Untouched(t, PutN(t, SPACE, n), 0, t.rows - 1)
  {
    var m := LowestRow(t);
    CellIndex(0, t.rows - 1, t.cols, t.rows);
    MulMono(t.cols, m + 1, t.rows - 1);
    PutBelow(t, n, m, (m + 1) * t.cols, (t.rows - 1) * t.cols);
    hide PutN;
  }

  ghost predicate Untouched(t: Term, t': Term, x: nat, y: nat) {
    var i := y * t.cols + x;
    i < |t.screen| == |t'.screen| && t'.screen[i] == t.screen[i]
  }

  /** The lowest row `CSI 0 J` can reach when it cannot reach the last one. */
  lemma LowestRow(t: Term) returns (m: nat)
    requires TermOk(t) && t.y < t.rows && !ErasesBelow(t)
    requires OnScreen(t) || (t.y + 1 < t.bottom && t.cols <= t.y + 1)
    ensures t.y <= m < t.rows - 1 && (t.bottom <= m + 1 || t.cols <= m + 1)
  {
    m := if !OnScreen(t) then t.y
         else if t.bottom < t.rows then (if t.y < t.bottom then t.bottom - 1 else t.y)
         else if t.y < t.cols then t.cols - 1 else t.y;
  }

  lemma PlacedAt(t1: Term, t: Term, x: nat, y: nat, cx: nat, cy: nat)
    requires TermOk(t1) && Sized(t) && Same(t, t1) && cx < t.cols && cy < t.rows
    requires Untouched(t, t1, cx, cy)
    ensures At(Place(t1, x, y), cx, cy) == At(t, cx, cy)
  {}

  /** `CSI 1 J` from the corner to the cursor, exactly when the cursor's row lies above the end of
      the scroll region and its number below the number of columns. */
  lemma EraseAbove(t: Term, x: nat, y: nat, o: nat)
    requires TermOk(t) && IsCell(t, o, x, y) && y < t.bottom && y < t.cols
    ensures EraseScreen(t, x, y, 1) == Erased(t, 0, o + 1).(x := x, y := y)
  {
    var home := Place(t, 0, 0);
    assert home == t.(x := 0, y := 0);
    PutRun(home, 0, o + 1, x, y);
    hide PutN, Blanked;
  }

  lemma EraseAboveMisses(t: Term, x: nat, y: nat, o: nat)
    requires TermOk(t) && !t.scrollOn && IsCell(t, o, x, y) && (y >= t.bottom || y >= t.cols)
    ensures At(EraseScreen(t, x, y, 1), x, y) == At(t, x, y)
  {
    var home := Place(t, 0, 0);
    var m := if y >= t.bottom then t.bottom - 1 else t.cols - 1;
    MulMono(t.cols, m + 1, y);
    PutBelow(home, o + 1, m, (m + 1) * t.cols, o);
    hide PutN, Place, At;
    PlacedAt(PutN(home, SPACE, o + 1), t, x, y, x, y);
  }

  /** `CSI 0 K` blanks the row from the cursor on and nothing else, if the cursor is on a cell. With
      a pending wrap it writes to the next row instead, which is the same cell only on a screen one
      column wide. */
  predicate ErasesLine(t: Term) {
    OnScreen(t) || (t.cols == 1 && t.y == 0 && t.bottom > 1)
  }

  lemma EraseLineEnd(t: Term, o: nat)
    requires TermOk(t) && ErasesLine(t) && IsCell(t, o, CursorX(t), CursorY(t))
    ensures o + (t.cols - CursorX(t)) <= |t.screen|
    ensures EraseLine(t, CursorX(t), CursorY(t), 0) == Erased(t, o, t.cols - CursorX(t)).(x := CursorX(t), y := CursorY(t))
  {
    hide PutN, Blanked, EraseLine, Place, IsCell, Erased, TermOk, Sized;
    TermFacts(t);
    var x, y := CursorX(t), CursorY(t);
    RowEnd(t, o, x, y);
    RowPut(t, o);
    PlaceErased(t, PutN(t, SPACE, t.cols - x), o, t.cols - x, x, y);
    EraseLineIs(t, x, y);
  }

  lemma EraseLineIs(t: Term, x: nat, y: nat)
    requires TermOk(t) && x < t.cols && y < t.rows
    ensures EraseLine(t, x, y, 0) == Place(PutN(t, SPACE, t.cols - x), x, y)
  {
    hide PutN, Place;
  }

  /** The characters `CSI 0 K` writes. */
  lemma RowPut(t: Term, o: nat)
    requires TermOk(t) && ErasesLine(t) && IsCell(t, o, CursorX(t), CursorY(t))
    ensures o + (t.cols - CursorX(t)) <= |t.screen|
    ensures var t1 := PutN(t, SPACE, t.cols - CursorX(t)); t1 == Erased(t, o, t.cols - CursorX(t)).(x := t1.x, y := t1.y)
  {
    RowEnd(t, o, CursorX(t), CursorY(t));
    hide PutN, Blanked, TermOk, Sized;
    if OnScreen(t) {
      PutRun(t, o, t.cols - t.x, t.cols - 1, t.y);
    } else {
      NarrowChars(t, o);
    }
  }

  lemma RowEnd(t: Term, o: nat, x: nat, y: nat)
    requires Sized(t) && IsCell(t, o, x, y)
    ensures o + (t.cols - x) <= |t.screen| && IsCell(t, o + (t.cols - x) - 1, t.cols - 1, y)
  {
    RowBounds(y, t.rows, t.cols);
  }

  lemma PlaceErased(t: Term, t1: Term, o: nat, n: nat, x: nat, y: nat)
    requires Sized(t) && o + n <= |t.screen| && x < t.cols && y < t.rows
    requires TermOk(t1) && t1 == Erased(t, o, n).(x := t1.x, y := t1.y)
    ensures Place(t1, x, y) == Erased(t, o, n).(x := x, y := y)
  {}

  lemma NarrowPut(t: Term)
    requires TermOk(t) && !OnScreen(t) && t.cols == 1 && t.y == 0 && t.bottom > 1
    ensures |t.screen| > 0 && PutN(t, SPACE, 1) == Erased(t, 0, 1).(x := 1, y := 0)
  {
    RowBounds(0, t.rows, t.cols);
    NarrowWrap(t);
    PutNothing(t);
    PutNext(t, SPACE, 0);
    hide PutN, RawPut;
    assert t.screen[0 := Blank(t)] == Blanked(t.screen, 0, 1, Blank(t));
  }

  lemma NarrowWrap(t: Term)
    requires TermOk(t) && !OnScreen(t) && t.cols == 1 && t.y == 0 && t.bottom > 1
    requires |t.screen| > 0
    ensures t.x >= 1 && RawPut(t, SPACE) == t.(screen := t.screen[0 := Blank(t)], x := 1, y := 0)
  {
    assert Wrap(t).y == 0 && Wrap(t).x == 0;
  }

  lemma EraseLineMisses(t: Term)
    requires TermOk(t) && !t.scrollOn && !ErasesLine(t)
    ensures At(EraseLine(t, CursorX(t), CursorY(t), 0), CursorX(t), CursorY(t)) == At(t, CursorX(t), CursorY(t))
  {
    hide PutN, At, Place;
    TermFacts(t);
    var x, y := CursorX(t), CursorY(t);
    var n := t.cols - x;
    if t.y + 1 >= t.bottom || t.y + 1 < t.cols {
      PutMissesCursor(t, n);
    } else {
      WrapMissesCursor(t);
    }
    PlacedAt(PutN(t, SPACE, n), t, x, y, x, y);
  }

  /** A wrap that is clamped to row `cols - 1` writes to the first cell of that row. */
  lemma WrapMissesCursor(t: Term)
    requires TermOk(t) && !t.scrollOn && t.x >= t.cols && t.y + 1 < t.bottom && t.y + 1 >= t.cols && !(t.cols == 1 && t.y == 0)
    ensures Untouched(t, PutN(t, SPACE, 1), CursorX(t), CursorY(t))
  {
    CellIndex(t.cols - 1, t.y, t.cols, t.rows);
    WrapLeaves(t, t.y * t.cols + (t.cols - 1));
    hide PutN;
  }

  lemma WrapLeaves(t: Term, i: nat)
    requires TermOk(t) && !t.scrollOn && t.x >= t.cols && t.y + 1 < t.bottom && t.y + 1 >= t.cols && !(t.cols == 1 && t.y == 0)
    requires IsCell(t, i, t.cols - 1, t.y)
    ensures var t' := PutN(t, SPACE, 1); |t'.screen| == |t.screen| && t'.screen[i] == t.screen[i]
  {
    hide Wrap, RawPut, PutN, TermOk, IsCell;
    ClampedWrap(t);
    PutNothing(t);
    PutNext(t, SPACE, 0);
    if IsCell(t, i, 0, t.cols - 1) {
      SameRow(t, i, t.cols - 1, t.y, 0, t.cols - 1);
    }
    InScreen(t, i);
    RawPutLeaves(t, i);
  }

  lemma InScreen(t: Term, i: nat)
    requires t.cols > 0 && IsCell(t, i, t.cols - 1, t.y)
    ensures i < |t.screen|
  {}

  lemma ClampedWrap(t: Term)
    requires TermOk(t) && t.x >= t.cols && t.y + 1 < t.bottom && t.y + 1 >= t.cols
    ensures Wrap(t) == t.(x := 0, y := t.cols - 1)
  {}

  lemma SameRow(t: Term, i: nat, x: nat, y: nat, x': nat, y': nat)
    requires IsCell(t, i, x, y) && IsCell(t, i, x', y')
    ensures x == x' && y == y'
  {
    QuotientIs(i, t.cols, y, x);
    QuotientIs(i, t.cols, y', x');
  }

  /** `CSI 1 K` blanks the row up to the cursor, which itself keeps its content; `CSI 2 K` the
      whole row. Both whatever the state of the cursor. */
  lemma EraseLineStart(t: Term, x: nat, y: nat, o: nat)
    requires TermOk(t) && x < t.cols && IsCell(t, o, 0, y)
    ensures o + t.cols <= |t.screen|
    ensures EraseLine(t, x, y, 1) == Erased(t, o, x).(x := x, y := y)
    ensures EraseLine(t, x, y, 2) == Erased(t, o, t.cols).(x := x, y := y)
  {
    RowBounds(y, t.rows, t.cols);
    var start := Place(t, 0, y);
    assert start == t.(x := 0, y := y);
    PutRun(start, o, t.cols, t.cols - 1, y);
    if x > 0 {
      PutRun(start, o, x, x - 1, y);
    } else {
      PutNothing(start);
      assert Blanked(t.screen, o, 0, Blank(t)) == t.screen;
    }
    hide PutN, Blanked;
  }

  // --- Erasing characters ----------------------------------------------------------------------

  lemma {:induction false} PutMore(t: Term, a: nat, b: nat)
    requires TermOk(t)
    ensures PutN(t, SPACE, a + b) == PutN(PutN(t, SPACE, a), SPACE, b)
  {
    hide TermOk, RawPut, PutN;
    if b == 0 {
      PutNothing(PutN(t, SPACE, a));
    } else {
      PutMore(t, a, b - 1);
      PutNext(t, SPACE, a + b - 1);
      PutNext(PutN(t, SPACE, a), SPACE, b - 1);
    }
  }

  /** Blank cells stay blank while blanks are written and nothing scrolls. */
  lemma RawPutKeepsBlank(t: Term, i: nat)
    requires TermOk(t) && !t.scrollOn && i < |t.screen| && t.screen[i] == Blank(t)
    ensures var t' := RawPut(t, SPACE); |t'.screen| == |t.screen| && t'.screen[i] == Blank(t)
  {
    NoScroll(t);
    hide Wrap;
    PutWrites(Wrap(t), i);
  }

  lemma PutWrites(t: Term, i: nat)
    requires Sized(t) && i < |t.screen|
    ensures var t' := Put(t, Cell(SPACE, t.fg, t.bg), t.x, t.y); |t'.screen| == |t.screen| && (t'.screen[i] == t.screen[i] || t'.screen[i] == Blank(t))
  {}

  /** Without scrolling a wrap moves the cursor and nothing else. */
  lemma NoScroll(t: Term)
    requires TermOk(t) && !t.scrollOn
    ensures Wrap(t) == t.(x := Wrap(t).x, y := Wrap(t).y)
  {}

  lemma {:induction false} PutKeepsBlank(t: Term, n: nat, i: nat)
    requires TermOk(t) && !t.scrollOn && i < |t.screen| && t.screen[i] == Blank(t)
    ensures var t' := PutN(t, SPACE, n); |t'.screen| == |t.screen| && t'.screen[i] == Blank(t)
  {
    hide TermOk, RawPut, Blank;
    if n == 0 {
      PutNothing(t);
    } else {
      PutKeepsBlank(t, n - 1, i);
      PutNext(t, SPACE, n - 1);
      SameBlank(t, PutN(t, SPACE, n - 1));
      RawPutKeepsBlank(PutN(t, SPACE, n - 1), i);
    }
  }

  /** The row a pending wrap goes to when there is room below: the next one, or the row whose number
      is that of the last column. */
  function WrapRow(t: Term): nat
    requires t.cols > 0
  {
    Min(t.y + 1, t.cols - 1)
  }

  /** Characters written behind a pending wrap blank the first cell of that row. */
  lemma WrapBlanks(t: Term, n: nat, i: nat)
    requires TermOk(t) && !t.scrollOn && t.x >= t.cols && t.y + 1 < t.bottom && n > 0
    requires IsCell(t, i, 0, WrapRow(t))
    ensures var t' := PutN(t, SPACE, n); |t'.screen| == |t.screen| && t'.screen[i] == Blank(t)
  {
    hide TermOk, PutN, Blank;
    FirstBlank(t, i);
    PutNothing(t);
    PutNext(t, SPACE, 0);
    PutMore(t, 1, n - 1);
    SameBlank(t, PutN(t, SPACE, 1));
    PutKeepsBlank(PutN(t, SPACE, 1), n - 1, i);
  }

  lemma FirstBlank(t: Term, i: nat)
    requires TermOk(t) && t.x >= t.cols && t.y + 1 < t.bottom && IsCell(t, i, 0, WrapRow(t))
    ensures var t' := RawPut(t, SPACE); |t'.screen| == |t.screen| && t'.screen[i] == Blank(t)
  {
    assert Wrap(t) == t.(x := 0, y := WrapRow(t));
    CellIndex(0, WrapRow(t), t.cols, t.rows);
  }

  /** `CSI X` blanks as many cells of the row as it is asked to and nothing else: it is asked for none,
      or the cursor is on a cell and the characters fit in the row or cannot wrap to another one; or the
      screen is one column wide and the pending wrap leads back to the same cell. */
  predicate ErasesChars(t: Term, n: nat) {
    || n == 0
    || (OnScreen(t) && (n <= t.cols - t.x || t.x == 0 || t.y + 1 >= t.bottom))
    || (t.cols == 1 && t.y == 0 && t.bottom > 1)
  }

  lemma EraseCharsExactly(t: Term, o: nat, n: nat)
    requires TermOk(t) && !t.scrollOn && ErasesChars(t, n) && IsCell(t, o, CursorX(t), CursorY(t))
    ensures var x, y := CursorX(t), CursorY(t);
            var m := Min(n, t.cols - x);
            o + m <= |t.screen| && EraseChars(t, x, y, n) == Erased(t, o, m).(x := x, y := y)
  {
    hide PutN, Blanked, Place, IsCell, Erased, Sized, EraseChars;
    TermFacts(t);
    var x, y := CursorX(t), CursorY(t);
    var m, c := Min(n, t.cols - x), Min(n, t.cols);
    RowEnd(t, o, x, y);
    EraseCharsAre(t, x, y, n);
    if n == 0 {
      ErasedNothing(t, o);
      PutNothing(t);
    } else if !OnScreen(t) {
      NarrowChars(t, o);
    } else {
      RowChars(t, o, m, c);
    }
    PlaceErased(t, PutN(t, SPACE, c), o, m, x, y);
  }

  lemma ErasedNothing(t: Term, o: nat)
    requires o <= |t.screen|
    ensures Erased(t, o, 0) == t
  {
    assert Blanked(t.screen, o, 0, Blank(t)) == t.screen;
  }

  lemma EraseCharsAre(t: Term, x: nat, y: nat, n: nat)
    requires TermOk(t)
    ensures EraseChars(t, x, y, n) == Place(PutN(t, SPACE, Min(n, t.cols)), x, y)
  {
    hide PutN, Place;
  }

  lemma NarrowChars(t: Term, o: nat)
    requires TermOk(t) && !OnScreen(t) && t.cols == 1 && t.y == 0 && t.bottom > 1 && IsCell(t, o, CursorX(t), CursorY(t))
    ensures o + 1 <= |t.screen|
    ensures var t1 := PutN(t, SPACE, 1); t1 == Erased(t, o, 1).(x := t1.x, y := t1.y)
  {
    hide PutN, Blanked;
    NarrowPut(t);
  }

  /** `c` characters from the cursor on, of which `m` fit in the row and the others go nowhere. */
  lemma RowChars(t: Term, o: nat, m: nat, c: nat)
    requires TermOk(t) && !t.scrollOn && IsCell(t, o, t.x, t.y) && 0 < m == Min(c, t.cols - t.x)
    requires c > m ==> t.y + 1 >= t.bottom
    ensures o + m <= |t.screen|
    ensures var t1 := PutN(t, SPACE, c); t1 == Erased(t, o, m).(x := t1.x, y := t1.y)
  {
    hide PutN, Blanked;
    RowBounds(t.y, t.rows, t.cols);
    PutRun(t, o, m, t.x + m - 1, t.y);
    if c > m {
      var t1 := PutN(t, SPACE, m);
      PutMore(t, m, c - m);
      PutStuck(t1, c - m);
    }
  }

  /** Otherwise a cell outside is blanked, or one that was to be blanked keeps its content. */
  lemma EraseCharsMisses(t: Term, n: nat) returns (cx: nat, cy: nat)
    requires TermOk(t) && !t.scrollOn && !ErasesChars(t, n)
    ensures cx < t.cols && cy < t.rows
    ensures var x, y := CursorX(t), CursorY(t);
            if cy == y && x <= cx < x + n then At(EraseChars(t, x, y, n), cx, cy) == At(t, cx, cy)
            else At(EraseChars(t, x, y, n), cx, cy) == Blank(t)
  {
    hide PutN, At, Place, EraseChars, Sized, Blank;
    TermFacts(t);
    var x, y, c := CursorX(t), CursorY(t), Min(n, t.cols);
    EraseCharsAre(t, x, y, n);
    if t.y + 1 < t.bottom {
      cx, cy := 0, WrapRow(t);
      CharsWrap(t, c);
      PlacedBlank(PutN(t, SPACE, c), t, x, y, cx, cy);
    } else {
      cx, cy := x, y;
      PutMissesCursor(t, c);
      PlacedAt(PutN(t, SPACE, c), t, x, y, cx, cy);
    }
  }

  ghost predicate Blanks1(t: Term, t': Term, x: nat, y: nat) {
    var i := y * t.cols + x;
    i < |t.screen| == |t'.screen| && t'.screen[i] == Blank(t)
  }

  lemma PlacedBlank(t1: Term, t: Term, x: nat, y: nat, cx: nat, cy: nat)
    requires TermOk(t1) && Sized(t) && Same(t, t1) && cx < t.cols && cy < t.rows && Blanks1(t, t1, cx, cy)
    ensures At(Place(t1, x, y), cx, cy) == Blank(t)
  {}

  lemma CharsWrap(t: Term, c: nat)
    requires TermOk(t) && !t.scrollOn && t.y + 1 < t.bottom && !(t.cols == 1 && t.y == 0)
    requires if OnScreen(t) then t.cols - t.x < c <= t.cols && t.x > 0 else c > 0
    ensures WrapRow(t) < t.rows && Blanks1(t, PutN(t, SPACE, c), 0, WrapRow(t))
    ensures WrapRow(t) == CursorY(t) ==> CursorX(t) > 0
  {
    var r := WrapRow(t);
    CellIndex(0, r, t.cols, t.rows);
    assert OnScreen(t) || t.x >= t.cols;
    assert r == CursorY(t) ==> CursorX(t) > 0;
    assert IsCell(t, r * t.cols, 0, r) && |t.screen| == t.rows * t.cols;
    assert !OnScreen(t) ==> t.x >= t.cols;
    hide PutN, Blank, OnScreen, CursorX, CursorY, TermOk, IsCell, WrapRow;
    if OnScreen(t) {
      FullRow(t, r * t.cols, r);
      RowThenWrap(t, t.cols - t.x, c, r * t.cols);
    } else {
      WrapBlanks(t, c, r * t.cols);
    }
  }

  lemma RowThenWrap(t: Term, m: nat, c: nat, i: nat)
    requires TermOk(t) && m < c
    requires var t1 := PutN(t, SPACE, m);
             && t1.x >= t1.cols && !t1.scrollOn && t1.y + 1 < t1.bottom && t1.cols > 0 && IsCell(t1, i, 0, WrapRow(t1))
             && |t1.screen| == |t.screen| && Blank(t1) == Blank(t)
    ensures var t' := PutN(t, SPACE, c); |t'.screen| == |t.screen| && i < |t.screen| && t'.screen[i] == Blank(t)
  {
    hide PutN, TermOk, Blank, WrapRow;
    PutMore(t, m, c - m);
    WrapBlanks(PutN(t, SPACE, m), c - m, i);
  }

  /** Filling the row leaves the cursor behind its end. */
  lemma FullRow(t: Term, i: nat, r: nat)
    requires TermOk(t) && OnScreen(t) && IsCell(t, i, 0, r)
    ensures t.cols > t.x
    ensures var t1 := PutN(t, SPACE, t.cols - t.x);
            && t1.x == t.cols == t1.cols && t1.y == t.y && |t1.screen| == |t.screen| && Blank(t1) == Blank(t)
            && t1.scrollOn == t.scrollOn && t1.bottom == t.bottom && IsCell(t1, i, 0, r) && WrapRow(t1) == WrapRow(t)
  {
    var o := t.y * t.cols + t.x;
    CellIndex(t.x, t.y, t.cols, t.rows);
    RowBounds(t.y, t.rows, t.cols);
    hide PutN;
    PutRun(t, o, t.cols - t.x, t.cols - 1, t.y);
  }

  // --- Inserting and deleting ------------------------------------------------------------------

  lemma MoveCellAt(t: Term, i: nat, k: nat, y: nat, j: nat, r: nat)
    requires Sized(t) && i < t.cols && y < t.rows && j < t.cols && r < t.rows
    ensures At(MoveCell(t, k, y, i, y), j, r) == if r == y && j == k then At(t, i, y) else At(t, j, r)
  {
    if k < t.cols {
      PutCell(t, At(t, i, y), k, y, j, r);
    }
  }

  /** One round of `CSI @`: column `i` moves right by `n` and is blanked. */
  lemma InsertAtCell(t: Term, n: nat, i: nat, y: nat, j: nat, r: nat)
    requires TermOk(t) && i < t.cols && y < t.rows && j < t.cols && r < t.rows
    ensures At(InsertAt(t, n, i, y), j, r)
            == if r == y && j == i then Blank(t) else if r == y && j == i + n then At(t, i, y) else At(t, j, r)
  {
    MoveCellAt(t, i, i + n, y, j, r);
    var m := MoveCell(t, i + n, y, i, y);
    hide MoveCell;
    MovedSame(t, i + n, i, y);
    hide At;
    PutHere(m, i, y, j, r);
  }

  lemma MovedSame(t: Term, k: nat, i: nat, y: nat)
    requires TermOk(t)
    ensures TermOk(MoveCell(t, k, y, i, y)) && Same(t, MoveCell(t, k, y, i, y))
  {}

  /** A character written at a given cell. */
  lemma PutHere(t: Term, x: nat, y: nat, j: nat, r: nat)
    requires TermOk(t) && x < t.cols && y < t.rows && j < t.cols && r < t.rows
    ensures At(PutN(Place(t, x, y), SPACE, 1), j, r) == if r == y && j == x then Blank(t) else At(t, j, r)
  {
    var p := Place(t, x, y);
    PutNothing(p);
    PutNext(p, SPACE, 0);
    assert p == t.(x := x, y := y);
    PutCell(p, Blank(t), x, y, j, r);
  }

  /** `CSI @`: `n` blanks appear at the cursor and the rest of the row moves right, the last `n`
      cells falling off; no other row changes. With an explicit parameter 0 the source still blanks
      the rest of the row. */
  lemma InsertCharsAt(t: Term, x: nat, y: nat, n: nat, j: nat, r: nat)
    requires TermOk(t) && x < t.cols && y < t.rows && j < t.cols && r < t.rows
    ensures At(InsertChars(t, x, y, n), j, r)
            == if r != y || j < x then At(t, j, r) else if n == 0 || j < x + n then Blank(t) else At(t, j - n, y)
  {
    hide TermOk, At, InsertBlanks, Place, Blank;
    var res := InsertBlanks(t, n, x, y, t.cols - 1);
    TermFacts(t);
    SameBlank(t, res);
    if n == 0 {
      InsertNone(t, x, y, t.cols - 1, j, r);
    } else {
      InsertFrom(t, n, x, y, t.cols - 1, j, r);
    }
    PlaceKeepsCells(res, x, y, j, r);
  }

  lemma PlaceKeepsCells(t: Term, x: nat, y: nat, j: nat, r: nat)
    requires TermOk(t) && j < t.cols && r < t.rows
    ensures At(Place(t, x, y), j, r) == At(t, j, r)
  {}

  lemma {:induction false} InsertFrom(t: Term, n: nat, x: nat, y: nat, i: nat, j: nat, r: nat)
    requires TermOk(t) && x <= i < t.cols && y < t.rows && j < t.cols && r < t.rows && n > 0
    requires forall k: nat :: i < k < i + n && k < t.cols ==> At(t, k, y) == Blank(t)
    ensures At(InsertBlanks(t, n, x, y, i), j, r)
            == if r != y || j < x || j > i + n then At(t, j, r) else if j < x + n then Blank(t) else At(t, j - n, y)
    decreases i
  {
    hide TermOk, At, InsertAt, Blank;
    var t1 := InsertAt(t, n, i, y);
    SameBlank(t, t1);
    InsertAtCell(t, n, i, y, j, r);
    if i > x {
      TermFacts(t1);
      forall k: nat | i - 1 < k < i - 1 + n && k < t.cols ensures At(t1, k, y) == Blank(t1) {
        InsertAtCell(t, n, i, y, k, y);
      }
      if n <= j {
        InsertAtCell(t, n, i, y, j - n, y);
      }
      InsertFrom(t1, n, x, y, i - 1, j, r);
    }
  }

  lemma SameBlank(t: Term, t': Term)
    requires Same(t, t')
    ensures Blank(t') == Blank(t) && t'.cols == t.cols && t'.rows == t.rows && t'.bottom == t.bottom && t'.scrollOn == t.scrollOn
  {}

  lemma {:induction false} InsertNone(t: Term, x: nat, y: nat, i: nat, j: nat, r: nat)
    requires TermOk(t) && x <= i < t.cols && y < t.rows && j < t.cols && r < t.rows
    ensures At(InsertBlanks(t, 0, x, y, i), j, r) == if r == y && x <= j <= i then Blank(t) else At(t, j, r)
    decreases i
  {
    hide TermOk, At, InsertAt, Blank;
    var t1 := InsertAt(t, 0, i, y);
    SameBlank(t, t1);
    InsertAtCell(t, 0, i, y, j, r);
    if i > x {
      InsertNone(t1, x, y, i - 1, j, r);
    }
  }

  /** The loop of `CSI P`. */
  lemma {:induction false} MoveLeftAt(t: Term, n: nat, y: nat, i: nat, j: nat, r: nat)
    requires Sized(t) && n <= i && y < t.rows && j < t.cols && r < t.rows
    ensures At(MoveLeft(t, n, y, i), j, r) == if r == y && i <= j + n < t.cols then At(t, j + n, y) else At(t, j, r)
    decreases t.cols - i
  {
    hide Sized, At, MoveCell;
    if i < t.cols {
      var t1 := MoveCell(t, i - n, y, i, y);
      MovedCols(t, i - n, i, y);
      MoveCellAt(t, i, i - n, y, j, r);
      if j + n < t.cols {
        MoveCellAt(t, i, i - n, y, j + n, y);
      }
      MoveLeftAt(t1, n, y, i + 1, j, r);
    }
  }

  lemma MovedCols(t: Term, k: nat, i: nat, y: nat)
    requires Sized(t)
    ensures Same(t, MoveCell(t, k, y, i, y)) && MoveCell(t, k, y, i, y).cols == t.cols && MoveCell(t, k, y, i, y).rows == t.rows
  {}

  /** `CSI P` of up to `cols` characters: the rest of the row moves left by `n`, and the last `n`
      columns of the row are blanked, wherever the cursor is. */
  lemma DeleteFewAt(t: Term, x: nat, y: nat, n: nat, j: nat, r: nat)
    requires TermOk(t) && x < t.cols && y < t.rows && n <= t.cols && j < t.cols && r < t.rows
    ensures At(DeleteChars(t, x, y, n), j, r)
            == if r == y && j + n >= t.cols then Blank(t) else if r == y && j >= x then At(t, j + n, y) else At(t, j, r)
  {
    var moved := MoveLeft(t, n, y, x + n);
    MoveLeftAt(t, n, y, x + n, j, r);
    TermFacts(t);
    SameBlank(t, moved);
    hide TermOk, At, MoveLeft, Blank;
    EraseAtEnd(moved, x, y, n, j, r);
  }

  /** The end of `CSI P`: the last `n` cells of row `y` are blanked. */
  lemma EraseAtEnd(t: Term, x: nat, y: nat, n: nat, j: nat, r: nat)
    requires TermOk(t) && x < t.cols && y < t.rows && n <= t.cols && j < t.cols && r < t.rows
    ensures At(EraseChars(Place(t, Less(t.cols, n), y), x, y, n), j, r) == if r == y && j + n >= t.cols then Blank(t) else At(t, j, r)
  {
    hide PutN, Place, At, TermOk, IsCell, Sized, Erased, Blank;
    TermFacts(t);
    var p := Place(t, Less(t.cols, n), y);
    SameBlank(t, p);
    PlaceKeepsCells(PutN(p, SPACE, n), x, y, j, r);
    PlaceKeepsCells(t, Less(t.cols, n), y, j, r);
    EraseCharsIs(p, x, y, n);
    if n == 0 {
      PutNothing(p);
    } else {
      PlacedLeft(t, n, y);
      var o := y * t.cols + (t.cols - n);
      PutRun(p, o, n, t.cols - 1, y);
      ErasedAt(p, o, n, y, j, r);
      AtIgnoresCursor(Erased(p, o, n), t.cols, y, j, r);
    }
  }

  lemma AtIgnoresCursor(t: Term, x: nat, y: nat, j: nat, r: nat)
    requires Sized(t) && j < t.cols && r < t.rows
    ensures Sized(t.(x := x, y := y)) && At(t.(x := x, y := y), j, r) == At(t, j, r)
  {}

  lemma EraseCharsIs(t: Term, x: nat, y: nat, n: nat)
    requires TermOk(t) && n <= t.cols
    ensures EraseChars(t, x, y, n) == Place(PutN(t, SPACE, n), x, y)
  {
    hide PutN, Place;
  }

  /** The cursor `n` columns from the right edge. */
  lemma PlacedLeft(t: Term, n: nat, y: nat)
    requires TermOk(t) && y < t.rows && 0 < n <= t.cols
    ensures var p, o := Place(t, Less(t.cols, n), y), y * t.cols + (t.cols - n);
            && p.x == t.cols - n && p.y == y && IsCell(p, o, p.x, p.y) && IsCell(p, o + n - 1, t.cols - 1, y) && TermOk(p)
  {
    CellIndex(t.cols - n, y, t.cols, t.rows);
    RowBounds(y, t.rows, t.cols);
  }

  /** The cells of the end of a row, erased. */
  lemma ErasedAt(t: Term, o: nat, n: nat, y: nat, j: nat, r: nat)
    requires Sized(t) && 0 < n <= t.cols && IsCell(t, o, t.cols - n, y) && j < t.cols && r < t.rows
    ensures o + n <= |t.screen| && Sized(Erased(t, o, n))
    ensures At(Erased(t, o, n), j, r) == if r == y && j + n >= t.cols then Blank(t) else At(t, j, r)
  {
    RowBounds(y, t.rows, t.cols);
    CellIndex(j, r, t.cols, t.rows);
    var i := r * t.cols + j;
    InRow(i, j, r, y, t.cols, y * t.cols);
    InRow(i, j, r, y + 1, t.cols, y * t.cols + t.cols);
  }

  /** Larger numbers delete nothing. The cursor goes to column `cols - n` on 64 bits, which is clamped
      to the first column while it reads as a negative `int`, and to the last column beyond. */
  lemma DeleteManyIs(t: Term, x: nat, y: nat, n: nat)
    requires TermOk(t) && y < t.rows && t.cols < n < U32_SIZE
    ensures DeleteChars(t, x, y, n)
            == Place(PutN(t.(x := if n <= t.cols + 0x8000_0000 then 0 else t.cols - 1, y := y), SPACE, t.cols), x, y)
  {
    var far := Less(t.cols, n);
    assert far == U64_SIZE - (n - t.cols);
    assert far % 0x1_0000_0000 == (0x1_0000_0000 - (n - t.cols)) by {
      QuotientIs(far, 0x1_0000_0000, 0xFFFF_FFFF, 0x1_0000_0000 - (n - t.cols));
    }
    assert Place(t, far, y) == t.(x := if n <= t.cols + 0x8000_0000 then 0 else t.cols - 1, y := y);
    assert MoveLeft(t, n, y, x + n) == t;
    hide PutN, Place, MoveLeft;
    EraseCharsAre(Place(t, far, y), x, y, n);
  }

  /** From the first column the whole row is blanked ... */
  lemma WholeRow(t: Term, y: nat, j: nat, r: nat)
    requires TermOk(t) && t.x == 0 && t.y == y < t.rows && j < t.cols && r < t.rows
    ensures At(PutN(t, SPACE, t.cols), j, r) == if r == y then Blank(t) else At(t, j, r)
  {
    TermFacts(t);
    RowStart(t, y);
    WholeRowAt(t, y * t.cols, y, j, r);
  }

  lemma WholeRowAt(t: Term, o: nat, y: nat, j: nat, r: nat)
    requires TermOk(t) && t.x == 0 && t.y == y && j < t.cols && r < t.rows
    requires IsCell(t, o, 0, y) && IsCell(t, o + t.cols - 1, t.cols - 1, y)
    ensures At(PutN(t, SPACE, t.cols), j, r) == if r == y then Blank(t) else At(t, j, r)
  {
    assert IsCell(t, o, t.cols - t.cols, y);
    TermFacts(t);
    hide PutN, At, TermOk, Sized, Erased, Blank, IsCell;
    PutRun(t, o, t.cols, t.cols - 1, y);
    ErasedAt(t, o, t.cols, y, j, r);
    AtIgnoresCursor(Erased(t, o, t.cols), t.cols, y, j, r);
  }

  lemma RowStart(t: Term, y: nat)
    requires TermOk(t) && y < t.rows
    ensures IsCell(t, y * t.cols, 0, y) && IsCell(t, y * t.cols + t.cols - 1, t.cols - 1, y) && IsCell(t, y * t.cols, t.cols - t.cols, y)
  {
    CellIndex(0, y, t.cols, t.rows);
    RowBounds(y, t.rows, t.cols);
  }

  /** ... and from the last one that column, and what a wrap leads to. */
  lemma FromLast(t: Term, y: nat, j: nat, r: nat)
    requires TermOk(t) && !t.scrollOn && t.x == t.cols - 1 && t.y == y < t.rows && j < t.cols && r < t.rows
    ensures At(PutN(t, SPACE, t.cols), j, r) == if FromLastReaches(t, y, j, r) then Blank(t) else At(t, j, r)
  {
    hide PutN, At, TermOk, IsCell, Sized, Blank, FromLastReaches;
    TermFacts(t);
    LastCellOf(t, y);
    var o := y * t.cols + (t.cols - 1);
    PutRun(t, o, 1, t.cols - 1, y);
    PutMore(t, 1, t.cols - 1);
    var t1 := PutN(t, SPACE, 1);
    ErasedAt(t, o, 1, y, j, r);
    AtIgnoresCursor(Erased(t, o, 1), t.cols, y, j, r);
    FromLastReaching(t, y, j, r);
    hide Erased;
    if t.cols == 1 {
      PutNothing(t1);
    } else if y + 1 >= t.bottom {
      StuckAt(t1, t.cols - 1, j, r);
    } else {
      AfterWrap(t1, t.cols - 1, j, r);
      SameBlank(t, t1);
    }
  }

  predicate FromLastReaches(t: Term, y: nat, j: nat, r: nat)
    requires t.cols > 0
  {
    (r == y && j == t.cols - 1) || (y + 1 < t.bottom && r == Min(y + 1, t.cols - 1) && j < t.cols - 1)
  }

  lemma FromLastReaching(t: Term, y: nat, j: nat, r: nat)
    requires t.cols > 0 && j < t.cols
    ensures t.cols == 1 || y + 1 >= t.bottom ==> (FromLastReaches(t, y, j, r) <==> r == y && j == t.cols - 1)
    ensures y + 1 < t.bottom ==>
              (FromLastReaches(t, y, j, r) <==> (r == y && j == t.cols - 1) || (r == Min(y + 1, t.cols - 1) && j < t.cols - 1))
  {}

  lemma LastCellOf(t: Term, y: nat)
    requires TermOk(t) && y < t.rows
    ensures IsCell(t, y * t.cols + (t.cols - 1), t.cols - 1, y) && y * t.cols + (t.cols - 1) + 1 <= |t.screen|
  {
    CellIndex(t.cols - 1, y, t.cols, t.rows);
  }

  lemma StuckAt(t: Term, n: nat, j: nat, r: nat)
    requires TermOk(t) && !t.scrollOn && t.y + 1 >= t.bottom && !OnScreen(t) && j < t.cols && r < t.rows
    ensures At(PutN(t, SPACE, n), j, r) == At(t, j, r)
  {
    hide PutN;
    PutStuck(t, n);
  }

  /** Behind a pending wrap `n` characters go to the start of the row it leads to. */
  lemma AfterWrap(t: Term, n: nat, j: nat, r: nat)
    requires TermOk(t) && !t.scrollOn && t.x == t.cols && t.y + 1 < t.bottom && 0 < n < t.cols && j < t.cols && r < t.rows
    ensures At(PutN(t, SPACE, n), j, r) == if r == WrapRow(t) && j < n then Blank(t) else At(t, j, r)
  {
    TermFacts(t);
    var o := WrapRowStart(t, n);
    var i := CellOf(t, j, r);
    hide *;
    AfterWrapAt(t, n, o, WrapRow(t), i, j, r);
  }

  /** Every position has an index. */
  lemma CellOf(t: Term, x: nat, y: nat) returns (i: nat)
    requires Sized(t) && x < t.cols && y < t.rows
    ensures IsCell(t, i, x, y)
  {
    CellIndex(x, y, t.cols, t.rows);
    i := y * t.cols + x;
  }

  lemma CellAt(t: Term, i: nat, x: nat, y: nat)
    requires Sized(t) && IsCell(t, i, x, y)
    ensures At(t, x, y) == t.screen[i]
  {}

  lemma AfterWrapAt(t: Term, n: nat, o: nat, y: nat, i: nat, j: nat, r: nat)
    requires TermOk(t) && !t.scrollOn && t.x == t.cols && t.y + 1 < t.bottom && 0 < n < t.cols && y == WrapRow(t)
    requires IsCell(t, o, 0, y) && o + n <= |t.screen| && IsCell(t, i, j, r)
    requires n > 1 ==> IsCell(t, o + 1, 1, y) && IsCell(t, o + 1 + (n - 1) - 1, n - 1, y)
    ensures j < t.cols && r < t.rows && At(PutN(t, SPACE, n), j, r) == if r == y && j < n then Blank(t) else At(t, j, r)
  {
    RunAfterWrap(t, n, o, y);
    StartErased(t, o, n, y, i, j, r);
    TermFacts(t);
    hide PutN, At, TermOk, Sized, Erased, Blank, WrapRow;
    AtIgnoresCursor(Erased(t, o, n), n, y, j, r);
  }

  lemma RunAfterWrap(t: Term, n: nat, o: nat, y: nat)
    requires TermOk(t) && !t.scrollOn && t.x == t.cols && t.y + 1 < t.bottom && 0 < n < t.cols && y == WrapRow(t)
    requires IsCell(t, o, 0, y) && o + n <= |t.screen|
    requires n > 1 ==> IsCell(t, o + 1, 1, y) && IsCell(t, o + 1 + (n - 1) - 1, n - 1, y)
    ensures PutN(t, SPACE, n) == Erased(t, o, n).(x := n, y := y)
  {
    hide PutN, TermOk, IsCell, Sized, Erased, Blank, WrapRow;
    FirstOfRow(t, o);
    PutNothing(t);
    PutNext(t, SPACE, 0);
    PutMore(t, 1, n - 1);
    var t1 := PutN(t, SPACE, 1);
    if n > 1 {
      ErasedCell(t, o, 1, 1, y, o + 1, 1, y);
      ErasedCell(t, o, 1, 1, y, o + 1 + (n - 1) - 1, n - 1, y);
      PutRun(t1, o + 1, n - 1, n - 1, y);
      ErasedOn(t, o, n, 1, y, n, y);
    } else {
      PutNothing(t1);
    }
  }

  lemma ErasedOn(t: Term, o: nat, n: nat, x: nat, y: nat, x': nat, y': nat)
    requires n > 0 && o + n <= |t.screen|
    ensures |Erased(t, o, 1).screen| == |t.screen|
    ensures Erased(Erased(t, o, 1).(x := x, y := y), o + 1, n - 1).(x := x', y := y') == Erased(t, o, n).(x := x', y := y')
  {
    var s, c := t.screen, Blank(t);
    assert Blanked(Blanked(s, o, 1, c), o + 1, n - 1, c) == Blanked(s, o, n, c);
  }

  lemma FirstOfRow(t: Term, o: nat)
    requires TermOk(t) && !t.scrollOn && t.x == t.cols && t.y + 1 < t.bottom && IsCell(t, o, 0, WrapRow(t))
    ensures RawPut(t, SPACE) == Erased(t, o, 1).(x := 1, y := WrapRow(t))
  {
    assert Wrap(t) == t.(x := 0, y := WrapRow(t));
    assert t.screen[o := Blank(t)] == Blanked(t.screen, o, 1, Blank(t));
  }

  lemma WrapRowStart(t: Term, n: nat) returns (o: nat)
    requires TermOk(t) && t.y + 1 < t.bottom && 0 < n < t.cols
    ensures var y := WrapRow(t);
            && y < t.rows && IsCell(t, o, 0, y) && o + n <= |t.screen|
            && (n > 1 ==> IsCell(t, o + 1, 1, y) && IsCell(t, o + 1 + (n - 1) - 1, n - 1, y))
  {
    RowBounds(WrapRow(t), t.rows, t.cols);
    o := WrapRow(t) * t.cols;
  }

  lemma StartErased(t: Term, o: nat, n: nat, y: nat, i: nat, j: nat, r: nat)
    requires Sized(t) && n < t.cols && IsCell(t, o, 0, y) && o + n <= |t.screen| && IsCell(t, i, j, r)
    ensures Sized(Erased(t, o, n))
    ensures At(Erased(t, o, n), j, r) == if r == y && j < n then Blank(t) else At(t, j, r)
  {
    StartRange(o, n, y, j, r, i, t.cols);
    CellAt(t, i, j, r);
    ErasedIndex(t, o, n, i);
    assert IsCell(Erased(t, o, n), i, j, r) && Sized(Erased(t, o, n));
    hide IsCell, Sized, Erased, At, Blank;
    CellAt(Erased(t, o, n), i, j, r);
  }

  lemma ErasedIndex(t: Term, o: nat, n: nat, i: nat)
    requires o + n <= |t.screen| && i < |t.screen|
    ensures |Erased(t, o, n).screen| == |t.screen|
    ensures Erased(t, o, n).screen[i] == if o <= i < o + n then Blank(t) else t.screen[i]
  {}

  lemma StartRange(o: nat, n: nat, y: nat, j: nat, r: nat, i: nat, cols: nat)
    requires n < cols && o == y * cols && j < cols && i == r * cols + j
    ensures o <= i < o + n <==> r == y && j < n
  {
    InRow(i, j, r, y, cols, o);
    InRow(i, j, r, y + 1, cols, o + cols);
  }

  /** `CSI P` cell by cell, for every number. */
  lemma DeleteCharsAt(t: Term, x: nat, y: nat, n: nat, j: nat, r: nat)
    requires TermOk(t) && !t.scrollOn && x < t.cols && y < t.rows && n < U32_SIZE && j < t.cols && r < t.rows
    ensures At(DeleteChars(t, x, y, n), j, r)
            == if n <= t.cols then
                 if r == y && j + n >= t.cols then Blank(t) else if r == y && j >= x then At(t, j + n, y) else At(t, j, r)
               else if n <= t.cols + 0x8000_0000 then
                 if r == y then Blank(t) else At(t, j, r)
               else
                 if FromLastReaches(t, y, j, r) then Blank(t) else At(t, j, r)
  {
    hide PutN, At, TermOk, Sized, Blank, FromLastReaches, DeleteChars, Place;
    TermFacts(t);
    if n <= t.cols {
      DeleteFewAt(t, x, y, n, j, r);
    } else {
      DeleteManyIs(t, x, y, n);
      var p := Moved(t, if n <= t.cols + 0x8000_0000 then 0 else t.cols - 1, y, j, r);
      PlaceKeepsCells(PutN(p, SPACE, t.cols), x, y, j, r);
      if n <= t.cols + 0x8000_0000 {
        WholeRow(p, y, j, r);
      } else {
        FromLast(p, y, j, r);
      }
    }
  }

  lemma Moved(t: Term, x: nat, y: nat, j: nat, r: nat) returns (p: Term)
    requires TermOk(t) && j < t.cols && r < t.rows
    ensures p == t.(x := x, y := y) && TermOk(p) && At(p, j, r) == At(t, j, r) && Blank(p) == Blank(t)
    ensures FromLastReaches(p, y, j, r) == FromLastReaches(t, y, j, r)
  {
    p := t.(x := x, y := y);
  }

  /** `CSI P` deletes `n` characters at `(x, y)`: they fit between the cursor and the right edge, or the
      whole row is to go and does. */
  predicate DeletesChars(t: Term, x: nat, y: nat, n: nat)
    requires x < t.cols
  {
    || n <= t.cols - x
    || (x == 0 && n <= t.cols + 0x8000_0000)
    || (n > t.cols + 0x8000_0000
        && (t.cols == 1 || if y + 1 < t.bottom then x == 0 && y == t.cols - 1 else x == t.cols - 1))
  }

  /** Exactly then the cells left of the cursor and the other rows keep their content, the rest of the
      row moves left by `n`, and blanks follow it. */
  lemma DeleteCharsExactly(t: Term, x: nat, y: nat, n: nat, j: nat, r: nat)
    requires TermOk(t) && !t.scrollOn && x < t.cols && y < t.rows && n < U32_SIZE && j < t.cols && r < t.rows
    requires DeletesChars(t, x, y, n)
    ensures At(DeleteChars(t, x, y, n), j, r)
            == if r != y || j < x then At(t, j, r) else if j + n < t.cols then At(t, j + n, y) else Blank(t)
  {
    DeleteCharsAt(t, x, y, n, j, r);
    hide DeleteChars, At, Blank;
  }

  /** Otherwise a cell outside is blanked, or one that was to be blanked keeps its content. */
  lemma DeleteCharsMisses(t: Term, x: nat, y: nat, n: nat) returns (cx: nat, cy: nat)
    requires TermOk(t) && !t.scrollOn && x < t.cols && y < t.rows && n < U32_SIZE && !DeletesChars(t, x, y, n)
    ensures cx < t.cols && cy < t.rows
    ensures if cy == y && x <= cx then cx + n >= t.cols && At(DeleteChars(t, x, y, n), cx, cy) == At(t, cx, cy)
            else At(DeleteChars(t, x, y, n), cx, cy) == Blank(t)
  {
    cx, cy := if n <= t.cols then t.cols - n else 0, y;
    if n > t.cols + 0x8000_0000 {
      if y + 1 < t.bottom {
        cy := Min(y + 1, t.cols - 1);
      } else {
        cx := x;
      }
    }
    DeleteCharsAt(t, x, y, n, cx, cy);
    hide DeleteChars, At, Blank;
  }

  // --- Moving inside the scroll region ---------------------------------------------------------

  /** Vertical cursor movement that starts in the scroll region stays in it, and goes exactly as far
      as it can. */
  lemma MovesStayInRegion(t: Term, y: nat, n: nat)
    requires TermOk(t) && t.top <= y < t.bottom
    ensures n <= y ==> Up(t, y, n) == if y - n < t.top then t.top else y - n
    ensures Down(t, y, n) == if y + n >= t.bottom then t.bottom - 1 else y + n
  {}

  /** `CSI r` accepts exactly the regions of at least two rows that fit on the screen. */
  lemma MarginsAccepted(t: Term, first: nat, second: nat)
    requires Sized(t) && 1 <= first && 1 <= second
    ensures var t' := SetMargins(t, 2, first, second);
            && (first < second <= t.rows ==> t'.top == first - 1 && t'.bottom == second)
            && (!(first < second <= t.rows) ==> t'.top == 0 && t'.bottom == t.rows)
            && t'.x == 0 && t'.y == 0
  {}
}
