/** The framebuffer terminal backend (kernel/src/flanterm/backends/fb.c): `grid` holds what was last
    committed, `queue` and `map` overlay it with pending cells, and a flush commits them, painting
    the cell under the cursor with its colours swapped. It refines the plain screen of `Screen`. */
module Framebuffer {
  import opened Bits
  import opened Collections
  import opened Screen

  /** A pending cell. */
  datatype Item = Item(x: nat, y: nat, c: Cell)

  /** "No queue item": the null pointer of `map`. */
  const NONE: int := -1

  function Offset(q: Item, cols: nat): nat {
    q.y * cols + q.x
  }

  /** The cell shown at `i`: the pending one if there is one, otherwise the committed one. */
  ghost function Shown(grid: seq<Cell>, queue: seq<Item>, map_: seq<int>, i: nat): Cell
    requires i < |grid| && i < |map_| && map_[i] < |queue|
  {
    if map_[i] < 0 then grid[i] else queue[map_[i]].c
  }

  /** The first `n` queue items and the entries of `map` are inverse to each other, and together
      with `grid` they show the screen `shown`. */
  ghost predicate CacheOk(grid: seq<Cell>, queue: seq<Item>, n: nat, map_: seq<int>, shown: seq<Cell>, cols: nat, rows: nat) {
    && |grid| == |queue| == |map_| == |shown| == rows * cols && cols > 0
    && n <= |queue|
    && (forall k :: 0 <= k < n ==> ItemOk(queue[k], map_, k, cols, rows))
    && (forall i :: 0 <= i < |map_| ==> EntryOk(queue, n, map_[i], i, cols))
    && (forall i :: 0 <= i < |map_| ==> map_[i] < |queue| && shown[i] == Shown(grid, queue, map_, i))
  }

  ghost predicate ItemOk(q: Item, map_: seq<int>, k: nat, cols: nat, rows: nat) {
    q.x < cols && q.y < rows && Offset(q, cols) < |map_| && map_[Offset(q, cols)] == k
  }

  ghost predicate EntryOk(queue: seq<Item>, n: nat, m: int, i: nat, cols: nat) {
    m == NONE || (0 <= m < n <= |queue| && Offset(queue[m], cols) == i)
  }

  /** Pigeonhole: while some cell has no pending item there is room for another one. */
  lemma RoomForOne(grid: seq<Cell>, queue: seq<Item>, n: nat, map_: seq<int>, shown: seq<Cell>, cols: nat, rows: nat, i: nat)
    requires CacheOk(grid, queue, n, map_, shown, cols, rows) && i < |map_| && map_[i] == NONE
    ensures n < |queue|
  {
    hide Offset;
    var offsets := seq(n, k requires 0 <= k < n => Offset(queue[k], cols));
    forall j, k | 0 <= j < k < n ensures offsets[j] != offsets[k] {
      assert ItemOk(queue[j], map_, j, cols, rows) && ItemOk(queue[k], map_, k, cols, rows);
    }
    forall k | 0 <= k < n ensures offsets[k] < |map_| && offsets[k] != i {
      assert ItemOk(queue[k], map_, k, cols, rows);
    }
    DistinctConcat(offsets, [i]);
    Pigeonhole(offsets + [i], |map_|);
  }

  /** Changing the pending cell at `i`. */
  lemma PushExisting(grid: seq<Cell>, queue: seq<Item>, n: nat, map_: seq<int>, shown: seq<Cell>, cols: nat, rows: nat, i: nat, c: Cell)
    requires CacheOk(grid, queue, n, map_, shown, cols, rows) && i < |map_| && map_[i] != NONE
    ensures 0 <= map_[i] < n
    ensures CacheOk(grid, queue[map_[i] := queue[map_[i]].(c := c)], n, map_, shown[i := c], cols, rows)
  {
    hide Offset;
    var m := map_[i];
    assert EntryOk(queue, n, m, i, cols);
    var queue' := queue[m := queue[m].(c := c)];
    SameOffset(queue[m], c, cols);
    forall k | 0 <= k < n ensures ItemOk(queue'[k], map_, k, cols, rows) {
      assert ItemOk(queue[k], map_, k, cols, rows);
    }
    forall j | 0 <= j < |map_|
      ensures EntryOk(queue', n, map_[j], j, cols) && shown[i := c][j] == Shown(grid, queue', map_, j)
    {
      assert EntryOk(queue, n, map_[j], j, cols) && shown[j] == Shown(grid, queue, map_, j);
    }
  }

  lemma SameOffset(q: Item, c: Cell, cols: nat)
    ensures Offset(q.(c := c), cols) == Offset(q, cols)
  {}

  /** Making a pending cell at `(x, y)` where there was none. */
  lemma PushNew(grid: seq<Cell>, queue: seq<Item>, n: nat, map_: seq<int>, shown: seq<Cell>, cols: nat, rows: nat, x: nat, y: nat, i: nat, c: Cell)
    requires CacheOk(grid, queue, n, map_, shown, cols, rows) && x < cols && y < rows && i == y * cols + x
    requires i < |map_| && map_[i] == NONE && n < |queue|
    ensures CacheOk(grid, queue[n := Item(x, y, c)], n + 1, map_[i := n], shown[i := c], cols, rows)
  {
    var q := Item(x, y, c);
    assert Offset(q, cols) == i;
    hide Offset;
    var queue', map' := queue[n := q], map_[i := n];
    forall k | 0 <= k < n + 1 ensures ItemOk(queue'[k], map', k, cols, rows) {
      if k < n {
        assert ItemOk(queue[k], map_, k, cols, rows);
      }
    }
    forall j | 0 <= j < |map_|
      ensures EntryOk(queue', n + 1, map'[j], j, cols) && shown[i := c][j] == Shown(grid, queue', map', j)
    {
      assert EntryOk(queue, n, map_[j], j, cols) && shown[j] == Shown(grid, queue, map_, j);
    }
  }

  /** Pushing what is already committed there changes nothing. */
  lemma PushSame(grid: seq<Cell>, queue: seq<Item>, n: nat, map_: seq<int>, shown: seq<Cell>, cols: nat, rows: nat, i: nat)
    requires CacheOk(grid, queue, n, map_, shown, cols, rows) && i < |map_| && map_[i] == NONE
    ensures shown[i := grid[i]] == shown
  {
    assert shown[i] == Shown(grid, queue, map_, i);
  }

  // --- Flush -----------------------------------------------------------------------------------

  /** The cell with its colours swapped, as it is painted under the cursor. */
  function Inverted(c: Cell): Cell {
    Cell(c.c, c.bg, c.fg)
  }

  /** Index of the cursor cell, or NONE when it is off the screen. */
  function CursorCell(x: nat, y: nat, cols: nat, rows: nat): int {
    if x >= cols || y >= rows then NONE else x + y * cols
  }

  /** What a flush paints: every cell as shown, the enabled cursor cell inverted. */
  ghost predicate PaintedOk(painted: seq<Cell>, shown: seq<Cell>, cursor: int, on: bool) {
    && |painted| == |shown|
    && forall i :: 0 <= i < |shown| ==> painted[i] == if on && i == cursor then Inverted(shown[i]) else shown[i]
  }

  /** Between flushes only the cell of the last flushed cursor may be painted unlike `grid`. */
  ghost predicate PaintedApart(painted: seq<Cell>, grid: seq<Cell>, old_: int) {
    |painted| == |grid| && forall i :: 0 <= i < |grid| && i != old_ ==> painted[i] == grid[i]
  }

  /** In the middle of a flush: the first `k` items are committed, and so is the cursor cell. */
  ghost predicate Flushing(grid: seq<Cell>, queue: seq<Item>, n: nat, map_: seq<int>, painted: seq<Cell>, shown: seq<Cell>,
                           cols: nat, rows: nat, cursor: int, drawn: bool, old_: int, k: nat) {
    && |grid| == |queue| == |map_| == |shown| == |painted| == rows * cols && cols > 0
    && k <= n <= |queue|
    && (forall j :: k <= j < n ==> Pending(queue[j], map_, shown, j, cols, rows))
    && (forall i :: 0 <= i < |map_| ==> map_[i] == NONE || (k <= map_[i] < n && Offset(queue[map_[i]], cols) == i))
    && (forall i :: 0 <= i < |map_| && map_[i] == NONE ==> grid[i] == shown[i])
    && (forall i :: 0 <= i < |map_| && map_[i] == NONE && i != old_ && !(drawn && i == cursor) ==> painted[i] == shown[i])
    && (drawn && 0 <= cursor < |map_| ==> map_[cursor] == NONE && painted[cursor] == Inverted(shown[cursor]))
  }

  ghost predicate Pending(q: Item, map_: seq<int>, shown: seq<Cell>, j: nat, cols: nat, rows: nat) {
    && q.x < cols && q.y < rows && Offset(q, cols) < |map_| == |shown|
    && (map_[Offset(q, cols)] == NONE || (map_[Offset(q, cols)] == j && q.c == shown[Offset(q, cols)]))
  }

  lemma FlushStart(grid: seq<Cell>, queue: seq<Item>, n: nat, map_: seq<int>, painted: seq<Cell>, shown: seq<Cell>, cols: nat, rows: nat, cursor: int, old_: int)
    requires CacheOk(grid, queue, n, map_, shown, cols, rows) && PaintedApart(painted, grid, old_)
    ensures Flushing(grid, queue, n, map_, painted, shown, cols, rows, cursor, false, old_, 0)
  {
    hide Offset;
    forall j | 0 <= j < n ensures Pending(queue[j], map_, shown, j, cols, rows) {
      assert ItemOk(queue[j], map_, j, cols, rows);
      assert shown[Offset(queue[j], cols)] == Shown(grid, queue, map_, Offset(queue[j], cols));
    }
    forall i | 0 <= i < |map_| && map_[i] == NONE ensures grid[i] == shown[i] {
      assert shown[i] == Shown(grid, queue, map_, i);
    }
    forall i | 0 <= i < |map_| ensures map_[i] == NONE || (0 <= map_[i] < n && Offset(queue[map_[i]], cols) == i) {
      assert EntryOk(queue, n, map_[i], i, cols);
    }
  }

  /** Committing and inverting the cursor cell. */
  lemma FlushCursor(grid: seq<Cell>, queue: seq<Item>, n: nat, map_: seq<int>, painted: seq<Cell>, shown: seq<Cell>, cols: nat, rows: nat, cursor: nat, old_: int)
    requires Flushing(grid, queue, n, map_, painted, shown, cols, rows, cursor, false, old_, 0) && cursor < |map_|
    ensures Flushing(grid[cursor := shown[cursor]], queue, n, map_[cursor := NONE], painted[cursor := Inverted(shown[cursor])],
                     shown, cols, rows, cursor, true, old_, 0)
  {
    hide Offset;
    forall j | 0 <= j < n ensures Pending(queue[j], map_[cursor := NONE], shown, j, cols, rows) {
      assert Pending(queue[j], map_, shown, j, cols, rows);
    }
  }

  /** Committing item `k`, unless it has been committed already. */
  lemma FlushItem(grid: seq<Cell>, queue: seq<Item>, n: nat, map_: seq<int>, painted: seq<Cell>, shown: seq<Cell>, cols: nat, rows: nat,
                  cursor: int, drawn: bool, old_: int, k: nat, o: nat)
    requires Flushing(grid, queue, n, map_, painted, shown, cols, rows, cursor, drawn, old_, k) && k < n
    requires o == Offset(queue[k], cols)
    ensures o < |map_|
    ensures map_[o] == NONE ==> Flushing(grid, queue, n, map_, painted, shown, cols, rows, cursor, drawn, old_, k + 1)
    ensures map_[o] != NONE ==>
              Flushing(grid[o := queue[k].c], queue, n, map_[o := NONE], painted[o := queue[k].c], shown, cols, rows, cursor, drawn, old_, k + 1)
  {
    hide Offset;
    assert Pending(queue[k], map_, shown, k, cols, rows);
    if map_[o] != NONE {
      forall j | k + 1 <= j < n ensures Pending(queue[j], map_[o := NONE], shown, j, cols, rows) {
        assert Pending(queue[j], map_, shown, j, cols, rows);
      }
    }
  }

  lemma FlushEnd(grid: seq<Cell>, queue: seq<Item>, n: nat, map_: seq<int>, painted: seq<Cell>, shown: seq<Cell>, cols: nat, rows: nat,
                 cursor: int, drawn: bool, old_: int)
    requires Flushing(grid, queue, n, map_, painted, shown, cols, rows, cursor, drawn, old_, n)
    ensures forall i :: 0 <= i < |map_| ==> map_[i] == NONE
    ensures grid == shown
    ensures CacheOk(grid, queue, 0, map_, shown, cols, rows)
    ensures 0 <= old_ < |painted| && (old_ != cursor || !drawn) ==>
              PaintedOk(painted[old_ := grid[old_]], shown, cursor, drawn)
    ensures !(0 <= old_ < |painted|) || (old_ == cursor && drawn) ==> PaintedOk(painted, shown, cursor, drawn)
  {
    forall i | 0 <= i < |map_| ensures map_[i] == NONE {}
  }

  // --- Loop steps of the screen operations, on plain sequences ---------------------------------

  lemma PutIndex(t: Term, c: Cell, j: nat, x: nat, y: nat)
    requires Sized(t) && j < |t.screen| && x == j % t.cols && y == j / t.cols
    ensures Put(t, c, x, y) == t.(screen := t.screen[j := c])
  {
    IndexCell(j, t.cols, t.rows);
  }

  ghost function UpTo(s: seq<Cell>, lo: nat, i: nat, cols: nat): (r: seq<Cell>)
    requires lo + cols <= i <= |s|
    ensures |r| == |s|
  {
    s[..lo] + s[lo + cols..i] + s[i - cols..]
  }

  lemma UpStep(s: seq<Cell>, lo: nat, i: nat, cols: nat)
    requires lo + cols <= i < |s| && cols > 0
    ensures UpTo(s, lo, i, cols)[i] == s[i]
    ensures UpTo(s, lo, i, cols)[i - cols := s[i]] == UpTo(s, lo, i + 1, cols)
  {}

  lemma UpStart(s: seq<Cell>, lo: nat, cols: nat)
    requires lo + cols <= |s|
    ensures UpTo(s, lo, lo + cols, cols) == s
  {}

  lemma BlankStep(s: seq<Cell>, from: nat, n: nat, c: Cell)
    requires from + n < |s|
    ensures Blanked(s, from, n, c)[from + n := c] == Blanked(s, from, n + 1, c)
  {}

  lemma BlankStart(s: seq<Cell>, from: nat, c: Cell)
    requires from <= |s|
    ensures Blanked(s, from, 0, c) == s
  {}

  lemma UpEnd(s: seq<Cell>, lo: nat, hi: nat, cols: nat, c: Cell)
    requires lo + cols <= hi <= |s|
    ensures Blanked(UpTo(s, lo, hi, cols), hi - cols, cols, c) == ShiftUp(s, lo, hi, cols, c)
  {}

  ghost function DownTo(s: seq<Cell>, k: nat, hi: nat, cols: nat): (r: seq<Cell>)
    requires k + cols <= hi <= |s|
    ensures |r| == |s|
  {
    s[..k + cols] + s[k..hi - cols] + s[hi..]
  }

  lemma DownStep(s: seq<Cell>, k: nat, hi: nat, cols: nat)
    requires 0 < k && k + cols <= hi <= |s| && cols > 0
    ensures DownTo(s, k, hi, cols)[k - 1] == s[k - 1]
    ensures DownTo(s, k, hi, cols)[k - 1 + cols := s[k - 1]] == DownTo(s, k - 1, hi, cols)
  {}

  lemma DownStart(s: seq<Cell>, hi: nat, cols: nat)
    requires cols <= hi <= |s|
    ensures DownTo(s, hi - cols, hi, cols) == s
  {}

  lemma DownEnd(s: seq<Cell>, lo: nat, hi: nat, cols: nat, c: Cell)
    requires lo + cols <= hi <= |s|
    ensures Blanked(DownTo(s, lo, hi, cols), lo, cols, c) == ShiftDown(s, lo, hi, cols, c)
  {}

  lemma DownNone(s: seq<Cell>, lo: nat, hi: nat, cols: nat, c: Cell)
    requires lo + cols <= |s| && hi <= |s| && hi < lo + cols
    ensures Blanked(s, lo, cols, c) == ShiftDown(s, lo, hi, cols, c)
  {}

  lemma BlankGrid(grid: seq<Cell>, painted: seq<Cell>, queue: seq<Item>, map_: seq<int>, shown: seq<Cell>, cols: nat, rows: nat, blank: Cell)
    requires cols > 0 && rows > 0 && cols <= rows * cols
    requires |grid| == |painted| == |queue| == |map_| == |shown| == rows * cols
    requires forall i :: 0 <= i < rows * cols ==> grid[i] == shown[i] == blank && map_[i] == NONE
    requires forall i :: 0 <= i < rows * cols ==> painted[i] == if i == 0 then Inverted(blank) else blank
    ensures CacheOk(grid, queue, 0, map_, shown, cols, rows) && PaintedApart(painted, grid, CursorCell(0, 0, cols, rows))
    ensures PaintedOk(painted, shown, CursorCell(0, 0, cols, rows), true) && grid == shown
  {}

  class Backend {
    const cols: nat
    const rows: nat
    const palette: Palette
    const grid: array<Cell>
    const queue: array<Item>
    const map_: array<int>
    /** What `plot_char` last painted in each cell. */
    const painted: array<Cell>
    var queueLen: nat
    var textFg: nat
    var textBg: nat
    var cursorX: nat
    var cursorY: nat
    var savedFg: nat
    var savedBg: nat
    var savedX: nat
    var savedY: nat
    var oldX: nat
    var oldY: nat
    // the fields of the enclosing terminal context that the backend uses
    var cursorEnabled: bool
    var scrollEnabled: bool
    var scrollTop: nat
    var scrollBottom: nat
    /** The screen the grid and the queue stand for. */
    ghost var shown: seq<Cell>

    ghost function View(): Term
      reads this
    {
      Term(cols, rows, shown, cursorX, cursorY, textFg, textBg, savedX, savedY, savedFg, savedBg,
           scrollTop, scrollBottom, scrollEnabled, cursorEnabled, palette)
    }

    ghost predicate Valid()
      reads this, grid, queue, map_, painted
    {
      && grid != painted
      && Sized(View())
      && CacheOk(grid[..], queue[..], queueLen, map_[..], shown, cols, rows)
      && PaintedApart(painted[..], grid[..], CursorCell(oldX, oldY, cols, rows))
    }

    /** The part of `flanterm_fb_init` that concerns the cells: a blank committed grid, an empty
        queue, and every cell painted, the cursor in the corner. */
    constructor (columns: nat, lines: nat, colours: Palette)
      requires 0 < columns < 0x8000_0000 && 0 < lines < 0x8000_0000
      requires |colours.ansi| == 8 == |colours.bright|
      ensures Valid() && Flushed()
      ensures fresh(grid) && fresh(queue) && fresh(map_) && fresh(painted)
      ensures View() == Initial(columns, lines, colours)
    {
      cols, rows, palette := columns, lines, colours;
      var n := lines * columns;
      var blank := Cell(SPACE, colours.fg, NO_COLOUR);
      var g := new Cell[n](_ => blank);
      var p := new Cell[n](i => if i == 0 then Inverted(blank) else blank);
      var m := new int[n](_ => NONE);
      var q := new Item[n](_ => Item(0, 0, Cell(0, 0, 0)));
      grid, painted, map_, queue := g, p, m, q;
      queueLen, textFg, textBg := 0, colours.fg, NO_COLOUR;
      cursorX, cursorY, oldX, oldY := 0, 0, 0, 0;
      savedFg, savedBg, savedX, savedY := 0, 0, 0, 0;
      cursorEnabled, scrollEnabled, scrollTop, scrollBottom := true, true, 0, lines;
      shown := Blanks(n, blank);
      new;
      MulMono(columns, 1, lines);
      BlankGrid(grid[..], painted[..], queue[..], map_[..], shown, columns, lines, blank);
      hide CacheOk, PaintedOk, PaintedApart;
    }

    /** `push_to_queue`: write one cell; positions off the screen are ignored. */
    method Push(c: Cell, x: nat, y: nat)
      requires Valid()
      modifies this`queueLen, this`shown, queue, map_
      ensures Valid() && View() == Put(old(View()), c, x, y)
    {
      hide CacheOk, PaintedApart;
      if x >= cols || y >= rows {
        return;
      }
      CellIndex(x, y, cols, rows);
      Sizes();
      var i := y * cols + x;
      var q := map_[i];
      ghost var g, qs, m, s := grid[..], queue[..], map_[..], shown;
      if q == NONE {
        if grid[i] == c {
          PushSame(g, qs, queueLen, m, s, cols, rows, i);
          return;
        }
        RoomForOne(g, qs, queueLen, m, s, cols, rows, i);
        PushNew(g, qs, queueLen, m, s, cols, rows, x, y, i, c);
        queue[queueLen] := Item(x, y, c);
        map_[i] := queueLen;
        assert queue[..] == qs[queueLen := Item(x, y, c)] && map_[..] == m[i := queueLen];
        queueLen := queueLen + 1;
      } else {
        PushExisting(g, qs, queueLen, m, s, cols, rows, i, c);
        queue[q] := queue[q].(c := c);
        assert queue[..] == qs[q := qs[q].(c := c)];
      }
      shown := shown[i := c];
    }

    lemma Sizes()
      requires Valid()
      ensures grid.Length == queue.Length == map_.Length == painted.Length == |shown| == rows * cols
      ensures queueLen <= queue.Length
    {}

    /** The cell to copy from: the pending one if there is one. */
    method CellAt(i: nat) returns (c: Cell)
      requires Valid() && i < |shown|
      ensures c == shown[i]
    {
      Sizes();
      assert shown[i] == Shown(grid[..], queue[..], map_[..], i) && EntryOk(queue[..], queueLen, map_[..][i], i, cols);
      if map_[i] != NONE {
        c := queue[map_[i]].c;
      } else {
        c := grid[i];
      }
    }

    /** Push to the cell with index `i`. */
    method PushAt(c: Cell, i: nat)
      requires Valid() && i < |shown|
      modifies this`queueLen, this`shown, queue, map_
      ensures Valid() && shown == old(shown)[i := c]
    {
      hide CacheOk, PaintedApart, Put;
      var x, y := i % cols, i / cols;
      PutIndex(View(), c, i, x, y);
      Push(c, x, y);
    }

    /** The last loop of `scroll` and of `revscroll`: blank row `y`. */
    method BlankRow(y: nat)
      requires Valid() && y < rows
      modifies this`queueLen, this`shown, queue, map_
      ensures Valid()
      ensures y * cols + cols <= |old(shown)|
      ensures shown == Blanked(old(shown), y * cols, cols, Cell(SPACE, textFg, textBg))
    {
      hide CacheOk, PaintedApart, Blanked;
      var empty := Cell(SPACE, textFg, textBg);
      Sizes();
      RowBounds(y, rows, cols);
      ghost var s, from := shown, y * cols;
      BlankStart(s, from, empty);
      for i := 0 to cols
        invariant Valid() && shown == Blanked(s, from, i, empty)
      {
        BlankStep(s, from, i, empty);
        CellIndex(i, y, cols, rows);
        Push(empty, i, y);
      }
    }

    /** `scroll` */
    method Scroll()
      requires Valid() && Region(View()) && scrollTop < scrollBottom
      modifies this`queueLen, this`shown, queue, map_
      ensures Valid() && View() == Screen.Scroll(old(View()))
    {
      hide CacheOk, PaintedApart, UpTo, Blanked, ShiftUp;
      Sizes();
      RowBounds(scrollTop, scrollBottom, cols);
      RowBounds(scrollBottom - 1, rows, cols);
      ghost var s := shown;
      var lo, hi := scrollTop * cols, scrollBottom * cols;
      RowsUp(lo, hi);
      BlankRow(scrollBottom - 1);
      UpEnd(s, lo, hi, cols, Cell(SPACE, textFg, textBg));
    }

    /** The loop of `scroll`, from the second row of the region downwards. */
    method RowsUp(lo: nat, hi: nat)
      requires Valid() && lo + cols <= hi <= |shown|
      modifies this`queueLen, this`shown, queue, map_
      ensures Valid() && shown == UpTo(old(shown), lo, hi, cols)
    {
      hide CacheOk, PaintedApart, UpTo;
      ghost var s := shown;
      UpStart(s, lo, cols);
      var i := lo + cols;
      while i < hi
        invariant lo + cols <= i <= hi
        invariant Valid() && shown == UpTo(s, lo, i, cols)
      {
        UpStep(s, lo, i, cols);
        var c := CellAt(i);
        PushAt(c, i - cols);
        i := i + 1;
      }
    }

    /** `revscroll` */
    method RevScroll()
      requires Valid() && Region(View())
      modifies this`queueLen, this`shown, queue, map_
      ensures Valid() && View() == Screen.RevScroll(old(View()))
    {
      hide CacheOk, PaintedApart, DownTo, Blanked, ShiftDown;
      Sizes();
      RowBounds(scrollTop, rows, cols);
      RowBounds(scrollBottom - 1, rows, cols);
      ghost var s, empty := shown, Cell(SPACE, textFg, textBg);
      var lo, hi := scrollTop * cols, scrollBottom * cols;
      RowsDown(lo, hi);
      BlankRow(scrollTop);
      if lo + cols <= hi {
        DownEnd(s, lo, hi, cols, empty);
      } else {
        DownNone(s, lo, hi, cols, empty);
      }
    }

    /** The loop of `revscroll`, from the last row of the region upwards; the source's unsigned
        counter leaves it when it wraps below zero. */
    method RowsDown(lo: nat, hi: nat)
      requires Valid() && cols <= hi <= |shown|
      modifies this`queueLen, this`shown, queue, map_
      ensures Valid() && shown == if lo + cols <= hi then DownTo(old(shown), lo, hi, cols) else old(shown)
    {
      hide CacheOk, PaintedApart, DownTo;
      ghost var s := shown;
      DownStart(s, hi, cols);
      var i := hi - cols - 1;
      while i != -1 && i >= lo
        invariant -1 <= i && i + 1 + cols <= hi
        invariant lo <= i + 1 || i + 1 + cols == hi
        invariant Valid() && shown == DownTo(s, i + 1, hi, cols)
        decreases i
      {
        DownStep(s, i + 1, hi, cols);
        var c := CellAt(i);
        PushRow(c, i);
        i := i - 1;
      }
    }

    /** Push one row below the cell with index `i`. */
    method PushRow(c: Cell, i: nat)
      requires Valid() && i + cols < |shown|
      modifies this`queueLen, this`shown, queue, map_
      ensures Valid() && shown == old(shown)[i + cols := c]
    {
      hide CacheOk, PaintedApart, Put;
      var j := i + cols;
      var x, y := j % cols, j / cols;
      PutIndex(View(), c, j, x, y);
      Push(c, x, y);
    }

    /** `clear` */
    method Clear(move: bool)
      requires Valid()
      modifies this`queueLen, this`shown, this`cursorX, this`cursorY, queue, map_
      ensures Valid() && View() == Screen.Clear(old(View()), move)
    {
      hide CacheOk, PaintedApart, Blanked;
      var empty := Cell(SPACE, textFg, textBg);
      Sizes();
      ghost var s := shown;
      BlankStart(s, 0, empty);
      var n := rows * cols;
      for i := 0 to n
        invariant Valid() && shown == Blanked(s, 0, i, empty)
        modifies this`queueLen, this`shown, queue, map_
      {
        BlankStep(s, 0, i, empty);
        PushAt(empty, i);
      }
      BlankAll(s, n, empty);
      if move {
        cursorX, cursorY := 0, 0;
      }
    }

    /** `set_cursor_pos` */
    method SetCursorPos(x: U64, y: U64)
      requires Valid()
      modifies this`cursorX, this`cursorY
      ensures Valid() && View() == SetCursor(old(View()), x, y)
    {
      hide CacheOk, PaintedApart;
      cursorX := Clamp(x, cols);
      cursorY := Clamp(y, rows);
    }

    /** `get_cursor_pos` */
    method GetCursorPos() returns (x: nat, y: nat)
      requires Valid()
      ensures x == CursorX(View()) && y == CursorY(View())
    {
      x := if cursorX >= cols then cols - 1 else cursorX;
      y := if cursorY >= rows then rows - 1 else cursorY;
    }

    /** `move_character` */
    method MoveCharacter(newX: nat, newY: nat, oldX_: nat, oldY_: nat)
      requires Valid()
      modifies this`queueLen, this`shown, queue, map_
      ensures Valid() && View() == MoveCell(old(View()), newX, newY, oldX_, oldY_)
    {
      hide CacheOk, PaintedApart;
      if oldX_ >= cols || oldY_ >= rows || newX >= cols || newY >= rows {
        return;
      }
      CellIndex(oldX_, oldY_, cols, rows);
      Sizes();
      var c := CellAt(oldX_ + oldY_ * cols);
      Push(c, newX, newY);
    }

    /** The pending wrap at the start of `raw_putchar`. */
    method WrapLine()
      requires Valid() && Region(View()) && scrollTop < scrollBottom
      modifies this`queueLen, this`shown, this`cursorX, this`cursorY, queue, map_
      ensures Valid() && View() == Wrap(old(View()))
    {
      hide CacheOk, PaintedApart, Screen.Scroll;
      if cursorX >= cols && (cursorY < scrollBottom - 1 || scrollEnabled) {
        cursorX := 0;
        cursorY := cursorY + 1;
        if cursorY == scrollBottom {
          cursorY := cursorY - 1;
          Scroll();
        }
        if cursorY >= cols {
          cursorY := cols - 1;
        }
      }
    }

    /** `raw_putchar` */
    method RawPutchar(c: nat)
      requires Valid() && Region(View()) && scrollTop < scrollBottom
      modifies this`queueLen, this`shown, this`cursorX, this`cursorY, queue, map_
      ensures Valid() && View() == RawPut(old(View()), c)
    {
      hide CacheOk, PaintedApart, Wrap, Put;
      WrapLine();
      Push(Cell(c, textFg, textBg), cursorX, cursorY);
      cursorX := cursorX + 1;
    }

    // --- Colours and saved state ---------------------------------------------------------------

    method SetTextFg(n: nat)
      requires Valid() && n < 8
      modifies this`textFg
      ensures Valid() && View() == old(View()).(fg := palette.ansi[n])
    {
      hide CacheOk, PaintedApart;
      textFg := palette.ansi[n];
    }

    method SetTextBg(n: nat)
      requires Valid() && n < 8
      modifies this`textBg
      ensures Valid() && View() == old(View()).(bg := palette.ansi[n])
    {
      hide CacheOk, PaintedApart;
      textBg := palette.ansi[n];
    }

    method SetTextFgBright(n: nat)
      requires Valid() && n < 8
      modifies this`textFg
      ensures Valid() && View() == old(View()).(fg := palette.bright[n])
    {
      hide CacheOk, PaintedApart;
      textFg := palette.bright[n];
    }

    method SetTextBgBright(n: nat)
      requires Valid() && n < 8
      modifies this`textBg
      ensures Valid() && View() == old(View()).(bg := palette.bright[n])
    {
      hide CacheOk, PaintedApart;
      textBg := palette.bright[n];
    }

    method SetTextFgRgb(rgb: nat)
      requires Valid()
      modifies this`textFg
      ensures Valid() && View() == old(View()).(fg := palette.convert(rgb))
    {
      hide CacheOk, PaintedApart;
      textFg := palette.convert(rgb);
    }

    method SetTextBgRgb(rgb: nat)
      requires Valid()
      modifies this`textBg
      ensures Valid() && View() == old(View()).(bg := palette.convert(rgb))
    {
      hide CacheOk, PaintedApart;
      textBg := palette.convert(rgb);
    }

    method SetTextFgDefault(bright: bool)
      requires Valid()
      modifies this`textFg
      ensures Valid() && View() == old(View()).(fg := if bright then palette.fgBright else palette.fg)
    {
      hide CacheOk, PaintedApart;
      textFg := if bright then palette.fgBright else palette.fg;
    }

    method SetTextBgDefault(bright: bool)
      requires Valid()
      modifies this`textBg
      ensures Valid() && View() == old(View()).(bg := if bright then palette.bgBright else NO_COLOUR)
    {
      hide CacheOk, PaintedApart;
      textBg := if bright then palette.bgBright else NO_COLOUR;
    }

    method SwapPalette()
      requires Valid()
      modifies this`textFg, this`textBg
      ensures Valid() && View() == SwapColours(old(View()))
    {
      hide CacheOk, PaintedApart;
      var tmp := textBg;
      textBg := textFg;
      textFg := tmp;
    }

    method SaveState()
      requires Valid()
      modifies this`savedFg, this`savedBg, this`savedX, this`savedY
      ensures Valid() && View() == Saved(old(View()))
    {
      hide CacheOk, PaintedApart;
      savedFg, savedBg := textFg, textBg;
      savedX, savedY := cursorX, cursorY;
    }

    method RestoreState()
      requires Valid()
      modifies this`textFg, this`textBg, this`cursorX, this`cursorY
      ensures Valid() && View() == Restored(old(View()))
    {
      hide CacheOk, PaintedApart;
      textFg, textBg := savedFg, savedBg;
      cursorX, cursorY := savedX, savedY;
    }

    // --- Flush ---------------------------------------------------------------------------------

    /** What the painted screen looks like after a flush. */
    ghost predicate Flushed()
      reads this, painted, grid, map_
    {
      && PaintedOk(painted[..], shown, CursorCell(cursorX, cursorY, cols, rows), cursorEnabled)
      && grid[..] == shown
      && queueLen == 0
      && forall i :: 0 <= i < map_.Length ==> map_[i] == NONE
    }

    /** `draw_cursor`: paint the cursor cell inverted, committing it if it is pending. */
    method DrawCursor()
      requires Flushing(grid[..], queue[..], queueLen, map_[..], painted[..], shown, cols, rows,
                        CursorCell(cursorX, cursorY, cols, rows), false, CursorCell(oldX, oldY, cols, rows), 0)
      requires grid != painted && forall i :: 0 <= i < map_.Length && map_[i] != NONE ==> 0 <= map_[i] < queue.Length && queue[map_[i]].c == shown[i]
      modifies grid, map_, painted
      ensures Flushing(grid[..], queue[..], queueLen, map_[..], painted[..], shown, cols, rows,
                       CursorCell(cursorX, cursorY, cols, rows), true, CursorCell(oldX, oldY, cols, rows), 0)
    {
      if cursorX >= cols || cursorY >= rows {
        OffScreen(grid[..], queue[..], queueLen, map_[..], painted[..], shown, cols, rows, CursorCell(oldX, oldY, cols, rows));
        return;
      }
      CellIndex(cursorX, cursorY, cols, rows);
      var i := cursorX + cursorY * cols;
      ghost var g, qs, m, p := grid[..], queue[..], map_[..], painted[..];
      FlushCursor(g, qs, queueLen, m, p, shown, cols, rows, i, CursorCell(oldX, oldY, cols, rows));
      hide Flushing;
      var q := map_[i];
      var c := if q != NONE then queue[q].c else grid[i];
      painted[i] := Inverted(c);
      if q != NONE {
        grid[i] := queue[q].c;
        map_[i] := NONE;
      }
      assert grid[..] == g[i := shown[i]] && map_[..] == m[i := NONE] && painted[..] == p[i := Inverted(shown[i])];
    }

    /** Commit and paint item `k`, unless `draw_cursor` already did. */
    method CommitItem(k: nat, ghost cursor: int, ghost old_: int)
      requires k < queueLen && grid != painted
      requires Flushing(grid[..], queue[..], queueLen, map_[..], painted[..], shown, cols, rows, cursor, cursorEnabled, old_, k)
      modifies grid, map_, painted
      ensures Flushing(grid[..], queue[..], queueLen, map_[..], painted[..], shown, cols, rows, cursor, cursorEnabled, old_, k + 1)
    {
      var q := queue[k];
      var o := q.y * cols + q.x;
      ghost var g, m, p := grid[..], map_[..], painted[..];
      FlushItem(g, queue[..], queueLen, m, p, shown, cols, rows, cursor, cursorEnabled, old_, k, o);
      hide Flushing;
      if map_[o] != NONE {
        painted[o] := q.c;
        grid[o] := q.c;
        map_[o] := NONE;
        assert grid[..] == g[o := q.c] && map_[..] == m[o := NONE] && painted[..] == p[o := q.c];
      }
    }

    /** Repaint the cell of the last flushed cursor from the grid. */
    method RepairOldCursor(ghost cursor: int, ghost old_: int)
      requires Sized(View()) && |shown| == grid.Length == painted.Length && grid != painted
      requires cursor == CursorCell(cursorX, cursorY, cols, rows) && old_ == CursorCell(oldX, oldY, cols, rows)
      requires 0 <= old_ < |painted[..]| && (old_ != cursor || !cursorEnabled) ==>
                 PaintedOk(painted[..][old_ := grid[..][old_]], shown, cursor, cursorEnabled)
      requires !(0 <= old_ < |painted[..]|) || (old_ == cursor && cursorEnabled) ==> PaintedOk(painted[..], shown, cursor, cursorEnabled)
      modifies painted
      ensures PaintedOk(painted[..], shown, cursor, cursorEnabled)
    {
      hide PaintedOk;
      if oldX < cols && oldY < rows {
        CellIndex(oldX, oldY, cols, rows);
        SameCell(oldX, oldY, cursorX, cursorY, cols, rows);
      }
      if (oldX != cursorX || oldY != cursorY) || !cursorEnabled {
        if oldX < cols && oldY < rows {
          var o := oldX + oldY * cols;
          ghost var p := painted[..];
          painted[o] := grid[o];
          assert painted[..] == p[o := grid[..][o]];
        }
      }
    }

    /** `double_buffer_flush` */
    method Flush()
      requires Valid()
      modifies this`queueLen, this`oldX, this`oldY, grid, map_, painted
      ensures Valid() && View() == old(View()) && Flushed()
    {
      hide CacheOk, PaintedApart, Flushing, PaintedOk, CursorCell;
      ghost var cursor, old_ := CursorCell(cursorX, cursorY, cols, rows), CursorCell(oldX, oldY, cols, rows);
      Sizes();
      FlushStart(grid[..], queue[..], queueLen, map_[..], painted[..], shown, cols, rows, cursor, old_);
      PendingShown();
      if cursorEnabled {
        DrawCursor();
      }
      for k := 0 to queueLen
        invariant Flushing(grid[..], queue[..], queueLen, map_[..], painted[..], shown, cols, rows, cursor, cursorEnabled, old_, k)
        modifies grid, map_, painted
      {
        CommitItem(k, cursor, old_);
      }
      FlushEnd(grid[..], queue[..], queueLen, map_[..], painted[..], shown, cols, rows, cursor, cursorEnabled, old_);
      RepairOldCursor(cursor, old_);
      oldX, oldY := cursorX, cursorY;
      queueLen := 0;
      PaintedIsApart(painted[..], grid[..], cursor, cursorEnabled);
    }

    lemma PendingShown()
      requires Valid()
      ensures forall i :: 0 <= i < map_.Length && map_[i] != NONE ==> 0 <= map_[i] < queue.Length && queue[map_[i]].c == shown[i]
    {
      forall i | 0 <= i < map_.Length && map_[i] != NONE ensures 0 <= map_[i] < queue.Length && queue[map_[i]].c == shown[i] {
        assert EntryOk(queue[..], queueLen, map_[..][i], i, cols) && shown[i] == Shown(grid[..], queue[..], map_[..], i);
      }
    }
  }

  lemma SameCell(x: nat, y: nat, x': nat, y': nat, cols: nat, rows: nat)
    requires x < cols && y < rows
    ensures CursorCell(x, y, cols, rows) == CursorCell(x', y', cols, rows) <==> x == x' && y == y'
    ensures CursorCell(x, y, cols, rows) >= 0
  {
    CellIndex(x, y, cols, rows);
    if x' < cols && y' < rows {
      CellIndex(x', y', cols, rows);
    }
  }

  /** After a flush each character cell is painted as it is shown, the cell of the cursor with its colours
      exchanged while the cursor is enabled. */
  lemma PaintedCell(b: Backend, x: nat, y: nat)
    requires b.Valid() && b.Flushed() && x < b.cols && y < b.rows
    ensures Sized(b.View()) && y * b.cols + x < b.painted.Length
    ensures var c, t := At(b.View(), x, y), b.View();
            b.painted[y * b.cols + x] == if t.cursorOn && t.x == x && t.y == y then Cell(c.c, c.bg, c.fg) else c
  {
    SameCell(x, y, b.cursorX, b.cursorY, b.cols, b.rows);
    CellIndex(x, y, b.cols, b.rows);
    b.Sizes();
    assert b.painted[..][y * b.cols + x] == b.painted[y * b.cols + x];
    hide CacheOk, PaintedApart;
  }

  lemma PaintedIsApart(painted: seq<Cell>, grid: seq<Cell>, cursor: int, on: bool)
    requires PaintedOk(painted, grid, cursor, on)
    ensures PaintedApart(painted, grid, cursor)
  {}

  lemma OffScreen(grid: seq<Cell>, queue: seq<Item>, n: nat, map_: seq<int>, painted: seq<Cell>, shown: seq<Cell>, cols: nat, rows: nat, old_: int)
    requires Flushing(grid, queue, n, map_, painted, shown, cols, rows, NONE, false, old_, 0)
    ensures Flushing(grid, queue, n, map_, painted, shown, cols, rows, NONE, true, old_, 0)
  {}

  lemma BlankAll(s: seq<Cell>, n: nat, c: Cell)
    requires n == |s|
    ensures Blanked(s, 0, n, c) == Blanks(|s|, c)
  {}
}
