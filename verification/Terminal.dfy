/** The terminal (kernel/src/flanterm/flanterm.c): the byte parser driving the framebuffer backend.
    Every method does to the fields and the screen what its function in `Parser` says. */
module Terminal {
  import opened Bits
  import opened Screen
  import opened Parser
  import Framebuffer

  class Terminal {
    const fb: Framebuffer.Backend
    const tables: Tables
    const values: array<nat>
    const charsets: array<nat>
    var tabSize: nat
    var autoflush: bool
    var onlcr: bool
    var controlSequence: bool
    var escape: bool
    var osc: bool
    var oscEscape: bool
    var rrr: bool
    var discardNext: bool
    var decPrivate: bool
    var insertMode: bool
    var codePoint: nat
    var remaining: nat
    var gSelect: nat
    var escapeOffset: nat
    var count: nat
    var savedX: nat
    var savedY: nat
    /** The attribute fields and the character set, kept together; and what `ESC 7` saved of them. */
    var style: Style
    var savedStyle: Style

    /** The parser's fields other than the two arrays. */
    ghost function Scalars(): Parser
      reads this
    {
      Parser(tabSize, autoflush, onlcr, controlSequence, escape, osc, oscEscape, rrr, discardNext, decPrivate, insertMode,
             codePoint, remaining, gSelect, [], escapeOffset, [], count, savedX, savedY, style, savedStyle)
    }

    ghost function Registers(): Parser
      reads this, values, charsets
    {
      Scalars().(charsets := charsets[..], values := values[..])
    }

    /** The parser's fields and the screen. */
    ghost function Now(): State
      reads this, values, charsets, fb
    {
      State(Registers(), fb.View())
    }

    ghost predicate Valid()
      reads this, values, charsets, fb, fb.grid, fb.queue, fb.map_, fb.painted
    {
      && fb.Valid() && TablesOk(tables) && values != charsets
      && ParserOk(Registers()) && TermOk(fb.View())
    }

    /** `flanterm_fb_init`: zeroed memory, then `flanterm_context_reinit`. */
    constructor (columns: nat, lines: nat, colours: Palette, tbl: Tables)
      requires 0 < columns < 0x8000_0000 && 0 < lines < 0x8000_0000
      requires PaletteOk(colours) && TablesOk(tbl)
      ensures Valid() && fb.Flushed() && Now() == Start(columns, lines, colours)
      ensures fresh(fb) && fresh(fb.grid) && fresh(fb.queue) && fresh(fb.map_) && fresh(fb.painted)
      ensures fresh(values) && fresh(charsets)
      ensures tables == tbl
    {
      tables := tbl;
      fb := new Framebuffer.Backend(columns, lines, colours);
      values := new nat[MAX_VALUES](_ => 0);
      charsets := new nat[2](i => i);
      tabSize := 8;
      autoflush := true;
      onlcr := true;
      controlSequence := false;
      escape := false;
      osc := false;
      oscEscape := false;
      rrr := false;
      discardNext := false;
      decPrivate := false;
      insertMode := false;
      codePoint := 0;
      remaining := 0;
      gSelect := 0;
      escapeOffset := 0;
      count := 0;
      savedX := 0;
      savedY := 0;
      style := Style(false, false, false, 0, UNSET, UNSET);
      savedStyle := Style(false, false, false, 0, 0, 0);
      new;
      assert charsets[..] == [0, 1];
      assert values[..] == seq(MAX_VALUES, _ => 0);
    }

    // --- Loops over the backend ----------------------------------------------------------------

    method PutMany(c: nat, n: nat)
      requires fb.Valid() && TermOk(fb.View())
      modifies fb`queueLen, fb`shown, fb`cursorX, fb`cursorY, fb.queue, fb.map_
      ensures fb.Valid() && fb.View() == PutN(old(fb.View()), c, n)
    {
      hide Framebuffer.CacheOk, Framebuffer.PaintedApart, RawPut;
      ghost var t := fb.View();
      for i := 0 to n
        invariant fb.Valid() && fb.View() == PutN(t, c, i)
      {
        fb.RawPutchar(c);
      }
    }

    method ScrollMany(n: nat)
      requires fb.Valid() && TermOk(fb.View())
      modifies fb`queueLen, fb`shown, fb.queue, fb.map_
      ensures fb.Valid() && fb.View() == ScrollN(old(fb.View()), n)
    {
      hide Framebuffer.CacheOk, Framebuffer.PaintedApart, Scroll;
      ghost var t := fb.View();
      for i := 0 to n
        invariant fb.Valid() && fb.View() == ScrollN(t, i)
      {
        fb.Scroll();
      }
    }

    /** `CSI L` */
    method InsertLinesAt(y: nat, n: nat)
      requires fb.Valid() && TermOk(fb.View()) && y < fb.rows
      modifies fb`queueLen, fb`shown, fb`scrollTop, fb.queue, fb.map_
      ensures fb.Valid() && fb.View() == InsertLines(old(fb.View()), y, n)
    {
      hide Framebuffer.CacheOk, Framebuffer.PaintedApart, RevScroll;
      var oldTop := fb.scrollTop;
      fb.scrollTop := y;
      ghost var t := fb.View();
      var lines := if n > fb.rows then fb.rows else n;
      for i := 0 to lines
        invariant fb.Valid() && fb.View() == RevScrollN(t, i)
        invariant fb.scrollTop == y && Region(fb.View())
        modifies fb`queueLen, fb`shown, fb.queue, fb.map_
      {
        fb.RevScroll();
      }
      fb.scrollTop := oldTop;
    }

    /** `CSI J` */
    method EraseScreenAt(x: nat, y: nat, mode: nat)
      requires fb.Valid() && TermOk(fb.View()) && x < fb.cols && y < fb.rows
      modifies fb`queueLen, fb`shown, fb`cursorX, fb`cursorY, fb.queue, fb.map_
      ensures fb.Valid() && fb.View() == EraseScreen(old(fb.View()), x, y, mode)
    {
      hide Framebuffer.CacheOk, Framebuffer.PaintedApart, PutN, Clear;
      if mode == 0 {
        MulMono(fb.cols, 0, fb.rows - (y + 1));
        var toClear := (fb.rows - (y + 1)) * fb.cols + (fb.cols - (x + 1)) + 1;
        PutMany(SPACE, toClear);
        fb.SetCursorPos(x, y);
      } else if mode == 1 {
        EraseAbove(x, y);
      } else if mode == 2 || mode == 3 {
        fb.Clear(false);
      }
    }

    /** `CSI 1 J`: blanks from the corner to the cursor. */
    method EraseAbove(x: nat, y: nat)
      requires fb.Valid() && TermOk(fb.View()) && x < fb.cols && y < fb.rows
      modifies fb`queueLen, fb`shown, fb`cursorX, fb`cursorY, fb.queue, fb.map_
      ensures fb.Valid() && fb.View() == Place(PutN(Place(old(fb.View()), 0, 0), SPACE, y * old(fb.View()).cols + x + 1), x, y)
    {
      hide Framebuffer.CacheOk, Framebuffer.PaintedApart, PutN;
      fb.SetCursorPos(0, 0);
      ghost var t := fb.View();
      PutNothing(t);
      var done := false;
      var yc := 0;
      while yc < fb.rows && !done
        invariant yc <= y || done
        invariant fb.Valid() && TermOk(fb.View())
        invariant !done ==> fb.View() == PutN(t, SPACE, yc * fb.cols)
        invariant done ==> fb.View() == Place(PutN(t, SPACE, y * fb.cols + x + 1), x, y)
        decreases fb.rows - yc
      {
        done := EraseRowAbove(t, x, y, yc);
        yc := yc + 1;
      }
    }

    /** One row of `CSI 1 J`; the cell under the cursor ends it. */
    method EraseRowAbove(ghost t: Term, x: nat, y: nat, yc: nat) returns (done: bool)
      requires fb.Valid() && TermOk(t) && TermOk(fb.View()) && x < fb.cols && y < fb.rows && yc <= y
      requires fb.View() == PutN(t, SPACE, yc * fb.cols)
      modifies fb`queueLen, fb`shown, fb`cursorX, fb`cursorY, fb.queue, fb.map_
      ensures fb.Valid() && TermOk(fb.View()) && done == (yc == y)
      ensures !done ==> fb.View() == PutN(t, SPACE, (yc + 1) * fb.cols)
      ensures done ==> fb.View() == Place(PutN(t, SPACE, y * fb.cols + x + 1), x, y)
    {
      hide Framebuffer.CacheOk, Framebuffer.PaintedApart, PutN, RawPut;
      done := false;
      var xc := 0;
      ghost var base := yc * fb.cols;
      assert (yc + 1) * fb.cols == base + fb.cols;
      while xc < fb.cols && !done
        invariant xc <= fb.cols && (yc == y && !done ==> xc <= x)
        invariant fb.Valid() && TermOk(fb.View()) && (done ==> yc == y)
        invariant !done ==> fb.View() == PutN(t, SPACE, base + xc)
        invariant done ==> fb.View() == Place(PutN(t, SPACE, base + x + 1), x, y)
        decreases fb.cols - xc
      {
        PutNext(t, SPACE, base + xc);
        fb.RawPutchar(SPACE);
        if xc == x && yc == y {
          fb.SetCursorPos(x, y);
          done := true;
        }
        xc := xc + 1;
      }
    }

    /** `CSI K` */
    method EraseLineAt(x: nat, y: nat, mode: nat)
      requires fb.Valid() && TermOk(fb.View()) && x < fb.cols && y < fb.rows
      modifies fb`queueLen, fb`shown, fb`cursorX, fb`cursorY, fb.queue, fb.map_
      ensures fb.Valid() && fb.View() == EraseLine(old(fb.View()), x, y, mode)
    {
      hide Framebuffer.CacheOk, Framebuffer.PaintedApart, PutN;
      if mode == 0 {
        PutMany(SPACE, fb.cols - x);
        fb.SetCursorPos(x, y);
      } else if mode == 1 {
        fb.SetCursorPos(0, y);
        PutMany(SPACE, x);
      } else if mode == 2 {
        fb.SetCursorPos(0, y);
        PutMany(SPACE, fb.cols);
        fb.SetCursorPos(x, y);
      }
    }

    /** `CSI @` */
    method InsertCharsAt(x: nat, y: nat, n: nat)
      requires fb.Valid() && TermOk(fb.View()) && x < fb.cols && y < fb.rows
      modifies fb`queueLen, fb`shown, fb`cursorX, fb`cursorY, fb.queue, fb.map_
      ensures fb.Valid() && fb.View() == InsertChars(old(fb.View()), x, y, n)
    {
      hide Framebuffer.CacheOk, Framebuffer.PaintedApart, InsertAt;
      ghost var t := fb.View();
      var i := fb.cols - 1;
      while i != x
        invariant x <= i < fb.cols
        invariant fb.Valid() && TermOk(fb.View())
        invariant InsertBlanks(fb.View(), n, x, y, i) == InsertBlanks(t, n, x, y, fb.cols - 1)
        decreases i
      {
        InsertOne(n, i, y);
        i := i - 1;
      }
      InsertOne(n, i, y);
      fb.SetCursorPos(x, y);
    }

    method InsertOne(n: nat, i: nat, y: nat)
      requires fb.Valid() && TermOk(fb.View()) && i < fb.cols && y < fb.rows
      modifies fb`queueLen, fb`shown, fb`cursorX, fb`cursorY, fb.queue, fb.map_
      ensures fb.Valid() && TermOk(fb.View()) && fb.View() == InsertAt(old(fb.View()), n, i, y)
    {
      hide Framebuffer.CacheOk, Framebuffer.PaintedApart, PutN, MoveCell;
      fb.MoveCharacter(i + n, y, i, y);
      fb.SetCursorPos(i, y);
      PutMany(SPACE, 1);
    }

    /** `CSI P` */
    method DeleteCharsAt(x: nat, y: nat, n: nat)
      requires fb.Valid() && TermOk(fb.View()) && n < U32_SIZE && x < fb.cols && y < fb.rows
      modifies fb`queueLen, fb`shown, fb`cursorX, fb`cursorY, fb.queue, fb.map_
      ensures fb.Valid() && fb.View() == DeleteChars(old(fb.View()), x, y, n)
    {
      hide Framebuffer.CacheOk, Framebuffer.PaintedApart, MoveCell, EraseChars;
      ghost var t := fb.View();
      var i := x + n;
      while i < fb.cols
        invariant n <= i && fb.Valid() && TermOk(fb.View())
        invariant MoveLeft(fb.View(), n, y, i) == MoveLeft(t, n, y, x + n)
        decreases fb.cols - i
      {
        fb.MoveCharacter(i - n, y, i, y);
        i := i + 1;
      }
      fb.SetCursorPos(Less(fb.cols, n), y);
      EraseCharsAt(x, y, n);
    }

    /** `CSI X` */
    method EraseCharsAt(x: nat, y: nat, n: nat)
      requires fb.Valid() && TermOk(fb.View()) && x < fb.cols && y < fb.rows
      modifies fb`queueLen, fb`shown, fb`cursorX, fb`cursorY, fb.queue, fb.map_
      ensures fb.Valid() && fb.View() == EraseChars(old(fb.View()), x, y, n)
    {
      hide Framebuffer.CacheOk, Framebuffer.PaintedApart, PutN;
      PutMany(SPACE, if n > fb.cols then fb.cols else n);
      fb.SetCursorPos(x, y);
    }

    /** Insert mode: make room at the cursor. */
    method MakeRoom()
      requires fb.Valid() && TermOk(fb.View())
      modifies fb`queueLen, fb`shown, fb.queue, fb.map_
      ensures fb.Valid()
      ensures var t := old(fb.View()); fb.View() == ShiftRight(t, CursorX(t), CursorY(t), t.cols - 1)
    {
      hide Framebuffer.CacheOk, Framebuffer.PaintedApart, MoveCell;
      ghost var t := fb.View();
      var x, y := fb.GetCursorPos();
      var i := fb.cols - 1;
      while i != x
        invariant x <= i < fb.cols
        invariant fb.Valid() && TermOk(fb.View())
        invariant ShiftRight(fb.View(), x, y, i) == ShiftRight(t, x, y, fb.cols - 1)
        decreases i
      {
        fb.MoveCharacter(i + 1, y, i, y);
        i := i - 1;
      }
      fb.MoveCharacter(i + 1, y, i, y);
    }

    /** The control sequences that change cells. */
    method EditAt(x: nat, y: nat, c: char)
      requires Valid() && c in EDITS && x == CursorX(fb.View()) && y == CursorY(fb.View())
      modifies fb`queueLen, fb`shown, fb`cursorX, fb`cursorY, fb`scrollTop, fb.queue, fb.map_
      ensures Valid() && fb.View() == Edit(old(fb.View()), values[0], c)
    {
      hide Framebuffer.CacheOk, Framebuffer.PaintedApart, ScrollN, InsertLines, EraseScreen, InsertChars, DeleteChars, EraseChars,
           EraseLine, StyleOk, FlagsOk, TablesOk, Region, PaletteOk;
      ghost var t := fb.View();
      var v := values[0];
      TermFacts(t);
      assert v == values[..][0];
      match c
      case 'M' => ScrollMany(if v > fb.rows then fb.rows else v);
      case 'L' => InsertLinesAt(y, v);
      case 'J' => EraseScreenAt(x, y, v);
      case '@' => InsertCharsAt(x, y, v);
      case 'P' => DeleteCharsAt(x, y, v);
      case 'X' => EraseCharsAt(x, y, v);
      case 'K' => EraseLineAt(x, y, v);
    }

    /** `CSI A` and `CSI F` */
    method MoveUp(x: nat, y: nat)
      requires fb.Valid() && values.Length == MAX_VALUES && y < fb.rows && x < U64_SIZE && fb.scrollTop < fb.rows
      modifies values, fb`cursorX, fb`cursorY
      ensures fb.Valid()
      ensures var n := Min(old(values[0]), y);
              values[..] == old(values[..])[0 := n] && fb.View() == SetCursor(old(fb.View()), x, Up(old(fb.View()), y, n))
    {
      hide Framebuffer.CacheOk, Framebuffer.PaintedApart;
      if values[0] > y {
        values[0] := y;
      }
      var dest := y - values[0];
      var inRegion := (fb.scrollTop >= dest && fb.scrollTop <= y) || (fb.scrollBottom >= dest && fb.scrollBottom <= y);
      if inRegion && dest < fb.scrollTop {
        dest := fb.scrollTop;
      }
      fb.SetCursorPos(x, dest);
    }

    /** `CSI B`, `CSI e` and `CSI E` */
    method MoveDown(x: nat, y: nat)
      requires fb.Valid() && values.Length == MAX_VALUES && y < fb.rows && x < U64_SIZE && 1 <= fb.scrollBottom <= fb.rows
      modifies values, fb`cursorX, fb`cursorY
      ensures fb.Valid()
      ensures var n := Min(old(values[0]), fb.rows - 1 - y);
              values[..] == old(values[..])[0 := n] && fb.View() == SetCursor(old(fb.View()), x, Down(old(fb.View()), y, n))
    {
      hide Framebuffer.CacheOk, Framebuffer.PaintedApart;
      if y + values[0] > fb.rows - 1 {
        values[0] := (fb.rows - 1) - y;
      }
      var dest := y + values[0];
      var inRegion := (fb.scrollTop >= y && fb.scrollTop <= dest) || (fb.scrollBottom >= y && fb.scrollBottom <= dest);
      if inRegion && dest >= fb.scrollBottom {
        dest := fb.scrollBottom - 1;
      }
      fb.SetCursorPos(x, dest);
    }

    /** `CSI C`, `CSI a` and `CSI D` */
    method MoveAcross(x: nat, y: nat, left: bool)
      requires fb.Valid() && values.Length == MAX_VALUES && x < fb.cols && y < fb.rows
      modifies values, fb`cursorX, fb`cursorY
      ensures fb.Valid()
      ensures var n := Min(old(values[0]), if left then x else fb.cols - 1 - x);
              values[..] == old(values[..])[0 := n] && fb.View() == SetCursor(old(fb.View()), if left then x - n else x + n, y)
    {
      hide Framebuffer.CacheOk, Framebuffer.PaintedApart;
      if left {
        if values[0] > x {
          values[0] := x;
        }
        fb.SetCursorPos(x - values[0], y);
      } else {
        if x + values[0] > fb.cols - 1 {
          values[0] := (fb.cols - 1) - x;
        }
        fb.SetCursorPos(x + values[0], y);
      }
    }

    /** The control sequences that set the cursor. */
    method MoveAt(x: nat, y: nat, c: char)
      requires Valid() && c in MOVES && x == CursorX(fb.View()) && y == CursorY(fb.View())
      modifies values, fb`cursorX, fb`cursorY
      ensures fb.Valid()
      ensures var to := Move(old(fb.View()), x, y, old(values[..]), savedX, savedY, c);
              values[..] == to.values && fb.View() == Place(old(fb.View()), to.x, to.y)
    {
      hide Framebuffer.CacheOk, Framebuffer.PaintedApart, StyleOk, FlagsOk, TablesOk, PaletteOk, Up, Down, SetCursor;
      var v, w := values[0], values[1];
      assert v == values[..][0] && w == values[..][1];
      if c == 'A' || c == 'F' {
        MoveUp(if c == 'F' then 0 else x, y);
      } else if c == 'B' || c == 'e' || c == 'E' {
        MoveDown(if c == 'E' then 0 else x, y);
      } else if c == 'C' || c == 'a' || c == 'D' {
        MoveAcross(x, y, c == 'D');
      } else if c == 'u' {
        fb.SetCursorPos(savedX, savedY);
      } else {
        MoveAbsolute(x, y, c);
      }
    }

    /** `CSI d`, `CSI G`, `CSI H` and their synonyms. */
    method MoveAbsolute(x: nat, y: nat, c: char)
      requires Valid() && c in "dG`Hf" && x == CursorX(fb.View()) && y == CursorY(fb.View())
      modifies values, fb`cursorX, fb`cursorY
      ensures fb.Valid()
      ensures var to := Move(old(fb.View()), x, y, old(values[..]), savedX, savedY, c);
              values[..] == to.values && fb.View() == Place(old(fb.View()), to.x, to.y)
    {
      hide Framebuffer.CacheOk, Framebuffer.PaintedApart, StyleOk, FlagsOk, TablesOk, PaletteOk, SetCursor, OneBased, ZeroBased, Region;
      assert values[0] == values[..][0] && values[1] == values[..][1];
      if c == 'd' {
        Decrement(fb.rows);
        fb.SetCursorPos(x, values[0]);
      } else if c == 'G' || c == '`' {
        Decrement(fb.cols);
        fb.SetCursorPos(values[0], y);
      } else {
        DecrementBoth();
        fb.SetCursorPos(values[1], values[0]);
      }
    }

    /** `CSI H`: row and column counted from one. */
    method DecrementBoth()
      requires values.Length == MAX_VALUES && fb.rows > 0 && fb.cols > 0
      modifies values
      ensures values[..] == old(values[..])[0 := ZeroBased(old(values[0]), fb.rows)][1 := ZeroBased(old(values[1]), fb.cols)]
    {
      if values[0] != 0 {
        values[0] := values[0] - 1;
      }
      if values[1] != 0 {
        values[1] := values[1] - 1;
      }
      if values[1] >= fb.cols {
        values[1] := fb.cols - 1;
      }
      if values[0] >= fb.rows {
        values[0] := fb.rows - 1;
      }
    }

    /** A 32-bit decrement of the first parameter, clamped below `limit`. */
    method Decrement(limit: nat)
      requires values.Length == MAX_VALUES && values[0] < U32_SIZE && limit > 0
      modifies values
      ensures values[..] == old(values[..])[0 := OneBased(old(values[0]), limit)]
    {
      values[0] := (values[0] + U32_SIZE - 1) % U32_SIZE;
      if values[0] >= limit {
        values[0] := limit - 1;
      }
    }

    // --- Colours -------------------------------------------------------------------------------

    ghost function Ink(): Pen
      reads fb
    {
      Pen(fb.textFg, fb.textBg)
    }

    method SetFg(n: int, bright: bool)
      requires fb.Valid() && UNSET <= n < 8
      modifies fb`textFg
      ensures fb.Valid() && Ink() == old(Ink()).(fg := FgOf(fb.palette, n, bright))
    {
      hide Framebuffer.CacheOk, Framebuffer.PaintedApart;
      if n == UNSET {
        fb.SetTextFgDefault(bright);
      } else if bright {
        fb.SetTextFgBright(n);
      } else {
        fb.SetTextFg(n);
      }
    }

    method SetBg(n: int, bright: bool)
      requires fb.Valid() && UNSET <= n < 8
      modifies fb`textBg
      ensures fb.Valid() && Ink() == old(Ink()).(bg := BgOf(fb.palette, n, bright))
    {
      hide Framebuffer.CacheOk, Framebuffer.PaintedApart;
      if n == UNSET {
        fb.SetTextBgDefault(bright);
      } else if bright {
        fb.SetTextBgBright(n);
      } else {
        fb.SetTextBg(n);
      }
    }

    /** Values 0, 1, 5, 22, 25, 39, 49, 7 and 27. */
    method SgrMode(v: nat)
      requires fb.Valid() && StyleOk(style) && PaletteOk(fb.palette)
      requires v in {0, 1, 5, 22, 25, 39, 49, 7, 27}
      modifies `style, fb`textFg, fb`textBg
      ensures fb.Valid() && style == SgrStyle(old(style), v)
      ensures Ink() == SgrPen(old(style), fb.palette, old(Ink()), v)
    {
      hide Framebuffer.CacheOk, Framebuffer.PaintedApart, Sized;
      if v == 0 {
        if style.reverse {
          style := style.(reverse := false);
          fb.SwapPalette();
        }
        style := style.(bold := false, bgBold := false, primary := UNSET, bg := UNSET);
        SetBg(UNSET, false);
        SetFg(UNSET, false);
      } else if v == 1 || v == 22 {
        style := style.(bold := v == 1);
        if !style.reverse { SetFg(style.primary, v == 1); } else { SetBg(style.primary, v == 1); }
      } else if v == 5 || v == 25 {
        style := style.(bgBold := v == 5);
        if !style.reverse { SetBg(style.bg, v == 5); } else { SetFg(style.bg, v == 5); }
      } else if v == 39 || v == 49 {
        if style.reverse {
          fb.SwapPalette();
        }
        if v == 39 {
          style := style.(primary := UNSET);
          SetFg(UNSET, style.bold);
        } else {
          style := style.(bg := UNSET);
          SetBg(UNSET, style.bgBold);
        }
        if style.reverse {
          fb.SwapPalette();
        }
      } else if style.reverse != (v == 7) {
        style := style.(reverse := v == 7);
        fb.SwapPalette();
      }
    }

    /** Values 30..37, 40..47, 90..97 and 100..107. */
    method SgrColour(v: nat)
      requires fb.Valid() && StyleOk(style) && PaletteOk(fb.palette)
      requires 30 <= v <= 37 || 40 <= v <= 47 || 90 <= v <= 97 || 100 <= v <= 107
      modifies `style, fb`textFg, fb`textBg
      ensures fb.Valid() && style == SgrStyle(old(style), v)
      ensures Ink() == SgrPen(old(style), fb.palette, old(Ink()), v)
    {
      hide Framebuffer.CacheOk, Framebuffer.PaintedApart, Sized;
      var offset := if v <= 37 then 30 else if v <= 47 then 40 else if v <= 97 then 90 else 100;
      var n := v - offset;
      if offset == 30 || offset == 90 {
        style := style.(primary := n);
      } else {
        style := style.(bg := n);
      }
      if (offset == 30 || offset == 90) != style.reverse {
        SetFg(n, offset >= 90 || (style.bold && !style.reverse) || (style.bgBold && style.reverse));
      } else {
        SetBg(n, offset >= 90 || (style.bold && style.reverse) || (style.bgBold && !style.reverse));
      }
    }

    /** A colour given by value. */
    method SetRgb(fg: bool, rgb: nat)
      requires fb.Valid()
      modifies fb`textFg, fb`textBg
      ensures fb.Valid() && Ink() == Coloured(old(Ink()), fg, fb.palette.convert(rgb))
    {
      hide Framebuffer.CacheOk, Framebuffer.PaintedApart, Sized;
      if fg { fb.SetTextFgRgb(rgb); } else { fb.SetTextBgRgb(rgb); }
    }

    /** One of 256 colours. */
    method SetIndexed(fg: bool, col: nat)
      requires fb.Valid() && PaletteOk(fb.palette) && |tables.col256| == 240
      modifies fb`textFg, fb`textBg
      ensures fb.Valid() && Ink() == Indexed(tables, fb.palette, old(Ink()), fg, col)
    {
      hide Framebuffer.CacheOk, Framebuffer.PaintedApart, Sized;
      if col < 8 {
        if fg { fb.SetTextFg(col); } else { fb.SetTextBg(col); }
      } else if col < 16 {
        if fg { fb.SetTextFgBright(col - 8); } else { fb.SetTextBgBright(col - 8); }
      } else if col < 256 {
        SetRgb(fg, tables.col256[col - 16]);
      }
    }

    /** One value of `CSI m` other than 38 and 48. */
    method SgrValue(v: nat)
      requires fb.Valid() && StyleOk(style) && PaletteOk(fb.palette)
      modifies `style, fb`textFg, fb`textBg
      ensures fb.Valid() && style == SgrStyle(old(style), v)
      ensures Ink() == SgrPen(old(style), fb.palette, old(Ink()), v)
    {
      hide Framebuffer.CacheOk, Framebuffer.PaintedApart, StyleOk, PaletteOk, FgOf, BgOf;
      if v in {0, 1, 5, 22, 25, 39, 49, 7, 27} {
        SgrMode(v);
      } else if 30 <= v <= 37 || 40 <= v <= 47 || 90 <= v <= 97 || 100 <= v <= 107 {
        SgrColour(v);
      }
    }

    /** `sgr` */
    method SetGraphics()
      requires fb.Valid() && StyleOk(style) && PaletteOk(fb.palette) && |tables.col256| == 240
      requires count <= values.Length
      modifies `style, fb`textFg, fb`textBg
      ensures fb.Valid()
      ensures StyleOk(style)
      ensures var r := SgrAll(tables, fb.palette, old(style), old(Ink()), values[..count]);
              style == r.0 && Ink() == r.1
    {
      hide Framebuffer.CacheOk, Framebuffer.PaintedApart, StyleOk, PaletteOk, SgrStyle, SgrPen;
      if count == 0 {
        SgrValue(0);
        return;
      }
      ghost var vs := values[..count];
      ghost var result := Sgr(tables, fb.palette, style, Ink(), vs, 0);
      var i := 0;
      while i < count
        invariant fb.Valid() && StyleOk(style)
        invariant Sgr(tables, fb.palette, style, Ink(), vs, i) == result
      {
        i := SgrStep(i, vs, result);
      }
    }

    /** One round of the loop in `sgr`: the index of the next value. */
    method SgrStep(i: nat, ghost vs: seq<nat>, ghost result: (Style, Pen)) returns (next: nat)
      requires fb.Valid() && StyleOk(style) && PaletteOk(fb.palette) && |tables.col256| == 240
      requires i < count <= values.Length && vs == values[..count]
      requires Sgr(tables, fb.palette, style, Ink(), vs, i) == result
      modifies `style, fb`textFg, fb`textBg
      ensures fb.Valid() && StyleOk(style) && i < next
      ensures Sgr(tables, fb.palette, style, Ink(), vs, next) == result
    {
      hide Framebuffer.CacheOk, Framebuffer.PaintedApart, StyleOk, PaletteOk, SgrStyle, SgrPen, Indexed, Coloured, Rgb;
      var v := values[i];
      if v != 38 && v != 48 {
        SgrValue(v);
        return i + 1;
      }
      if i + 1 >= count {
        return count;
      }
      if values[i + 1] == 2 {
        if i + 4 >= count {
          return count;
        }
        SetRgb(v == 38, Rgb(values[i + 2], values[i + 3], values[i + 4]));
        return i + 5;
      }
      if values[i + 1] == 5 {
        if i + 2 >= count {
          return count;
        }
        SetIndexed(v == 38, values[i + 2]);
        return i + 3;
      }
      return i + 2;
    }

    // --- Sequences -----------------------------------------------------------------------------

    /** `CSI r` */
    method Margins()
      requires fb.Valid() && values.Length == MAX_VALUES
      modifies values, fb`scrollTop, fb`scrollBottom, fb`cursorX, fb`cursorY
      ensures fb.Valid()
      ensures var first, second := Max1(old(values[0])), Max1(old(values[1]));
              values[..] == old(values[..])[0 := first][1 := second]
              && fb.View() == SetMargins(old(fb.View()), count, first, second)
    {
      hide Framebuffer.CacheOk, Framebuffer.PaintedApart, SetMargins;
      if values[0] == 0 {
        values[0] := 1;
      }
      if values[1] == 0 {
        values[1] := 1;
      }
      assert values[0] == Max1(old(values[0])) && values[1] == Max1(old(values[1]));
      UseMargins(values[0], values[1]);
    }

    method UseMargins(first: nat, second: nat)
      requires fb.Valid() && 1 <= first && 1 <= second
      modifies fb`scrollTop, fb`scrollBottom, fb`cursorX, fb`cursorY
      ensures fb.Valid() && fb.View() == SetMargins(old(fb.View()), count, first, second)
    {
      hide Framebuffer.CacheOk, Framebuffer.PaintedApart;
      fb.scrollTop, fb.scrollBottom := 0, fb.rows;
      if count > 0 {
        fb.scrollTop := first - 1;
      }
      if count > 1 {
        fb.scrollBottom := second;
      }
      if fb.scrollTop >= fb.rows || fb.scrollBottom > fb.rows || fb.scrollTop >= fb.scrollBottom - 1 {
        fb.scrollTop, fb.scrollBottom := 0, fb.rows;
      }
      fb.SetCursorPos(0, 0);
    }

    lemma Facts()
      requires Valid()
      ensures fb.Valid() && values.Length == MAX_VALUES && count <= MAX_VALUES && |tables.col256| == 240
      ensures TermOk(fb.View()) && PaletteOk(fb.palette) && StyleOk(style) && ParserOk(Registers()) && ValuesOk(values[..])
    {}

    method PerformMove(x: nat, y: nat, c: char)
      requires Valid() && c in MOVES && x == CursorX(fb.View()) && y == CursorY(fb.View())
      modifies values, fb`cursorX, fb`cursorY
      ensures Valid()
      ensures var s := old(Now());
              var to := Move(s.t, x, y, s.p.values, s.p.savedX, s.p.savedY, c);
              Now() == State(WithValues(s.p, to.values), Place(s.t, to.x, to.y))
    {
      hide Framebuffer.CacheOk, Framebuffer.PaintedApart, ParserOk, StyleOk, ValuesOk, FlagsOk, Ascending, PaletteOk,
           Move, Place, Sized, Region, CursorX, CursorY;
      Facts();
      TermFacts(fb.View());
      ghost var s := Now();
      MoveAt(x, y, c);
      assert Registers() == WithValues(s.p, Move(s.t, x, y, s.p.values, s.p.savedX, s.p.savedY, c).values);
    }

    method PerformStyle()
      requires Valid()
      modifies `style, fb`textFg, fb`textBg
      ensures Valid() && Now() == Styled(tables, old(Now()))
    {
      hide Framebuffer.CacheOk, Framebuffer.PaintedApart, ParserOk, StyleOk, ValuesOk, FlagsOk, Ascending, PaletteOk, SgrAll,
           TermOk;
      Facts();
      ghost var p, t := Registers(), fb.View();
      assert values[..][..count] == values[..count];
      SetGraphics();
      assert Registers() == WithStyle(p, style);
      assert fb.View() == WithPen(t, Ink());
    }

    method PerformMargins()
      requires Valid()
      modifies values, fb`scrollTop, fb`scrollBottom, fb`cursorX, fb`cursorY
      ensures Valid()
      ensures var s := old(Now());
              var first, second := Max1(s.p.values[0]), Max1(s.p.values[1]);
              Now() == State(WithValues(s.p, s.p.values[0 := first][1 := second]), SetMargins(s.t, s.p.count, first, second))
    {
      hide Framebuffer.CacheOk, Framebuffer.PaintedApart, StyleOk, Ascending, PaletteOk, SetMargins;
      Margins();
    }

    method PerformSave(x: nat, y: nat)
      requires Valid() && x < U64_SIZE && y < U64_SIZE
      modifies `savedX, `savedY
      ensures Valid() && Now() == old(Now()).(p := WithSaved(old(Now()).p, x, y))
    {
      hide Framebuffer.CacheOk, Framebuffer.PaintedApart, ParserOk, StyleOk, ValuesOk, FlagsOk, Ascending, PaletteOk, Sized;
      Facts();
      ghost var p := Registers();
      savedX := x;
      savedY := y;
      assert Registers() == WithSaved(p, x, y);
    }

    /** `mode_toggle` */
    method PerformMode(set_: bool)
      requires Valid()
      modifies `insertMode
      ensures Valid() && Now() == old(Now()).(p := WithMode(old(Now()).p, set_))
    {
      hide Framebuffer.CacheOk, Framebuffer.PaintedApart, ParserOk, StyleOk, ValuesOk, FlagsOk, Ascending, PaletteOk, Sized;
      Facts();
      ghost var p := Registers();
      if count > 0 && values[0] == 4 {
        insertMode := set_;
      }
      assert Registers() == WithMode(p, set_);
    }

    /** The final byte of a control sequence, with scrolling switched off. */
    method Perform(c: char)
      requires Valid()
      modifies `style, `insertMode, `savedX, `savedY
      modifies values, fb`queueLen, fb`shown, fb`cursorX, fb`cursorY, fb`scrollTop, fb`scrollBottom, fb`textFg, fb`textBg
      modifies fb.queue, fb.map_
      ensures Valid() && Now() == Command(tables, old(Now()), c)
    {
      hide Framebuffer.CacheOk, Framebuffer.PaintedApart, ParserOk, TermOk, TablesOk, PaletteOk, Edit, Move, Place, Styled,
           SetMargins, Sized, CursorX, CursorY, WithValues, WithStyle, WithPen, WithSaved, WithMode, Max1, ValuesOk, StyleOk;
      Facts();
      TermFacts(fb.View());
      var x, y := fb.GetCursorPos();
      if c in EDITS {
        EditAt(x, y, c);
      } else if c in MOVES {
        PerformMove(x, y, c);
      } else if c == 'm' {
        PerformStyle();
      } else if c == 'r' {
        PerformMargins();
      } else if c == 's' {
        PerformSave(x, y);
      } else if c == 'l' || c == 'h' {
        PerformMode(c == 'h');
      }
    }

    /** The parameters that were not given get the default of the final byte. */
    method Pad(c: char)
      requires Valid()
      modifies values
      ensures Valid() && Now() == old(Now()).(p := Padded(old(Registers()), c))
    {
      hide Framebuffer.CacheOk, Framebuffer.PaintedApart, ParserOk, StyleOk, ValuesOk, FlagsOk, Ascending, TermOk, Sized;
      Facts();
      ghost var p := Registers();
      FillFrom(if c == 'J' || c == 'K' || c == 'q' then 0 else 1);
      assert values[..] == Padded(p, c).values;
      assert Registers() == Padded(p, c);
    }

    method FillFrom(v: nat)
      requires values.Length == MAX_VALUES && count <= MAX_VALUES
      modifies values
      ensures forall j :: 0 <= j < MAX_VALUES ==> values[j] == if j < count then old(values[j]) else v
    {
      for i := count to MAX_VALUES
        invariant forall j :: 0 <= j < MAX_VALUES ==> values[j] == if count <= j < i then v else old(values[j])
      {
        values[i] := v;
      }
    }

    /** `dec_private_parse` */
    method PrivateSequence(c: char)
      requires Valid()
      modifies `decPrivate, fb`cursorEnabled
      ensures Valid() && Now() == DecPrivate(old(Now()), c)
    {
      hide Framebuffer.CacheOk, Framebuffer.PaintedApart, ParserOk, StyleOk, ValuesOk, FlagsOk, Ascending, TermOk, WithCursor, WithPrivate;
      Facts();
      assert values[..][0] == values[0];
      SetPrivate(false);
      if count > 0 && (c == 'h' || c == 'l') && values[0] == 25 {
        EnableCursor(c == 'h');
      }
    }

    method EnableCursor(on: bool)
      requires Valid()
      modifies fb`cursorEnabled
      ensures Valid() && Now() == old(Now()).(t := WithCursor(old(fb.View()), on))
    {
      hide Framebuffer.CacheOk, Framebuffer.PaintedApart, ParserOk, Ascending, TermOk;
      ghost var t := fb.View();
      fb.cursorEnabled := on;
      assert fb.View() == WithCursor(t, on);
    }

    /** `scroll_enabled` is off while a control sequence runs. */
    method EnableScroll(on: bool)
      requires Valid()
      modifies fb`scrollEnabled
      ensures Valid() && Now() == old(Now()).(t := WithScroll(old(fb.View()), on))
    {
      hide Framebuffer.CacheOk, Framebuffer.PaintedApart, ParserOk, Ascending, TermOk;
      ghost var t := fb.View();
      fb.scrollEnabled := on;
      assert fb.View() == WithScroll(t, on);
    }

    /** The sequence is over. */
    method End()
      requires Valid() && !osc
      modifies `controlSequence, `escape
      ensures Valid() && Now() == old(Now()).(p := Ended(old(Registers())))
    {
      hide Framebuffer.CacheOk, Framebuffer.PaintedApart, ParserOk, StyleOk, ValuesOk, FlagsOk, Ascending, TermOk, Sized;
      Facts();
      ghost var p := Registers();
      controlSequence := false;
      escape := false;
      assert Registers() == Ended(p);
    }

    /** The final byte of a control sequence. */
    method FinishSequence(c: char)
      requires Valid() && !osc
      modifies `style, `insertMode, `savedX, `savedY, `decPrivate, `controlSequence, `escape
      modifies values, fb`queueLen, fb`shown, fb`cursorX, fb`cursorY, fb`scrollTop, fb`scrollBottom, fb`textFg, fb`textBg
      modifies fb`cursorEnabled, fb`scrollEnabled, fb.queue, fb.map_
      ensures Valid() && Now() == Finish(tables, old(Now()), c)
    {
      hide Framebuffer.CacheOk, Framebuffer.PaintedApart, ParserOk, StyleOk, ValuesOk, FlagsOk, Ascending, TermOk, Sized,
           Padded, Command, DecPrivate, WithScroll, Ended;
      Facts();
      var scrolling := fb.scrollEnabled;
      ghost var t := fb.View();
      Pad(c);
      if decPrivate {
        PrivateSequence(c);
        ScrollSame(fb.View());
      } else {
        EnableScroll(false);
        Perform(c);
        EnableScroll(scrolling);
      }
      End();
    }

    method ReadDigit(d: nat)
      requires Valid() && d <= 9
      modifies values, `rrr
      ensures Valid() && Now() == old(Now()).(p := Digit(old(Registers()), d))
    {
      hide Framebuffer.CacheOk, Framebuffer.PaintedApart, ParserOk, StyleOk, ValuesOk, FlagsOk, Ascending, TermOk, Sized;
      Facts();
      ghost var p := Registers();
      if count == MAX_VALUES {
        return;
      }
      rrr := true;
      values[count] := (values[count] * 10 + d) % U32_SIZE;
      assert values[..] == p.values[count := (p.values[count] * 10 + d) % U32_SIZE];
      assert Registers() == Digit(p, d);
    }

    method ReadEmpty()
      requires Valid() && !rrr
      modifies values, `count
      ensures Valid() && Now() == old(Now()).(p := EmptyValue(old(Registers())))
    {
      hide Framebuffer.CacheOk, Framebuffer.PaintedApart, ParserOk, StyleOk, ValuesOk, FlagsOk, Ascending, TermOk, Sized;
      Facts();
      ghost var p := Registers();
      if count == MAX_VALUES {
        return;
      }
      values[count] := 0;
      assert values[..] == p.values[count := 0];
      count := count + 1;
      assert Registers() == EmptyValue(p);
    }

    method ReadEnd()
      requires Valid() && rrr
      modifies `count, `rrr
      ensures Valid() && Now() == old(Now()).(p := EndValue(old(Registers())))
    {
      hide Framebuffer.CacheOk, Framebuffer.PaintedApart, ParserOk, StyleOk, ValuesOk, FlagsOk, Ascending, TermOk, Sized;
      Facts();
      ghost var p := Registers();
      count := count + 1;
      rrr := false;
      assert Registers() == EndValue(p);
    }

    method Discard()
      requires Valid() && !osc
      modifies `discardNext, `controlSequence, `escape
      ensures Valid() && Now() == old(Now()).(p := Discarding(old(Registers())))
    {
      hide Framebuffer.CacheOk, Framebuffer.PaintedApart, ParserOk, StyleOk, ValuesOk, FlagsOk, Ascending, TermOk, Sized;
      Facts();
      ghost var p := Registers();
      discardNext := true;
      controlSequence := false;
      escape := false;
      assert Registers() == Discarding(p);
    }

    /** `control_sequence_parse` */
    method ParseControl(c: char)
      requires Valid() && !osc
      modifies `style, `insertMode, `savedX, `savedY, `decPrivate, `controlSequence, `escape, `rrr, `count, `discardNext
      modifies values, fb`queueLen, fb`shown, fb`cursorX, fb`cursorY, fb`scrollTop, fb`scrollBottom, fb`textFg, fb`textBg
      modifies fb`cursorEnabled, fb`scrollEnabled, fb.queue, fb.map_
      ensures Valid() && Now() == ControlSequence(tables, old(Now()), c)
    {
      hide Framebuffer.CacheOk, Framebuffer.PaintedApart, ParserOk, StyleOk, ValuesOk, FlagsOk, Ascending, TermOk, Sized,
           Finish, Digit, EmptyValue, EndValue, Discarding, WithPrivate;
      Facts();
      if escapeOffset == 2 && c == '[' {
        Discard();
      } else if escapeOffset == 2 && c == '?' {
        SetPrivate(true);
      } else if '0' <= c <= '9' {
        ReadDigit(c as nat - 48);
      } else if rrr {
        ReadEnd();
        if c != ';' {
          FinishSequence(c);
        }
      } else if c == ';' {
        ReadEmpty();
      } else {
        FinishSequence(c);
      }
    }

    method SetPrivate(on: bool)
      requires Valid()
      modifies `decPrivate
      ensures Valid() && Now() == old(Now()).(p := WithPrivate(old(Registers()), on))
    {
      hide Framebuffer.CacheOk, Framebuffer.PaintedApart, ParserOk, StyleOk, ValuesOk, FlagsOk, Ascending, TermOk, Sized;
      Facts();
      ghost var p := Registers();
      decPrivate := on;
      assert Registers() == WithPrivate(p, on);
    }

    /** `osc_parse` */
    method ParseOsc(c: char)
      requires Valid() && osc
      modifies `oscEscape, `osc, `escape
      ensures Valid() && Now() == old(Now()).(p := Osc(old(Registers()), c))
    {
      hide Framebuffer.CacheOk, Framebuffer.PaintedApart, ParserOk, StyleOk, ValuesOk, FlagsOk, Ascending, TermOk, Sized,
           OscEnded, OscGoesOn;
      Facts();
      if (oscEscape && c == '\\') || c as nat == 7 {
        EndOsc();
      } else {
        MarkOsc(c as nat == ESCAPE);
      }
    }

    method EndOsc()
      requires Valid() && osc
      modifies `oscEscape, `osc, `escape
      ensures Valid() && Now() == old(Now()).(p := OscEnded(old(Registers())))
    {
      hide Framebuffer.CacheOk, Framebuffer.PaintedApart, ParserOk, StyleOk, ValuesOk, FlagsOk, Ascending, TermOk, Sized;
      Facts();
      ghost var p := Registers();
      oscEscape := false;
      osc := false;
      escape := false;
      assert Registers() == OscEnded(p);
    }

    method MarkOsc(on: bool)
      requires Valid()
      modifies `oscEscape
      ensures Valid() && Now() == old(Now()).(p := OscGoesOn(old(Registers()), on))
    {
      hide Framebuffer.CacheOk, Framebuffer.PaintedApart, ParserOk, StyleOk, ValuesOk, FlagsOk, Ascending, TermOk, Sized;
      Facts();
      ghost var p := Registers();
      oscEscape := on;
      assert Registers() == OscGoesOn(p, on);
    }

    method Close()
      requires Valid() && !controlSequence && !osc
      modifies `escape
      ensures Valid() && Now() == old(Now()).(p := Closed(old(Registers())))
    {
      hide Framebuffer.CacheOk, Framebuffer.PaintedApart, ParserOk, StyleOk, ValuesOk, FlagsOk, Ascending, TermOk, Sized;
      Facts();
      ghost var p := Registers();
      escape := false;
      assert Registers() == Closed(p);
    }

    method StartOsc()
      requires Valid() && escape && !controlSequence
      modifies `oscEscape, `osc
      ensures Valid() && Now() == old(Now()).(p := OpenOsc(old(Registers())))
    {
      hide Framebuffer.CacheOk, Framebuffer.PaintedApart, ParserOk, StyleOk, ValuesOk, FlagsOk, Ascending, TermOk, Sized;
      Facts();
      ghost var p := Registers();
      oscEscape := false;
      osc := true;
      assert Registers() == OpenOsc(p);
    }

    /** `CSI` opens: no parameters yet. */
    method StartControl()
      requires Valid() && escape && !osc
      modifies values, `count, `rrr, `controlSequence
      ensures Valid() && Now() == old(Now()).(p := OpenControl(old(Registers())))
    {
      hide Framebuffer.CacheOk, Framebuffer.PaintedApart, ParserOk, StyleOk, ValuesOk, FlagsOk, Ascending, TermOk, Sized, Scalars;
      Facts();
      RegisterFlags();
      ghost var p := Registers();
      ZeroValues();
      OpenScalars();
      assert Registers() == OpenControl(p);
    }

    lemma RegisterFlags()
      ensures Registers().osc == osc && Registers().escape == escape
    {}

    method ZeroValues()
      requires values.Length == MAX_VALUES
      modifies values
      ensures values[..] == seq(MAX_VALUES, _ => 0)
    {
      for i := 0 to MAX_VALUES
        invariant forall j :: 0 <= j < i ==> values[j] == 0
      {
        values[i] := 0;
      }
    }

    method OpenScalars()
      modifies `count, `rrr, `controlSequence
      ensures Scalars() == old(Scalars()).(count := 0, rrr := false, controlSequence := true)
    {
      count := 0;
      rrr := false;
      controlSequence := true;
    }

    method Select(g: nat)
      requires Valid() && g <= 2
      modifies `gSelect
      ensures Valid() && Now() == old(Now()).(p := Selecting(old(Registers()), g))
    {
      hide Framebuffer.CacheOk, Framebuffer.PaintedApart, ParserOk, StyleOk, ValuesOk, FlagsOk, Ascending, TermOk, Sized;
      Facts();
      ghost var p := Registers();
      gSelect := g;
      assert Registers() == Selecting(p, g);
    }

    method Count()
      requires Valid()
      modifies `escapeOffset
      ensures Valid() && Now() == old(Now()).(p := Counted(old(Registers())))
    {
      hide Framebuffer.CacheOk, Framebuffer.PaintedApart, ParserOk, StyleOk, ValuesOk, FlagsOk, Ascending, TermOk, Sized;
      Facts();
      ghost var p := Registers();
      escapeOffset := (escapeOffset + 1) % U64_SIZE;
      assert Registers() == Counted(p);
    }

    /** `save_state` */
    method Store()
      requires Valid()
      modifies `savedStyle, fb`savedFg, fb`savedBg, fb`savedX, fb`savedY
      ensures Valid() && Now() == State(Stored(old(Registers())), SavedScreen(old(fb.View())))
    {
      hide Framebuffer.CacheOk, Framebuffer.PaintedApart, ParserOk, StyleOk, ValuesOk, FlagsOk, Ascending, TermOk;
      ghost var p, t := Registers(), fb.View();
      fb.SaveState();
      savedStyle := style;
      assert Registers() == Stored(p) && fb.View() == SavedScreen(t);
    }

    /** `restore_state` */
    method Recall()
      requires Valid()
      modifies `style, fb`textFg, fb`textBg, fb`cursorX, fb`cursorY
      ensures Valid() && Now() == State(Recalled(old(Registers())), RestoredScreen(old(fb.View())))
    {
      hide Framebuffer.CacheOk, Framebuffer.PaintedApart, ParserOk, StyleOk, ValuesOk, FlagsOk, Ascending, TermOk;
      ghost var p, t := Registers(), fb.View();
      style := savedStyle;
      fb.RestoreState();
      assert Registers() == Recalled(p) && fb.View() == RestoredScreen(t);
    }

    /** `flanterm_context_reinit`, the fields of the parser. */
    method ResetScalars()
      modifies this
      ensures Scalars() == Parser(8, true, true, false, false, false, false, false, false, false, false, old(codePoint), 0, 0, [],
                                  0, [], 0, 0, 0, Style(false, false, false, 0, UNSET, UNSET), old(savedStyle))
    {
      CodePointIs();
      hide Scalars;
      AbortScalars();
      ResetModes();
      ResetNumbers();
      ResetStyle();
    }

    method ResetModes()
      modifies this
      ensures Scalars() == old(Scalars()).(autoflush := true, onlcr := true, decPrivate := false, insertMode := false)
    {
      autoflush := true;
      onlcr := true;
      decPrivate := false;
      insertMode := false;
    }

    method ResetNumbers()
      modifies this
      ensures Scalars() == old(Scalars()).(tabSize := 8, rrr := false, escapeOffset := 0, count := 0)
    {
      tabSize := 8;
      rrr := false;
      escapeOffset := 0;
      count := 0;
    }

    method ResetStyle()
      modifies this
      ensures Scalars() == old(Scalars()).(savedX := 0, savedY := 0, style := Style(false, false, false, 0, UNSET, UNSET))
    {
      savedX := 0;
      savedY := 0;
      style := Style(false, false, false, 0, UNSET, UNSET);
    }

    method ResetRegisters()
      requires values != charsets && ParserOk(Registers())
      modifies this, charsets
      ensures Registers() == Reset(old(Registers()))
    {
      hide Scalars, StyleOk, ValuesOk, FlagsOk;
      CodePointIs();
      ResetScalars();
      charsets[0], charsets[1] := 0, 1;
      assert charsets[..] == [0, 1];
    }

    lemma CodePointIs()
      ensures Scalars().codePoint == codePoint && Scalars().savedStyle == savedStyle
      ensures Scalars().charsets == [] && Scalars().values == []
    {}

    /** `flanterm_context_reinit` and the clearing after it. */
    method Reinit()
      requires Valid()
      modifies this, charsets
      modifies fb`queueLen, fb`shown, fb`cursorX, fb`cursorY, fb`cursorEnabled, fb`scrollEnabled, fb`scrollTop, fb`scrollBottom
      modifies fb.queue, fb.map_
      ensures Valid() && Now() == State(Reset(old(Registers())), ResetScreen(old(fb.View())))
    {
      hide Framebuffer.CacheOk, Framebuffer.PaintedApart, StyleOk, ValuesOk, FlagsOk, Ascending, TermOk, ResetScreen, Reset;
      ResetRegisters();
      hide ParserOk;
      ResetDisplay();
    }

    method ResetDisplay()
      requires fb.Valid() && TermOk(fb.View())
      modifies fb`queueLen, fb`shown, fb`cursorX, fb`cursorY, fb`cursorEnabled, fb`scrollEnabled, fb`scrollTop, fb`scrollBottom
      modifies fb.queue, fb.map_
      ensures fb.Valid() && fb.View() == ResetScreen(old(fb.View()))
    {
      hide Framebuffer.CacheOk, Framebuffer.PaintedApart, Clear;
      fb.cursorEnabled, fb.scrollEnabled, fb.scrollTop, fb.scrollBottom := true, true, 0, fb.rows;
      fb.Clear(true);
    }

    /** `ESC D`, `ESC E` and the line feed characters. */
    method FeedLine(home: bool)
      requires Valid()
      modifies fb`queueLen, fb`shown, fb`cursorX, fb`cursorY, fb.queue, fb.map_
      ensures Valid() && Now() == old(Now()).(t := LineFeed(old(fb.View()), home))
    {
      hide Framebuffer.CacheOk, Framebuffer.PaintedApart, ParserOk, Ascending, Scroll;
      var x, y := fb.GetCursorPos();
      if y == fb.scrollBottom - 1 {
        fb.Scroll();
        fb.SetCursorPos(if home then 0 else x, y);
      } else {
        fb.SetCursorPos(if home then 0 else x, y + 1);
      }
    }

    /** `ESC M` */
    method FeedBack()
      requires Valid()
      modifies fb`queueLen, fb`shown, fb`cursorX, fb`cursorY, fb.queue, fb.map_
      ensures Valid() && Now() == old(Now()).(t := ReverseLine(old(fb.View())))
    {
      hide Framebuffer.CacheOk, Framebuffer.PaintedApart, ParserOk, Ascending, RevScroll;
      var x, y := fb.GetCursorPos();
      if y == fb.scrollTop {
        fb.RevScroll();
        fb.SetCursorPos(0, y);
      } else {
        fb.SetCursorPos(0, Less(y, 1));
      }
    }

    /** The byte after ESC. */
    method Open(c: char)
      requires Valid() && fb.scrollEnabled && escape && !osc && !controlSequence
      modifies this, values, charsets
      modifies fb`queueLen, fb`shown, fb`cursorX, fb`cursorY, fb`cursorEnabled, fb`scrollEnabled, fb`scrollTop, fb`scrollBottom
      modifies fb`savedFg, fb`savedBg, fb`savedX, fb`savedY, fb`textFg, fb`textBg, fb.queue, fb.map_
      ensures Valid() && Now() == Opener(old(Now()), c)
    {
      hide Framebuffer.CacheOk, Framebuffer.PaintedApart, ParserOk, StyleOk, ValuesOk, FlagsOk, TablesOk, TermOk, Sized,
           LineFeed, Closed, OpenOsc, OpenControl, Reset, ResetScreen, Selecting, ReverseLine, SavedScreen, RestoredScreen,
           Stored, Recalled;
      match c
      case ']' => StartOsc();
      case '[' => StartControl();
      case '7' =>
        Store();
        Close();
      case '8' =>
        Recall();
        Close();
      case 'c' => Reinit();
      case 'D' =>
        FeedLine(false);
        Close();
      case 'E' =>
        FeedLine(true);
        Close();
      case 'M' =>
        FeedBack();
        Close();
      case '(' =>
        Close();
        Select(1);
      case ')' =>
        Close();
        Select(2);
      case _ => Close();
    }

    /** `escape_parse` */
    method ParseEscape(c: char)
      requires Valid() && fb.scrollEnabled && escape
      modifies this, values, charsets
      modifies fb`queueLen, fb`shown, fb`cursorX, fb`cursorY, fb`cursorEnabled, fb`scrollEnabled, fb`scrollTop, fb`scrollBottom
      modifies fb`savedFg, fb`savedBg, fb`savedX, fb`savedY, fb`textFg, fb`textBg, fb.queue, fb.map_
      ensures Valid() && Now() == Escape(tables, old(Now()), c)
    {
      hide Framebuffer.CacheOk, Framebuffer.PaintedApart, ParserOk, StyleOk, ValuesOk, FlagsOk, TermOk, Sized,
           ControlSequence, Opener, Osc, Counted;
      Facts();
      Count();
      if osc {
        ParseOsc(c);
      } else if controlSequence {
        ParseControl(c);
      } else {
        Open(c);
      }
    }

    // --- Characters ----------------------------------------------------------------------------

    /** `bisearch`: binary search in an ascending interval table is linear membership. */
    method Bisearch(u: nat, table: seq<Interval>) returns (found: bool)
      requires |table| > 0 && Ascending(table)
      ensures found <==> InTable(u, table)
    {
      var lo, hi := 0, |table| - 1;
      if u < table[0].first || u > table[hi].last {
        return false;
      }
      while hi >= lo
        invariant 0 <= lo <= |table| && -1 <= hi < |table|
        invariant forall i :: 0 <= i < lo ==> table[i].last < u
        invariant forall i :: hi < i < |table| ==> u < table[i].first
        decreases hi - lo
      {
        var mid := (lo + hi) / 2;
        if u > table[mid].last {
          lo := mid + 1;
        } else if u < table[mid].first {
          hi := mid - 1;
        } else {
          return true;
        }
      }
      return false;
    }

    /** `mk_wcwidth` */
    method CodePointWidth(u: nat) returns (w: nat)
      requires TablesOk(tables)
      ensures w == Width(tables, u)
    {
      if u == 0 {
        return 0;
      }
      if u < 32 || 0x7F <= u < 0xA0 {
        return 1;
      }
      var combining := Bisearch(u, tables.combining);
      if combining {
        return 0;
      }
      return 1 + if Wide(u) then 1 else 0;
    }

    /** Print a decoded code point. */
    method PrintCodePoint(u: nat)
      requires Valid()
      modifies fb`queueLen, fb`shown, fb`cursorX, fb`cursorY, fb.queue, fb.map_
      ensures Valid() && Now() == old(Now()).(t := Print(tables, old(fb.View()), u))
    {
      hide Framebuffer.CacheOk, Framebuffer.PaintedApart, ParserOk, PutN, Width, Ascending;
      var glyph := tables.cp437(u);
      if glyph >= 0 {
        PutMany(glyph, 1);
      } else {
        var width := CodePointWidth(u);
        if width > 0 {
          PutMany(REPLACEMENT, 1);
          PutMany(SPACE, width - 1);
        }
      }
    }

    method StepCodePoint(c: nat)
      requires Valid() && remaining > 0
      modifies `remaining, `codePoint
      ensures Valid() && Now() == old(Now()).(p := Continued(old(Registers()), c))
    {
      hide Framebuffer.CacheOk, Framebuffer.PaintedApart, ParserOk, StyleOk, ValuesOk, FlagsOk, Ascending, TermOk, Sized;
      Facts();
      ghost var p := Registers();
      remaining := remaining - 1;
      codePoint := Or(codePoint, Sextet(c % 0x40, remaining));
      assert Registers() == Continued(p, c);
    }

    /** A continuation byte. */
    method ContinueCodePoint(c: nat)
      requires Valid() && remaining > 0 && fb.scrollEnabled
      modifies `remaining, `codePoint, fb`queueLen, fb`shown, fb`cursorX, fb`cursorY, fb.queue, fb.map_
      ensures Valid() && Now() == Continue(tables, old(Now()), c)
    {
      hide Framebuffer.CacheOk, Framebuffer.PaintedApart, ParserOk, TermOk, Sized, TablesOk, Print, Continued;
      StepCodePoint(c);
      if remaining == 0 {
        PrintCodePoint(codePoint);
      }
    }

    method StartCodePoint(c: nat)
      requires Valid() && 0xC0 <= c <= 0xF7
      modifies `remaining, `codePoint
      ensures Valid() && Now() == old(Now()).(p := Lead(old(Registers()), c))
    {
      hide Framebuffer.CacheOk, Framebuffer.PaintedApart, ParserOk, StyleOk, ValuesOk, FlagsOk, Ascending, TermOk, Sized, WithCodePoint;
      if c <= 0xDF {
        SetCodePoint(1, (c % 0x20) * 0x40);
      } else if c <= 0xEF {
        SetCodePoint(2, (c % 0x10) * 0x1000);
      } else {
        SetCodePoint(3, (c % 8) * 0x4_0000);
      }
    }

    method SetCodePoint(more: nat, bits: nat)
      requires Valid() && more <= 3
      modifies `remaining, `codePoint
      ensures Valid() && Now() == old(Now()).(p := WithCodePoint(old(Registers()), more, bits))
    {
      hide Framebuffer.CacheOk, Framebuffer.PaintedApart, ParserOk, StyleOk, ValuesOk, FlagsOk, Ascending, TermOk, Sized;
      Facts();
      ghost var p := Registers();
      remaining := more;
      codePoint := bits;
      assert Registers() == WithCodePoint(p, more, bits);
    }

    method DesignateCharset(c: char)
      requires Valid() && gSelect > 0
      modifies `gSelect, charsets
      ensures Valid() && Now() == old(Now()).(p := Designate(old(Registers()), c))
    {
      hide Framebuffer.CacheOk, Framebuffer.PaintedApart, ParserOk, StyleOk, ValuesOk, FlagsOk, Ascending, TermOk, Sized;
      Facts();
      ghost var p := Registers();
      if c == 'B' {
        charsets[gSelect - 1] := 0;
      } else if c == '0' {
        charsets[gSelect - 1] := 1;
      }
      gSelect := 0;
      assert charsets[..] == Designate(p, c).charsets;
      assert Registers() == Designate(p, c);
    }

    method SetCharset(n: nat)
      requires Valid() && n < 2
      modifies `style
      ensures Valid() && Now() == old(Now()).(p := WithCharset(old(Registers()), n))
    {
      hide Framebuffer.CacheOk, Framebuffer.PaintedApart, ParserOk, StyleOk, ValuesOk, FlagsOk, Ascending, TermOk, Sized;
      Facts();
      ghost var p := Registers();
      style := style.(charset := n);
      assert Registers() == WithCharset(p, n);
    }

    method StartEscape()
      requires Valid()
      modifies `escapeOffset, `escape
      ensures Valid() && Now() == old(Now()).(p := Escaping(old(Registers())))
    {
      hide Framebuffer.CacheOk, Framebuffer.PaintedApart, ParserOk, StyleOk, ValuesOk, FlagsOk, Ascending, TermOk, Sized;
      Facts();
      ghost var p := Registers();
      escapeOffset := 0;
      escape := true;
      assert Registers() == Escaping(p);
    }

    method AbortSequences()
      requires Valid()
      modifies this
      ensures Valid() && Now() == old(Now()).(p := Abort(old(Registers())))
    {
      hide Framebuffer.CacheOk, Framebuffer.PaintedApart, ParserOk, StyleOk, ValuesOk, FlagsOk, Ascending, TermOk, Sized, Scalars;
      ghost var p := Registers();
      AbortScalars();
      assert Registers() == Abort(p);
    }

    method AbortScalars()
      modifies this
      ensures Scalars() == old(Scalars()).(discardNext := false, escape := false, controlSequence := false, remaining := 0,
                                           osc := false, oscEscape := false, gSelect := 0)
    {
      hide Scalars;
      AbortEscape();
      AbortText();
    }

    method AbortEscape()
      modifies `discardNext, `escape, `controlSequence, `gSelect
      ensures Scalars() == old(Scalars()).(discardNext := false, escape := false, controlSequence := false, gSelect := 0)
    {
      discardNext := false;
      escape := false;
      controlSequence := false;
      gSelect := 0;
    }

    method AbortText()
      modifies `remaining, `osc, `oscEscape
      ensures Scalars() == old(Scalars()).(remaining := 0, osc := false, oscEscape := false)
    {
      remaining := 0;
      osc := false;
      oscEscape := false;
    }

    method ForgetCodePoint()
      requires Valid()
      modifies `remaining
      ensures Valid() && Now() == old(Now()).(p := Resync(old(Registers())))
    {
      hide Framebuffer.CacheOk, Framebuffer.PaintedApart, ParserOk, StyleOk, ValuesOk, FlagsOk, Ascending, TermOk, Sized;
      Facts();
      ghost var p := Registers();
      remaining := 0;
      assert Registers() == Resync(p);
    }

    /** The printable characters, and bytes that have no other meaning. */
    method ShowByte(c: nat)
      requires Valid()
      modifies fb`queueLen, fb`shown, fb`cursorX, fb`cursorY, fb.queue, fb.map_
      ensures Valid() && Now() == old(Now()).(t := Show(old(fb.View()), insertMode, Glyph(tables, old(Registers()), c)))
    {
      hide Framebuffer.CacheOk, Framebuffer.PaintedApart, ParserOk, PutN, Ascending, ShiftRight;
      GlyphFacts(c);
      if insertMode {
        MakeRoom();
      }
      if charsets[style.charset] == 1 && tables.decSpecial(c) >= 0 {
        PutMany(tables.decSpecial(c), 1);
        return;
      }
      if c >= 0x20 && c <= 0x7E {
        PutMany(c, 1);
      } else {
        PutMany(REPLACEMENT, 1);
      }
    }

    lemma GlyphFacts(c: nat)
      requires Valid()
      ensures style.charset < charsets.Length
      ensures Glyph(tables, Registers(), c) == if charsets[style.charset] == 1 && tables.decSpecial(c) >= 0 then tables.decSpecial(c)
                                               else if 0x20 <= c <= 0x7E then c else REPLACEMENT
    {
      hide Framebuffer.CacheOk, Framebuffer.PaintedApart, ValuesOk, FlagsOk, TermOk;
    }

    /** Cursor moves of the control characters 8, 9 and 13. */
    method MoveByte(c: nat)
      requires Valid() && (c == 8 || c == 9 || c == 13)
      modifies fb`cursorX, fb`cursorY
      ensures Valid()
      ensures var t := old(fb.View());
              Now() == old(Now()).(t := if c == 9 then Tab(t, 8) else Column(t, if c == 8 then Less(CursorX(t), 1) else 0))
    {
      hide Framebuffer.CacheOk, Framebuffer.PaintedApart, StyleOk, ValuesOk, FlagsOk, Ascending;
      var x, y := fb.GetCursorPos();
      if c == 8 {
        fb.SetCursorPos(Less(x, 1), y);
      } else if c == 13 {
        fb.SetCursorPos(0, y);
      } else if x / tabSize + 1 >= fb.cols {
        fb.SetCursorPos(fb.cols - 1, y);
      } else {
        fb.SetCursorPos((x / tabSize + 1) * tabSize, y);
      }
    }

    /** A byte outside any sequence. */
    method PlainByte(c: nat)
      requires Valid() && fb.scrollEnabled
      modifies `style, `escapeOffset, `escape, fb`queueLen, fb`shown, fb`cursorX, fb`cursorY, fb.queue, fb.map_
      ensures Valid() && Now() == Plain(tables, old(Now()), c)
    {
      hide Framebuffer.CacheOk, Framebuffer.PaintedApart, StyleOk, ValuesOk, FlagsOk, TablesOk, TermOk, Sized,
           Show, Glyph, LineFeed, Tab, Column, WithCharset, Escaping, CursorX;
      if c == 0 || c == 0x7F || c == 7 {
        return;
      }
      if c == ESCAPE {
        StartEscape();
      } else if c == 8 || c == 9 || c == 13 {
        MoveByte(c);
      } else if 10 <= c <= 12 {
        FeedLine(onlcr);
      } else if c == 14 {
        SetCharset(1);
      } else if c == 15 {
        SetCharset(0);
      } else {
        ShowByte(c);
      }
    }

    /** A byte that does not continue a UTF-8 sequence. */
    method FreshByte(c: nat)
      requires Valid() && fb.scrollEnabled && c < 256
      modifies this, values, charsets
      modifies fb`queueLen, fb`shown, fb`cursorX, fb`cursorY, fb`cursorEnabled, fb`scrollEnabled, fb`scrollTop, fb`scrollBottom
      modifies fb`savedFg, fb`savedBg, fb`savedX, fb`savedY, fb`textFg, fb`textBg, fb.queue, fb.map_
      ensures Valid() && Now() == Fresh(tables, old(Now()), c)
    {
      hide Framebuffer.CacheOk, Framebuffer.PaintedApart, ParserOk, TermOk, Sized, Escape, Plain, Lead, Designate;
      if 0xC0 <= c <= 0xF7 {
        StartCodePoint(c);
      } else if escape {
        ParseEscape(c as char);
      } else if gSelect > 0 {
        DesignateCharset(c as char);
      } else {
        PlainByte(c);
      }
    }

    /** `flanterm_putchar` */
    method Putchar(c: nat)
      requires Valid() && fb.scrollEnabled && c < 256
      modifies this, values, charsets
      modifies fb`queueLen, fb`shown, fb`cursorX, fb`cursorY, fb`cursorEnabled, fb`scrollEnabled, fb`scrollTop, fb`scrollBottom
      modifies fb`savedFg, fb`savedBg, fb`savedX, fb`savedY, fb`textFg, fb`textBg, fb.queue, fb.map_
      ensures Valid() && fb.scrollEnabled && Now() == PutChar(tables, old(Now()), c)
    {
      hide Framebuffer.CacheOk, Framebuffer.PaintedApart, ParserOk, TermOk, Sized, Fresh, Continue, Abort, Resync;
      if discardNext || c == 0x18 || c == 0x1A {
        AbortSequences();
        return;
      }
      if remaining != 0 {
        if c / 0x40 == 2 {
          ContinueCodePoint(c);
          return;
        }
        ForgetCodePoint();
      }
      FreshByte(c);
    }

    // --- Output --------------------------------------------------------------------------------

    /** Between bytes: valid, and scrolling is on. */
    ghost predicate Ready()
      reads this, values, charsets, fb, fb.grid, fb.queue, fb.map_, fb.painted
    {
      Valid() && fb.scrollEnabled
    }

    /** `flanterm_write`: all the bytes, then a flush. */
    method Write(bytes: seq<nat>)
      requires Ready() && Bytes(bytes)
      modifies this, values, charsets, fb, fb.grid, fb.queue, fb.map_, fb.painted
      ensures Ready() && fb.Flushed() && Now() == Feed(tables, old(Now()), bytes)
    {
      hide Framebuffer.CacheOk, Framebuffer.PaintedApart, Framebuffer.PaintedOk, ParserOk, TermOk, Sized, PutChar;
      WriteBytes(bytes);
      if autoflush {
        fb.Flush();
      }
    }

    method WriteBytes(bytes: seq<nat>)
      requires Ready() && Bytes(bytes)
      modifies this, values, charsets
      modifies fb`queueLen, fb`shown, fb`cursorX, fb`cursorY, fb`cursorEnabled, fb`scrollEnabled, fb`scrollTop, fb`scrollBottom
      modifies fb`savedFg, fb`savedBg, fb`savedX, fb`savedY, fb`textFg, fb`textBg, fb.queue, fb.map_
      ensures Ready() && autoflush && Now() == Feed(tables, old(Now()), bytes)
    {
      hide Framebuffer.CacheOk, Framebuffer.PaintedApart, TermOk, Sized, PutChar, StyleOk, ValuesOk, FlagsOk, Ascending;
      ghost var s := Now();
      for i := 0 to |bytes|
        invariant Ready() && Feed(tables, Now(), bytes[i..]) == Feed(tables, s, bytes)
      {
        assert bytes[i..][0] == bytes[i] && bytes[i..][1..] == bytes[i + 1..];
        Putchar(bytes[i]);
      }
    }

    /** Any number of writes, one after the other. */
    method WriteAll(chunks: seq<seq<nat>>)
      requires Ready() && forall i :: 0 <= i < |chunks| ==> Bytes(chunks[i])
      modifies this, values, charsets, fb, fb.grid, fb.queue, fb.map_, fb.painted
      ensures Ready() && Bytes(Flat(chunks)) && Now() == Feed(tables, old(Now()), Flat(chunks))
      ensures |chunks| > 0 || old(fb.Flushed()) ==> fb.Flushed()
    {
      hide Framebuffer.CacheOk, Framebuffer.PaintedApart, Framebuffer.PaintedOk, ParserOk, TermOk, Sized, Ascending, Feed;
      FlatBytes(chunks);
      ghost var s := Now();
      for i := 0 to |chunks|
        invariant Ready() && Bytes(Flat(chunks[i..]))
        invariant Feed(tables, Now(), Flat(chunks[i..])) == Feed(tables, s, Flat(chunks))
        invariant i > 0 || old(fb.Flushed()) ==> fb.Flushed()
      {
        assert chunks[i..][0] == chunks[i] && chunks[i..][1..] == chunks[i + 1..];
        FlatBytes(chunks[i + 1..]);
        Facts();
        FeedConcat(tables, Now(), chunks[i], Flat(chunks[i + 1..]));
        Write(chunks[i]);
      }
      FeedNothing(tables, Now());
    }
  }

  lemma FeedNothing(tb: Tables, s: State)
    requires Ok(s) && |tb.col256| == 240
    ensures Feed(tb, s, []) == s
  {}

  /** What is painted after a flush is determined by the screen. */
  lemma PaintedAgree(a: Terminal, b: Terminal)
    requires a.fb.Flushed() && b.fb.Flushed() && a.fb.View() == b.fb.View()
    ensures a.fb.painted[..] == b.fb.painted[..] && a.fb.grid[..] == b.fb.grid[..]
  {
    assert |a.fb.painted[..]| == |a.fb.shown| == |b.fb.painted[..]|;
  }

  /** Set up a terminal and write to it. */
  method Session(columns: nat, lines: nat, colours: Palette, tbl: Tables, chunks: seq<seq<nat>>) returns (a: Terminal)
    requires 0 < columns < 0x8000_0000 && 0 < lines < 0x8000_0000 && PaletteOk(colours) && TablesOk(tbl)
    requires forall i :: 0 <= i < |chunks| ==> Bytes(chunks[i])
    ensures a.Ready() && a.fb.Flushed()
    ensures fresh(a) && fresh(a.values) && fresh(a.charsets) && fresh(a.fb)
    ensures fresh(a.fb.grid) && fresh(a.fb.queue) && fresh(a.fb.map_) && fresh(a.fb.painted)
    ensures Ok(Start(columns, lines, colours)) && Bytes(Flat(chunks))
    ensures a.Now() == Feed(tbl, Start(columns, lines, colours), Flat(chunks))
  {
    hide Framebuffer.CacheOk, Framebuffer.PaintedApart, Framebuffer.PaintedOk, ParserOk, TermOk, Sized, Ascending, Feed;
    a := new Terminal(columns, lines, colours, tbl);
    a.WriteAll(chunks);
  }

  /** Two terminals of the same kind that are written the same bytes, split into writes in
      different ways, end in the same state and show the same picture. */
  method SplitDoesNotMatter(columns: nat, lines: nat, colours: Palette, tbl: Tables, xs: seq<seq<nat>>, ys: seq<seq<nat>>)
    returns (a: Terminal, b: Terminal)
    requires 0 < columns < 0x8000_0000 && 0 < lines < 0x8000_0000 && PaletteOk(colours) && TablesOk(tbl)
    requires forall i :: 0 <= i < |xs| ==> Bytes(xs[i])
    requires forall i :: 0 <= i < |ys| ==> Bytes(ys[i])
    requires Flat(xs) == Flat(ys)
    ensures a.Now() == b.Now() && a.fb.painted[..] == b.fb.painted[..] && a.fb.grid[..] == b.fb.grid[..]
  {
    hide Framebuffer.PaintedOk, Ok, TablesOk, PaletteOk, Feed, Start, Flat;
    a := Session(columns, lines, colours, tbl, xs);
    b := Session(columns, lines, colours, tbl, ys);
    PaintedAgree(a, b);
  }

  lemma ScrollSame(t: Term)
    requires TermOk(t)
    ensures WithScroll(t, t.scrollOn) == t
  {}
}
