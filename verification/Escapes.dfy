/** Escape sequences, operating-system commands and decoded characters (kernel/src/flanterm/flanterm.c), from
    their bytes to cells, cursor and modes. */
module Escapes {
  import opened Bits
  import opened Screen
  import opened Parser
  import opened Sequences
  import opened Editing
  import opened Controls
  import Utf8

  // --- Saving and restoring --------------------------------------------------------------------

  /** ESC 7 stores colours, cursor and attributes. */
  lemma StoreBytes(tb: Tables, s: State)
    requires Ok(s) && |tb.col256| == 240 && Ground(s.p)
    ensures Bytes([0x1B, 0x37])
    ensures var t, s' := s.t, Feed(tb, s, [0x1B, 0x37]);
            && s'.t == t.(savedFg := t.fg, savedBg := t.bg, savedX := t.x, savedY := t.y)
            && Aside(s.p.(savedStyle := s.p.style), s'.p)
  {
    EscapeByte(tb, s, 0x37);
    hide TermOk, StyleOk, Feed;
  }

  /** ESC 8 brings them back. */
  lemma RecallBytes(tb: Tables, s: State)
    requires Ok(s) && |tb.col256| == 240 && Ground(s.p)
    ensures Bytes([0x1B, 0x38])
    ensures var t, s' := s.t, Feed(tb, s, [0x1B, 0x38]);
            && s'.t == t.(fg := t.savedFg, bg := t.savedBg, x := t.savedX, y := t.savedY)
            && Aside(s.p.(style := s.p.savedStyle), s'.p)
  {
    EscapeByte(tb, s, 0x38);
    hide TermOk, StyleOk, Feed;
  }

  /** What ESC 7 has stored is as it was. */
  ghost predicate KeepsStore(s: State, s': State) {
    && s'.p.savedStyle == s.p.savedStyle && s'.t.savedFg == s.t.savedFg && s'.t.savedBg == s.t.savedBg
    && s'.t.savedX == s.t.savedX && s'.t.savedY == s.t.savedY
  }

  /** Outside escape sequences, possibly inside a UTF-8 one or about to select a character set. */
  predicate Open(p: Parser) {
    !p.escape && !p.discardNext && !p.decPrivate
  }

  lemma ShowSame(t: Term, insert: bool, g: nat)
    requires TermOk(t)
    ensures Same(t, Show(t, insert, g))
  {
    TermFacts(t);
    hide PutN, ShiftRight, CursorX, CursorY;
  }

  lemma MoveSame(t: Term, size: nat, x: nat, home: bool)
    requires TermOk(t) && size > 0
    ensures Same(t, Tab(t, size)) && Same(t, Column(t, x)) && Same(t, LineFeed(t, home))
  {
    hide NextLine;
  }

  lemma PlainKeeps(tb: Tables, s: State, c: nat)
    requires Ok(s) && Open(s.p) && c < 256 && c != 0x1B
    ensures KeepsStore(s, Plain(tb, s, c)) && Open(Plain(tb, s, c).p)
  {
    ShowSame(s.t, s.p.insertMode, Glyph(tb, s.p, c));
    TermFacts(s.t);
    var x := CursorX(s.t);
    assert s.p.tabSize == 8;
    MoveSame(s.t, 8, if c == 8 then Less(x, 1) else 0, s.p.onlcr);
    hide TermOk, StyleOk, ValuesOk, FlagsOk, Glyph, CursorX, CursorY, Show, Tab, Column, LineFeed, Less;
  }

  lemma PrintSame(tb: Tables, t: Term, u: nat)
    requires TermOk(t)
    ensures Same(t, Print(tb, t, u))
  {
    hide PutN, Width;
  }

  lemma FreshKeeps(tb: Tables, s: State, c: nat)
    requires Ok(s) && |tb.col256| == 240 && Open(s.p) && c < 256 && c != 0x1B
    ensures KeepsStore(s, Fresh(tb, s, c)) && Open(Fresh(tb, s, c).p)
  {
    PlainKeeps(tb, s, c);
    hide TermOk, StyleOk, ValuesOk, FlagsOk, Plain;
  }

  lemma ContinueKeeps(tb: Tables, s: State, c: nat)
    requires Ok(s) && Open(s.p) && s.p.remaining > 0
    ensures KeepsStore(s, Continue(tb, s, c)) && Open(Continue(tb, s, c).p)
  {
    PrintSame(tb, s.t, Continued(s.p, c).codePoint);
    hide TermOk, StyleOk, ValuesOk, FlagsOk, Print, Or, Sextet;
  }

  lemma ByteKeeps(tb: Tables, s: State, c: nat)
    requires Ok(s) && |tb.col256| == 240 && Open(s.p) && c < 256 && c != 0x1B
    ensures KeepsStore(s, PutChar(tb, s, c)) && Open(PutChar(tb, s, c).p)
  {
    var s0 := s.(p := Resync(s.p));
    hide TermOk, StyleOk, ValuesOk, FlagsOk, Fresh, Continue;
    FreshKeeps(tb, s, c);
    FreshKeeps(tb, s0, c);
    if s.p.remaining > 0 {
      ContinueKeeps(tb, s, c);
    }
  }

  /** No ESC among them. */
  predicate NoEscape(bs: seq<nat>) {
    forall i :: 0 <= i < |bs| ==> bs[i] != 0x1B
  }

  lemma {:induction false} TextKeeps(tb: Tables, s: State, bs: seq<nat>)
    requires Ok(s) && |tb.col256| == 240 && Open(s.p) && Bytes(bs) && NoEscape(bs)
    ensures KeepsStore(s, Feed(tb, s, bs)) && Open(Feed(tb, s, bs).p)
    decreases |bs|
  {
    hide PutChar, Ok, Open;
    if bs != [] {
      ByteKeeps(tb, s, bs[0]);
      TextKeeps(tb, PutChar(tb, s, bs[0]), bs[1..]);
    }
  }

  /** Whatever is written between ESC 7 and ESC 8, as long as no ESC is among it and it ends outside any
      sequence: the cursor, the colours, the attributes and the character set are back, and the cells are
      those that were written. */
  lemma StoreReturns(tb: Tables, s: State, bs: seq<nat>)
    requires Ok(s) && |tb.col256| == 240 && Ground(s.p) && Bytes(bs) && NoEscape(bs)
    ensures Bytes([0x1B, 0x37] + bs) && Bytes([0x1B, 0x37] + bs + [0x1B, 0x38])
    ensures var s1, s2 := Feed(tb, s, [0x1B, 0x37] + bs), Feed(tb, s, [0x1B, 0x37] + bs + [0x1B, 0x38]);
            Ground(s1.p) ==>
              && s2.t.screen == s1.t.screen && s2.p.style == s.p.style
              && s2.t.x == s.t.x && s2.t.y == s.t.y && s2.t.fg == s.t.fg && s2.t.bg == s.t.bg
  {
    hide Feed, Ok;
    StoreBytes(tb, s);
    var s0 := Feed(tb, s, [0x1B, 0x37]);
    TextKeeps(tb, s0, bs);
    FeedConcat(tb, s, [0x1B, 0x37], bs);
    var s1 := Feed(tb, s0, bs);
    FeedConcat(tb, s, [0x1B, 0x37] + bs, [0x1B, 0x38]);
    if Ground(s1.p) {
      RecallBytes(tb, s1);
    }
  }

  // --- Reset -----------------------------------------------------------------------------------

  /** ESC c: a blank screen, the cursor home and shown, all rows in the scroll region, and every mode as at
      power-up. The current colours stay, and so does what ESC 7 has stored. */
  lemma ResetBytes(tb: Tables, s: State)
    requires Ok(s) && |tb.col256| == 240 && Ground(s.p)
    ensures Bytes([0x1B, 0x63])
    ensures var t, s' := s.t, Feed(tb, s, [0x1B, 0x63]);
            var first := Start(t.cols, t.rows, t.palette);
            && s'.t == t.(screen := s'.t.screen, x := 0, y := 0, top := 0, bottom := t.rows, cursorOn := true)
            && |s'.t.screen| == t.rows * t.cols && (forall i :: 0 <= i < |s'.t.screen| ==> s'.t.screen[i] == Cell(0x20, t.fg, t.bg))
            && s'.p == first.p.(codePoint := s.p.codePoint, values := s.p.values, savedStyle := s.p.savedStyle)
  {
    EscapeByte(tb, s, 0x63);
    hide StyleOk, Feed;
  }

  /** So it is a restart of the screen if and only if the default colours are the current ones. */
  lemma ResetRestarts(tb: Tables, s: State)
    requires Ok(s) && |tb.col256| == 240 && Ground(s.p)
    ensures Bytes([0x1B, 0x63])
    ensures Feed(tb, s, [0x1B, 0x63]).t == Start(s.t.cols, s.t.rows, s.t.palette).t.(savedX := s.t.savedX, savedY := s.t.savedY,
              savedFg := s.t.savedFg, savedBg := s.t.savedBg)
            <==> s.t.fg == s.t.palette.fg && s.t.bg == NO_COLOUR
  {
    ResetBytes(tb, s);
    var t' := Feed(tb, s, [0x1B, 0x63]).t;
    hide Feed, Ok;
    assert t'.screen == Blanks(s.t.rows * s.t.cols, Cell(0x20, s.t.fg, s.t.bg));
  }

  // --- Character sets --------------------------------------------------------------------------

  /** Shift-out and shift-in choose between the two character sets. */
  lemma ShiftBytes(tb: Tables, s: State, c: nat)
    requires Ok(s) && |tb.col256| == 240 && Ground(s.p) && (c == 14 || c == 15)
    ensures Feed(tb, s, [c]) == s.(p := s.p.(style := s.p.style.(charset := if c == 14 then 1 else 0)))
  {
    PlainByte(tb, s, c);
    hide TermOk, Feed;
  }

  /** `ESC (` and `ESC )` with `B` make the first and the second of them plain, with `0` line drawing; anything
      else leaves it. */
  lemma CharsetBytes(tb: Tables, s: State, second: bool, c: nat)
    requires Ok(s) && |tb.col256| == 240 && Ground(s.p) && c < 0x80 && c != 0x18 && c != 0x1A
    ensures Bytes([0x1B, if second then 0x29 else 0x28, c])
    ensures var s', i := Feed(tb, s, [0x1B, if second then 0x29 else 0x28, c]), if second then 1 else 0;
            && s'.t == s.t && |s.p.charsets| == 2
            && Aside(s.p.(charsets := if c == 0x42 then s.p.charsets[i := 0] else if c == 0x30 then s.p.charsets[i := 1] else s.p.charsets), s'.p)
  {
    var a := if second then 0x29 else 0x28;
    SelectBytes(tb, s, second);
    var s1 := Feed(tb, s, [0x1B, a]);
    hide StyleOk, ValuesOk, TermOk, Feed, Counted, Escaping, PutChar;
    assert [0x1B, a, c] == [0x1B, a] + [c];
    FeedConcat(tb, s, [0x1B, a], [c]);
    FeedOne(tb, s1, c);
    DesignateByte(tb, s1, c);
  }

  lemma SelectBytes(tb: Tables, s: State, second: bool)
    requires Ok(s) && |tb.col256| == 240 && Ground(s.p)
    ensures Bytes([0x1B, if second then 0x29 else 0x28])
    ensures var s' := Feed(tb, s, [0x1B, if second then 0x29 else 0x28]);
            s'.t == s.t && s'.p == s.p.(escapeOffset := s'.p.escapeOffset, gSelect := if second then 2 else 1)
  {
    EscapeByte(tb, s, if second then 0x29 else 0x28);
    hide StyleOk, ValuesOk, TermOk, Feed;
  }

  lemma DesignateByte(tb: Tables, s: State, c: nat)
    requires Ok(s) && |tb.col256| == 240 && !s.p.escape && !s.p.discardNext && s.p.remaining == 0 && s.p.gSelect > 0
    requires c < 0x80 && c != 0x18 && c != 0x1A
    ensures PutChar(tb, s, c) == s.(p := Designate(s.p, c as char))
  {
    hide ParserOk, TermOk, Designate;
  }

  // --- Other sequences -------------------------------------------------------------------------

  /** Any other byte after ESC does nothing. */
  lemma OtherEscape(tb: Tables, s: State, c: nat)
    requires Ok(s) && |tb.col256| == 240 && Ground(s.p) && c < 0x80 && c != 0x18 && c != 0x1A
    requires c as char !in {']', '[', '7', '8', 'c', 'D', 'E', 'M', '(', ')'}
    ensures Bytes([0x1B, c])
    ensures var s' := Feed(tb, s, [0x1B, c]); s'.t == s.t && Aside(s.p, s'.p)
  {
    EscapeByte(tb, s, c);
    hide TermOk, StyleOk, ValuesOk, Feed;
  }

  /** A byte of an operating-system command that does not end it. */
  predicate OscByte(c: nat) {
    c < 0x80 && c != 7 && c != 0x18 && c != 0x1A && c != 0x1B
  }

  predicate OscBytes(bs: seq<nat>) {
    forall i :: 0 <= i < |bs| ==> OscByte(bs[i])
  }

  /** Inside an operating-system command. */
  predicate InOsc(p: Parser) {
    p.escape && p.osc && !p.controlSequence && !p.discardNext && p.remaining == 0 && p.gSelect == 0 && !p.decPrivate
  }

  lemma OscOpens(tb: Tables, s: State)
    requires Ok(s) && |tb.col256| == 240 && Ground(s.p)
    ensures Bytes([0x1B, 0x5D])
    ensures var s' := Feed(tb, s, [0x1B, 0x5D]);
            s'.t == s.t && InOsc(s'.p) && s'.p == s.p.(escape := true, osc := true, oscEscape := false, escapeOffset := s'.p.escapeOffset)
  {
    EscapeByte(tb, s, 0x5D);
    hide TermOk, StyleOk, ValuesOk, Feed;
  }

  lemma OscStep(tb: Tables, s: State, c: nat)
    requires Ok(s) && |tb.col256| == 240 && InOsc(s.p) && c < 0x80 && c != 0x18 && c != 0x1A
    ensures var s', ends := PutChar(tb, s, c), c == 7 || (c == 0x5C && s.p.oscEscape);
            && s'.t == s.t
            && s'.p == s.p.(escape := !ends, osc := !ends, oscEscape := c == 0x1B, escapeOffset := s'.p.escapeOffset)
  {
    hide TermOk, StyleOk, ValuesOk;
    assert PutChar(tb, s, c) == Escape(tb, s, c as char);
  }

  lemma {:induction false} OscText(tb: Tables, s: State, bs: seq<nat>)
    requires Ok(s) && |tb.col256| == 240 && InOsc(s.p) && !s.p.oscEscape && OscBytes(bs)
    ensures Bytes(bs)
    ensures var s' := Feed(tb, s, bs); s'.t == s.t && InOsc(s'.p) && s'.p == s.p.(escapeOffset := s'.p.escapeOffset)
    decreases |bs|
  {
    hide PutChar, Ok;
    if bs != [] {
      assert OscByte(bs[0]);
      OscStep(tb, s, bs[0]);
      assert forall i :: 0 <= i < |bs[1..]| ==> bs[1..][i] == bs[i + 1];
      OscText(tb, PutChar(tb, s, bs[0]), bs[1..]);
    }
  }

  /** BEL or `ESC \\` */
  function OscEnd(bel: bool): seq<nat> {
    if bel then [7] else [0x1B, 0x5C]
  }

  lemma OscEnds(tb: Tables, s: State, bel: bool)
    requires Ok(s) && |tb.col256| == 240 && InOsc(s.p) && !s.p.oscEscape
    ensures Bytes(OscEnd(bel))
    ensures var s' := Feed(tb, s, OscEnd(bel));
            s'.t == s.t && s'.p == s.p.(escape := false, osc := false, oscEscape := false, escapeOffset := s'.p.escapeOffset)
  {
    hide PutChar, Ok, Feed;
    if bel {
      OscStep(tb, s, 7);
      FeedOne(tb, s, 7);
    } else {
      OscStep(tb, s, 0x1B);
      OscStep(tb, PutChar(tb, s, 0x1B), 0x5C);
      FeedTwo(tb, s, 0x1B, 0x5C);
    }
  }

  /** An operating-system command in ASCII, up to BEL or `ESC \\`, does nothing. */
  lemma OscSequence(tb: Tables, s: State, bs: seq<nat>, bel: bool)
    requires Ok(s) && |tb.col256| == 240 && Ground(s.p) && OscBytes(bs)
    ensures Bytes([0x1B, 0x5D] + (bs + OscEnd(bel)))
    ensures var s' := Feed(tb, s, [0x1B, 0x5D] + (bs + OscEnd(bel)));
            s'.t == s.t && Aside(s.p.(osc := false, oscEscape := false), s'.p)
  {
    assert !s.p.controlSequence;
    hide Ok, Feed, OscEnd, OscBytes;
    OscOpens(tb, s);
    var s1 := Feed(tb, s, [0x1B, 0x5D]);
    OscText(tb, s1, bs);
    var s2 := Feed(tb, s1, bs);
    OscEnds(tb, s2, bel);
    FeedConcat(tb, s1, bs, OscEnd(bel));
    FeedConcat(tb, s, [0x1B, 0x5D], bs + OscEnd(bel));
  }

  /** `ESC [ [` throws the next byte away, whatever it is. */
  lemma DiscardBytes(tb: Tables, s: State, c: nat)
    requires Ok(s) && |tb.col256| == 240 && Ground(s.p) && c < 256
    ensures Bytes([0x1B, 0x5B] + [0x5B, c])
    ensures var s' := Feed(tb, s, [0x1B, 0x5B] + [0x5B, c]);
            s'.t == s.t && Ground(s'.p) && Aside(s.p.(osc := false, oscEscape := false), s'.p)
  {
    CsiOpens(tb, s);
    var s1 := Feed(tb, s, [0x1B, 0x5B]);
    CsiByte(tb, s1, 0x5B);
    hide TermOk, StyleOk, ValuesOk, Feed;
    FeedTwo(tb, s1, 0x5B, c);
    FeedConcat(tb, s, [0x1B, 0x5B], [0x5B, c]);
  }

  /** CAN and SUB end every sequence, in any state of the parser; only a pending `?` stays. */
  lemma AbortBytes(tb: Tables, s: State, c: nat)
    requires Ok(s) && |tb.col256| == 240 && (c == 0x18 || c == 0x1A)
    ensures var s' := Feed(tb, s, [c]);
            s'.t == s.t && s'.p.decPrivate == s.p.decPrivate && (Ground(s'.p) <==> !s.p.decPrivate)
            && !s'.p.controlSequence && !s'.p.osc
  {
    FeedOne(tb, s, c);
    hide TermOk, StyleOk, ValuesOk, Feed;
  }

  // --- Decoded characters ----------------------------------------------------------------------

  /** The code points that take two columns. */
  const WIDE: seq<Interval> := [
    Interval(0x1100, 0x115F), Interval(0x2329, 0x232A), Interval(0x2E80, 0x303E), Interval(0x3040, 0xA4CF),
    Interval(0xAC00, 0xD7A3), Interval(0xF900, 0xFAFF), Interval(0xFE10, 0xFE19), Interval(0xFE30, 0xFE6F),
    Interval(0xFF00, 0xFF60), Interval(0xFFE0, 0xFFE6), Interval(0x2_0000, 0x2_FFFD), Interval(0x3_0000, 0x3_FFFD)]

  lemma WideIs(u: nat)
    ensures Wide(u) <==> exists i :: 0 <= i < |WIDE| && WIDE[i].first <= u <= WIDE[i].last
  {
    if Wide(u) {
      var i := if u <= 0x115F then 0 else if u <= 0x232A then 1 else if u < 0x303F then 2 else if u <= 0xA4CF then 3
               else if u <= 0xD7A3 then 4 else if u <= 0xFAFF then 5 else if u <= 0xFE19 then 6 else if u <= 0xFE6F then 7
               else if u <= 0xFF60 then 8 else if u <= 0xFFE6 then 9 else if u <= 0x2_FFFD then 10 else 11;
      assert WIDE[i].first <= u <= WIDE[i].last;
    }
  }

  /** A mark that is drawn over the character before it. */
  predicate Combining(tb: Tables, u: nat) {
    u >= 0xA0 && InTable(u, tb.combining)
  }

  /** Columns of a code point outside ASCII. */
  lemma WidthIs(tb: Tables, u: nat)
    requires u >= 0x80
    ensures Width(tb, u) == if Combining(tb, u) then 0 else if u >= 0xA0 && Wide(u) then 2 else 1
  {
    hide InTable, Wide;
  }

  /** What is written for a character: its glyph, or the replacement, for a wide one with a blank behind it;
      for a combining one nothing. */
  function Written(tb: Tables, u: nat): seq<nat> {
    if tb.cp437(u) >= 0 then [tb.cp437(u)]
    else if Combining(tb, u) then []
    else if Wide(u) then [0xFE, 0x20]
    else [0xFE]
  }

  lemma WideIsHigh(u: nat)
    ensures Wide(u) ==> u >= 0xA0
  {}

  /** Each of them in turn. */
  function PutAll(t: Term, gs: seq<nat>): (t': Term)
    requires TermOk(t)
    ensures TermOk(t')
    decreases |gs|
  {
    hide TermOk, Same, PutN;
    if gs == [] then t else PutAll(PutN(t, gs[0], 1), gs[1..])
  }

  lemma PrintIs(tb: Tables, t: Term, u: nat)
    requires TermOk(t) && u >= 0x80
    ensures Print(tb, t, u) == PutAll(t, Written(tb, u))
  {
    WidthIs(tb, u);
    WideIsHigh(u);
    hide Width, Combining, Wide, TermOk;
    PutFew(t, REPLACEMENT, 0x20);
    if tb.cp437(u) >= 0 {
      PutFew(t, tb.cp437(u), 0x20);
    }
    PutNone(PutN(t, REPLACEMENT, 1));
    hide PutN, PutAll;
  }

  lemma PutNone(t: Term)
    requires TermOk(t)
    ensures PutN(t, SPACE, 0) == t && PutAll(t, []) == t
  {}

  lemma PutFew(t: Term, a: nat, b: nat)
    requires TermOk(t)
    ensures PutAll(t, []) == t && PutAll(t, [a]) == PutN(t, a, 1) && PutAll(t, [a, b]) == PutN(PutN(t, a, 1), b, 1)
  {
    hide PutN, TermOk;
    assert [a][1..] == [] && [a, b][1..] == [b] && [b][1..] == [];
    assert PutAll(PutN(t, a, 1), [b]) == PutAll(PutN(PutN(t, a, 1), b, 1), []);
    assert PutAll(PutN(t, a, 1), []) == PutN(t, a, 1);
  }

  /** Cell `(j, r)` after the glyphs `gs` have been written in the row of the cursor. */
  function WrittenCell(t: Term, gs: seq<nat>, j: nat, r: nat): Cell
    requires Sized(t) && j < t.cols && r < t.rows
  {
    if r == t.y && t.x <= j < t.x + |gs| then Cell(gs[j - t.x], t.fg, t.bg) else At(t, j, r)
  }

  lemma {:induction false} PutAllAt(t: Term, gs: seq<nat>, j: nat, r: nat)
    requires TermOk(t) && t.x + |gs| <= t.cols && j < t.cols && r < t.rows
    ensures var t' := PutAll(t, gs);
            RestSame(t, t') && t'.x == t.x + |gs| && t'.y == t.y && At(t', j, r) == WrittenCell(t, gs, j, r)
    decreases |gs|
  {
    hide At, PutN, Put;
    if gs != [] {
      var t1 := PutN(t, gs[0], 1);
      RawPutHere(t, gs[0]);
      PutOnly(t, Cell(gs[0], t.fg, t.bg), t.x, t.y, t.x + 1);
      PutAllAt(t1, gs[1..], j, r);
    }
  }

  /** A UTF-8 character from U+0080 on that fits in the row, in any sequence that is open. */
  lemma CharacterBytes(tb: Tables, s: State, u: nat, j: nat, r: nat)
    requires Ok(s) && |tb.col256| == 240 && s.p.remaining == 0 && !s.p.discardNext && Utf8.Scalar(u)
    requires s.t.x + |Written(tb, u)| <= s.t.cols && j < s.t.cols && r < s.t.rows
    ensures Bytes(Utf8.Encode(u))
    ensures var t, s', gs := s.t, Feed(tb, s, Utf8.Encode(u)), Written(tb, u);
            && s'.p == s.p.(codePoint := u) && RestSame(t, s'.t) && s'.t.x == t.x + |gs| && s'.t.y == t.y
            && At(s'.t, j, r) == WrittenCell(t, gs, j, r)
  {
    Utf8.Decodes(tb, s, u);
    PrintIs(tb, s.t, u);
    PutAllAt(s.t, Written(tb, u), j, r);
    hide Feed, TermOk, Utf8.Encode, Written, PutAll, Print, At, WrittenCell;
  }
}
