/** UTF-8 through the terminal's decoder (kernel/src/flanterm/flanterm.c), against the encoding of
    RFC 3629 section 3. */
module Utf8 {
  import opened Bits
  import opened Screen
  import opened Parser

  /** A Unicode scalar value outside ASCII. */
  predicate Scalar(u: nat) {
    0x80 <= u <= 0x10FFFF && !(0xD800 <= u <= 0xDFFF)
  }

  /** The octet sequence of a scalar value: a lead octet and continuation octets of six bits each. */
  function Encode(u: nat): (r: seq<nat>)
    requires Scalar(u)
  {
    if u < 0x800 then [0xC0 + u / 0x40, 0x80 + u % 0x40]
    else if u < 0x1_0000 then [0xE0 + u / 0x1000, 0x80 + u / 0x40 % 0x40, 0x80 + u % 0x40]
    else [0xF0 + u / 0x4_0000, 0x80 + u / 0x1000 % 0x40, 0x80 + u / 0x40 % 0x40, 0x80 + u % 0x40]
  }

  lemma EncodedBytes(u: nat)
    requires Scalar(u)
    ensures Bytes(Encode(u)) && 0xC0 <= Encode(u)[0] <= 0xF7
    ensures forall i :: 1 <= i < |Encode(u)| ==> Encode(u)[i] / 0x40 == 2
  {}

  function EncodeAll(us: seq<nat>): (r: seq<nat>)
    requires forall i :: 0 <= i < |us| ==> Scalar(us[i])
    ensures Bytes(r)
  {
    if us == [] then [] else
      EncodedBytes(us[0]);
      Encode(us[0]) + EncodeAll(us[1..])
  }

  function PrintAll(tb: Tables, t: Term, us: seq<nat>): (t': Term)
    requires TermOk(t)
    ensures TermOk(t') && t'.scrollOn == t.scrollOn
    decreases |us|
  {
    hide Print, TermOk;
    if us == [] then t else PrintAll(tb, Print(tb, t, us[0]), us[1..])
  }

  /** `|` adds when the right operand fits below the left one. */
  lemma {:induction false} OrAdds(a: nat, b: nat, k: nat)
    requires b < Pow2(k)
    ensures Or(a * Pow2(k), b) == a * Pow2(k) + b
    decreases k
  {
    var x := a * Pow2(k);
    if k == 0 {
      OrZero(x);
    } else {
      var h := a * Pow2(k - 1);
      assert x == 2 * h;
      OrBit(x, b);
      OrAdds(a, b / 2, k - 1);
    }
  }

  lemma SixBits(a: nat, b: nat)
    ensures b < 0x40 ==> Or(a * 0x40, b) == a * 0x40 + b
    ensures b < 0x1000 ==> Or(a * 0x1000, b) == a * 0x1000 + b
    ensures b < 0x4_0000 ==> Or(a * 0x4_0000, b) == a * 0x4_0000 + b
  {
    assert Pow2(6) == 0x40;
    assert Pow2(12) == 0x1000 by { PowSum(6, 6); }
    assert Pow2(18) == 0x4_0000 by { PowSum(12, 6); }
    if b < 0x40 { OrAdds(a, b, 6); }
    if b < 0x1000 { OrAdds(a, b, 12); }
    if b < 0x4_0000 { OrAdds(a, b, 18); }
  }

  /** The leading bits of `u`, all but the `k` lowest groups of six, in place. */
  function Top(u: nat, k: nat): nat
    requires k <= 3
  {
    if k == 0 then u else if k == 1 then u / 0x40 * 0x40 else if k == 2 then u / 0x1000 * 0x1000 else u / 0x4_0000 * 0x4_0000
  }

  /** The `k`-th group of six bits from the right. */
  function Group(u: nat, k: nat): nat
    requires k < 3
  {
    if k == 0 then u % 0x40 else if k == 1 then u / 0x40 % 0x40 else u / 0x1000 % 0x40
  }

  lemma Divides(u: nat)
    ensures u / 0x1000 == u / 0x40 / 0x40 && u / 0x4_0000 == u / 0x1000 / 0x40
  {
    var c := u / 0x40;
    var b := u / 0x1000;
    QuotientIs(u, 0x1000, c / 0x40, c % 0x40 * 0x40 + u % 0x40);
    QuotientIs(u, 0x4_0000, b / 0x40, b % 0x40 * 0x1000 + u % 0x1000);
  }

  /** Adding one group of six bits. */
  lemma Joins(u: nat, k: nat)
    requires k < 3
    ensures Or(Top(u, k + 1), Sextet(Group(u, k), k)) == Top(u, k)
  {
    Divides(u);
    hide Or;
    var c := u / 0x40;
    var b := u / 0x1000;
    var g := Group(u, k);
    if k == 0 {
      SixBits(c, g);
    } else if k == 1 {
      assert Sextet(g, 1) == g * 0x40;
      SixBits(b, g * 0x40);
    } else {
      assert Sextet(g, 1) == g * 0x40;
      assert Sextet(g, 2) == Sextet(g, 1) * 0x40;
      SixBits(u / 0x4_0000, g * 0x1000);
    }
  }

  /** The lead octet tells the length and carries the top bits. */
  lemma EncodedLead(u: nat)
    requires Scalar(u)
    ensures var c, n := Encode(u)[0], |Encode(u)| - 1;
            && 1 <= n <= 3 && 0xC0 <= c <= 0xF7
            && (n == 1 ==> c <= 0xDF && (c % 0x20) * 0x40 == Top(u, 1))
            && (n == 2 ==> 0xE0 <= c <= 0xEF && (c % 0x10) * 0x1000 == Top(u, 2))
            && (n == 3 ==> 0xF0 <= c && (c % 8) * 0x4_0000 == Top(u, 3))
  {
    if u < 0x800 {
      assert (0xC0 + u / 0x40) % 0x20 == u / 0x40;
    } else if u < 0x1_0000 {
      assert (0xE0 + u / 0x1000) % 0x10 == u / 0x1000;
    } else {
      assert (0xF0 + u / 0x4_0000) % 8 == u / 0x4_0000;
    }
  }

  lemma EncodedTail(u: nat, i: nat)
    requires Scalar(u) && 1 <= i < |Encode(u)|
    ensures |Encode(u)| <= 4
    ensures 0x80 <= Encode(u)[i] < 0xC0 && Encode(u)[i] % 0x40 == Group(u, |Encode(u)| - 1 - i)
  {
    if u < 0x800 {
    } else if u < 0x1_0000 {
    } else {
      assert i == 1 || i == 2 || i == 3;
    }
  }

  /** The parser with `more` continuation bytes to come and the code point read so far. */
  function Reading(s: State, more: nat, bits: nat): (s': State)
    requires Ok(s) && more <= 3
    ensures Ok(s') && s'.p.remaining == more && s'.p.codePoint == bits && s'.p.discardNext == s.p.discardNext
    ensures s'.t == s.t
  {
    s.(p := WithCodePoint(s.p, more, bits))
  }

  lemma ReadLead(tb: Tables, s: State, u: nat)
    requires Ok(s) && |tb.col256| == 240 && s.p.remaining == 0 && !s.p.discardNext && Scalar(u)
    ensures var n := |Encode(u)| - 1;
            1 <= n <= 3 && Encode(u)[0] < 256 && PutChar(tb, s, Encode(u)[0]) == Reading(s, n, Top(u, n))
  {
    EncodedLead(u);
    hide ParserOk, TermOk, WithCodePoint, Encode, Top;
  }

  /** A continuation byte adds its six bits; the last one prints. */
  lemma ReadNext(tb: Tables, s: State, u: nat, i: nat)
    requires Ok(s) && |tb.col256| == 240 && !s.p.discardNext && Scalar(u) && 1 <= i < |Encode(u)|
    ensures |Encode(u)| <= 4 && Encode(u)[i] < 256
    ensures var more := |Encode(u)| - i;
            PutChar(tb, Reading(s, more, Top(u, more)), Encode(u)[i])
            == if more > 1 then Reading(s, more - 1, Top(u, more - 1)) else Reading(s, 0, u).(t := Print(tb, s.t, u))
  {
    EncodedTail(u, i);
    var more := |Encode(u)| - i;
    Joins(u, more - 1);
    hide Ok, PutChar, Reading, Print, Encode, Group, Top, Sextet, Or;
    ReadBits(tb, s, Encode(u)[i], more, Top(u, more));
  }

  lemma ReadBits(tb: Tables, s: State, c: nat, more: nat, bits: nat)
    requires Ok(s) && |tb.col256| == 240 && !s.p.discardNext && 1 <= more <= 3 && 0x80 <= c < 0xC0
    ensures var bits' := Or(bits, Sextet(c % 0x40, more - 1));
            PutChar(tb, Reading(s, more, bits), c)
            == if more > 1 then Reading(s, more - 1, bits') else Reading(s, 0, bits').(t := Print(tb, s.t, bits'))
  {
    hide ParserOk, TermOk, Print;
  }

  /** After `n` octets of an encoded value, but not all of them, nothing has been printed. */
  lemma {:induction false} PrefixRead(tb: Tables, s: State, u: nat, n: nat)
    requires Ok(s) && |tb.col256| == 240 && s.p.remaining == 0 && !s.p.discardNext && Scalar(u)
    requires 0 < n < |Encode(u)|
    ensures Bytes(Encode(u)[..n]) && |Encode(u)| - n <= 3
    ensures Feed(tb, s, Encode(u)[..n]) == Reading(s, |Encode(u)| - n, Top(u, |Encode(u)| - n))
  {
    hide PutChar, Ok, Reading, Encode, Top, Scalar, Feed, Bytes;
    EncodedPrefix(u, n);
    if n == 1 {
      ReadLead(tb, s, u);
      FeedOnly(tb, s, Encode(u)[..1]);
    } else {
      PrefixRead(tb, s, u, n - 1);
      PrefixMore(tb, s, u, n);
    }
  }

  lemma EncodedPrefix(u: nat, n: nat)
    requires Scalar(u) && n <= |Encode(u)|
    ensures Bytes(Encode(u)[..n]) && |Encode(u)| <= 4
  {
    EncodedBytes(u);
  }

  lemma PrefixMore(tb: Tables, s: State, u: nat, n: nat)
    requires Ok(s) && |tb.col256| == 240 && !s.p.discardNext && Scalar(u) && 1 < n < |Encode(u)| <= 4
    requires Bytes(Encode(u)[..n - 1]) && Bytes(Encode(u)[..n])
    requires Feed(tb, s, Encode(u)[..n - 1]) == Reading(s, |Encode(u)| - (n - 1), Top(u, |Encode(u)| - (n - 1)))
    ensures Feed(tb, s, Encode(u)[..n]) == Reading(s, |Encode(u)| - n, Top(u, |Encode(u)| - n))
  {
    hide PutChar, Ok, Reading, Encode, Top, Scalar, Feed, Bytes;
    var e := Encode(u);
    ReadNext(tb, s, u, n - 1);
    FeedLast(tb, s, e[..n - 1], e[n - 1]);
    assert e[..n - 1] + [e[n - 1]] == e[..n];
  }

  lemma FeedOnly(tb: Tables, s: State, e: seq<nat>)
    requires Ok(s) && |tb.col256| == 240 && Bytes(e) && |e| == 1
    ensures Feed(tb, s, e) == PutChar(tb, s, e[0])
  {
    hide PutChar, Ok;
    FeedOne(tb, s, e);
  }

  lemma FeedLast(tb: Tables, s: State, bytes: seq<nat>, c: nat)
    requires Ok(s) && |tb.col256| == 240 && Bytes(bytes) && c < 256
    ensures Feed(tb, s, bytes + [c]) == PutChar(tb, Feed(tb, s, bytes), c)
  {
    hide PutChar, Ok;
    FeedConcat(tb, s, bytes, [c]);
    FeedOne(tb, Feed(tb, s, bytes), [c]);
  }

  lemma FeedOne(tb: Tables, s: State, bytes: seq<nat>)
    requires Ok(s) && |tb.col256| == 240 && Bytes(bytes) && bytes != []
    ensures Feed(tb, s, bytes) == Feed(tb, PutChar(tb, s, bytes[0]), bytes[1..])
  {
    hide Ok, PutChar;
  }

  /** The decoder reconstructs every non-ASCII scalar value, prints it and is ready for the next one. */
  lemma Decodes(tb: Tables, s: State, u: nat)
    requires Ok(s) && |tb.col256| == 240 && s.p.remaining == 0 && !s.p.discardNext && Scalar(u)
    ensures Bytes(Encode(u)) && Ok(Reading(s, 0, u).(t := Print(tb, s.t, u)))
    ensures Feed(tb, s, Encode(u)) == Reading(s, 0, u).(t := Print(tb, s.t, u))
  {
    EncodedBytes(u);
    EncodedLead(u);
    PrintKeeps(tb, s, u);
    var e, n := Encode(u), |Encode(u)| - 1;
    PrefixRead(tb, s, u, n);
    ReadNext(tb, s, u, n);
    hide PutChar, Ok, Print, Reading, Encode, Top;
    FeedLast(tb, s, e[..n], e[n]);
    assert e[..n] + [e[n]] == e;
  }

  lemma PrintKeeps(tb: Tables, s: State, u: nat)
    requires Ok(s)
    ensures Ok(Reading(s, 0, u).(t := Print(tb, s.t, u)))
  {
    hide ParserOk, TermOk, Print;
  }

  /** A whole text: each scalar value is printed in turn, whatever escape sequence is open, and
      nothing else about the parser changes. */
  lemma {:induction false} DecodesAll(tb: Tables, s: State, us: seq<nat>)
    requires Ok(s) && |tb.col256| == 240 && s.p.remaining == 0 && !s.p.discardNext
    requires forall i :: 0 <= i < |us| ==> Scalar(us[i])
    ensures Feed(tb, s, EncodeAll(us))
            == State(if us == [] then s.p else Reading(s, 0, us[|us| - 1]).p, PrintAll(tb, s.t, us))
    decreases |us|
  {
    hide PutChar, Ok, Print, TermOk, ParserOk;
    if us == [] {
      assert EncodeAll(us) == [];
    } else {
      EncodedBytes(us[0]);
      Decodes(tb, s, us[0]);
      FeedConcat(tb, s, Encode(us[0]), EncodeAll(us[1..]));
      OkTerm(s);
      var s1 := Reading(s, 0, us[0]).(t := Print(tb, s.t, us[0]));
      DecodesAll(tb, s1, us[1..]);
    }
  }

  /** A sequence cut short by a byte that is not a continuation is dropped: the byte is handled as
      if it came first, and what follows is decoded as usual. */
  lemma Resynchronises(tb: Tables, s: State, c: nat, rest: seq<nat>)
    requires Ok(s) && |tb.col256| == 240 && s.p.remaining > 0 && !s.p.discardNext
    requires c < 256 && c / 0x40 != 2 && c != 0x18 && c != 0x1A && Bytes(rest)
    ensures Feed(tb, s, [c] + rest) == Feed(tb, s.(p := Resync(s.p)), [c] + rest)
  {
    hide ParserOk, TermOk, Fresh;
    FeedOne(tb, s, [c] + rest);
    FeedOne(tb, s.(p := Resync(s.p)), [c] + rest);
  }

  /** A scalar value after a truncated one: only the second is printed. */
  lemma TruncatedIsDropped(tb: Tables, s: State, u: nat, n: nat, v: nat)
    requires Ok(s) && |tb.col256| == 240 && s.p.remaining == 0 && !s.p.discardNext && Scalar(u) && Scalar(v)
    requires 0 < n < |Encode(u)|
    ensures Bytes(Encode(u)[..n]) && Bytes(Encode(v)) && Ok(Reading(s, 0, v).(t := Print(tb, s.t, v)))
    ensures Feed(tb, s, Encode(u)[..n] + Encode(v)) == Reading(s, 0, v).(t := Print(tb, s.t, v))
  {
    hide PutChar, Ok, Print, Encode, Reading, Top, Scalar, Bytes, Resync;
    PrintKeeps(tb, s, v);
    EncodedPrefix(v, |Encode(v)|);
    assert Encode(v)[..|Encode(v)|] == Encode(v);
    PrefixRead(tb, s, u, n);
    var more := |Encode(u)| - n;
    var s1 := Reading(s, more, Top(u, more));
    ResyncReading(s, more, Top(u, more), v);
    FeedConcat(tb, s, Encode(u)[..n], Encode(v));
    DroppedThen(tb, s1, v);
  }

  /** A truncated value before another one. */
  lemma DroppedThen(tb: Tables, s: State, v: nat)
    requires Ok(s) && |tb.col256| == 240 && s.p.remaining > 0 && !s.p.discardNext && Scalar(v)
    ensures Bytes(Encode(v)) && Ok(s.(p := Resync(s.p)))
    ensures Feed(tb, s, Encode(v)) == Feed(tb, s.(p := Resync(s.p)), Encode(v))
    ensures Resync(s.p).remaining == 0 && Resync(s.p).discardNext == s.p.discardNext
    ensures Ok(Reading(s.(p := Resync(s.p)), 0, v).(t := Print(tb, s.t, v)))
    ensures Feed(tb, s.(p := Resync(s.p)), Encode(v)) == Reading(s.(p := Resync(s.p)), 0, v).(t := Print(tb, s.t, v))
  {
    EncodedBytes(v);
    EncodedLead(v);
    ResyncOk(s);
    hide PutChar, Ok, Print, Encode, Reading, Scalar;
    assert [Encode(v)[0]] + Encode(v)[1..] == Encode(v);
    Resynchronises(tb, s, Encode(v)[0], Encode(v)[1..]);
    Decodes(tb, s.(p := Resync(s.p)), v);
  }

  lemma ResyncOk(s: State)
    requires Ok(s)
    ensures Ok(s.(p := Resync(s.p))) && Resync(s.p).remaining == 0 && Resync(s.p).discardNext == s.p.discardNext
  {}

  lemma ResyncReading(s: State, more: nat, bits: nat, v: nat)
    requires Ok(s) && more <= 3
    ensures var s1 := Reading(s, more, bits);
            && Ok(s1) && s1.p.remaining == more && s1.p.discardNext == s.p.discardNext && s1.t == s.t
            && Ok(s1.(p := Resync(s1.p))) && Reading(s1.(p := Resync(s1.p)), 0, v) == Reading(s, 0, v)
            && Resync(s1.p).discardNext == s.p.discardNext
  {}

  lemma OkTerm(s: State)
    requires Ok(s)
    ensures TermOk(s.t)
  {}
}
