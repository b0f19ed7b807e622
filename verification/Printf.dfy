/** The printf engine (kernel/src/lib/nanoprintf.h): conversion of arguments, padding, and output
    into a bounded buffer. */
module Printf {
  import opened Bits
  import opened Format

  /** A variable argument: an integer, a C string or a pointer. */
  datatype Arg = Int(i: int) | Str(s: string) | Ptr(p: nat)

  // --- Arguments -------------------------------------------------------------------------------

  /** `va_arg` of an integer; reading past the arguments, or one of another kind, gives 0. */
  function NextInt(args: seq<Arg>): int {
    if args != [] && args[0].Int? then args[0].i else 0
  }

  function NextStr(args: seq<Arg>): string {
    if args != [] && args[0].Str? then args[0].s else ""
  }

  function NextPtr(args: seq<Arg>): nat {
    if args != [] && args[0].Ptr? then args[0].p % U64_SIZE else 0
  }

  function After(args: seq<Arg>): seq<Arg> {
    if args == [] then [] else args[1..]
  }

  /** The size of the values of a length modifier: 2 to this power. */
  function Range(l: Length): nat {
    match l
    case Char => 0x100
    case Short => 0x1_0000
    case Plain => 0x1_0000_0000
    case _ => U64_SIZE
  }

  function ToUnsigned(v: int, l: Length): (r: nat)
    ensures r < Range(l) <= U64_SIZE
  {
    v % Range(l)
  }

  function ToSigned(v: int, l: Length): (r: int)
    ensures -(U64_SIZE as int) <= 2 * r < U64_SIZE
  {
    var u := v % Range(l);
    if 2 * u < Range(l) then u else u - Range(l)
  }

  // --- Digits ----------------------------------------------------------------------------------

  function DigitChar(d: nat, upper: bool): char
    requires d < 16
  {
    if d < 10 then (48 + d) as char else ((if upper then 65 else 97) + (d - 10)) as char
  }

  /** The digits of `v`, least significant first, as the conversion buffer holds them. */
  function DigitsRev(v: nat, base: nat, upper: bool): (s: string)
    requires 2 <= base <= 16
    ensures |s| > 0
    decreases v
  {
    [DigitChar(v % base, upper)] + if v / base == 0 then "" else DigitsRev(v / base, base, upper)
  }

  /** C division truncates towards zero. */
  function CDiv(a: int, b: nat): int
    requires b > 0
  {
    if a >= 0 then a / b else -((-a) / b)
  }

  function CRem(a: int, b: nat): int
    requires b > 0
  {
    a - b * CDiv(a, b)
  }

  function Abs(v: int): nat {
    if v >= 0 then v else -v
  }

  lemma {:induction false} DigitsBound(v: nat, base: nat, upper: bool, k: nat)
    requires 2 <= base <= 16 && k > 0 && v < Power(base, k)
    ensures |DigitsRev(v, base, upper)| <= k
    decreases k
  {
    var q := v / base;
    assert Power(base, k) == base * Power(base, k - 1);
    QuotientBelow(v, base, Power(base, k - 1));
    assert Power(base, 0) == 1;
    hide Power;
    if q != 0 {
      DigitsBound(q, base, upper, k - 1);
    }
  }

  lemma QuotientBelow(v: nat, d: nat, p: nat)
    requires d > 0 && v < d * p
    ensures v / d < p
  {
    if v / d >= p {
      MulMono(d, p, v / d);
    }
  }

  function Power(b: nat, k: nat): nat {
    if k == 0 then 1 else b * Power(b, k - 1)
  }

  /** No 64-bit number has more than 22 digits in base 8 or higher. */
  lemma DigitsFit(v: nat, base: nat, upper: bool)
    requires 8 <= base <= 16 && v < U64_SIZE
    ensures |DigitsRev(v, base, upper)| <= 22
  {
    PowerMono(base, 22);
    EightTo22();
    DigitsBound(v, base, upper, 22);
  }

  lemma {:induction false} PowerMono(base: nat, k: nat)
    requires base >= 8
    ensures Power(8, k) <= Power(base, k)
  {
    if k > 0 {
      PowerMono(base, k - 1);
      MulMono(Power(base, k - 1), 8, base);
      MulMono(8, Power(8, k - 1), Power(base, k - 1));
    }
  }

  lemma EightTo22()
    ensures Power(8, 22) > U64_SIZE
  {
    assert Power(8, 5) == 0x8000;
    assert Power(8, 10) == 0x4000_0000;
    assert Power(8, 15) == 0x2000_0000_0000;
    assert Power(8, 20) == 0x1000_0000_0000_0000;
  }

  // --- Conversion ------------------------------------------------------------------------------

  /** A converted argument, before padding: sign or NUL, 'x', 'X' or NUL for a `0x` prefix, the
      characters, the precision to pad to, and whether it is a number equal to zero. */
  datatype Payload = Payload(sign: char, prefix: char, body: string, prec: int, zero: bool)

  function Reversed(s: string): (r: string)
    ensures |r| == |s| && forall i :: 0 <= i < |s| ==> r[i] == s[|s| - 1 - i]
  {
    if s == "" then "" else Reversed(s[1..]) + [s[0]]
  }

  /** The part of a string before its terminator, at most `limit` characters if there is a limit. */
  function Prefix(s: string, limited: bool, limit: int): (r: string)
    ensures r <= s
  {
    if s == "" || s[0] == NUL || (limited && limit <= 0) then ""
    else
      assert [s[0]] + s[1..] == s;
      [s[0]] + Prefix(s[1..], limited, limit - 1)
  }

  /** Zero with an explicit precision of zero has no digits. */
  predicate NoDigits(sp: Spec, v: int) {
    v == 0 && sp.precOpt == Literal && sp.prec == 0
  }

  function Base(c: Conversion): (b: nat)
    ensures 8 <= b <= 16
  {
    if c == Octal then 8 else if c == Hex then 16 else 10
  }

  function SignedPayload(sp: Spec, v: int): Payload {
    Payload(if v < 0 then '-' else sp.prepend, NUL, if NoDigits(sp, v) then "" else Reversed(DigitsRev(Abs(v), 10, false)),
            sp.prec, v == 0)
  }

  function UnsignedPayload(sp: Spec, v: nat): Payload {
    var rev := if NoDigits(sp, v) then "" else DigitsRev(v, Base(sp.conv), sp.upper);
    Payload(NUL, if v != 0 && sp.alt && sp.conv == Hex then (if sp.upper then 'X' else 'x') else NUL,
            Reversed(if v != 0 && sp.alt && sp.conv == Octal then rev + "0" else rev),
            if NoDigits(sp, v) && sp.conv == Octal && sp.alt then 1 else sp.prec, v == 0)
  }

  function Converted(sp: Spec, args: seq<Arg>): Payload {
    match sp.conv
    case Percent => Payload(NUL, NUL, "%", sp.prec, false)
    case Character => Payload(NUL, NUL, [(NextInt(args) % 0x100) as char], sp.prec, false)
    case Text => Payload(NUL, NUL, Prefix(NextStr(args), sp.precOpt != Absent, sp.prec), sp.prec, false)
    case Signed => SignedPayload(sp, ToSigned(NextInt(args), sp.length))
    case Pointer => Payload(NUL, 'x', Reversed(DigitsRev(NextPtr(args), 16, false)), sp.prec, false)
    case _ => UnsignedPayload(sp, ToUnsigned(NextInt(args), sp.length))
  }

  /** Star arguments: a negative width justifies left, a negative precision is absent. */
  function StarWidth(sp: Spec, args: seq<Arg>): Spec {
    if sp.widthOpt != Star then sp
    else if NextInt(args) < 0 then sp.(widthOpt := Literal, width := -NextInt(args), left := true)
    else sp.(widthOpt := Literal, width := NextInt(args))
  }

  function StarPrecision(sp: Spec, args: seq<Arg>): Spec {
    if sp.precOpt != Star then sp
    else sp.(precOpt := if NextInt(args) >= 0 then Literal else Absent, prec := NextInt(args))
  }

  function AfterIf(args: seq<Arg>, taken: bool): seq<Arg> {
    if taken then After(args) else args
  }

  // --- Padding ---------------------------------------------------------------------------------

  function Repeat(c: char, n: int): (s: string)
    ensures |s| == if n > 0 then n else 0
    ensures forall i :: 0 <= i < |s| ==> s[i] == c
  {
    if n <= 0 then "" else Repeat(c, n - 1) + [c]
  }

  function Max0(v: int): nat {
    if v > 0 then v else 0
  }

  function One(c: char): string {
    if c == NUL then "" else [c]
  }

  /** The pad character, NUL for none. */
  function PadChar(sp: Spec, pl: Payload): char {
    if sp.widthOpt != Literal then NUL
    else if !sp.zero then ' '
    else if sp.conv == Text || sp.conv == Character || sp.conv == Percent then NUL
    else if sp.precOpt == Literal && pl.prec == 0 && pl.zero then ' ' else '0'
  }

  function PrecPad(sp: Spec, pl: Payload): nat {
    if sp.conv == Text then 0 else Max0(pl.prec - |pl.body|)
  }

  function FieldPad(sp: Spec, pl: Payload): nat {
    Max0(sp.width - |pl.body| - |One(pl.sign)| - (if pl.prefix != NUL then 2 else 0) - PrecPad(sp, pl))
  }

  function PrefixText(pl: Payload): string {
    if pl.prefix == NUL then "" else ['0', pl.prefix]
  }

  function Fill(sp: Spec, pl: Payload): string {
    Repeat(PadChar(sp, pl), FieldPad(sp, pl))
  }

  /** Zero padding stands between the sign and the digits, so the sign goes first. */
  predicate SignFirst(sp: Spec, pl: Payload) {
    !sp.left && PadChar(sp, pl) == '0'
  }

  function Front(sp: Spec, pl: Payload): string {
    if sp.left || PadChar(sp, pl) == NUL then PrefixText(pl)
    else if PadChar(sp, pl) == '0' then One(pl.sign) + PrefixText(pl) + Fill(sp, pl)
    else Fill(sp, pl) + PrefixText(pl)
  }

  function Middle(sp: Spec, pl: Payload): string {
    if sp.conv == Text then pl.body
    else (if SignFirst(sp, pl) then "" else One(pl.sign)) + Repeat('0', PrecPad(sp, pl)) + pl.body
  }

  function Back(sp: Spec, pl: Payload): string {
    if sp.left && PadChar(sp, pl) != NUL then Fill(sp, pl) else ""
  }

  /** The field as it is emitted. */
  function Layout(sp: Spec, pl: Payload): string {
    Front(sp, pl) + Middle(sp, pl) + Back(sp, pl)
  }

  /** One field: its text and the arguments left over. */
  function Field(sp: Spec, args: seq<Arg>): (r: (string, seq<Arg>)) {
    var args1 := AfterIf(args, sp.widthOpt == Star);
    var sp1 := StarWidth(sp, args);
    var args2 := AfterIf(args1, sp.precOpt == Star);
    var sp2 := StarPrecision(sp1, args1);
    (Layout(sp2, Converted(sp2, args2)), AfterIf(args2, sp.conv != Percent))
  }

  /** Everything `npf_vpprintf` emits for the format from `i` on. */
  function Render(f: string, i: nat, args: seq<Arg>): string
    decreases |f| - i
  {
    if i >= |f| then ""
    else
      var p := SpecAt(f, i);
      if p.1 == 0 then [f[i]] + Render(f, i + 1, args)
      else
        var r := Field(p.0, args);
        r.0 + Render(f, i + p.1, r.1)
  }

  // --- Output ----------------------------------------------------------------------------------

  /** `npf_putc_cnt` over `npf_bufputc`, or over `npf_bufputc_nop` when there is no buffer. */
  class Sink {
    const dst: array?<char>
    const len: nat
    var cur: nat
    var n: nat
    /** Everything put so far, and what lies behind the buffer's end. */
    ghost var text: string
    ghost const behind: string

    ghost predicate Valid()
      reads this, dst
    {
      n == |text| && Holds(text)
    }

    /** The buffer holds as much of `s` as fits. */
    ghost predicate Holds(s: string)
      reads this, dst
    {
      dst != null ==> len <= dst.Length && cur == Min(|s|, len) && dst[..cur] == s[..cur] && dst[len..] == behind
    }

    constructor (buffer: array?<char>, size: nat)
      requires buffer != null ==> size <= buffer.Length
      ensures Valid() && text == "" && dst == buffer && len == size
      ensures buffer != null ==> behind == buffer[size..]
    {
      dst, len, cur, n, text := buffer, size, 0, 0, "";
      behind := if buffer != null then buffer[size..] else "";
    }

    /** `npf_bufputc` */
    method Store(c: char)
      requires Holds(text)
      modifies this`cur, dst
      ensures Holds(text + [c])
    {
      if dst != null && cur < len {
        dst[cur] := c;
        cur := cur + 1;
      }
    }

    /** `npf_putc_cnt` */
    method Put(c: char)
      requires Valid()
      modifies this, dst
      ensures Valid() && text == old(text) + [c]
    {
      n := n + 1;
      Store(c);
      text := text + [c];
    }
  }

  // --- Emission --------------------------------------------------------------------------------

  method PutRepeat(out: Sink, c: char, count: int)
    requires out.Valid()
    modifies out, out.dst
    ensures out.Valid() && out.text == old(out.text) + Repeat(c, count)
  {
    var left := count;
    ghost var before := out.text;
    while left > 0
      invariant left <= count && (left >= 0 || left == count)
      invariant out.Valid() && out.text == before + Repeat(c, count - (if left > 0 then left else if count > 0 then 0 else count))
    {
      ghost var done := count - left;
      assert Repeat(c, done + 1) == Repeat(c, done) + [c];
      out.Put(c);
      left := left - 1;
    }
  }

  method PutText(out: Sink, s: string, count: nat)
    requires out.Valid() && count <= |s|
    modifies out, out.dst
    ensures out.Valid() && out.text == old(out.text) + s[..count]
  {
    ghost var before := out.text;
    for i := 0 to count
      invariant out.Valid() && out.text == before + s[..i]
    {
      assert s[..i + 1] == s[..i] + [s[i]];
      out.Put(s[i]);
    }
  }

  /** The digits of the conversion buffer, from its end. */
  method PutReversed(out: Sink, cbuf: array<char>, count: nat)
    requires out.Valid() && count <= cbuf.Length && cbuf != out.dst
    modifies out, out.dst
    ensures out.Valid() && out.text == old(out.text) + Reversed(cbuf[..count]) && cbuf[..] == old(cbuf[..])
  {
    ghost var before, digits := out.text, cbuf[..count];
    var left := count;
    ReversedEnd(digits, count);
    while left > 0
      invariant 0 <= left <= count && cbuf[..] == old(cbuf[..])
      invariant out.Valid() && out.text + Reversed(digits[..left]) == before + Reversed(digits)
    {
      left := left - 1;
      ReversedEnd(digits, left + 1);
      out.Put(cbuf[left]);
    }
    assert digits[..0] == "";
  }

  lemma ReversedEnd(s: string, n: nat)
    requires n <= |s|
    ensures n == |s| ==> s[..n] == s
    ensures n > 0 ==> Reversed(s[..n]) == [s[n - 1]] + Reversed(s[..n - 1])
  {
    if n > 0 {
      var a, b := Reversed(s[..n]), [s[n - 1]] + Reversed(s[..n - 1]);
      assert |a| == |b|;
      forall i | 0 <= i < n ensures a[i] == b[i] {}
    }
  }

  // --- Digit generation ------------------------------------------------------------------------

  /** `npf_itoa_rev`: the quotient and remainder of a negative number are negative. */
  method ItoaRev(buf: array<char>, v: int) returns (n: nat)
    requires -(U64_SIZE as int) <= 2 * v < U64_SIZE && buf.Length >= 22
    modifies buf
    ensures n == |DigitsRev(Abs(v), 10, false)| <= 22 && buf[..n] == DigitsRev(Abs(v), 10, false)
  {
    DigitsFit(Abs(v), 10, false);
    ghost var all := DigitsRev(Abs(v), 10, false);
    var sign := if v >= 0 then 1 else -1;
    var i := v;
    n := 0;
    i, n := ItoaStep(buf, sign, i, n, all);
    while i != 0
      invariant (sign == 1 && i >= 0) || (sign == -1 && i <= 0)
      invariant n <= |all| <= 22 && buf[..n] + MoreDigits(Abs(i), 10, false) == all
      decreases Abs(i)
    {
      i, n := ItoaStep(buf, sign, i, n, all);
    }
  }

  /** The digits of `i` from the quotient `q` and the remainder `d` on. */
  function MoreDigits(q: nat, base: nat, upper: bool): string
    requires 2 <= base <= 16
  {
    if q == 0 then "" else DigitsRev(q, base, upper)
  }

  lemma DivMod(i: nat, base: nat) returns (q: nat, d: nat)
    requires 2 <= base <= 16
    ensures q == i / base && d == i % base && d < 16 && (q < i || q == i == 0)
  {
    q, d := i / base, i % base;
    MulMono(q, 2, base);
    assert q * 2 <= q * base <= i;
  }

  /** Moving one digit of `i` to the digits done. */
  lemma NextDigit(done: string, i: nat, base: nat, upper: bool, all: string, q: nat, d: nat)
    requires 2 <= base <= 16 && q == i / base && d == i % base && d < 16 && done + DigitsRev(i, base, upper) == all
    ensures |done| < |all| && done + [DigitChar(d, upper)] + MoreDigits(q, base, upper) == all
  {
    assert DigitsRev(i, base, upper) == [DigitChar(d, upper)] + MoreDigits(q, base, upper);
    hide DigitsRev, MoreDigits, DigitChar;
    assert done + [DigitChar(d, upper)] + MoreDigits(q, base, upper) == done + ([DigitChar(d, upper)] + MoreDigits(q, base, upper));
  }

  /** One round of the loop. */
  method ItoaStep(buf: array<char>, sign: int, i: int, n: nat, ghost all: string) returns (i': int, n': nat)
    requires buf.Length >= 22 && |all| <= 22 && n <= 22
    requires (sign == 1 && i >= 0) || (sign == -1 && i <= 0)
    requires buf[..n] + DigitsRev(Abs(i), 10, false) == all
    modifies buf
    ensures n' == n + 1 <= |all| && (Abs(i') < Abs(i) || i' == i == 0)
    ensures (sign == 1 && i' >= 0) || (sign == -1 && i' <= 0)
    ensures buf[..n'] + MoreDigits(Abs(i'), 10, false) == all
  {
    ghost var q, d := DivMod(Abs(i), 10);
    NextDigit(buf[..n], Abs(i), 10, false, all, q, d);
    hide DigitsRev, MoreDigits;
    assert sign * CRem(i, 10) == d && Abs(CDiv(i, 10)) == q;
    ghost var done := buf[..n];
    buf[n] := (48 + sign * CRem(i, 10)) as char;
    i' := CDiv(i, 10);
    n' := n + 1;
    assert buf[..n'] == done + [DigitChar(d, false)];
  }

  /** `npf_utoa_rev` */
  method UtoaRev(buf: array<char>, v: nat, base: nat, upper: bool) returns (n: nat)
    requires v < U64_SIZE && 8 <= base <= 16 && buf.Length >= 22
    modifies buf
    ensures n == |DigitsRev(v, base, upper)| <= 22 && buf[..n] == DigitsRev(v, base, upper)
  {
    DigitsFit(v, base, upper);
    ghost var all := DigitsRev(v, base, upper);
    var i: nat := v;
    n := 0;
    i, n := UtoaStep(buf, base, upper, i, n, all);
    while i != 0
      invariant n <= |all| <= 22 && buf[..n] + MoreDigits(i, base, upper) == all
      decreases i
    {
      i, n := UtoaStep(buf, base, upper, i, n, all);
    }
  }

  method UtoaStep(buf: array<char>, base: nat, upper: bool, i: nat, n: nat, ghost all: string) returns (i': nat, n': nat)
    requires buf.Length >= 22 && |all| <= 22 && n <= 22 && 8 <= base <= 16
    requires buf[..n] + DigitsRev(i, base, upper) == all
    modifies buf
    ensures n' == n + 1 <= |all| && (i' < i || i' == i == 0)
    ensures buf[..n'] + MoreDigits(i', base, upper) == all
  {
    ghost var q, r := DivMod(i, base);
    NextDigit(buf[..n], i, base, upper, all, q, r);
    hide DigitsRev, MoreDigits;
    var d: nat := i % base;
    i' := i / base;
    PutDigit(buf, n, d, upper);
    n' := n + 1;
  }

  method PutDigit(buf: array<char>, n: nat, d: nat, upper: bool)
    requires n < buf.Length && d < 16
    modifies buf
    ensures buf[..n + 1] == old(buf[..n]) + [DigitChar(d, upper)]
  {
    buf[n] := if d < 10 then (48 + d) as char else ((if upper then 65 else 97) + (d - 10)) as char;
    assert buf[..n + 1] == buf[..n] + [buf[n]];
  }

  // --- The engine ------------------------------------------------------------------------------

  /** The signed conversions, into the digit buffer. */
  method ConvertSigned(sp: Spec, v: int, cbuf: array<char>) returns (pl: Payload, count: nat)
    requires -(U64_SIZE as int) <= 2 * v < U64_SIZE && cbuf.Length == 32
    modifies cbuf
    ensures count <= 22 && pl == SignedPayload(sp, v) && pl.body == Reversed(cbuf[..count])
  {
    hide DigitsRev, Reversed;
    var sign := if v < 0 then '-' else sp.prepend;
    if v == 0 && sp.precOpt == Literal && sp.prec == 0 {
      count := 0;
      ReversedShort("", NUL);
    } else {
      count := ItoaRev(cbuf, v);
    }
    pl := Payload(sign, NUL, Reversed(cbuf[..count]), sp.prec, v == 0);
  }

  lemma ReversedShort(s: string, c: char)
    ensures Reversed("") == "" && Reversed([c]) == [c]
  {}

  /** The unsigned conversions, into the digit buffer; `#` adds an octal zero to it. */
  method ConvertUnsigned(sp: Spec, v: nat, cbuf: array<char>) returns (pl: Payload, count: nat)
    requires v < U64_SIZE && cbuf.Length == 32
    modifies cbuf
    ensures count <= 23 && pl == UnsignedPayload(sp, v) && pl.body == Reversed(cbuf[..count])
  {
    hide DigitsRev, Reversed;
    var prec := sp.prec;
    count := 0;
    if v == 0 && sp.precOpt == Literal && sp.prec == 0 {
      if sp.conv == Octal && sp.alt {
        prec := 1;
      }
      assert cbuf[..count] == "";
    } else {
      var base := if sp.conv == Octal then 8 else if sp.conv == Hex then 16 else 10;
      count := UtoaRev(cbuf, v, base, sp.upper);
    }
    if v != 0 && sp.alt && sp.conv == Octal {
      ghost var digits := cbuf[..count];
      cbuf[count] := '0';
      count := count + 1;
      assert cbuf[..count] == digits + "0";
    }
    var prefix := if v != 0 && sp.alt && sp.conv == Hex then (if sp.upper then 'X' else 'x') else NUL;
    pl := Payload(NUL, prefix, Reversed(cbuf[..count]), prec, v == 0);
  }

  /** Every conversion but `%s`; the digit buffer never overflows. */
  method ConvertArg(sp: Spec, args: seq<Arg>, cbuf: array<char>) returns (pl: Payload, count: nat)
    requires cbuf.Length == 32 && sp.conv != Text
    modifies cbuf
    ensures count <= 23 && pl == Converted(sp, args) && pl.body == Reversed(cbuf[..count])
  {
    hide SignedPayload, UnsignedPayload, Reversed, DigitsRev;
    if sp.conv == Percent {
      pl, count := ConvertChar('%', sp, cbuf);
    } else if sp.conv == Character {
      pl, count := ConvertChar((NextInt(args) % 0x100) as char, sp, cbuf);
    } else if sp.conv == Signed {
      pl, count := ConvertSigned(sp, ToSigned(NextInt(args), sp.length), cbuf);
    } else if sp.conv == Pointer {
      count := UtoaRev(cbuf, NextPtr(args), 16, false);
      pl := Payload(NUL, 'x', Reversed(cbuf[..count]), sp.prec, false);
    } else {
      pl, count := ConvertUnsigned(sp, ToUnsigned(NextInt(args), sp.length), cbuf);
    }
  }

  method ConvertChar(c: char, sp: Spec, cbuf: array<char>) returns (pl: Payload, count: nat)
    requires cbuf.Length == 32
    modifies cbuf
    ensures count == 1 && pl == Payload(NUL, NUL, [c], sp.prec, false) && pl.body == Reversed(cbuf[..count])
  {
    cbuf[0] := c;
    ReversedShort("", c);
    assert cbuf[..1] == [c];
    pl, count := Payload(NUL, NUL, [c], sp.prec, false), 1;
  }

  /** `%s`: how much of the string is used. */
  method MeasureText(sp: Spec, s: string) returns (count: nat)
    ensures count <= |s| && s[..count] == Prefix(s, sp.precOpt != Absent, sp.prec)
  {
    hide Prefix;
    count := 0;
    ghost var limited := sp.precOpt != Absent;
    while count < |s| && s[count] != NUL && (sp.precOpt == Absent || count < sp.prec)
      invariant count <= |s|
      invariant Prefix(s, limited, sp.prec) == s[..count] + Prefix(s[count..], limited, sp.prec - count)
    {
      PrefixStep(s, count, limited, sp.prec);
      count := count + 1;
    }
    PrefixNext(s, count, limited, sp.prec);
  }

  lemma PrefixStep(s: string, i: nat, limited: bool, limit: int)
    requires i < |s| && s[i] != NUL && (!limited || i < limit)
    requires Prefix(s, limited, limit) == s[..i] + Prefix(s[i..], limited, limit - i)
    ensures Prefix(s, limited, limit) == s[..i + 1] + Prefix(s[i + 1..], limited, limit - (i + 1))
  {
    hide Prefix;
    PrefixNext(s, i, limited, limit);
    assert s[..i + 1] == s[..i] + [s[i]];
    assert s[..i] + ([s[i]] + Prefix(s[i + 1..], limited, limit - (i + 1))) == (s[..i] + [s[i]]) + Prefix(s[i + 1..], limited, limit - (i + 1));
  }

  lemma PrefixNext(s: string, i: nat, limited: bool, limit: int)
    requires i <= |s|
    ensures Prefix(s[i..], limited, limit - i)
            == if i < |s| && s[i] != NUL && (!limited || i < limit) then [s[i]] + Prefix(s[i + 1..], limited, limit - (i + 1)) else ""
  {
    if i < |s| {
      assert s[i..][0] == s[i] && s[i..][1..] == s[i + 1..];
    }
  }

  /** Prefix and padding in front of a field, and the sign if it goes first. */
  method PutFront(out: Sink, sp: Spec, pl: Payload)
    requires out.Valid()
    modifies out, out.dst
    ensures out.Valid() && out.text == old(out.text) + Front(sp, pl)
  {
    hide Repeat, FieldPad, PadChar;
    var pad := PadChar(sp, pl);
    if !sp.left && pad != NUL {
      if pad == '0' {
        if pl.sign != NUL {
          out.Put(pl.sign);
        }
        PutPrefix(out, pl);
      }
      PutRepeat(out, pad, FieldPad(sp, pl));
      if pad != '0' {
        PutPrefix(out, pl);
      }
    } else {
      PutPrefix(out, pl);
    }
  }

  method PutPrefix(out: Sink, pl: Payload)
    requires out.Valid()
    modifies out, out.dst
    ensures out.Valid() && out.text == old(out.text) + PrefixText(pl)
  {
    if pl.prefix != NUL {
      out.Put('0');
      out.Put(pl.prefix);
    }
  }

  /** Sign, precision and digits of a field other than `%s`. */
  method PutMiddle(out: Sink, sp: Spec, pl: Payload, cbuf: array<char>, count: nat)
    requires out.Valid() && sp.conv != Text && count <= cbuf.Length && cbuf != out.dst && pl.body == Reversed(cbuf[..count])
    modifies out, out.dst
    ensures out.Valid() && out.text == old(out.text) + Middle(sp, pl)
  {
    hide Repeat, FieldPad, PadChar, Reversed, PrecPad, SignFirst;
    if pl.sign != NUL && !SignFirst(sp, pl) {
      out.Put(pl.sign);
    }
    PutRepeat(out, '0', PrecPad(sp, pl));
    PutReversed(out, cbuf, count);
  }

  /** Padding behind a left-justified field. */
  method PutBack(out: Sink, sp: Spec, pl: Payload)
    requires out.Valid()
    modifies out, out.dst
    ensures out.Valid() && out.text == old(out.text) + Back(sp, pl)
  {
    hide Repeat, FieldPad, PadChar;
    if sp.left && PadChar(sp, pl) != NUL {
      PutRepeat(out, PadChar(sp, pl), FieldPad(sp, pl));
    }
  }

  /** One field, its arguments already resolved. */
  method PutField(out: Sink, sp: Spec, args: seq<Arg>)
    requires out.Valid()
    modifies out, out.dst
    ensures out.Valid() && out.text == old(out.text) + Layout(sp, Converted(sp, args))
  {
    hide Layout, Converted;
    if sp.conv == Text {
      PutString(out, sp, args);
    } else {
      var cbuf := new char[32];
      var pl, count := ConvertArg(sp, args, cbuf);
      PutNumber(out, sp, pl, cbuf, count);
    }
  }

  method PutNumber(out: Sink, sp: Spec, pl: Payload, cbuf: array<char>, count: nat)
    requires out.Valid() && sp.conv != Text && count <= cbuf.Length && cbuf != out.dst && pl.body == Reversed(cbuf[..count])
    modifies out, out.dst
    ensures out.Valid() && out.text == old(out.text) + Layout(sp, pl)
  {
    hide Front, Middle, Back, Reversed;
    ghost var before := out.text;
    PutFront(out, sp, pl);
    PutMiddle(out, sp, pl, cbuf, count);
    PutBack(out, sp, pl);
    assert out.text == before + (Front(sp, pl) + Middle(sp, pl) + Back(sp, pl));
  }

  method PutString(out: Sink, sp: Spec, args: seq<Arg>)
    requires out.Valid() && sp.conv == Text
    modifies out, out.dst
    ensures out.Valid() && out.text == old(out.text) + Layout(sp, Converted(sp, args))
  {
    hide Layout, Middle, Converted, Prefix;
    var s := NextStr(args);
    var count := MeasureText(sp, s);
    var pl := Payload(NUL, NUL, s[..count], sp.prec, false);
    TextPayload(sp, args, pl);
    PutTextField(out, sp, pl, s, count);
  }

  method PutTextField(out: Sink, sp: Spec, pl: Payload, s: string, count: nat)
    requires out.Valid() && count <= |s| && Middle(sp, pl) == s[..count]
    modifies out, out.dst
    ensures out.Valid() && out.text == old(out.text) + Layout(sp, pl)
  {
    hide Front, Middle, Back;
    ghost var before := out.text;
    PutFront(out, sp, pl);
    PutText(out, s, count);
    PutBack(out, sp, pl);
    assert out.text == before + (Front(sp, pl) + Middle(sp, pl) + Back(sp, pl));
  }

  lemma TextPayload(sp: Spec, args: seq<Arg>, pl: Payload)
    requires sp.conv == Text
    requires pl == Payload(NUL, NUL, Prefix(NextStr(args), sp.precOpt != Absent, sp.prec), sp.prec, false)
    ensures pl == Converted(sp, args) && Middle(sp, pl) == pl.body
  {}

  /** `npf_vpprintf`: returns the number of characters put. */
  method Vpprintf(out: Sink, f: string, args: seq<Arg>) returns (n: nat)
    requires out.Valid() && out.n == 0 && CString(f)
    modifies out, out.dst
    ensures out.Valid() && out.text == Render(f, 0, args) && n == |out.text|
  {
    hide Parse, Field;
    var cur := 0;
    var rest := args;
    while Peek(f, cur) != NUL
      invariant cur <= |f| && out.Valid() && out.text + Render(f, cur, rest) == Render(f, 0, args)
      decreases |f| - cur
    {
      cur, rest := Step(out, f, cur, rest, args);
    }
    n := out.n;
  }

  /** The specification at `i`, or length 0. */
  function SpecAt(f: string, i: nat): (Spec, nat) {
    if i < |f| && f[i] == '%' then Parse(f, i) else (EMPTY, 0)
  }

  lemma RenderStep(f: string, i: nat, args: seq<Arg>)
    requires i < |f|
    ensures var sp, len := SpecAt(f, i).0, SpecAt(f, i).1;
            && i + len <= |f|
            && (len == 0 ==> Render(f, i, args) == [f[i]] + Render(f, i + 1, args))
            && (len > 0 ==> Render(f, i, args) == Field(sp, args).0 + Render(f, i + len, Field(sp, args).1))
  {
    hide Parse, Field;
  }

  method ReadSpec(f: string, cur: nat) returns (sp: Spec, len: nat)
    requires CString(f) && cur < |f|
    ensures sp == SpecAt(f, cur).0 && len == SpecAt(f, cur).1
  {
    hide Parse;
    sp, len := EMPTY, 0;
    if f[cur] == '%' {
      sp, len := ParseFormatSpec(f, cur);
    }
  }

  /** One character or one field. */
  method Step(out: Sink, f: string, cur: nat, rest: seq<Arg>, ghost args: seq<Arg>) returns (next: nat, rest': seq<Arg>)
    requires out.Valid() && CString(f) && cur < |f| && out.text + Render(f, cur, rest) == Render(f, 0, args)
    modifies out, out.dst
    ensures out.Valid() && cur < next <= |f| && out.text + Render(f, next, rest') == Render(f, 0, args)
  {
    hide SpecAt, Field, Render;
    RenderStep(f, cur, rest);
    ghost var goal := Render(f, 0, args);
    var sp, len := ReadSpec(f, cur);
    rest' := rest;
    if len == 0 {
      next := cur + 1;
      PutThen(out, f[cur], Render(f, next, rest'), goal);
    } else {
      next := cur + len;
      rest' := PutSpecThen(out, sp, rest, Render(f, next, Field(sp, rest).1), goal);
    }
  }

  /** Putting the first character of what is still to come. */
  method PutThen(out: Sink, c: char, ghost tail: string, ghost goal: string)
    requires out.Valid() && out.text + ([c] + tail) == goal
    modifies out, out.dst
    ensures out.Valid() && out.text + tail == goal
  {
    ghost var before := out.text;
    out.Put(c);
    assert before + ([c] + tail) == (before + [c]) + tail;
  }

  method PutSpecThen(out: Sink, sp: Spec, args: seq<Arg>, ghost tail: string, ghost goal: string) returns (rest: seq<Arg>)
    requires out.Valid() && out.text + (Field(sp, args).0 + tail) == goal
    modifies out, out.dst
    ensures out.Valid() && out.text + tail == goal && rest == Field(sp, args).1
  {
    hide Field;
    ghost var before := out.text;
    rest := PutSpec(out, sp, args);
    assert before + (Field(sp, args).0 + tail) == (before + Field(sp, args).0) + tail;
  }

  /** Star arguments are taken first, then the field's own. */
  method PutSpec(out: Sink, sp: Spec, args: seq<Arg>) returns (rest: seq<Arg>)
    requires out.Valid()
    modifies out, out.dst
    ensures out.Valid() && out.text == old(out.text) + Field(sp, args).0 && rest == Field(sp, args).1
  {
    hide Layout, Converted;
    var sp1 := sp;
    rest := args;
    if sp1.widthOpt == Star {
      sp1 := sp1.(widthOpt := Literal, width := NextInt(rest));
      rest := After(rest);
      if sp1.width < 0 {
        sp1 := sp1.(width := -sp1.width, left := true);
      }
    }
    if sp1.precOpt == Star {
      sp1 := sp1.(precOpt := Absent, prec := NextInt(rest));
      rest := After(rest);
      if sp1.prec >= 0 {
        sp1 := sp1.(precOpt := Literal);
      }
    }
    PutField(out, sp1, rest);
    if sp1.conv != Percent {
      rest := After(rest);
    }
  }

  /** `npf_vsnprintf`: the buffer holds the first `bufsz - 1` characters of the output, or all of them
      if there are fewer, then the terminator; the result is the length of the whole output. */
  method Vsnprintf(buffer: array?<char>, bufsz: nat, f: string, args: seq<Arg>) returns (n: nat)
    requires CString(f) && (buffer != null ==> bufsz <= buffer.Length)
    modifies buffer
    ensures n == |Render(f, 0, args)|
    ensures buffer != null && bufsz > 0 ==>
              var k := Min(n, bufsz - 1);
              buffer[..k] == Render(f, 0, args)[..k] && buffer[k] == NUL
    ensures buffer != null ==> buffer[bufsz..] == old(buffer[bufsz..])
  {
    hide Render;
    ghost var text := Render(f, 0, args);
    var out := new Sink(buffer, bufsz);
    n := Vpprintf(out, f, args);
    out.Store(NUL);
    if buffer != null && bufsz > 0 {
      ghost var stored := buffer[..];
      assert stored[..out.cur] == (text + [NUL])[..out.cur] && stored[bufsz..] == out.behind;
      buffer[bufsz - 1] := NUL;
      FirstCharacters(text, stored, bufsz, out.cur, buffer[..]);
    }
  }

  /** A buffer that held as much as fits of a text and its terminator, then terminated at its end. */
  lemma FirstCharacters(text: string, stored: string, size: nat, cur: nat, final: string)
    requires 0 < size <= |stored| && cur == Min(|text| + 1, size) && stored[..cur] == (text + [NUL])[..cur]
    requires final == stored[size - 1 := NUL]
    ensures var k := Min(|text|, size - 1); final[..k] == text[..k] && final[k] == NUL
    ensures final[size..] == stored[size..]
  {
    var k := Min(|text|, size - 1);
    forall i | 0 <= i < k ensures final[i] == text[i] {
      assert stored[..cur][i] == (text + [NUL])[..cur][i];
    }
    if |text| < size {
      assert stored[..cur][|text|] == (text + [NUL])[..cur][|text|];
    }
  }
}
