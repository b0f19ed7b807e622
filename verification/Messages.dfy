/** Whole formats of the printf engine (kernel/src/lib/nanoprintf.h): which arguments a conversion takes,
    what becomes of text and pointers, and formats of any number of conversions, against section 7.21.6.1
    of ISO C11. */
module Messages {
  import opened Bits
  import opened Format
  import opened Printf
  import opened PrintfLaws

  // --- Flags -----------------------------------------------------------------------------------

  /** What the flags `t` mean in any order and number: `-` overrides `0`, and `+` the blank. */
  predicate FlagsMean(sp: Spec, t: string) {
    && sp.left == ('-' in t) && sp.zero == ('0' in t && '-' !in t) && sp.alt == ('#' in t)
    && sp.prepend == (if '+' in t then '+' else if ' ' in t then ' ' else NUL)
  }

  lemma FlagAdded(sp: Spec, t: string, c: char)
    requires FlagsMean(sp, t) && IsFlag(c)
    ensures FlagsMean(AddFlag(sp, c), t + [c]) && FlagsOnly(sp, AddFlag(sp, c))
  {
    assert forall x :: x in t + [c] <==> x in t || x == c;
  }

  /** The two differ in their flags only. */
  predicate FlagsOnly(sp: Spec, sp': Spec) {
    sp == sp'.(left := sp.left, zero := sp.zero, alt := sp.alt, prepend := sp.prepend)
  }

  lemma {:induction false} FlagsFrom(f: string, i: nat, t: string, sp: Spec)
    requires i <= |f| && FlagsMean(sp, t)
    ensures var r := Flags(f, i, sp);
            i <= r.1 <= |f| && FlagsMean(r.0, t + f[i..r.1]) && (r.1 < |f| ==> !IsFlag(f[r.1])) && FlagsOnly(sp, r.0)
    decreases |f| - i
  {
    if i < |f| && IsFlag(f[i]) {
      var t1, r := t + [f[i]], Flags(f, i, sp);
      FlagAdded(sp, t, f[i]);
      hide FlagsMean, AddFlag, IsFlag;
      FlagsFrom(f, i + 1, t1, AddFlag(sp, f[i]));
      assert t1 + f[i + 1..r.1] == t + f[i..r.1];
    } else {
      assert t + f[i..i] == t;
    }
  }

  /** The flags of a specification. */
  lemma FlagsRead(f: string, i: nat)
    requires i < |f|
    ensures var r := Flags(f, i + 1, EMPTY); i < r.1 <= |f| && FlagsMean(r.0, f[i + 1..r.1]) && (r.1 < |f| ==> !IsFlag(f[r.1])) && FlagsOnly(EMPTY, r.0)
  {
    hide FlagsOnly;
    FlagsFrom(f, i + 1, "", EMPTY);
    assert "" + f[i + 1..Flags(f, i + 1, EMPTY).1] == f[i + 1..Flags(f, i + 1, EMPTY).1];
  }

  // --- Arguments -------------------------------------------------------------------------------

  /** The number of arguments a conversion takes: one for each `*`, and its own unless it is `%%`. */
  function Wanted(sp: Spec): nat {
    (if sp.widthOpt == Star then 1 else 0) + (if sp.precOpt == Star then 1 else 0) + (if sp.conv != Percent then 1 else 0)
  }

  /** The arguments from the `k`-th on. */
  function From(args: seq<Arg>, k: nat): seq<Arg> {
    if k <= |args| then args[k..] else []
  }

  /** A conversion takes just these, in order. */
  lemma FieldTakes(sp: Spec, args: seq<Arg>)
    ensures Field(sp, args).1 == From(args, Wanted(sp))
  {
    hide Layout, Converted;
  }

  lemma FromFrom(args: seq<Arg>, k: nat, n: nat)
    ensures From(From(args, k), n) == From(args, k + n)
  {}

  /** The `k`-th argument as an integer, 0 if it is none. */
  function IntAt(args: seq<Arg>, k: nat): int {
    if k < |args| && args[k].Int? then args[k].i else 0
  }

  /** 2 to the number of bits of the type a length modifier stands for: `char`, `short`, `int`, and 64 bits
      for `long`, `long long`, `intmax_t`, `size_t` and `ptrdiff_t`. */
  function Modulus(l: Length): nat {
    match l
    case Char => 0x100
    case Short => 0x1_0000
    case Plain => 0x1_0000_0000
    case Long => 0x1_0000_0000_0000_0000
    case LongLong => 0x1_0000_0000_0000_0000
    case IntMax => 0x1_0000_0000_0000_0000
    case SizeT => 0x1_0000_0000_0000_0000
    case PtrDiff => 0x1_0000_0000_0000_0000
  }

  /** The argument of a conversion is the one behind its `*` arguments, converted to its type: the number of
      that type that is the same modulo the type's size. */
  lemma ArgumentIs(w: Spec, args: seq<Arg>, k: nat)
    ensures var v, n := Argument(w, Rest(w, From(args, k))), Modulus(w.length);
            var at := k + (if w.widthOpt == Star then 1 else 0) + (if w.precOpt == Star then 1 else 0);
            && v % n == IntAt(args, at) % n
            && if w.conv == Signed then -(n as int) <= 2 * v < n else 0 <= v < n
  {
    var at := k + (if w.widthOpt == Star then 1 else 0) + (if w.precOpt == Star then 1 else 0);
    assert Rest(w, From(args, k)) == From(args, at);
    assert NextInt(From(args, at)) == IntAt(args, at);
    InType(IntAt(args, at), w.length);
    hide Rest, From, IntAt, Modulus, ToSigned, ToUnsigned, NextInt;
  }

  lemma InType(i: int, l: Length)
    ensures var v, u, n := ToSigned(i, l), ToUnsigned(i, l), Modulus(l);
            v % n == i % n == u % n && -(n as int) <= 2 * v < n && 0 <= u < n
  {
    assert Range(l) == Modulus(l) > 1;
    hide Range, Modulus;
    Reduced(i, Modulus(l));
  }

  lemma Reduced(i: int, n: nat)
    requires n > 0
    ensures 0 <= i % n < n && i % n % n == i % n == (i % n - n) % n
  {
    var x := i % n;
    Remainder(x, n, 0, x);
    Remainder(x - n, n, -1, x);
  }

  lemma Remainder(a: int, n: nat, q: int, r: nat)
    requires r < n && a == q * n + r
    ensures a % n == r
  {
    var q', r' := a / n, a % n;
    assert a == q' * n + r';
    if q' > q {
      Apart(q, q', n);
    } else if q' < q {
      Apart(q', q, n);
    }
  }

  lemma Apart(p: int, q: int, n: nat)
    requires p < q
    ensures p * n + n <= q * n
  {
    MulMono(n, 1, q - p);
    assert q * n == p * n + n * (q - p);
  }

  /** The amounts of the `*` arguments. */
  lemma AmountsAre(w: Spec, args: seq<Arg>, k: nat)
    requires Writable(w)
    ensures var a := Asked(w, From(args, k));
            && (w.widthOpt == Star ==> a.width == (if IntAt(args, k) < 0 then -IntAt(args, k) else IntAt(args, k))
                                       && a.left == (w.left || IntAt(args, k) < 0))
            && (w.precOpt == Star ==> var n := IntAt(args, if w.widthOpt == Star then k + 1 else k);
                                      if n < 0 then a.precOpt == Absent && a.prec == 0 else a.precOpt == Literal && a.prec == n)
  {
    assert AfterIf(From(args, k), w.widthOpt == Star) == From(args, if w.widthOpt == Star then k + 1 else k);
  }

  // --- Digits ----------------------------------------------------------------------------------

  /** The base of a conversion. */
  function BaseOf(c: Conversion): nat {
    match c
    case Octal => 8
    case Hex => 16
    case _ => 10
  }

  /** A digit, its letters in the case of the conversion. */
  predicate IsDigitOf(c: char, upper: bool) {
    '0' <= c <= '9' || (if upper then 'A' <= c <= 'F' else 'a' <= c <= 'f')
  }

  lemma LetterCase(d: nat, upper: bool)
    requires d < 16
    ensures IsDigitOf(DigitChar(d, upper), upper)
  {}

  ghost predicate AllOf(s: string, upper: bool) {
    forall i :: 0 <= i < |s| ==> IsDigitOf(s[i], upper)
  }

  lemma {:induction false} DigitsCase(v: nat, base: nat, upper: bool)
    requires 2 <= base <= 16
    ensures AllOf(Digits(v, base, upper), upper)
    decreases v
  {
    var q, d := DivMod(v, base);
    LetterCase(d, upper);
    if v < base {
      LetterCase(v, upper);
    } else {
      DigitsCase(q, base, upper);
      OneMore(Digits(q, base, upper), DigitChar(d, upper), upper);
    }
  }

  lemma OneMore(s: string, c: char, upper: bool)
    requires AllOf(s, upper) && IsDigitOf(c, upper)
    ensures AllOf(s + [c], upper)
  {}

  /** The digits of a number: they denote it in base 8, 10 or 16, in the case asked for; there are at least
      as many as the precision, and no more zeros in front than that takes, but for the one `#` asks for in
      octal; 0 with precision 0 has none. */
  lemma SignificantIs(sp: Spec, v: nat)
    requires Plainly(sp)
    ensures var d, extra := Significant(sp, v), sp.conv == Octal && sp.alt;
            && ValueOf(d, BaseOf(sp.conv)) == v && |d| >= sp.prec
            && AllOf(d, sp.conv != Signed && sp.upper)
            && (v == 0 && sp.precOpt == Literal && sp.prec == 0 ==> d == if extra then "0" else "")
            && (!(v == 0 && sp.precOpt == Literal && sp.prec == 0) ==> d != "")
            && (extra ==> d != "" && d[0] == '0')
            && (|d| > sp.prec && |d| > 1 ==> (if extra then d[1] else d[0]) != '0')
  {
    var upper := sp.conv != Signed && sp.upper;
    var d := Digits(v, Base(sp.conv), upper);
    SignificantDenotes(sp, v);
    assert Base(sp.conv) == BaseOf(sp.conv);
    DigitsCase(v, Base(sp.conv), upper);
    DigitsDenote(v, Base(sp.conv), upper);
    hide Digits, ValueOf, DigitChar, Base, BaseOf;
    Extends(if NoDigits(sp, v) then "" else d, sp.prec, sp.conv == Octal && sp.alt, upper);
  }

  /** Precision zeros, and the zero of `#`, in front of digits. */
  lemma Extends(d: string, prec: nat, octal: bool, upper: bool)
    requires AllOf(d, upper)
    ensures var e := Extended(d, prec, octal);
            && |e| >= prec && |e| >= |d| && AllOf(e, upper)
            && (octal ==> e != "" && e[0] == '0') && (d == "" && prec == 0 ==> e == if octal then "0" else "")
            && (|e| > prec && |e| > 1 && d != "" && (d[0] == '0' ==> d == "0") ==> (if octal then e[1] else e[0]) != '0')
  {
    var z := Repeat('0', prec - |d|);
    assert z + d == if prec <= |d| then d else z + d;
  }

  // --- Text, characters and pointers -----------------------------------------------------------

  /** The part of a string that is used: up to its terminator, and not more than the precision. */
  lemma {:induction false} PrefixIs(s: string, limited: bool, limit: int) returns (n: nat)
    ensures n <= |s| && Prefix(s, limited, limit) == s[..n] && (forall i :: 0 <= i < n ==> s[i] != NUL)
    ensures (limited && n > 0 ==> n <= limit) && (n == |s| || s[n] == NUL || (limited && n >= limit))
    decreases |s|
  {
    if s == "" || s[0] == NUL || (limited && limit <= 0) {
      n := 0;
    } else {
      n := PrefixIs(s[1..], limited, limit - 1);
      assert s[..n + 1] == [s[0]] + s[1..][..n];
      n := n + 1;
    }
  }

  /** A conversion that is no number, its `*` amounts taken. */
  predicate Settled(sp: Spec) {
    && !Numeric(sp.conv) && sp.width >= 0 && (sp.widthOpt == Literal || (sp.widthOpt == Absent && sp.width == 0))
    && (sp.conv != Text ==> sp.precOpt == Absent)
  }

  /** Blanks on one side; with a `0` flag none at all. */
  function Blanked(sp: Spec, body: string): string {
    if sp.zero then body else Emitted(sp, "", 0, body)
  }

  lemma BlankedFill(sp: Spec, pl: Payload)
    requires Settled(sp) && sp.conv != Pointer && pl.sign == NUL && pl.prefix == NUL
    ensures PadChar(sp, pl) == if sp.widthOpt == Absent || sp.zero then NUL else ' '
    ensures !sp.zero && sp.widthOpt != Absent ==> Fill(sp, pl) == Repeat(' ', sp.width - (PrecPad(sp, pl) + |pl.body|))
    ensures sp.conv == Text ==> PrecPad(sp, pl) == 0
  {
    var missing := sp.width - (PrecPad(sp, pl) + |pl.body|);
    assert FieldPad(sp, pl) == Max0(missing);
  }

  lemma BlankedParts(sp: Spec, pl: Payload, z: string)
    requires Settled(sp) && sp.conv != Pointer && pl.sign == NUL && pl.prefix == NUL && z == Repeat('0', PrecPad(sp, pl))
    requires sp.conv == Text ==> z == ""
    ensures PadChar(sp, pl) == NUL ==> Layout(sp, pl) == z + pl.body
    ensures PadChar(sp, pl) == ' ' ==> Layout(sp, pl) == if sp.left then z + pl.body + Fill(sp, pl) else Fill(sp, pl) + (z + pl.body)
  {
    hide Fill, PadChar, Repeat, PrecPad;
    var m := z + pl.body;
    assert Middle(sp, pl) == m by {
      assert "" + z + pl.body == m && "" + pl.body == pl.body;
    }
    hide Middle;
    assert "" + m + "" == m && Fill(sp, pl) + "" + m + "" == Fill(sp, pl) + m && "" + m + Fill(sp, pl) == m + Fill(sp, pl);
  }

  lemma BlankedIs(sp: Spec, pl: Payload)
    requires Settled(sp) && sp.conv != Pointer && pl.sign == NUL && pl.prefix == NUL
    ensures Layout(sp, pl) == Blanked(sp, Repeat('0', PrecPad(sp, pl)) + pl.body)
  {
    var z, b := Repeat('0', PrecPad(sp, pl)), pl.body;
    BlankedFill(sp, pl);
    assert sp.conv == Text ==> z == "";
    BlankedParts(sp, pl, z);
    if !sp.zero {
      EmittedBlanks(sp, z + b);
    }
    hide Layout, Fill, PadChar, Repeat, Emitted, PrecPad;
  }

  lemma EmittedBlanks(sp: Spec, m: string)
    requires !sp.zero && (sp.widthOpt == Absent ==> sp.width <= 0)
    ensures Emitted(sp, "", 0, m) == if sp.left then m + Repeat(' ', sp.width - |m|) else Repeat(' ', sp.width - |m|) + m
    ensures sp.widthOpt == Absent ==> Emitted(sp, "", 0, m) == m
  {
    var blanks := Repeat(' ', sp.width - |m|);
    NoZeros();
    Nothing(sp.width - |m|);
    Sides(blanks, m);
    assert Emitted(sp, "", 0, m) == if sp.left then "" + "" + m + blanks else blanks + "" + "" + m by { hide Repeat; }
    hide Repeat, Emitted;
  }

  lemma NoZeros()
    ensures Repeat('0', 0) == ""
  {}

  lemma Sides(blanks: string, m: string)
    ensures "" + "" + m + blanks == m + blanks && blanks + "" + "" + m == blanks + m
    ensures blanks == "" ==> m + blanks == m == blanks + m
  {}

  /** `%c` prints the character, `%%` a percent sign; a precision, which the standard leaves undefined here,
      puts zeros in front. */
  lemma CharacterField(sp: Spec, args: seq<Arg>)
    requires Settled(sp) && (sp.conv == Character || sp.conv == Percent)
    ensures var c := if sp.conv == Percent then '%' else (IntAt(args, 0) % 0x100) as char;
            Layout(sp, Converted(sp, args)) == Blanked(sp, Repeat('0', sp.prec - 1) + [c])
  {
    assert Repeat('0', Max0(sp.prec - 1)) == Repeat('0', sp.prec - 1);
    BlankedIs(sp, Converted(sp, args));
    hide Layout, Blanked;
  }

  /** `%s` prints that part of the string. */
  lemma TextField(sp: Spec, args: seq<Arg>, s: string) returns (n: nat)
    requires Settled(sp) && sp.conv == Text && args != [] && args[0] == Str(s)
    ensures n <= |s| && Layout(sp, Converted(sp, args)) == Blanked(sp, s[..n]) && forall i :: 0 <= i < n ==> s[i] != NUL
    ensures sp.precOpt != Absent && n > 0 ==> n <= sp.prec
    ensures n == |s| || s[n] == NUL || (sp.precOpt != Absent && n >= sp.prec)
  {
    n := PrefixIs(s, sp.precOpt != Absent, sp.prec);
    BlankedIs(sp, Converted(sp, args));
    assert Repeat('0', 0) == "";
    hide Layout, Blanked, Prefix;
    assert "" + s[..n] == s[..n];
  }

  lemma PointerPayload(sp: Spec, args: seq<Arg>, p: U64)
    requires sp.conv == Pointer && args != [] && args[0] == Ptr(p)
    ensures var d := Digits(p, 16, false);
            Converted(sp, args) == Payload(NUL, 'x', d, sp.prec, false) && PrecPad(sp, Converted(sp, args)) == Max0(sp.prec - |d|)
  {
    DigitsAre(p, 16, false);
    hide Digits, DigitsRev, Reversed;
  }

  lemma PointerParts(pl: Payload)
    requires pl.sign == NUL && pl.prefix == 'x'
    ensures PrefixText(pl) == "0x" && One(pl.sign) == "" && "" + "0x" == "0x"
  {}

  /** `%p` prints `0x` and the address in hexadecimal, padded like a number. */
  lemma PointerField(sp: Spec, args: seq<Arg>, p: U64)
    requires Settled(sp) && sp.conv == Pointer && args != [] && args[0] == Ptr(p)
    ensures var d := Digits(p, 16, false);
            Layout(sp, Converted(sp, args)) == Emitted(sp, "0x", Max0(sp.prec - |d|), d)
  {
    hide *;
    var d, pl := Digits(p, 16, false), Converted(sp, args);
    PointerPayload(sp, args, p);
    PointerFill(sp, pl);
    PointerParts(pl);
    var z, fill := Repeat('0', PrecPad(sp, pl)), Fill(sp, pl);
    LayoutParts(sp, pl, "", "0x", z, fill);
    Glue("", "0x", z, d, fill);
    Glue("", "0x", z, d, "");
    EmittedParts(sp, "0x", PrecPad(sp, pl), d, z, fill, PadChar(sp, pl));
  }

  lemma PointerFill(sp: Spec, pl: Payload)
    requires Settled(sp) && sp.conv == Pointer && pl.sign == NUL && pl.prefix == 'x'
    ensures PadChar(sp, pl) == if sp.widthOpt == Absent then NUL else if sp.zero then '0' else ' '
    ensures Fill(sp, pl) == Repeat(PadChar(sp, pl), sp.width - (2 + PrecPad(sp, pl) + |pl.body|))
    ensures sp.widthOpt == Absent ==> sp.width - (2 + PrecPad(sp, pl) + |pl.body|) <= 0
  {
    var missing := sp.width - (2 + PrecPad(sp, pl) + |pl.body|);
    assert FieldPad(sp, pl) == Max0(missing);
    if missing <= 0 {
      assert Repeat(PadChar(sp, pl), missing) == "" == Repeat(PadChar(sp, pl), 0);
    }
  }

  // --- Formats of many conversions -------------------------------------------------------------

  /** A piece of a format: text without `%`, or a numeric conversion as it is written. */
  datatype Piece = Words(text: string) | Numeral(w: Spec)

  ghost predicate NoPercent(t: string) {
    forall k :: 0 <= k < |t| ==> t[k] != '%'
  }

  /** The format from `i` on consists of these pieces. */
  ghost predicate Reads(f: string, i: nat, ps: seq<Piece>)
    decreases |ps|
  {
    if ps == [] then i == |f|
    else
      match ps[0]
      case Words(t) => Has(f, i, t) && NoPercent(t) && Reads(f, i + |t|, ps[1..])
      case Numeral(w) =>
        && i < |f| && f[i] == '%' && Parse(f, i).1 > 0 && Numeric(Parse(f, i).0.conv) && Written(f, i) == w
        && Reads(f, i + Parse(f, i).1, ps[1..])
  }

  /** What the standard asks for: the text as it is, and each conversion replaced by the field of its own
      arguments, which come one after the other from the `k`-th on. */
  function Asks(ps: seq<Piece>, args: seq<Arg>, k: nat): string
    decreases |ps|
  {
    if ps == [] then ""
    else
      match ps[0]
      case Words(t) => t + Asks(ps[1..], args, k)
      case Numeral(w) =>
        var own := From(args, k);
        Standard(Asked(w, own), Argument(w, Rest(w, own))) + Asks(ps[1..], args, k + Wanted(w))
  }

  /** None of the three cases in which a field is not the standard's. */
  ghost predicate AllMeet(ps: seq<Piece>, args: seq<Arg>, k: nat)
    decreases |ps|
  {
    if ps == [] then true
    else
      match ps[0]
      case Words(_) => AllMeet(ps[1..], args, k)
      case Numeral(w) =>
        var own := From(args, k);
        && !ZerosOnTheRight(w, own) && !ZerosForgotten(w, own) && !MinusCounts(w, own)
        && AllMeet(ps[1..], args, k + Wanted(w))
  }

  /** Text without `%` is copied. */
  lemma {:induction false} WordsCopied(f: string, i: nat, t: string, args: seq<Arg>)
    requires Has(f, i, t) && NoPercent(t)
    ensures Render(f, i, args) == t + Render(f, i + |t|, args)
    decreases |t|
  {
    hide Parse, Field, Render;
    if t == "" {
      assert t + Render(f, i, args) == Render(f, i, args);
    } else {
      HasAt(f, i, t, 0);
      RenderStep(f, i, args);
      assert Has(f, i + 1, t[1..]) by {
        assert f[i..i + |t|][1..] == f[i + 1..i + |t|];
      }
      WordsCopied(f, i + 1, t[1..], args);
      assert [t[0]] + t[1..] == t;
      assert [f[i]] + (t[1..] + Render(f, i + |t|, args)) == ([f[i]] + t[1..]) + Render(f, i + |t|, args);
    }
  }

  /** A `%` that begins no conversion is copied too. */
  lemma PercentCopied(f: string, i: nat, args: seq<Arg>)
    requires i < |f| && f[i] == '%'
    requires var c := Peek(f, i + 1); !IsFlag(c) && !IsDigit(c) && c !in {'*', '.', 'h', 'l', 'j', 'z', 't'} && !IsConversion(c)
    ensures Render(f, i, args) == "%" + Render(f, i + 1, args)
  {
    assert Flags(f, i + 1, EMPTY) == (EMPTY, i + 1);
    assert Number(f, i + 1, 0) == (0, i + 1);
    assert Parse(f, i).1 == 0;
    hide Parse, Field, Render;
    RenderStep(f, i, args);
    assert [f[i]] == "%";
  }

  /** A format of any number of numeric conversions with text between them prints the text with each
      conversion replaced by the standard's field of its own arguments, unless one of the three cases applies
      to one of them. */
  lemma {:induction false} ManyConversions(f: string, i: nat, ps: seq<Piece>, args: seq<Arg>, k: nat)
    requires i <= |f| && Reads(f, i, ps) && AllMeet(ps, args, k)
    ensures Render(f, i, From(args, k)) == Asks(ps, args, k)
    decreases |ps|
  {
    hide Parse, Field, Has, Written, Standard, Asked, Argument, Rest, ZerosOnTheRight, ZerosForgotten, MinusCounts, Wanted, From, NoPercent;
    if ps != [] {
      match ps[0]
      case Words(t) =>
        hide Render;
        WordsCopied(f, i, t, From(args, k));
        HasEnd(f, i, t);
        ManyConversions(f, i + |t|, ps[1..], args, k);
      case Numeral(w) =>
        hide Render;
        NumberStep(f, i, w, args, k);
        ManyConversions(f, i + Parse(f, i).1, ps[1..], args, k + Wanted(w));
    }
  }

  lemma HasEnd(f: string, i: nat, t: string)
    requires Has(f, i, t)
    ensures i + |t| <= |f|
  {}

  lemma NumberStep(f: string, i: nat, w: Spec, args: seq<Arg>, k: nat)
    requires i < |f| && f[i] == '%' && Parse(f, i).1 > 0 && Numeric(Parse(f, i).0.conv) && Written(f, i) == w
    requires var own := From(args, k); !ZerosOnTheRight(w, own) && !ZerosForgotten(w, own) && !MinusCounts(w, own)
    ensures i + Parse(f, i).1 <= |f|
    ensures var own := From(args, k);
            Render(f, i, own) == Standard(Asked(w, own), Argument(w, Rest(w, own))) + Render(f, i + Parse(f, i).1, From(args, k + Wanted(w)))
  {
    var own := From(args, k);
    WrittenIsRead(f, i);
    NumberRendered(f, i, own);
    ParsedInside(f, i);
    hide *;
    WantedRead(w);
    MeetsStandardUnless(w, own);
    FieldTakes(Read(w), own);
    FromFrom(args, k, Wanted(w));
  }

  lemma ParsedInside(f: string, i: nat)
    requires Parse(f, i).1 > 0
    ensures i + Parse(f, i).1 <= |f|
  {
    hide Parse;
  }

  lemma NumberRendered(f: string, i: nat, args: seq<Arg>)
    requires i < |f| && f[i] == '%' && Parse(f, i).1 > 0
    ensures var r := Field(Parse(f, i).0, args); Render(f, i, args) == r.0 + Render(f, i + Parse(f, i).1, r.1)
  {
    hide Parse, Field, Render;
    RenderStep(f, i, args);
  }

  lemma WantedRead(w: Spec)
    ensures Wanted(Read(w)) == Wanted(w)
  {}

  /** A conversion without `*` and without `-` behind the dot. */
  predicate IsPlain(w: Spec) {
    Writable(w) && w.widthOpt != Star && w.precOpt != Star && (w.precOpt == Absent ==> w.prec == 0)
  }

  ghost predicate AllPlain(ps: seq<Piece>) {
    forall j :: 0 <= j < |ps| && ps[j].Numeral? ==> IsPlain(ps[j].w)
  }

  function Numbers(ps: seq<Piece>): nat {
    if ps == [] then 0 else (if ps[0].Numeral? then 1 else 0) + Numbers(ps[1..])
  }

  /** The text with the conversions replaced by the fields of the arguments, the `n`-th argument first. */
  function Filled(ps: seq<Piece>, args: seq<Arg>, n: nat): string
    decreases |ps|
  {
    if ps == [] then ""
    else
      match ps[0]
      case Words(t) => t + Filled(ps[1..], args, n)
      case Numeral(w) => Standard(Asked(w, []), Argument(w, if n < |args| then [args[n]] else [])) + Filled(ps[1..], args, n + 1)
  }

  lemma {:induction false} PlainAsks(ps: seq<Piece>, args: seq<Arg>, n: nat)
    requires AllPlain(ps)
    ensures AllMeet(ps, args, n) && Asks(ps, args, n) == Filled(ps, args, n)
    decreases |ps|
  {
    if ps != [] {
      assert forall j :: 0 <= j < |ps[1..]| ==> ps[1..][j] == ps[j + 1];
      hide Standard, Asked, Argument, Rest, ZerosOnTheRight, ZerosForgotten, MinusCounts, From, Wanted;
      match ps[0]
      case Words(_) => PlainAsks(ps[1..], args, n);
      case Numeral(w) =>
        PlainConversions(w, From(args, n));
        PlainPiece(w, args, n);
        PlainAsks(ps[1..], args, n + 1);
    }
  }

  lemma PlainPiece(w: Spec, args: seq<Arg>, n: nat)
    requires IsPlain(w)
    ensures var own := From(args, n);
            Asked(w, own) == Asked(w, []) && Argument(w, Rest(w, own)) == Argument(w, if n < |args| then [args[n]] else []) && Wanted(w) == 1
  {
    assert NextInt(From(args, n)) == NextInt(if n < |args| then [args[n]] else []);
  }

  /** In particular, a format of plain numeric conversions and text prints the text with the n-th conversion
      replaced by the standard's field of the n-th argument. */
  lemma PlainFormats(f: string, ps: seq<Piece>, args: seq<Arg>)
    requires Reads(f, 0, ps) && AllPlain(ps)
    ensures Render(f, 0, args) == Filled(ps, args, 0)
  {
    hide Reads, Render, Asks, Filled, AllMeet;
    PlainAsks(ps, args, 0);
    assert From(args, 0) == args;
    ManyConversions(f, 0, ps, args, 0);
  }

  // --- Writing such a format -------------------------------------------------------------------

  ghost predicate Composable(ps: seq<Piece>) {
    forall j :: 0 <= j < |ps| ==> match ps[j] case Words(t) => NoPercent(t) case Numeral(w) => Canonical(w) && Numeric(w.conv)
  }

  /** The pieces written one after the other. */
  ghost function Composed(ps: seq<Piece>): string
    requires Composable(ps)
  {
    if ps == [] then ""
    else
      assert forall j :: 0 <= j < |ps[1..]| ==> ps[1..][j] == ps[j + 1];
      (match ps[0] case Words(t) => t case Numeral(w) => SpecText(w)) + Composed(ps[1..])
  }

  lemma WrittenCanonical(f: string, i: nat, sp: Spec)
    requires Canonical(sp) && Numeric(sp.conv) && Has(f, i, SpecText(sp))
    ensures Parse(f, i) == (sp, |SpecText(sp)|) && |SpecText(sp)| > 0 && Written(f, i) == sp && i < |f| && f[i] == '%'
  {
    RoundTrip(f, i, sp);
    HeadRead(f, i, sp);
    var j := i + |SpecText(sp)| - |Rest3(sp)|;
    ModifierRead(f, j, sp);
    ConversionRead(sp);
    SpecTextIs(sp);
    HasAt(f, i, SpecText(sp), 0);
    hide SpecText, Head, Modifier, Has, Canonical, Rest3, Parse;
  }

  lemma ConversionRead(sp: Spec)
    requires Canonical(sp) && Numeric(sp.conv)
    ensures IsConversion(ConversionText(sp)) && ConversionOf(ConversionText(sp)) == sp.conv && (ConversionText(sp) == 'X') == sp.upper
  {}

  /** Every list of texts and numeric conversions, the latter in canonical form, is read back from the format
      they make. */
  lemma {:induction false} ComposedReads(f: string, i: nat, ps: seq<Piece>)
    requires Composable(ps) && i <= |f| && f[i..] == Composed(ps)
    ensures Reads(f, i, ps)
    decreases |ps|
  {
    hide Canonical, Parse, Written, SpecText;
    if ps != [] {
      assert forall j :: 0 <= j < |ps[1..]| ==> ps[1..][j] == ps[j + 1];
      var head := match ps[0] case Words(t) => t case Numeral(w) => SpecText(w);
      assert f[i..] == head + Composed(ps[1..]);
      assert f[i..i + |head|] == f[i..][..|head|] == head;
      assert f[i + |head|..] == f[i..][|head|..] == Composed(ps[1..]);
      ComposedReads(f, i + |head|, ps[1..]);
      if ps[0].Numeral? {
        WrittenCanonical(f, i, ps[0].w);
      }
    }
  }

  /** `%i` is `%d`. */
  lemma IntegerConversions()
    ensures ConversionOf('i') == Signed == ConversionOf('d')
  {}
}
