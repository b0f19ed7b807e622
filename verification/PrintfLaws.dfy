/** The numeric conversions of the printf engine against section 7.21.6.1 of ISO C11: digits, precision,
    prefix, sign and padding of a field. */
module PrintfLaws {
  import opened Bits
  import opened Format
  import opened Printf

  // --- Digits ----------------------------------------------------------------------------------

  /** The digits of `v`, most significant first. */
  function Digits(v: nat, base: nat, upper: bool): (s: string)
    requires 2 <= base <= 16
    ensures |s| > 0
    decreases v
  {
    if v < base then [DigitChar(v, upper)] else Digits(v / base, base, upper) + [DigitChar(v % base, upper)]
  }

  lemma ReversedAppend(s: string, c: char)
    ensures Reversed([c] + s) == Reversed(s) + [c]
  {
    assert ([c] + s)[1..] == s;
  }

  /** The conversion buffer read backwards is the number in positional notation. */
  lemma {:induction false} DigitsAre(v: nat, base: nat, upper: bool)
    requires 2 <= base <= 16
    ensures Reversed(DigitsRev(v, base, upper)) == Digits(v, base, upper)
    decreases v
  {
    var q, d := DivMod(v, base);
    SmallQuotient(v, base, q, d);
    if q == 0 {
      assert DigitsRev(v, base, upper) == [DigitChar(d, upper)];
      ReversedShort("", DigitChar(d, upper));
    } else {
      assert DigitsRev(v, base, upper) == [DigitChar(d, upper)] + DigitsRev(q, base, upper);
      DigitsAre(q, base, upper);
      ReversedAppend(DigitsRev(q, base, upper), DigitChar(d, upper));
    }
  }

  lemma SmallQuotient(v: nat, base: nat, q: nat, d: nat)
    requires 2 <= base <= 16 && q == v / base && d == v % base
    ensures q == 0 <==> v < base
    ensures v < base ==> d == v
    ensures v == q * base + d
  {
    if q == 0 {
      assert v == q * base + d;
    } else {
      MulMono(base, 1, q);
    }
  }

  function DigitValue(c: char): nat {
    if '0' <= c <= '9' then c as nat - 48 else if 'A' <= c <= 'F' then c as nat - 55 else if 'a' <= c <= 'f' then c as nat - 87 else 0
  }

  /** The number a digit string denotes. */
  function ValueOf(s: string, base: nat): nat {
    if s == "" then 0 else ValueOf(s[..|s| - 1], base) * base + DigitValue(s[|s| - 1])
  }

  lemma ValueAppend(s: string, c: char, base: nat)
    ensures ValueOf(s + [c], base) == ValueOf(s, base) * base + DigitValue(c)
  {
    assert (s + [c])[..|s|] == s;
  }

  lemma DigitCharValue(d: nat, upper: bool)
    requires d < 16
    ensures DigitValue(DigitChar(d, upper)) == d && DigitChar(d, upper) == '0' <==> d == 0
    ensures DigitValue(DigitChar(d, upper)) == d
  {}

  /** The digits denote the number, and begin with 0 only for 0 itself. */
  lemma {:induction false} DigitsDenote(v: nat, base: nat, upper: bool)
    requires 2 <= base <= 16
    ensures ValueOf(Digits(v, base, upper), base) == v
    ensures Digits(v, base, upper)[0] == '0' <==> v == 0
    decreases v
  {
    var q, d := DivMod(v, base);
    SmallQuotient(v, base, q, d);
    if v < base {
      DigitCharValue(v, upper);
      ValueAppend("", DigitChar(v, upper), base);
      assert "" + [DigitChar(v, upper)] == [DigitChar(v, upper)];
    } else {
      DigitCharValue(d, upper);
      DigitsDenote(q, base, upper);
      ValueAppend(Digits(q, base, upper), DigitChar(d, upper), base);
    }
  }

  lemma {:induction false} ZerosDenote(n: nat, base: nat)
    ensures ValueOf(Repeat('0', n), base) == 0
  {
    if n > 0 {
      ZerosDenote(n - 1, base);
      ValueAppend(Repeat('0', n - 1), '0', base);
    }
  }

  /** Leading zeros do not change a number. */
  lemma {:induction false} LeadingZeros(n: nat, s: string, base: nat)
    ensures ValueOf(Repeat('0', n) + s, base) == ValueOf(s, base)
    decreases |s|
  {
    var z := Repeat('0', n);
    hide Repeat;
    if s == "" {
      ZerosDenote(n, base);
      assert z + s == z;
    } else {
      var t, c := s[..|s| - 1], s[|s| - 1];
      LeadingZeros(n, t, base);
      ValueAppend(t, c, base);
      ValueAppend(z + t, c, base);
      hide ValueOf;
      assert t + [c] == s;
      assert z + s == (z + t) + [c];
    }
  }

  // --- The standard ----------------------------------------------------------------------------

  /** A conversion with literal or absent width and precision, as the parser can return it. */
  predicate Plainly(sp: Spec) {
    && Numeric(sp.conv)
    && sp.width >= 0 && sp.prec >= 0
    && (sp.widthOpt == Literal || (sp.widthOpt == Absent && sp.width == 0))
    && (sp.precOpt == Literal || (sp.precOpt == Absent && sp.prec == 0))
    && !(sp.left && sp.zero) && (sp.precOpt == Literal ==> !sp.zero)
  }

  /** The argument converted to the type of the length modifier. */
  function Argument(sp: Spec, args: seq<Arg>): int {
    if sp.conv == Signed then ToSigned(NextInt(args), sp.length) else ToUnsigned(NextInt(args), sp.length)
  }

  /** The digits: at least as many as the precision, none for zero with precision zero; `#` makes
      octal begin with a zero. */
  function Significant(sp: Spec, v: nat): string {
    var d := if NoDigits(sp, v) then "" else Digits(v, Base(sp.conv), sp.conv != Signed && sp.upper);
    Extended(d, sp.prec, sp.conv == Octal && sp.alt)
  }

  function Extended(d: string, prec: int, octal: bool): string {
    var p := Repeat('0', prec - |d|) + d;
    if octal && (p == "" || p[0] != '0') then "0" + p else p
  }

  function Sign(sp: Spec, v: int): string {
    if sp.conv != Signed then "" else if v < 0 then "-" else One(sp.prepend)
  }

  function HexPrefix(sp: Spec, v: int): string {
    if sp.conv == Hex && sp.alt && v != 0 then (if sp.upper then "0X" else "0x") else ""
  }

  /** What stands before the digits. */
  function Lead(sp: Spec, v: int): string {
    Sign(sp, v) + HexPrefix(sp, v)
  }

  /** Sign or prefix, digits and padding put together. */
  function Padded(sp: Spec, lead: string, digits: string): string {
    var missing := sp.width - |lead + digits|;
    if sp.left then lead + digits + Repeat(' ', missing)
    else if sp.zero then lead + Repeat('0', missing) + digits
    else Repeat(' ', missing) + lead + digits
  }

  /** The whole field: `-` pads with blanks on the right, `0` with zeros after sign and prefix unless
      there is a precision, and otherwise blanks stand on the left. */
  function Standard(sp: Spec, v: int): string {
    Padded(sp, Lead(sp, v), Significant(sp, Abs(v)))
  }

  // --- The engine meets the standard -----------------------------------------------------------

  lemma RepeatSum(c: char, m: nat, n: nat)
    ensures Repeat(c, m) + Repeat(c, n) == Repeat(c, m + n)
  {
    var a, b := Repeat(c, m) + Repeat(c, n), Repeat(c, m + n);
    assert |a| == |b|;
    forall i | 0 <= i < |a| ensures a[i] == b[i] {}
  }

  /** Precision zeros and the conversion buffer together are the significant digits. */
  lemma SignedDigits(sp: Spec, v: int)
    requires Plainly(sp) && sp.conv == Signed
    ensures var pl := SignedPayload(sp, v);
            Repeat('0', PrecPad(sp, pl)) + pl.body == Significant(sp, Abs(v))
  {
    DigitsAre(Abs(v), 10, false);
    hide Reversed, DigitsRev, Digits;
    RepeatSame(sp.prec - |SignedPayload(sp, v).body|);
  }

  lemma RepeatSame(n: int)
    ensures Repeat('0', Max0(n)) == Repeat('0', n)
  {}

  lemma UnsignedBody(sp: Spec, v: nat, d: string)
    requires sp.conv != Signed && sp.conv != Text && d == Digits(v, Base(sp.conv), sp.upper)
    ensures var pl := UnsignedPayload(sp, v);
            var octal := sp.alt && sp.conv == Octal;
            && pl.body == (if NoDigits(sp, v) then "" else if v != 0 && octal then "0" + d else d)
            && PrecPad(sp, pl) == Max0((if NoDigits(sp, v) && octal then 1 else sp.prec) - |pl.body|)
  {
    var rev := DigitsRev(v, Base(sp.conv), sp.upper);
    DigitsAre(v, Base(sp.conv), sp.upper);
    ReversedEndZero(rev);
    ReversedShort("", '0');
    hide DigitsRev, Digits;
  }

  lemma ExtendedDigits(d: string, prec: nat, octal: bool, v: nat, none: bool)
    requires DigitsFacts(d, v) && (none ==> v == 0 && prec == 0)
    ensures var body := if none then "" else if v != 0 && octal then "0" + d else d;
            var p := if none && octal then 1 else prec;
            Repeat('0', Max0(p - |body|)) + body == Extended(if none then "" else d, prec, octal)
  {
    RepeatSame(prec - |d|);
    if v == 0 {
      ZeroDigits(prec, d);
    }
    hide Repeat;
    if none {
      assert Repeat('0', 1) + "" == "0" + (Repeat('0', 0) + "");
    } else if v != 0 && octal {
      OctalZero(prec, d);
    }
  }

  lemma UnsignedDigits(sp: Spec, v: nat)
    requires Plainly(sp) && sp.conv != Signed
    ensures var pl := UnsignedPayload(sp, v);
            Repeat('0', PrecPad(sp, pl)) + pl.body == Significant(sp, v)
  {
    var d := Digits(v, Base(sp.conv), sp.upper);
    var none, octal := NoDigits(sp, v), sp.alt && sp.conv == Octal;
    var prec: nat := sp.prec;
    UnsignedBody(sp, v, d);
    assert DigitsFacts(d, v) by {
      DigitsDenote(v, Base(sp.conv), sp.upper);
    }
    assert Significant(sp, v) == Extended(if none then "" else d, sp.prec, octal);
    assert none ==> v == 0 && sp.prec == 0;
    hide *;
    ExtendedDigits(d, prec, octal, v, none);
  }

  predicate DigitsFacts(d: string, v: nat) {
    d != "" && (d[0] == '0' <==> v == 0)
  }

  /** The zero that `#` adds to an octal number counts towards the precision. */
  lemma OctalZero(prec: nat, d: string)
    requires d != "" && d[0] != '0'
    ensures var p := Repeat('0', prec - |d|) + d;
            p != "" && Repeat('0', Max0(prec - |"0" + d|)) + ("0" + d) == if p[0] != '0' then "0" + p else p
  {
    var n := prec - |d|;
    if n > 0 {
      RepeatSum('0', n - 1, 1);
      assert Repeat('0', 1) == "0";
      assert Repeat('0', n - 1) + ("0" + d) == (Repeat('0', n - 1) + "0") + d;
    } else {
      assert Repeat('0', n) + d == d;
      assert Repeat('0', Max0(prec - |"0" + d|)) + ("0" + d) == "0" + d;
    }
  }

  lemma ZeroDigits(prec: nat, d: string)
    requires d != "" && d[0] == '0'
    ensures (Repeat('0', prec - |d|) + d)[0] == '0'
    ensures Repeat('0', 1) == "0" && Repeat('0', 0) == ""
  {
    if prec > |d| {
      assert Repeat('0', prec - |d|)[0] == '0';
    }
  }

  lemma ReversedEndZero(s: string)
    ensures Reversed(s + "0") == "0" + Reversed(s)
  {
    var a, b := Reversed(s + "0"), "0" + Reversed(s);
    assert |a| == |b|;
    forall i | 0 <= i < |a| ensures a[i] == b[i] {}
  }

  /** A numeric conversion whose `*` amounts have been taken from the arguments. */
  predicate Resolved(sp: Spec) {
    && Numeric(sp.conv) && sp.width >= 0
    && (sp.widthOpt == Literal || (sp.widthOpt == Absent && sp.width == 0))
    && (sp.precOpt == Absent || (sp.precOpt == Literal && !sp.zero))
  }

  /** What the engine puts out for a numeric conversion: `z` precision zeros before the digits `b`,
      and padding on one side, of zeros if the `0` flag is still set. */
  function Emitted(sp: Spec, lead: string, z: nat, b: string): string {
    var missing := sp.width - (|lead| + z + |b|);
    if sp.left then lead + Repeat('0', z) + b + Repeat(if sp.zero then '0' else ' ', missing)
    else if sp.zero then lead + Repeat('0', missing) + Repeat('0', z) + b
    else Repeat(' ', missing) + lead + Repeat('0', z) + b
  }

  lemma FillIs(sp: Spec, pl: Payload, lead: string)
    requires Resolved(sp) && |lead| == |One(pl.sign)| + |PrefixText(pl)|
    ensures PadChar(sp, pl) == if sp.widthOpt == Absent then NUL else if sp.zero then '0' else ' '
    ensures Fill(sp, pl) == Repeat(PadChar(sp, pl), sp.width - (|lead| + PrecPad(sp, pl) + |pl.body|))
    ensures sp.widthOpt == Absent ==> sp.width - (|lead| + PrecPad(sp, pl) + |pl.body|) <= 0
  {
    var missing := sp.width - (|lead| + PrecPad(sp, pl) + |pl.body|);
    assert FieldPad(sp, pl) == Max0(missing);
    if missing <= 0 {
      assert Repeat(PadChar(sp, pl), missing) == "" == Repeat(PadChar(sp, pl), 0);
    }
  }

  /** A sign and a prefix never occur together, so their order does not matter. */
  lemma Glue(s: string, h: string, z: string, b: string, fill: string)
    requires s == "" || h == ""
    ensures h + (s + z + b) + fill == (s + h) + z + b + fill
    ensures (s + h + fill) + ("" + z + b) + "" == (s + h) + fill + z + b + ""
    ensures (fill + h) + (s + z + b) + "" == fill + (s + h) + z + b + ""
  {
    assert s + h == h + s;
    assert h + (s + z + b) == (h + s) + z + b;
  }

  lemma LayoutIs(sp: Spec, pl: Payload, lead: string)
    requires Resolved(sp) && (pl.sign == NUL || pl.prefix == NUL) && lead == One(pl.sign) + PrefixText(pl)
    ensures Layout(sp, pl) == Emitted(sp, lead, PrecPad(sp, pl), pl.body)
  {
    FillIs(sp, pl, lead);
    var s, h, z, fill := One(pl.sign), PrefixText(pl), Repeat('0', PrecPad(sp, pl)), Fill(sp, pl);
    LayoutParts(sp, pl, s, h, z, fill);
    hide *;
    Glue(s, h, z, pl.body, fill);
    Glue(s, h, z, pl.body, "");
    EmittedParts(sp, lead, PrecPad(sp, pl), pl.body, z, fill, PadChar(sp, pl));
  }

  lemma EmittedParts(sp: Spec, lead: string, n: nat, b: string, z: string, fill: string, pad: char)
    requires pad == if sp.widthOpt == Absent then NUL else if sp.zero then '0' else ' '
    requires fill == Repeat(pad, sp.width - (|lead| + n + |b|)) && z == Repeat('0', n)
    requires sp.widthOpt == Absent ==> sp.width - (|lead| + n + |b|) <= 0
    ensures sp.left ==> Emitted(sp, lead, n, b) == lead + z + b + (if pad == NUL then "" else fill)
    ensures !sp.left && pad == '0' ==> Emitted(sp, lead, n, b) == lead + fill + z + b + ""
    ensures !sp.left && pad == NUL ==> Emitted(sp, lead, n, b) == lead + z + b + ""
    ensures !sp.left && pad == ' ' ==> Emitted(sp, lead, n, b) == fill + lead + z + b + ""
  {
    Nothing(sp.width - (|lead| + n + |b|));
    hide Repeat;
    var w := lead + z + b;
    assert "" + lead + z + b == w == w + "" == lead + "" + z + b;
    assert lead + fill + z + b == lead + fill + z + b + "" && fill + lead + z + b == fill + lead + z + b + "";
  }

  /** The three parts of a field, by pad character. */
  lemma LayoutParts(sp: Spec, pl: Payload, s: string, h: string, z: string, fill: string)
    requires sp.conv != Text && s == One(pl.sign) && h == PrefixText(pl) && z == Repeat('0', PrecPad(sp, pl)) && fill == Fill(sp, pl)
    ensures sp.left ==> Layout(sp, pl) == h + (s + z + pl.body) + (if PadChar(sp, pl) == NUL then "" else fill)
    ensures !sp.left && PadChar(sp, pl) == '0' ==> Layout(sp, pl) == (s + h + fill) + ("" + z + pl.body) + ""
    ensures !sp.left && PadChar(sp, pl) == NUL ==> Layout(sp, pl) == h + (s + z + pl.body) + ""
    ensures !sp.left && PadChar(sp, pl) == ' ' ==> Layout(sp, pl) == (fill + h) + (s + z + pl.body) + ""
  {
    hide Fill, PadChar, Repeat, PrecPad, One, PrefixText;
  }

  /** Unless a left-justified field keeps its `0` flag, this is the standard's padding. */
  lemma EmittedIsPadded(sp: Spec, lead: string, z: nat, b: string)
    requires !(sp.left && sp.zero)
    ensures Emitted(sp, lead, z, b) == Padded(sp, lead, Repeat('0', z) + b)
  {
    var missing := sp.width - (|lead| + z + |b|);
    var d, blanks, zeros := Repeat('0', z), Repeat(' ', missing), Repeat('0', missing);
    assert |lead + (d + b)| == |lead| + z + |b|;
    hide Repeat;
    assert lead + d + b == lead + (d + b);
    assert blanks + lead + d + b == blanks + lead + (d + b);
    assert lead + zeros + d + b == lead + zeros + (d + b);
  }

  lemma Nothing(n: int)
    ensures n <= 0 ==> Repeat(' ', n) == "" && Repeat('0', n) == ""
  {}

  /** For `%d %i %u %o %x %X` with literal or absent width and precision the engine emits what the
      standard asks for. */
  lemma MeetsStandard(sp: Spec, args: seq<Arg>)
    requires Plainly(sp)
    ensures Layout(sp, Converted(sp, args)) == Standard(sp, Argument(sp, args))
  {
    var v := Argument(sp, args);
    var pl := Converted(sp, args);
    DigitsOf(sp, v, pl, args);
    LeadIs(sp, v, pl, args);
    LayoutIs(sp, pl, Lead(sp, v));
    EmittedIsPadded(sp, Lead(sp, v), PrecPad(sp, pl), pl.body);
    hide Layout, Repeat, PrecPad, Significant, SignedPayload, UnsignedPayload, Lead, ToSigned, ToUnsigned;
  }

  lemma DigitsOf(sp: Spec, v: int, pl: Payload, args: seq<Arg>)
    requires Plainly(sp) && v == Argument(sp, args) && pl == Converted(sp, args)
    ensures Repeat('0', PrecPad(sp, pl)) + pl.body == Significant(sp, Abs(v))
  {
    if sp.conv == Signed {
      SignedDigits(sp, v);
    } else {
      UnsignedDigits(sp, v);
    }
  }

  lemma LeadIs(sp: Spec, v: int, pl: Payload, args: seq<Arg>)
    requires Numeric(sp.conv) && v == Argument(sp, args) && pl == Converted(sp, args)
    ensures Lead(sp, v) == One(pl.sign) + PrefixText(pl) && (pl.sign == NUL || pl.prefix == NUL)
  {}

  /** What the field means: blanks, sign or prefix, digits that denote exactly the argument, blanks;
      as long as the width asks for, or as long as its content. Only zero with precision zero has no
      digits. */
  lemma FieldDenotes(sp: Spec, args: seq<Arg>) returns (before: nat, digits: string, after: nat)
    requires Plainly(sp)
    ensures var v := Argument(sp, args);
            && Layout(sp, Converted(sp, args))
               == Repeat(' ', before) + Lead(sp, v) + digits + Repeat(' ', after)
            && ValueOf(digits, Base(sp.conv)) == Abs(v)
            && (digits == "" ==> v == 0 && sp.precOpt == Literal && sp.prec == 0)
    ensures var body := Lead(sp, Argument(sp, args)) + Significant(sp, Abs(Argument(sp, args)));
            |Layout(sp, Converted(sp, args))| == if sp.width > |body| then sp.width else |body|
  {
    MeetsStandard(sp, args);
    var v := Argument(sp, args);
    var lead, g := Lead(sp, v), Significant(sp, Abs(v));
    SignificantDenotes(sp, Abs(v));
    assert Abs(v) == 0 ==> v == 0;
    assert Standard(sp, v) == Padded(sp, lead, g);
    hide *;
    before, digits, after := PaddedDenotes(sp, lead, g, Base(sp.conv));
  }

  lemma PaddedDenotes(sp: Spec, lead: string, g: string, base: nat) returns (before: nat, digits: string, after: nat)
    ensures Padded(sp, lead, g) == Repeat(' ', before) + lead + digits + Repeat(' ', after)
    ensures ValueOf(digits, base) == ValueOf(g, base) && (digits == "" ==> g == "")
    ensures |Padded(sp, lead, g)| == if sp.width > |lead + g| then sp.width else |lead + g|
  {
    var missing := sp.width - |lead + g|;
    var fill := Max0(missing);
    Nothing(missing);
    Nothing(0);
    LeadingZeros(fill, g, base);
    hide ValueOf;
    before, digits, after := 0, g, 0;
    if sp.left {
      after := fill;
    } else if sp.zero {
      digits := Repeat('0', fill) + g;
      assert lead + Repeat('0', missing) + g == "" + lead + digits + "";
    } else {
      before := fill;
    }
  }

  lemma SignificantDenotes(sp: Spec, v: nat)
    requires Plainly(sp)
    ensures ValueOf(Significant(sp, v), Base(sp.conv)) == v
    ensures Significant(sp, v) == "" ==> NoDigits(sp, v)
  {
    var upper := sp.conv != Signed && sp.upper;
    var d := if NoDigits(sp, v) then "" else Digits(v, Base(sp.conv), upper);
    DigitsDenote(v, Base(sp.conv), upper);
    hide Digits;
    assert ValueOf("", Base(sp.conv)) == 0;
    var n := Max0(sp.prec - |d|);
    RepeatSame(sp.prec - |d|);
    LeadingZeros(n, d, Base(sp.conv));
    var p := Repeat('0', n) + d;
    hide Repeat, ValueOf;
    LeadingZeros(1, p, Base(sp.conv));
    OneZero();
  }

  lemma OneZero()
    ensures Repeat('0', 1) == "0"
  {
    assert Repeat('0', 0) == "";
  }

  // --- From the format string ------------------------------------------------------------------

  /** Every parsed numeric conversion without `*`, and without a `-` after the dot, is one of these. */
  lemma ParsedPlainly(f: string, i: nat)
    requires Parse(f, i).1 > 0
    requires var sp := Parse(f, i).0;
             Numeric(sp.conv) && sp.widthOpt != Star && sp.precOpt != Star && (sp.precOpt == Absent ==> sp.prec == 0)
    ensures Plainly(Parse(f, i).0)
  {
    ParsedExcludes(f, i);
    hide Parse;
  }

  // --- Every numeric conversion ----------------------------------------------------------------

  /** A numeric conversion as it is written in a format, before its conversion character makes the
      parser drop the `0` flag. */
  predicate Writable(w: Spec) {
    && Numeric(w.conv) && w.width >= 0 && w.prec >= 0 && !(w.left && w.zero)
    && (w.widthOpt != Literal ==> w.width == 0) && IsPrepend(w.prepend)
  }

  /** What the parser makes of it. */
  function Read(w: Spec): Spec {
    if w.precOpt != Absent then w.(zero := false) else w
  }

  function Written(f: string, i: nat): Spec
    requires Parse(f, i).1 > 0
  {
    var h := Head(f, i);
    var m := Modifier(f, h.1);
    h.0.(length := m.0, conv := ConversionOf(Peek(f, m.1)), upper := Peek(f, m.1) == 'X')
  }

  lemma WrittenIsRead(f: string, i: nat)
    requires Parse(f, i).1 > 0 && Numeric(Parse(f, i).0.conv)
    ensures Writable(Written(f, i)) && Parse(f, i).0 == Read(Written(f, i))
  {
    HeadExcludes(f, i);
    hide Head, Modifier;
  }

  /** The arguments behind the `*` ones. */
  function Rest(w: Spec, args: seq<Arg>): seq<Arg> {
    AfterIf(AfterIf(args, w.widthOpt == Star), w.precOpt == Star)
  }

  predicate NegativeWidth(w: Spec, args: seq<Arg>) {
    w.widthOpt == Star && NextInt(args) < 0
  }

  predicate NegativePrecision(w: Spec, args: seq<Arg>) {
    w.precOpt == Star && NextInt(AfterIf(args, w.widthOpt == Star)) < 0
  }

  /** What the standard makes of it: a negative `*` width is a `-` flag and a width, a negative `*`
      precision none at all, and the `0` flag counts only without `-` and without a precision. The
      form `.-n`, which the standard leaves undefined, is taken as no precision. */
  function Asked(w: Spec, args: seq<Arg>): Spec {
    var left := w.left || NegativeWidth(w, args);
    var given := w.precOpt == Literal || (w.precOpt == Star && !NegativePrecision(w, args));
    w.(left := left, zero := w.zero && !left && !given,
       widthOpt := if w.widthOpt == Absent then Absent else Literal,
       width := if w.widthOpt == Star then Abs(NextInt(args)) else w.width,
       precOpt := if given then Literal else Absent,
       prec := if !given then 0 else if w.precOpt == Star then NextInt(AfterIf(args, w.widthOpt == Star)) else w.prec)
  }

  /** What the engine makes of it. */
  function Taken(w: Spec, args: seq<Arg>): Spec {
    StarPrecision(StarWidth(Read(w), args), AfterIf(args, w.widthOpt == Star))
  }

  /** The two differ at most in the `0` flag and in a precision that is not given. */
  lemma TakenIs(w: Spec, args: seq<Arg>)
    requires Writable(w)
    ensures var e, a := Taken(w, args), Asked(w, args);
            && Resolved(e) && Plainly(a) && e == a.(zero := e.zero, prec := e.prec)
            && (e.precOpt == Literal ==> e == a)
            && (e.zero <==> w.zero && w.precOpt == Absent)
            && (w.precOpt == Absent ==> e.precOpt == Absent && e.prec == w.prec)
            && (w.precOpt == Star && e.precOpt == Absent ==> e.prec < 0)
  {
    var args1 := AfterIf(args, w.widthOpt == Star);
    assert Taken(w, args) == StarPrecision(StarWidth(Read(w), args), args1);
    WidthTaken(w, args);
    hide StarWidth;
  }

  lemma WidthTaken(w: Spec, args: seq<Arg>)
    requires Writable(w)
    ensures StarWidth(Read(w), args)
            == w.(zero := w.zero && w.precOpt == Absent, left := w.left || NegativeWidth(w, args),
                  widthOpt := if w.widthOpt == Absent then Absent else Literal,
                  width := if w.widthOpt == Star then Abs(NextInt(args)) else w.width)
  {}

  /** Without a precision the conversion buffer holds the significant digits. */
  lemma BareDigits(e: Spec, a: Spec, args: seq<Arg>)
    requires Resolved(e) && Plainly(a) && e == a.(zero := e.zero, prec := e.prec) && e.precOpt == Absent
    ensures var pl, b := Converted(e, args), Significant(a, Abs(Argument(a, args)));
            pl.body == b && PrecPad(e, pl) == Max0(e.prec - |b|) && b != "" && b[|b| - 1] != ' '
  {
    var v := Argument(a, args);
    DigitsOf(a, v, Converted(a, args), args);
    SameBody(e, a, args);
    SignificantEnd(a, Abs(v));
    hide Converted, Significant, Argument;
    assert Repeat('0', 0) == "";
    assert Repeat('0', 0) + Converted(a, args).body == Converted(a, args).body;
  }

  lemma SameBody(e: Spec, a: Spec, args: seq<Arg>)
    requires Resolved(e) && Plainly(a) && e == a.(zero := e.zero, prec := e.prec) && e.precOpt == Absent
    ensures Converted(e, args).body == Converted(a, args).body && Converted(e, args).prec == e.prec
    ensures PrecPad(a, Converted(a, args)) == 0
  {
    hide DigitsRev, Reversed;
  }

  lemma SignificantEnd(a: Spec, v: nat)
    requires Plainly(a) && a.precOpt == Absent
    ensures var b := Significant(a, v); b != "" && b[|b| - 1] != ' '
  {
    var d := Digits(v, Base(a.conv), a.conv != Signed && a.upper);
    DigitsEnd(v, Base(a.conv), a.conv != Signed && a.upper);
    hide Digits;
    assert Repeat('0', a.prec - |d|) == "";
    assert "" + d == d;
  }

  lemma DigitsEnd(v: nat, base: nat, upper: bool)
    requires 2 <= base <= 16
    ensures var d := Digits(v, base, upper); d[|d| - 1] != ' '
  {
    DigitCharValue(v % base, upper);
  }

  /** When the engine's field is the standard's: without precision zeros, if the `0` flag is the same
      or there is nothing to pad; with them, if they are among the zeros the `0` flag asks for. */
  predicate Agree(e: Spec, a: Spec, lead: string, z: nat, b: string) {
    var room := a.width - |lead| - |b|;
    if z == 0 then e.zero == a.zero || room <= 0 else e.zero && a.zero && z <= room
  }

  lemma Compare(e: Spec, a: Spec, lead: string, z: nat, b: string)
    requires e == a.(zero := e.zero, prec := e.prec) && !(a.left && a.zero)
    requires b != "" && b[|b| - 1] != ' ' && (lead != "" ==> lead[|lead| - 1] != '0')
    requires (e.zero && !a.zero ==> a.left) && (!e.zero && a.zero ==> z == 0)
    ensures Emitted(e, lead, z, b) == Emitted(a, lead, 0, b) <==> Agree(e, a, lead, z, b)
  {
    if z == 0 {
      CompareBare(e, a, lead, b);
    } else {
      CompareZeros(e, a, lead, z, b);
    }
  }

  lemma CompareBare(e: Spec, a: Spec, lead: string, b: string)
    requires e == a.(zero := e.zero, prec := e.prec) && !(a.left && a.zero) && (e.zero && !a.zero ==> a.left)
    requires lead != "" ==> lead[|lead| - 1] != '0'
    ensures Emitted(e, lead, 0, b) == Emitted(a, lead, 0, b) <==> Agree(e, a, lead, 0, b)
  {
    var room := a.width - |lead| - |b|;
    assert Repeat('0', 0) == "";
    hide Repeat;
    RightPadding(lead, b, room);
    LeftPadding(lead, b, room);
  }

  lemma CompareZeros(e: Spec, a: Spec, lead: string, z: nat, b: string)
    requires e == a.(zero := e.zero, prec := e.prec) && !(a.left && a.zero) && z > 0
    requires b != "" && b[|b| - 1] != ' ' && (lead != "" ==> lead[|lead| - 1] != '0')
    requires (e.zero && !a.zero ==> a.left) && (a.zero ==> e.zero)
    ensures Emitted(e, lead, z, b) == Emitted(a, lead, 0, b) <==> Agree(e, a, lead, z, b)
  {
    var room := a.width - |lead| - |b|;
    assert Repeat('0', 0) == "";
    hide Repeat;
    if a.left {
      LeftJustified(lead, b, z, room, if e.zero then '0' else ' ');
    } else if e.zero {
      ZeroPadded(lead, b, z, room);
    } else {
      RightJustified(lead, b, z, room);
    }
  }

  lemma RightPadding(lead: string, b: string, room: int)
    ensures lead + "" + b + Repeat('0', room) == lead + "" + b + Repeat(' ', room) <==> room <= 0
  {
    var s, t := lead + "" + b + Repeat('0', room), lead + "" + b + Repeat(' ', room);
    if room > 0 {
      assert s[|s| - 1] == '0' && t[|s| - 1] == ' ';
    } else {
      assert Repeat('0', room) == "" == Repeat(' ', room);
    }
  }

  lemma LeftPadding(lead: string, b: string, room: int)
    requires lead != "" ==> lead[|lead| - 1] != '0'
    ensures Repeat(' ', room) + lead + "" + b == lead + Repeat('0', room) + "" + b <==> room <= 0
  {
    var s, t := Repeat(' ', room) + lead + "" + b, lead + Repeat('0', room) + "" + b;
    if room > 0 {
      var p := room + |lead| - 1;
      assert t[p] == '0';
      assert s[p] == if lead == "" then ' ' else lead[|lead| - 1];
    } else {
      assert Repeat('0', room) == "" == Repeat(' ', room);
      assert "" + lead + "" + b == lead + "" + "" + b;
    }
  }

  lemma LeftJustified(lead: string, b: string, z: nat, room: int, pad: char)
    requires z > 0 && b != "" && b[|b| - 1] != ' '
    ensures lead + Repeat('0', z) + b + Repeat(pad, room - z) != lead + "" + b + Repeat(' ', room)
  {
    var s, t := lead + Repeat('0', z) + b + Repeat(pad, room - z), lead + "" + b + Repeat(' ', room);
    if z <= room {
      var p := |lead| + |b| + z - 1;
      assert s[p] == b[|b| - 1] && t[p] == ' ';
    } else {
      assert |s| == |lead| + z + |b| != |t|;
    }
  }

  lemma ZeroPadded(lead: string, b: string, z: nat, room: int)
    requires z > 0
    ensures lead + Repeat('0', room - z) + Repeat('0', z) + b == lead + Repeat('0', room) + "" + b <==> z <= room
  {
    var s, t := lead + Repeat('0', room - z) + Repeat('0', z) + b, lead + Repeat('0', room) + "" + b;
    if z <= room {
      RepeatSum('0', room - z, z);
      assert s == lead + (Repeat('0', room - z) + Repeat('0', z)) + b;
    } else {
      assert |s| == |lead| + z + |b| != |t|;
    }
  }

  lemma RightJustified(lead: string, b: string, z: nat, room: int)
    requires z > 0 && (lead != "" ==> lead[|lead| - 1] != '0')
    ensures Repeat(' ', room - z) + lead + Repeat('0', z) + b != Repeat(' ', room) + lead + "" + b
  {
    var s, t := Repeat(' ', room - z) + lead + Repeat('0', z) + b, Repeat(' ', room) + lead + "" + b;
    if z <= room {
      var p := room + |lead| - 1;
      assert s[p] == '0';
      assert t[p] == if lead == "" then ' ' else lead[|lead| - 1];
    } else {
      assert |s| == |lead| + z + |b| != |t|;
    }
  }

  /** The field the standard asks for, without its padding. */
  function Content(w: Spec, args: seq<Arg>): string {
    var v := Argument(w, Rest(w, args));
    Lead(w, v) + Significant(Asked(w, args), Abs(v))
  }

  /** The engine pads with zeros on the right: `0` flag, negative `*` width, no precision, and
      something to pad. */
  predicate ZerosOnTheRight(w: Spec, args: seq<Arg>) {
    w.zero && NegativeWidth(w, args) && w.precOpt == Absent && |Content(w, args)| < Asked(w, args).width
  }

  /** The engine pads with blanks where zeros are due: `0` flag, not left-justified, negative `*`
      precision, and something to pad. */
  predicate ZerosForgotten(w: Spec, args: seq<Arg>) {
    w.zero && !NegativeWidth(w, args) && NegativePrecision(w, args) && |Content(w, args)| < Asked(w, args).width
  }

  /** The engine counts `n` of `.-n`: more than the digits there are, and not all of the zeros it
      adds for that are due to the `0` flag. */
  predicate MinusCounts(w: Spec, args: seq<Arg>) {
    var a, v := Asked(w, args), Argument(w, Rest(w, args));
    w.precOpt == Absent && w.prec > |Significant(a, Abs(v))| && !(a.zero && |Lead(w, v)| + w.prec <= a.width)
  }

  /** Every numeric conversion, `*` amounts included, prints what the standard asks for, except in
      these three cases. */
  lemma MeetsStandardUnless(w: Spec, args: seq<Arg>)
    requires Writable(w)
    ensures Field(Read(w), args).0 == Standard(Asked(w, args), Argument(w, Rest(w, args)))
            <==> !ZerosOnTheRight(w, args) && !ZerosForgotten(w, args) && !MinusCounts(w, args)
  {
    FieldIs(w, args);
    hide *;
    if Taken(w, args).precOpt == Literal {
      WithPrecision(w, args);
    } else {
      WithoutPrecision(w, args);
    }
  }

  lemma WithPrecision(w: Spec, args: seq<Arg>)
    requires Writable(w) && Taken(w, args).precOpt == Literal
    ensures Layout(Taken(w, args), Converted(Taken(w, args), Rest(w, args))) == Standard(Asked(w, args), Argument(w, Rest(w, args)))
    ensures !ZerosOnTheRight(w, args) && !ZerosForgotten(w, args) && !MinusCounts(w, args)
  {
    TakenIs(w, args);
    hide Layout, Standard, Converted, Content, Significant, Argument;
    MeetsStandard(Asked(w, args), Rest(w, args));
    SameArgument(w, Asked(w, args), Rest(w, args));
  }

  lemma WithoutPrecision(w: Spec, args: seq<Arg>)
    requires Writable(w) && Taken(w, args).precOpt != Literal
    ensures Layout(Taken(w, args), Converted(Taken(w, args), Rest(w, args))) == Standard(Asked(w, args), Argument(w, Rest(w, args)))
            <==> !ZerosOnTheRight(w, args) && !ZerosForgotten(w, args) && !MinusCounts(w, args)
  {
    var e, a, rest := Taken(w, args), Asked(w, args), Rest(w, args);
    TakenIs(w, args);
    TakenFacts(w, args);
    var v := Argument(a, rest);
    var b := Significant(a, Abs(v));
    hide *;
    SameArgument(w, a, rest);
    SameArgument(e, a, rest);
    BareDigits(e, a, rest);
    LeadEnd(a, v);
    StandardIs(a, v, b);
    EngineIs(e, v, rest);
    assert e.prec < 0 ==> Max0(e.prec - |b|) == 0 by { NoPadding(e.prec, |b|); }
    Compare(e, a, Lead(a, v), Max0(e.prec - |b|), b);
    Conditions(w, args, e, a, v, b);
  }

  lemma NoPadding(prec: int, n: nat)
    ensures prec < 0 ==> Max0(prec - n) == 0
  {}

  lemma TakenFacts(w: Spec, args: seq<Arg>)
    requires Writable(w)
    ensures var e, a := Taken(w, args), Asked(w, args);
            && a.conv == w.conv && a.length == w.length && a.prepend == w.prepend && a.alt == w.alt && a.upper == w.upper
            && IsPrepend(a.prepend) && !(a.left && a.zero) && (e.zero && !a.zero ==> a.left)
            && (e.precOpt != Literal ==> e.precOpt == Absent && (!e.zero && a.zero ==> e.prec < 0))
  {
    TakenIs(w, args);
    hide Taken;
  }

  lemma FieldIs(w: Spec, args: seq<Arg>)
    ensures Field(Read(w), args).0 == Layout(Taken(w, args), Converted(Taken(w, args), Rest(w, args)))
  {
    hide Layout, Converted;
  }

  lemma SameArgument(w: Spec, a: Spec, rest: seq<Arg>)
    requires a.conv == w.conv && a.length == w.length && a.prepend == w.prepend && a.alt == w.alt && a.upper == w.upper
    ensures Argument(a, rest) == Argument(w, rest)
    ensures forall v: int :: Lead(a, v) == Lead(w, v)
  {}

  lemma LeadEnd(a: Spec, v: int)
    requires IsPrepend(a.prepend)
    ensures Lead(a, v) != "" ==> Lead(a, v)[|Lead(a, v)| - 1] != '0'
  {}

  lemma StandardIs(a: Spec, v: int, b: string)
    requires Plainly(a) && b == Significant(a, Abs(v))
    ensures Standard(a, v) == Emitted(a, Lead(a, v), 0, b)
  {
    EmittedIsPadded(a, Lead(a, v), 0, b);
    hide Emitted, Padded, Lead, Significant;
    assert Repeat('0', 0) + b == b;
  }

  lemma EngineIs(e: Spec, v: int, args: seq<Arg>)
    requires Resolved(e) && v == Argument(e, args)
    ensures var pl := Converted(e, args);
            Layout(e, pl) == Emitted(e, Lead(e, v), PrecPad(e, pl), pl.body)
  {
    LeadIs(e, v, Converted(e, args), args);
    hide Layout, Converted, Emitted, Lead;
    LayoutIs(e, Converted(e, args), Lead(e, v));
  }

  /** The three cases are those where the fields differ. */
  lemma Conditions(w: Spec, args: seq<Arg>, e: Spec, a: Spec, v: int, b: string)
    requires Writable(w) && e == Taken(w, args) && a == Asked(w, args) && e.precOpt == Absent
    requires v == Argument(w, Rest(w, args)) && b == Significant(a, Abs(v)) && |Lead(a, v)| == |Lead(w, v)|
    ensures Agree(e, a, Lead(a, v), Max0(e.prec - |b|), b)
            <==> !ZerosOnTheRight(w, args) && !ZerosForgotten(w, args) && !MinusCounts(w, args)
  {
    ConditionFacts(w, args);
    hide Lead, Significant, Argument, Asked, Taken, Writable;
    assert |Content(w, args)| == |Lead(w, v)| + |b|;
  }

  lemma ConditionFacts(w: Spec, args: seq<Arg>)
    requires Writable(w) && Taken(w, args).precOpt == Absent
    ensures var e, a := Taken(w, args), Asked(w, args);
            && e.zero == (w.zero && w.precOpt == Absent) && a.zero == (w.zero && !NegativeWidth(w, args))
            && (w.precOpt == Absent ==> e.prec == w.prec) && (w.precOpt != Absent ==> NegativePrecision(w, args) && e.prec < 0)
  {}

  /** A format that is one numeric conversion prints what the standard asks for, except in these
      three cases. */
  lemma OneConversion(f: string, args: seq<Arg>)
    requires f != "" && f[0] == '%' && Parse(f, 0).1 == |f| && Numeric(Parse(f, 0).0.conv)
    ensures var w := Written(f, 0);
            Render(f, 0, args) == Standard(Asked(w, args), Argument(w, Rest(w, args)))
            <==> !ZerosOnTheRight(w, args) && !ZerosForgotten(w, args) && !MinusCounts(w, args)
  {
    WrittenIsRead(f, 0);
    var w := Written(f, 0);
    hide *;
    MeetsStandardUnless(w, args);
    OneField(f, args);
  }

  lemma OneField(f: string, args: seq<Arg>)
    requires f != "" && f[0] == '%' && Parse(f, 0).1 == |f|
    ensures Render(f, 0, args) == Field(Parse(f, 0).0, args).0
  {
    hide Parse, Field;
    RenderStep(f, 0, args);
    assert Render(f, |f|, Field(Parse(f, 0).0, args).1) == "";
  }

  /** Without `*` and without `.-` none of the cases applies. */
  lemma PlainConversions(w: Spec, args: seq<Arg>)
    requires Writable(w) && w.widthOpt != Star && w.precOpt != Star && (w.precOpt == Absent ==> w.prec == 0)
    ensures !ZerosOnTheRight(w, args) && !ZerosForgotten(w, args) && !MinusCounts(w, args)
  {}

  /** A decimal conversion of a plain integer. */
  function SignedSpec(zero: bool, widthOpt: Amount, width: int, precOpt: Amount, prec: int): Spec {
    Spec(NUL, false, false, zero, widthOpt, width, precOpt, prec, Plain, Signed, false)
  }

  lemma FortyTwo(w: Spec, e: Spec, args: seq<Arg>)
    requires Writable(w) && w == SignedSpec(w.zero, w.widthOpt, w.width, w.precOpt, w.prec) && e == Taken(w, args)
    requires e.precOpt == Absent && Rest(w, args) == [Int(42)]
    ensures Field(Read(w), args).0 == Emitted(e, "", Max0(e.prec - 2), "42") && Content(w, args) == "42"
    ensures Lead(w, Argument(w, Rest(w, args))) == "" && Significant(Asked(w, args), Abs(Argument(w, Rest(w, args)))) == "42"
  {
    var a := Asked(w, args);
    TakenIs(w, args);
    SameArgument(w, a, [Int(42)]);
    SameArgument(w, e, [Int(42)]);
    FortyTwoDigits();
    assert Argument(w, [Int(42)]) == 42;
    assert Lead(w, 42) == "";
    hide Taken, Asked, DigitsRev, Reversed, Layout, Emitted, Repeat;
    assert Converted(e, [Int(42)]).body == "42" && e.conv == Signed && e.prepend == NUL;
    BareDigits(e, a, [Int(42)]);
    FieldIs(w, args);
    EngineIs(e, 42, [Int(42)]);
  }

  lemma FortyTwoDigits()
    ensures ToSigned(42, Plain) == 42 && Reversed(DigitsRev(42, 10, false)) == "42"
  {
    assert DigitsRev(42, 10, false) == "24";
    assert Reversed("24") == "42";
  }

  /** `%0*d` of -5 and 42 prints 42000, where the standard asks for 42 and three blanks. */
  lemma ZerosOnTheRightHappen()
    ensures Parse("%0*d", 0) == (SignedSpec(true, Star, 0, Absent, 0), 4)
    ensures ZerosOnTheRight(Written("%0*d", 0), [Int(-5), Int(42)])
    ensures Render("%0*d", 0, [Int(-5), Int(42)]) == "42000"
  {
    var f, args, w := "%0*d", [Int(-5), Int(42)], SignedSpec(true, Star, 0, Absent, 0);
    StarWidthRead();
    StarWidthField();
    hide *;
    OneField(f, args);
  }

  lemma StarWidthField()
    ensures var w, args := SignedSpec(true, Star, 0, Absent, 0), [Int(-5), Int(42)];
            ZerosOnTheRight(w, args) && Field(Read(w), args).0 == "42000"
  {
    var w, args := SignedSpec(true, Star, 0, Absent, 0), [Int(-5), Int(42)];
    var e := Taken(w, args);
    assert Rest(w, args) == [Int(42)] && e == w.(left := true, widthOpt := Literal, width := 5);
    assert Max0(e.prec - 2) == 0 && Asked(w, args).width == 5;
    hide Field, Content, Taken, Emitted;
    FortyTwo(w, e, args);
    RightZeros(e);
  }

  lemma RightZeros(e: Spec)
    requires e.left && e.zero && e.width == 5
    ensures Emitted(e, "", 0, "42") == "42000"
  {
    assert Repeat('0', 3) == "000" && Repeat('0', 0) == "";
  }

  lemma StarWidthRead()
    ensures var f, w := "%0*d", SignedSpec(true, Star, 0, Absent, 0);
            Parse(f, 0) == (w, 4) && Written(f, 0) == w == Read(w)
  {
    var f, w := "%0*d", SignedSpec(true, Star, 0, Absent, 0);
    ZeroFlag(f);
    assert Head(f, 0) == (w.(conv := Percent), 3) by {
      hide Flags;
    }
    hide Head;
    assert Modifier(f, 3) == (Plain, 3) && Peek(f, 3) == 'd';
  }

  lemma ZeroFlag(f: string)
    requires |f| > 2 && f[1] == '0' && !IsFlag(f[2])
    ensures Flags(f, 1, EMPTY) == (EMPTY.(zero := true), 2)
  {
    assert Flags(f, 2, EMPTY.(zero := true)) == (EMPTY.(zero := true), 2);
  }

  /** `%05.*d` of -1 and 42 prints three blanks and 42, where the standard asks for 00042. */
  lemma ZerosForgottenHappen()
    ensures Parse("%05.*d", 0) == (SignedSpec(false, Literal, 5, Star, 0), 6)
    ensures ZerosForgotten(Written("%05.*d", 0), [Int(-1), Int(42)])
    ensures Render("%05.*d", 0, [Int(-1), Int(42)]) == "   42"
  {
    var f, args, w := "%05.*d", [Int(-1), Int(42)], SignedSpec(true, Literal, 5, Star, 0);
    StarPrecisionRead();
    StarPrecisionField();
    hide *;
    OneField(f, args);
  }

  lemma StarPrecisionField()
    ensures var w, args := SignedSpec(true, Literal, 5, Star, 0), [Int(-1), Int(42)];
            ZerosForgotten(w, args) && Field(Read(w), args).0 == "   42"
  {
    var w, args := SignedSpec(true, Literal, 5, Star, 0), [Int(-1), Int(42)];
    var e := Taken(w, args);
    assert Rest(w, args) == [Int(42)] && e == w.(zero := false, precOpt := Absent, prec := -1);
    assert Max0(e.prec - 2) == 0 && Asked(w, args).width == 5;
    hide Field, Content, Taken, Emitted;
    FortyTwo(w, e, args);
    LeftBlanks(e);
  }

  lemma LeftBlanks(e: Spec)
    requires !e.left && !e.zero && e.width == 5
    ensures Emitted(e, "", 0, "42") == "   42"
  {
    assert Repeat(' ', 3) == "   " && Repeat('0', 0) == "";
  }

  lemma StarPrecisionRead()
    ensures var f, w := "%05.*d", SignedSpec(true, Literal, 5, Star, 0);
            Parse(f, 0) == (SignedSpec(false, Literal, 5, Star, 0), 6) && Written(f, 0) == w
            && Read(w) == SignedSpec(false, Literal, 5, Star, 0)
  {
    var f, w := "%05.*d", SignedSpec(true, Literal, 5, Star, 0);
    ZeroFlag(f);
    assert Number(f, 2, 0) == (5, 3) by {
      assert Number(f, 3, 5) == (5, 3);
    }
    assert Head(f, 0) == (w.(conv := Percent), 5) by {
      hide Flags, Number;
    }
    hide Head;
    assert Modifier(f, 5) == (Plain, 5) && Peek(f, 5) == 'd';
  }

  /** `%.-3d` of 42 prints 042. */
  lemma MinusCountsHappens()
    ensures Parse("%.-3d", 0) == (SignedSpec(false, Absent, 0, Absent, 3), 5)
    ensures MinusCounts(Written("%.-3d", 0), [Int(42)])
    ensures Render("%.-3d", 0, [Int(42)]) == "042"
  {
    var f, args, w := "%.-3d", [Int(42)], SignedSpec(false, Absent, 0, Absent, 3);
    MinusRead();
    MinusField();
    hide *;
    OneField(f, args);
  }

  lemma MinusField()
    ensures var w, args := SignedSpec(false, Absent, 0, Absent, 3), [Int(42)];
            MinusCounts(w, args) && Field(Read(w), args).0 == "042"
  {
    var w, args := SignedSpec(false, Absent, 0, Absent, 3), [Int(42)];
    var e := Taken(w, args);
    assert Rest(w, args) == [Int(42)] && e == w;
    assert Max0(e.prec - 2) == 1 && !Asked(w, args).zero;
    hide Field, Content, Taken, Emitted;
    FortyTwo(w, e, args);
    MinusZero(e);
  }

  lemma MinusZero(e: Spec)
    requires !e.left && !e.zero && e.width == 0
    ensures Emitted(e, "", 1, "42") == "042"
  {
    assert Repeat('0', 1) == "0" && Repeat(' ', -3) == "";
  }

  lemma MinusRead()
    ensures var f, w := "%.-3d", SignedSpec(false, Absent, 0, Absent, 3);
            Parse(f, 0) == (w, 5) && Written(f, 0) == w == Read(w)
  {
    var f, w := "%.-3d", SignedSpec(false, Absent, 0, Absent, 3);
    assert Flags(f, 1, EMPTY) == (EMPTY, 1);
    assert Number(f, 1, 0) == (0, 1);
    assert Number(f, 3, 0) == (3, 4) by {
      assert Number(f, 4, 3) == (3, 4);
    }
    assert Head(f, 0) == (w.(conv := Percent), 4) by {
      hide Flags, Number;
    }
    hide Head;
    assert Modifier(f, 4) == (Plain, 4) && Peek(f, 4) == 'd';
  }
}
