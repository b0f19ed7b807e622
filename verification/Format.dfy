/** Conversion specifications of the printf engine (kernel/src/lib/nanoprintf.h): flags, field width,
    precision, length modifier and conversion, and the parser that reads them. */
module Format {

  datatype Amount = Absent | Literal | Star
  datatype Length = Plain | Short | Char | Long | LongLong | IntMax | SizeT | PtrDiff
  datatype Conversion = Percent | Character | Text | Signed | Octal | Hex | Unsigned | Pointer

  const NUL: char := '\0'

  /** `npf_format_spec_t`. `prepend` is NUL, ' ' or '+'; `upper` stands for a zero `case_adjust`. */
  datatype Spec = Spec(
    prepend: char, alt: bool, left: bool, zero: bool,
    widthOpt: Amount, width: int, precOpt: Amount, prec: int,
    length: Length, conv: Conversion, upper: bool)

  /** A C string: its characters up to the terminator. */
  ghost predicate CString(f: string) {
    forall i :: 0 <= i < |f| ==> f[i] != NUL
  }

  /** The character at `i`, the terminator at the end. */
  function Peek(f: string, i: nat): char {
    if i < |f| then f[i] else NUL
  }

  predicate IsDigit(c: char) {
    '0' <= c <= '9'
  }

  predicate IsFlag(c: char) {
    c == '-' || c == '0' || c == '+' || c == ' ' || c == '#'
  }

  // --- The grammar -----------------------------------------------------------------------------

  function AddFlag(sp: Spec, c: char): Spec {
    if c == '-' then sp.(left := true, zero := false)
    else if c == '0' then sp.(zero := !sp.left)
    else if c == '+' then sp.(prepend := '+')
    else if c == ' ' then (if sp.prepend == NUL then sp.(prepend := ' ') else sp)
    else if c == '#' then sp.(alt := true)
    else sp
  }

  /** The flags from `i` on, and where they end. */
  function Flags(f: string, i: nat, sp: Spec): (r: (Spec, nat))
    ensures i <= r.1 && (i <= |f| ==> r.1 <= |f|)
    decreases |f| - i
  {
    if i < |f| && IsFlag(f[i]) then Flags(f, i + 1, AddFlag(sp, f[i])) else (sp, i)
  }

  function DigitOf(c: char): nat
    requires IsDigit(c)
  {
    c as nat - 48
  }

  /** The decimal number from `i` on, after the digits already read in `acc`. */
  function Number(f: string, i: nat, acc: nat): (r: (nat, nat))
    ensures i <= r.1 && (i <= |f| ==> r.1 <= |f|)
    decreases |f| - i
  {
    if i < |f| && IsDigit(f[i]) then Number(f, i + 1, acc * 10 + DigitOf(f[i])) else (acc, i)
  }

  function Width(f: string, i: nat, sp: Spec): (r: (Spec, nat))
    ensures i <= r.1
  {
    if Peek(f, i) == '*' then (sp.(widthOpt := Star, width := 0), i + 1)
    else
      var r := Number(f, i, 0);
      (sp.(widthOpt := if r.1 > i then Literal else Absent, width := r.0), r.1)
  }

  /** A `.` followed by `-` leaves the precision absent but reads its digits. */
  function Precision(f: string, i: nat, sp: Spec): (r: (Spec, nat))
    ensures i <= r.1
  {
    if Peek(f, i) != '.' then (sp.(precOpt := Absent, prec := 0), i)
    else if Peek(f, i + 1) == '*' then (sp.(precOpt := Star, prec := 0), i + 2)
    else
      var minus := Peek(f, i + 1) == '-';
      var r := Number(f, if minus then i + 2 else i + 1, 0);
      (sp.(precOpt := if minus then Absent else Literal, prec := r.0), r.1)
  }

  function Modifier(f: string, i: nat): (r: (Length, nat))
    ensures i <= r.1
  {
    match Peek(f, i)
    case 'h' => if Peek(f, i + 1) == 'h' then (Char, i + 2) else (Short, i + 1)
    case 'l' => if Peek(f, i + 1) == 'l' then (LongLong, i + 2) else (Long, i + 1)
    case 'j' => (IntMax, i + 1)
    case 'z' => (SizeT, i + 1)
    case 't' => (PtrDiff, i + 1)
    case _ => (Plain, i)
  }

  predicate IsConversion(c: char) {
    c == '%' || c == 'c' || c == 's' || c == 'i' || c == 'd' || c == 'o' || c == 'u' || c == 'x' || c == 'X' || c == 'p'
  }

  function ConversionOf(c: char): Conversion
    requires IsConversion(c)
  {
    match c
    case '%' => Percent
    case 'c' => Character
    case 's' => Text
    case 'i' => Signed
    case 'd' => Signed
    case 'o' => Octal
    case 'u' => Unsigned
    case 'p' => Pointer
    case _ => Hex
  }

  predicate Numeric(c: Conversion) {
    c == Signed || c == Octal || c == Hex || c == Unsigned
  }

  /** What the conversion character settles. */
  function Settle(sp: Spec, c: char): Spec
    requires IsConversion(c)
  {
    var conv := ConversionOf(c);
    var sp1 := sp.(conv := conv, upper := c == 'X');
    if conv == Percent || conv == Character || conv == Pointer then sp1.(precOpt := Absent)
    else if conv == Text || (Numeric(conv) && sp.precOpt != Absent) then sp1.(zero := false)
    else sp1
  }

  const EMPTY: Spec := Spec(NUL, false, false, false, Absent, 0, Absent, 0, Plain, Percent, false)

  /** Everything before the length modifier. */
  function Head(f: string, i: nat): (r: (Spec, nat))
    ensures i < r.1
  {
    var a := Flags(f, i + 1, EMPTY);
    var b := Width(f, a.1, a.0);
    Precision(f, b.1, b.0)
  }

  /** The specification whose `%` is at `i`, and its length; length 0 if there is none. */
  function Parse(f: string, i: nat): (r: (Spec, nat))
    ensures i + r.1 <= |f| || r.1 == 0
  {
    var h := Head(f, i);
    var m := Modifier(f, h.1);
    var c := Peek(f, m.1);
    if IsConversion(c) then (Settle(h.0.(length := m.0), c), m.1 + 1 - i) else (h.0, 0)
  }

  // --- The parser ------------------------------------------------------------------------------

  method ParseNumber(f: string, start: nat) returns (n: nat, cur: nat)
    ensures (n, cur) == Number(f, start, 0)
  {
    n, cur := 0, start;
    while IsDigit(Peek(f, cur))
      invariant start <= cur && Number(f, cur, n) == Number(f, start, 0)
      decreases |f| - cur
    {
      n := n * 10 + DigitOf(Peek(f, cur));
      cur := cur + 1;
    }
  }

  method ParseFlags(f: string, start: nat) returns (sp: Spec, cur: nat)
    ensures (sp, cur) == Flags(f, start + 1, EMPTY)
  {
    sp := EMPTY;
    cur := start + 1;
    while Peek(f, cur) != NUL
      invariant start < cur && Flags(f, cur, sp) == Flags(f, start + 1, EMPTY)
      decreases |f| - cur
    {
      var c := Peek(f, cur);
      if c == '-' {
        sp := sp.(left := true, zero := false);
      } else if c == '0' {
        sp := sp.(zero := !sp.left);
      } else if c == '+' {
        sp := sp.(prepend := '+');
      } else if c == ' ' {
        if sp.prepend == NUL {
          sp := sp.(prepend := ' ');
        }
      } else if c == '#' {
        sp := sp.(alt := true);
      } else {
        break;
      }
      cur := cur + 1;
    }
  }

  method ParseAmounts(f: string, start: nat, sp0: Spec) returns (sp: Spec, cur: nat)
    ensures var w := Width(f, start, sp0); (sp, cur) == Precision(f, w.1, w.0)
  {
    sp, cur := sp0, start;
    if Peek(f, cur) == '*' {
      sp := sp.(widthOpt := Star, width := 0);
      cur := cur + 1;
    } else {
      var n, next := ParseNumber(f, cur);
      sp := sp.(widthOpt := if next > cur then Literal else Absent, width := n);
      cur := next;
    }
    sp := sp.(prec := 0, precOpt := Absent);
    if Peek(f, cur) == '.' {
      cur := cur + 1;
      if Peek(f, cur) == '*' {
        sp := sp.(precOpt := Star);
        cur := cur + 1;
      } else {
        if Peek(f, cur) == '-' {
          cur := cur + 1;
        } else {
          sp := sp.(precOpt := Literal);
        }
        var n, next := ParseNumber(f, cur);
        sp := sp.(prec := n);
        cur := next;
      }
    }
  }

  /** `npf_parse_format_spec`: fills in the specification and returns its length, or 0. */
  method ParseFormatSpec(f: string, start: nat) returns (sp: Spec, n: nat)
    requires CString(f)
    ensures (sp, n) == Parse(f, start)
  {
    var cur: nat;
    sp, cur := ParseFlags(f, start);
    sp, cur := ParseAmounts(f, cur, sp);
    var len: Length;
    len, cur := ParseModifier(f, cur);
    var c := Peek(f, cur);
    if !IsConversion(c) {
      return sp, 0;
    }
    sp := sp.(length := len);
    var conv := ConversionOf(c);
    sp := sp.(conv := conv, upper := c == 'X');
    if conv == Percent || conv == Character || conv == Pointer {
      sp := sp.(precOpt := Absent);
    } else if conv == Text {
      sp := sp.(zero := false);
    } else if sp.precOpt != Absent {
      sp := sp.(zero := false);
    }
    n := cur + 1 - start;
  }

  method ParseModifier(f: string, start: nat) returns (len: Length, cur: nat)
    ensures (len, cur) == Modifier(f, start)
  {
    len, cur := Plain, start + 1;
    match Peek(f, start)
    case 'h' =>
      len := Short;
      if Peek(f, cur) == 'h' {
        len, cur := Char, cur + 1;
      }
    case 'l' =>
      len := Long;
      if Peek(f, cur) == 'l' {
        len, cur := LongLong, cur + 1;
      }
    case 'j' => len := IntMax;
    case 'z' => len := SizeT;
    case 't' => len := PtrDiff;
    case _ => cur := cur - 1;
  }

  // --- What is parsed --------------------------------------------------------------------------

  /** The sign flags leave one of these behind. */
  predicate IsPrepend(c: char) {
    c == NUL || c == '+' || c == ' '
  }

  lemma {:induction false} FlagsExclude(f: string, i: nat, sp: Spec)
    requires (sp.left ==> !sp.zero) && IsPrepend(sp.prepend)
    ensures Flags(f, i, sp).0.left ==> !Flags(f, i, sp).0.zero
    ensures IsPrepend(Flags(f, i, sp).0.prepend)
    decreases |f| - i
  {
    if i < |f| && IsFlag(f[i]) {
      FlagsExclude(f, i + 1, AddFlag(sp, f[i]));
    }
  }

  /** Left-justified specifications are never zero-padded; neither are numbers with a precision. */
  lemma ParsedExcludes(f: string, i: nat)
    requires Parse(f, i).1 > 0
    ensures var sp := Parse(f, i).0;
            && (sp.left ==> !sp.zero)
            && (Numeric(sp.conv) && sp.precOpt != Absent ==> !sp.zero)
            && (sp.conv == Text ==> !sp.zero)
            && (sp.widthOpt != Literal ==> sp.width == 0) && sp.width >= 0 && sp.prec >= 0
  {
    HeadExcludes(f, i);
    hide Head, Modifier;
  }

  lemma HeadExcludes(f: string, i: nat)
    ensures var sp := Head(f, i).0;
            (sp.left ==> !sp.zero) && (sp.widthOpt != Literal ==> sp.width == 0) && sp.width >= 0 && sp.prec >= 0 && IsPrepend(sp.prepend)
  {
    hide Flags, Width, Precision;
    FlagsExclude(f, i + 1, EMPTY);
    var a := Flags(f, i + 1, EMPTY);
    WidthExcludes(f, a.1, a.0);
    var b := Width(f, a.1, a.0);
    PrecisionExcludes(f, b.1, b.0);
  }

  lemma PrecisionExcludes(f: string, i: nat, sp: Spec)
    ensures var sp1 := Precision(f, i, sp).0;
            sp1.left == sp.left && sp1.zero == sp.zero && sp1.prepend == sp.prepend && sp1.widthOpt == sp.widthOpt && sp1.width == sp.width && sp1.prec >= 0
  {}

  lemma WidthExcludes(f: string, i: nat, sp: Spec)
    ensures var sp1 := Width(f, i, sp).0;
            sp1.left == sp.left && sp1.zero == sp.zero && sp1.prepend == sp.prepend && (sp1.widthOpt != Literal ==> sp1.width == 0) && sp1.width >= 0
  {}

  // --- Printing a specification ----------------------------------------------------------------

  /** The specifications that have a canonical text: what parsing can return, except that a
      precision nobody uses is absent and zero. */
  predicate Canonical(sp: Spec) {
    && IsPrepend(sp.prepend)
    && !(sp.left && sp.zero)
    && sp.width >= 0 && (sp.widthOpt == Literal <==> sp.width > 0)
    && sp.prec >= 0 && (sp.precOpt != Literal ==> sp.prec == 0)
    && (sp.conv in {Percent, Character, Pointer} ==> sp.precOpt == Absent)
    && (sp.conv == Text || (Numeric(sp.conv) && sp.precOpt != Absent) ==> !sp.zero)
    && (sp.upper ==> sp.conv == Hex)
  }

  function Decimal(n: nat): (s: string)
    ensures |s| > 0 && forall i :: 0 <= i < |s| ==> IsDigit(s[i])
    ensures n > 0 ==> s[0] != '0'
  {
    if n < 10 then [(48 + n) as char] else Decimal(n / 10) + [(48 + n % 10) as char]
  }

  function FlagText(sp: Spec): string {
    (if sp.left then "-" else "") + (if sp.zero then "0" else "") + (if sp.prepend == NUL then "" else [sp.prepend])
    + (if sp.alt then "#" else "")
  }

  function WidthText(sp: Spec): string
    requires sp.width >= 0
  {
    match sp.widthOpt
    case Absent => ""
    case Star => "*"
    case Literal => Decimal(sp.width)
  }

  function PrecisionText(sp: Spec): string
    requires sp.prec >= 0
  {
    match sp.precOpt
    case Absent => ""
    case Star => ".*"
    case Literal => "." + Decimal(sp.prec)
  }

  function ModifierText(l: Length): string {
    match l
    case Plain => ""
    case Short => "h"
    case Char => "hh"
    case Long => "l"
    case LongLong => "ll"
    case IntMax => "j"
    case SizeT => "z"
    case PtrDiff => "t"
  }

  function ConversionText(sp: Spec): char {
    match sp.conv
    case Percent => '%'
    case Character => 'c'
    case Text => 's'
    case Signed => 'd'
    case Octal => 'o'
    case Hex => if sp.upper then 'X' else 'x'
    case Unsigned => 'u'
    case Pointer => 'p'
  }

  function SpecText(sp: Spec): string
    requires Canonical(sp)
  {
    "%" + FlagText(sp) + WidthText(sp) + PrecisionText(sp) + ModifierText(sp.length) + [ConversionText(sp)]
  }

  // --- Round trip ------------------------------------------------------------------------------

  /** `f` continues at `i` with `s`. */
  predicate Has(f: string, i: nat, s: string) {
    i + |s| <= |f| && f[i..i + |s|] == s
  }

  lemma HasAt(f: string, i: nat, s: string, k: nat)
    requires Has(f, i, s) && k < |s|
    ensures i + k < |f| && f[i + k] == s[k]
  {
    assert f[i..i + |s|][k] == s[k];
  }

  lemma HasSplit(f: string, i: nat, a: string, b: string)
    requires Has(f, i, a + b)
    ensures Has(f, i, a) && Has(f, i + |a|, b)
  {
    assert f[i..i + |a + b|][..|a|] == a;
    assert f[i..i + |a + b|][|a|..] == b;
  }

  lemma {:induction false} ReadNumber(f: string, i: nat, n: nat)
    requires Has(f, i, Decimal(n)) && !IsDigit(Peek(f, i + |Decimal(n)|))
    ensures Number(f, i, 0) == (n, i + |Decimal(n)|)
  {
    ReadDigits(f, i, n);
  }

  /** Reading the digits of `n` leaves `n` in the accumulator. */
  lemma {:induction false} ReadDigits(f: string, i: nat, n: nat)
    requires Has(f, i, Decimal(n))
    ensures Number(f, i, 0) == Number(f, i + |Decimal(n)|, n)
    decreases n
  {
    var s := Decimal(n);
    HasAt(f, i, s, |s| - 1);
    if n >= 10 {
      HasSplit(f, i, Decimal(n / 10), [s[|s| - 1]]);
      ReadDigits(f, i, n / 10);
    }
  }

  lemma FlagRead(f: string, i: nat, sp: Spec, on: bool, c: char)
    requires Has(f, i, if on then [c] else "") && IsFlag(c)
    ensures on ==> Flags(f, i, sp) == Flags(f, i + 1, AddFlag(sp, c))
  {
    if on {
      HasAt(f, i, [c], 0);
    }
  }

  lemma FlagsRead(f: string, i: nat, sp: Spec)
    requires Canonical(sp) && Has(f, i, FlagText(sp)) && !IsFlag(Peek(f, i + |FlagText(sp)|))
    ensures Flags(f, i, EMPTY)
            == (EMPTY.(prepend := sp.prepend, alt := sp.alt, left := sp.left, zero := sp.zero), i + |FlagText(sp)|)
  {
    hide Has, Flags;
    var a, b := if sp.left then "-" else "", if sp.zero then "0" else "";
    var c, d := if sp.prepend == NUL then "" else [sp.prepend], if sp.alt then "#" else "";
    HasSplit(f, i, a + b + c, d);
    HasSplit(f, i, a + b, c);
    HasSplit(f, i, a, b);
    var sp1 := if sp.left then AddFlag(EMPTY, '-') else EMPTY;
    FlagRead(f, i, EMPTY, sp.left, '-');
    FlagRead(f, i + |a|, sp1, sp.zero, '0');
    var sp2 := if sp.zero then AddFlag(sp1, '0') else sp1;
    FlagsReadRest(f, i + |a + b|, sp, sp2);
  }

  lemma FlagsReadRest(f: string, i: nat, sp: Spec, sp2: Spec)
    requires Canonical(sp) && sp2 == EMPTY.(left := sp.left, zero := sp.zero)
    requires var c := if sp.prepend == NUL then "" else [sp.prepend];
             var d := if sp.alt then "#" else "";
             Has(f, i, c) && Has(f, i + |c|, d) && !IsFlag(Peek(f, i + |c + d|))
    ensures Flags(f, i, sp2)
            == (EMPTY.(prepend := sp.prepend, alt := sp.alt, left := sp.left, zero := sp.zero),
                i + (if sp.prepend == NUL then 0 else 1) + if sp.alt then 1 else 0)
  {
    hide Has;
    var c := if sp.prepend == NUL then "" else [sp.prepend];
    if sp.prepend != NUL {
      FlagRead(f, i, sp2, true, sp.prepend);
    }
    var sp3 := if sp.prepend == NUL then sp2 else AddFlag(sp2, sp.prepend);
    FlagRead(f, i + |c|, sp3, sp.alt, '#');
  }

  /** What follows the flags, the width and the precision. */
  function Rest1(sp: Spec): string requires Canonical(sp) { WidthText(sp) + Rest2(sp) }
  function Rest2(sp: Spec): string requires Canonical(sp) { PrecisionText(sp) + Rest3(sp) }
  function Rest3(sp: Spec): string { ModifierText(sp.length) + [ConversionText(sp)] }

  lemma RestStarts(sp: Spec)
    requires Canonical(sp)
    ensures |Rest3(sp)| > 0 && !IsDigit(Rest3(sp)[0]) && Rest3(sp)[0] != '.' && Rest3(sp)[0] != '*' && !IsFlag(Rest3(sp)[0])
    ensures |Rest2(sp)| > 0 && !IsDigit(Rest2(sp)[0]) && Rest2(sp)[0] != '*' && !IsFlag(Rest2(sp)[0])
    ensures sp.precOpt == Absent ==> Rest2(sp)[0] != '.'
    ensures |Rest1(sp)| > 0 && !IsFlag(Rest1(sp)[0]) && (sp.widthOpt == Absent ==> Rest1(sp)[0] != '*' && !IsDigit(Rest1(sp)[0]))
  {
    assert |ModifierText(sp.length)| > 0 ==> Rest3(sp)[0] == ModifierText(sp.length)[0];
    hide Decimal;
  }

  lemma WidthRead(f: string, i: nat, sp: Spec, sp0: Spec)
    requires Canonical(sp) && Has(f, i, Rest1(sp))
    ensures Width(f, i, sp0) == (sp0.(widthOpt := sp.widthOpt, width := sp.width), i + |WidthText(sp)|)
  {
    RestStarts(sp);
    HasAt(f, i, Rest1(sp), 0);
    HasSplit(f, i, WidthText(sp), Rest2(sp));
    HasAt(f, i + |WidthText(sp)|, Rest2(sp), 0);
    hide Rest2, Has;
    if sp.widthOpt == Literal {
      ReadNumber(f, i, sp.width);
      assert IsDigit(Decimal(sp.width)[0]);
    }
  }

  lemma PrecisionRead(f: string, i: nat, sp: Spec, sp0: Spec)
    requires Canonical(sp) && Has(f, i, Rest2(sp))
    ensures Precision(f, i, sp0) == (sp0.(precOpt := sp.precOpt, prec := sp.prec), i + |PrecisionText(sp)|)
  {
    hide Has, Number, Decimal;
    RestStarts(sp);
    HasAt(f, i, Rest2(sp), 0);
    HasSplit(f, i, PrecisionText(sp), Rest3(sp));
    HasAt(f, i + |PrecisionText(sp)|, Rest3(sp), 0);
    hide Rest3, IsFlag;
    if sp.precOpt == Literal {
      HasSplit(f, i, ".", Decimal(sp.prec));
      HasAt(f, i + 1, Decimal(sp.prec), 0);
      assert IsDigit(Decimal(sp.prec)[0]);
      ReadNumber(f, i + 1, sp.prec);
    } else if sp.precOpt == Star {
      assert PrecisionText(sp) == ".*";
      HasAt(f, i, ".*", 0);
      HasAt(f, i, ".*", 1);
      assert Peek(f, i) == '.' && Peek(f, i + 1) == '*';
    }
  }

  lemma ModifierRead(f: string, i: nat, sp: Spec)
    requires Canonical(sp) && Has(f, i, Rest3(sp))
    ensures Modifier(f, i) == (sp.length, i + |ModifierText(sp.length)|)
    ensures Peek(f, i + |ModifierText(sp.length)|) == ConversionText(sp)
  {
    var m := ModifierText(sp.length);
    HasSplit(f, i, m, [ConversionText(sp)]);
    HasAt(f, i + |m|, [ConversionText(sp)], 0);
    if m != "" {
      HasAt(f, i, m, 0);
    }
    if |m| == 2 {
      HasAt(f, i, m, 1);
    }
  }

  lemma Settled(sp: Spec, sp0: Spec)
    requires Canonical(sp) && sp0 == sp.(conv := Percent, upper := false)
    ensures IsConversion(ConversionText(sp)) && Settle(sp0, ConversionText(sp)) == sp
  {}

  lemma SpecTextIs(sp: Spec)
    requires Canonical(sp)
    ensures SpecText(sp) == "%" + (FlagText(sp) + Rest1(sp))
    ensures |SpecText(sp)| == 1 + |FlagText(sp)| + |WidthText(sp)| + |PrecisionText(sp)| + |Rest3(sp)|
  {
    hide FlagText, WidthText, PrecisionText, ModifierText, ConversionText;
  }

  /** The specification with only its flags. */
  function FlagsOf(sp: Spec): Spec {
    EMPTY.(prepend := sp.prepend, alt := sp.alt, left := sp.left, zero := sp.zero)
  }

  lemma {:induction false} StartAt(f: string, i: nat, sp: Spec)
    requires Canonical(sp) && Has(f, i, SpecText(sp))
    ensures Has(f, i + 1, FlagText(sp)) && Has(f, i + 1 + |FlagText(sp)|, Rest1(sp))
  {
    SpecTextIs(sp);
    hide Has, FlagText, Rest1, SpecText, Canonical;
    HasSplit(f, i, "%", FlagText(sp) + Rest1(sp));
    HasSplit(f, i + 1, FlagText(sp), Rest1(sp));
  }

  lemma {:induction false} StartRead(f: string, i: nat, sp: Spec)
    requires Canonical(sp) && Has(f, i, SpecText(sp))
    ensures var j := i + 1 + |FlagText(sp)|; Flags(f, i + 1, EMPTY) == (FlagsOf(sp), j) && Has(f, j, Rest1(sp))
  {
    hide Has, FlagText, Rest1, Rest2, Rest3, Flags, SpecText, Canonical, IsDigit, IsFlag;
    var j := i + 1 + |FlagText(sp)|;
    StartAt(f, i, sp);
    RestStarts(sp);
    HasAt(f, j, Rest1(sp), 0);
    FlagsRead(f, i + 1, sp);
  }

  lemma HeadRead(f: string, i: nat, sp: Spec)
    requires Canonical(sp) && Has(f, i, SpecText(sp))
    ensures var j := i + |SpecText(sp)| - |Rest3(sp)|;
            j >= 0 && Head(f, i) == (sp.(length := Plain, conv := Percent, upper := false), j) && Has(f, j, Rest3(sp))
  {
    hide Has, FlagText, Rest1, Rest2, Rest3, Flags, Width, Precision, WidthText, PrecisionText, SpecText, Canonical;
    var j := i + 1 + |FlagText(sp)|;
    SpecTextIs(sp);
    StartRead(f, i, sp);
    WidthRead(f, j, sp, FlagsOf(sp));
    RestRead(f, j, sp, FlagsOf(sp).(widthOpt := sp.widthOpt, width := sp.width));
  }

  lemma RestRead(f: string, i: nat, sp: Spec, sp0: Spec)
    requires Canonical(sp) && Has(f, i, Rest1(sp))
    ensures var j := i + |WidthText(sp)|;
            Precision(f, j, sp0) == (sp0.(precOpt := sp.precOpt, prec := sp.prec), j + |PrecisionText(sp)|)
            && Has(f, j + |PrecisionText(sp)|, Rest3(sp))
  {
    var j := i + |WidthText(sp)|;
    hide Has, Rest3, Precision, WidthText, PrecisionText, Canonical;
    HasSplit(f, i, WidthText(sp), Rest2(sp));
    PrecisionRead(f, j, sp, sp0);
    HasSplit(f, j, PrecisionText(sp), Rest3(sp));
  }

  /** Parsing undoes printing: a canonical text, wherever it stands and whatever follows it, is read
      back as the specification it was made from, and exactly its characters are consumed. */
  lemma RoundTrip(f: string, i: nat, sp: Spec)
    requires Canonical(sp) && Has(f, i, SpecText(sp))
    ensures Parse(f, i) == (sp, |SpecText(sp)|)
  {
    hide Has, SpecText, Head, Modifier, Settle, ConversionText, IsConversion, ModifierText, Canonical;
    HeadRead(f, i, sp);
    var j := i + |SpecText(sp)| - |Rest3(sp)|;
    ModifierRead(f, j, sp);
    Settled(sp, sp.(conv := Percent, upper := false));
  }
}
