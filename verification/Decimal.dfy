/** Exact decimal strings: parsing, subtraction and printing on the chain side, and the
    tolerant comparison on the reconciliation side, against the numbers the strings denote. */
module Decimal {
  import opened Wrappers

  /** value / 10^scale. */
  datatype Dec = Dec(value: int, scale: nat)

  predicate IsDigit(c: char) { '0' <= c <= '9' }

  predicate AllDigits(s: string) { forall k :: 0 <= k < |s| ==> IsDigit(s[k]) }

  function DigitOf(c: char): (d: nat)
    requires IsDigit(c)
    ensures d < 10
  {
    c as int - '0' as int
  }

  function CharOf(d: nat): (c: char)
    requires d < 10
    ensures IsDigit(c) && DigitOf(c) == d
  {
    (d + '0' as int) as char
  }

  function Value(s: string): nat
    requires AllDigits(s)
  {
    if s == [] then 0 else Value(s[..|s| - 1]) * 10 + DigitOf(s[|s| - 1])
  }

  function Pow10(n: nat): (p: nat)
    ensures p >= 1
  {
    if n == 0 then 1 else 10 * Pow10(n - 1)
  }

  function PrintNat(n: nat): string {
    if n < 10 then [CharOf(n)] else PrintNat(n / 10) + [CharOf(n % 10)]
  }

  function PadStart(s: string, width: nat): (r: string)
    ensures |r| >= width
    decreases width - |s|
  {
    if |s| >= width then s else PadStart("0" + s, width)
  }

  // ---------------------------------------------------------------------------------------
  // The grammar: optional sign, digits, optionally a point and digits
  // ---------------------------------------------------------------------------------------

  datatype Parts = Parts(negative: bool, whole: string, fraction: string)

  ghost predicate ValidParts(p: Parts) {
    p.whole != [] && AllDigits(p.whole) && AllDigits(p.fraction)
  }

  function IndexOf(s: string, c: char): (i: nat)
    ensures i <= |s| && (i < |s| ==> s[i] == c)
    ensures forall k :: 0 <= k < i ==> s[k] != c
  {
    if s == [] || s[0] == c then 0 else 1 + IndexOf(s[1..], c)
  }

  function MatchUnsigned(s: string, negative: bool): (p: Option<Parts>)
    ensures p.Some? ==> ValidParts(p.value)
  {
    var i := IndexOf(s, '.');
    if i == |s| then
      if s != [] && AllDigits(s) then Some(Parts(negative, s, [])) else None
    else
      var whole, fraction := s[..i], s[i + 1..];
      if whole != [] && fraction != [] && AllDigits(whole) && AllDigits(fraction)
      then Some(Parts(negative, whole, fraction)) else None
  }

  function Match(s: string, allowPlus: bool): (p: Option<Parts>)
    ensures p.Some? ==> ValidParts(p.value)
  {
    if s != [] && s[0] == '-' then MatchUnsigned(s[1..], true)
    else if allowPlus && s != [] && s[0] == '+' then MatchUnsigned(s[1..], false)
    else MatchUnsigned(s, false)
  }

  function Signed(negative: bool, magnitude: nat): int { if negative then 0 - magnitude else magnitude }

  // ---------------------------------------------------------------------------------------
  // The chain side
  // ---------------------------------------------------------------------------------------

  function ParseDecimal(s: string): Option<Dec> {
    match Match(s, false)
    case None => None
    case Some(p) => Some(Dec(Signed(p.negative, Value(p.whole + p.fraction)), |p.fraction|))
  }

  function Difference(l: Dec, r: Dec): Dec {
    var scale := if l.scale < r.scale then r.scale else l.scale;
    Dec(l.value * Pow10(scale - l.scale) - r.value * Pow10(scale - r.scale), scale)
  }

  function Print(d: Dec): string {
    var sign := if d.value < 0 then "-" else "";
    var raw := PadStart(PrintNat(if d.value < 0 then -d.value else d.value), d.scale + 1);
    if d.scale == 0 then sign + raw
    else sign + raw[..|raw| - d.scale] + "." + raw[|raw| - d.scale..]
  }

  /** Subtraction throws on a non-decimal operand. */
  function SubtractDecimalStrings(left: string, right: string): Option<string> {
    match (ParseDecimal(left), ParseDecimal(right))
    case (Some(l), Some(r)) => Some(Print(Difference(l, r)))
    case _ => None
  }

  // ---------------------------------------------------------------------------------------
  // The reconciliation side
  // ---------------------------------------------------------------------------------------

  /** White space and line ends, as the runtime's `trim` strips them. */
  predicate IsSpace(c: char) {
    || '\U{0009}' <= c <= '\U{000D}' || c == ' ' || c == '\U{00A0}' || c == '\U{1680}'
    || '\U{2000}' <= c <= '\U{200A}' || c == '\U{2028}' || c == '\U{2029}' || c == '\U{202F}'
    || c == '\U{205F}' || c == '\U{3000}' || c == '\U{FEFF}'
  }

  function TrimStart(s: string): string {
    if s != [] && IsSpace(s[0]) then TrimStart(s[1..]) else s
  }

  function TrimEnd(s: string): string {
    if s != [] && IsSpace(s[|s| - 1]) then TrimEnd(s[..|s| - 1]) else s
  }

  function Trim(s: string): string { TrimEnd(TrimStart(s)) }

  function StripTrailingZeros(s: string): (t: string)
    ensures t <= s
    ensures t != [] ==> t[|t| - 1] != '0'
    ensures forall k :: |t| <= k < |s| ==> s[k] == '0'
  {
    if s != [] && s[|s| - 1] == '0' then StripTrailingZeros(s[..|s| - 1]) else s
  }

  function StripLeadingZeros(s: string): (t: string)
    ensures AllDigits(s) ==> AllDigits(t)
  {
    if s != [] && s[0] == '0' then StripLeadingZeros(s[1..]) else s
  }

  function ParseForComparison(s: string): Option<Dec> {
    match Match(Trim(s), true)
    case None => None
    case Some(p) =>
      var fraction := StripTrailingZeros(p.fraction);
      var stripped := StripLeadingZeros(p.whole + fraction);
      var digits := if stripped == [] then "0" else stripped;
      var magnitude := Value(digits);
      if magnitude == 0 then Some(Dec(0, 0))
      else Some(Dec(Signed(p.negative, magnitude), |fraction|))
  }

  predicate DecimalStringsEqual(left: string, right: string) {
    match (ParseForComparison(left), ParseForComparison(right))
    case (Some(l), Some(r)) => l == r
    case _ => left == right
  }

  // ---------------------------------------------------------------------------------------
  // What the strings denote
  // ---------------------------------------------------------------------------------------

  /** Whole digits plus the fraction digits read as a decimal fraction. */
  ghost function PartsNumber(p: Parts): real
    requires ValidParts(p)
  {
    var x := Value(p.whole) as real + Value(p.fraction) as real / Pow10(|p.fraction|) as real;
    if p.negative then -x else x
  }

  ghost function NumberOf(s: string): Option<real> {
    match Match(Trim(s), true)
    case None => None
    case Some(p) => Some(PartsNumber(p))
  }

  ghost function RealOf(d: Dec): real { d.value as real / Pow10(d.scale) as real }

  // ---------------------------------------------------------------------------------------
  // Digits
  // ---------------------------------------------------------------------------------------

  lemma {:induction false} Pow10Adds(a: nat, b: nat)
    ensures Pow10(a + b) == Pow10(a) * Pow10(b)
  {
    if a > 0 { Pow10Adds(a - 1, b); }
  }

  lemma ShiftDigit(v: int, p: int, w: int, d: int)
    ensures (v * p + w) * 10 + d == v * (10 * p) + (w * 10 + d)
  {
    assert v * (10 * p) == (v * p) * 10;
  }

  lemma {:induction false} ValueOfConcat(a: string, b: string)
    requires AllDigits(a) && AllDigits(b)
    ensures AllDigits(a + b)
    ensures Value(a + b) == Value(a) * Pow10(|b|) + Value(b)
  {
    if b == [] {
      assert a + b == a;
    } else {
      var front, d := b[..|b| - 1], DigitOf(b[|b| - 1]);
      ValueOfConcat(a, front);
      assert (a + b)[..|a + b| - 1] == a + front;
      assert Value(a + b) == Value(a + front) * 10 + d && Value(b) == Value(front) * 10 + d;
      assert Pow10(|b|) == 10 * Pow10(|front|);
      hide Value, Pow10;
      ShiftDigit(Value(a), Pow10(|front|), Value(front), d);
    }
  }

  lemma {:induction false} ValueOfZeros(s: string)
    requires forall k :: 0 <= k < |s| ==> s[k] == '0'
    ensures AllDigits(s) && Value(s) == 0
  {
    if s != [] { ValueOfZeros(s[..|s| - 1]); }
  }

  lemma LeadingZero(s: string)
    requires AllDigits(s)
    ensures AllDigits("0" + s) && Value("0" + s) == Value(s)
  {
    ValueOfZeros("0");
    ValueOfConcat("0", s);
  }

  lemma {:induction false} PrintNatValue(n: nat)
    ensures PrintNat(n) != [] && AllDigits(PrintNat(n)) && Value(PrintNat(n)) == n
  {
    if n >= 10 {
      PrintNatValue(n / 10);
      var front := PrintNat(n / 10);
      assert (front + [CharOf(n % 10)])[..|front|] == front;
    } else {
      assert [CharOf(n)][..0] == [];
    }
  }

  lemma {:induction false} PadStartValue(s: string, width: nat)
    requires AllDigits(s)
    ensures AllDigits(PadStart(s, width)) && Value(PadStart(s, width)) == Value(s)
    ensures |PadStart(s, width)| >= width && |PadStart(s, width)| >= |s|
    decreases width - |s|
  {
    if |s| < width {
      LeadingZero(s);
      PadStartValue("0" + s, width);
    }
  }

  lemma {:induction false} StripLeadingValue(s: string)
    requires AllDigits(s)
    ensures Value(StripLeadingZeros(s)) == Value(s)
  {
    if s != [] && s[0] == '0' {
      assert s == "0" + s[1..];
      LeadingZero(s[1..]);
      StripLeadingValue(s[1..]);
    }
  }

  // ---------------------------------------------------------------------------------------
  // Rationals
  // ---------------------------------------------------------------------------------------

  lemma Cancel(v: int, p: int, q: int)
    requires p > 0 && q > 0 && p * q > 0
    ensures (v * q) as real / (p * q) as real == v as real / p as real
  {
    var x, P, Q := v as real / p as real, p as real, q as real;
    assert x * P == v as real;
    assert (v * q) as real == v as real * Q;
    assert (p * q) as real == P * Q;
    assert x * (P * Q) == (x * P) * Q;
    var n, m := (v * q) as real, (p * q) as real;
    assert x * m == n;
    assert n / m == x;
  }

  /** More digits of scale denote the same number. */
  lemma Rescale(d: Dec, k: nat)
    ensures RealOf(Dec(d.value * Pow10(k), d.scale + k)) == RealOf(d)
  {
    hide Pow10;
    Pow10Adds(d.scale, k);
    Cancel(d.value, Pow10(d.scale), Pow10(k));
  }

  lemma SplitFraction(a: real, b: real, p: real)
    requires p > 0.0
    ensures (a - b) / p == a / p - b / p
    ensures (a * p + b) / p == a + b / p
    ensures (-a) / p == -(a / p)
  {
    var x, y := a / p, b / p;
    assert x * p == a && y * p == b;
    assert (x - y) * p == a - b;
    assert (a + y) * p == a * p + b;
    assert (-x) * p == -a;
  }

  lemma DifferenceIsExact(l: Dec, r: Dec)
    ensures RealOf(Difference(l, r)) == RealOf(l) - RealOf(r)
  {
    var scale := if l.scale < r.scale then r.scale else l.scale;
    Rescale(l, scale - l.scale);
    Rescale(r, scale - r.scale);
    var a, b := l.value * Pow10(scale - l.scale), r.value * Pow10(scale - r.scale);
    SplitFraction(a as real, b as real, Pow10(scale) as real);
  }

  lemma MixedFraction(w: int, f: int, q: int)
    requires q > 0
    ensures (w * q + f) as real / q as real == w as real + f as real / q as real
    ensures (0 - (w * q + f)) as real / q as real == -(w as real + f as real / q as real)
  {
    var W, F, Q := w as real, f as real, q as real;
    assert (w * q + f) as real == W * Q + F;
    SplitFraction(W, F, Q);
    var n := w * q + f;
    SplitFraction(n as real, F, Q);
    assert (0 - n) as real == -(n as real);
  }

  /** Reading all digits as one integer over the scale denotes the same number. */
  lemma PartsDenote(p: Parts)
    requires ValidParts(p)
    ensures AllDigits(p.whole + p.fraction)
    ensures RealOf(Dec(Signed(p.negative, Value(p.whole + p.fraction)), |p.fraction|)) == PartsNumber(p)
  {
    hide Value, Pow10;
    ValueOfConcat(p.whole, p.fraction);
    MixedFraction(Value(p.whole), Value(p.fraction), Pow10(|p.fraction|));
  }

  // ---------------------------------------------------------------------------------------
  // Printing and parsing back
  // ---------------------------------------------------------------------------------------

  lemma {:induction false} IndexOfNone(s: string, c: char)
    requires c !in s
    ensures IndexOf(s, c) == |s|
  {
    if s != [] { IndexOfNone(s[1..], c); }
  }

  lemma {:induction false} IndexOfFirst(a: string, c: char, b: string)
    requires c !in a
    ensures IndexOf(a + [c] + b, c) == |a|
  {
    if a != [] {
      assert (a + [c] + b)[1..] == a[1..] + [c] + b;
      IndexOfFirst(a[1..], c, b);
    }
  }

  lemma DigitsHaveNoPoint(s: string)
    requires AllDigits(s)
    ensures '.' !in s && '-' !in s && '+' !in s
  {
  }

  lemma MatchWhole(negative: bool, whole: string, allowPlus: bool)
    requires whole != [] && AllDigits(whole)
    ensures Match((if negative then "-" else "") + whole, allowPlus) == Some(Parts(negative, whole, []))
  {
    var p := Parts(negative, whole, []);
    assert Spelled(p) == whole && "" + whole == whole;
    MatchIff((if negative then "-" else "") + whole, allowPlus, p);
  }

  lemma MatchBoth(negative: bool, whole: string, fraction: string, allowPlus: bool)
    requires whole != [] && fraction != [] && AllDigits(whole) && AllDigits(fraction)
    ensures Match((if negative then "-" else "") + whole + "." + fraction, allowPlus)
            == Some(Parts(negative, whole, fraction))
  {
    hide Match;
    var p, text := Parts(negative, whole, fraction), (if negative then "-" else "") + whole + "." + fraction;
    assert text == (if negative then "-" else "") + Spelled(p);
    assert "" + Spelled(p) == Spelled(p);
    MatchIff(text, allowPlus, p);
  }

  ghost function Raw(d: Dec): string {
    PadStart(PrintNat(if d.value < 0 then -d.value else d.value), d.scale + 1)
  }

  lemma RawDigits(d: Dec)
    ensures AllDigits(Raw(d)) && |Raw(d)| > d.scale
    ensures Signed(d.value < 0, Value(Raw(d))) == d.value
  {
    var n := if d.value < 0 then -d.value else d.value;
    PrintNatValue(n);
    PadStartValue(PrintNat(n), d.scale + 1);
  }

  /** What Print writes is read back, under either grammar, as the same digits and scale. */
  lemma PrintMatches(d: Dec, allowPlus: bool) returns (p: Parts)
    ensures Match(Print(d), allowPlus) == Some(p) && ValidParts(p)
    ensures |p.fraction| == d.scale && AllDigits(p.whole + p.fraction)
    ensures Signed(p.negative, Value(p.whole + p.fraction)) == d.value
  {
    RawDigits(d);
    var raw := Raw(d);
    var cut := |raw| - d.scale;
    var whole, fraction := raw[..cut], raw[cut..];
    assert whole + fraction == raw;
    p := Parts(d.value < 0, whole, fraction);
    if d.scale == 0 {
      assert whole == raw && fraction == [];
      MatchWhole(d.value < 0, raw, allowPlus);
    } else {
      MatchBoth(d.value < 0, whole, fraction, allowPlus);
    }
  }

  lemma PrintRoundTrips(d: Dec)
    ensures ParseDecimal(Print(d)) == Some(d)
  {
    var p := PrintMatches(d, false);
  }

  // ---------------------------------------------------------------------------------------
  // Trimming
  // ---------------------------------------------------------------------------------------

  /** Trimming cuts off exactly the white space at both ends: what is cut is all white space, and
      what is left neither starts nor ends with any. */
  lemma TrimIsExact(s: string) returns (from: nat, to: nat)
    ensures from <= to <= |s| && Trim(s) == s[from..to]
    ensures forall k :: 0 <= k < |s| && !(from <= k < to) ==> IsSpace(s[k])
    ensures Trim(s) != [] ==> !IsSpace(Trim(s)[0]) && !IsSpace(Trim(s)[|Trim(s)| - 1])
  {
    from := TrimStartCuts(s);
    var kept := TrimEndCuts(s[from..]);
    to := from + kept;
    assert s[from..to] == s[from..][..to - from];
    assert forall k :: to <= k < |s| ==> s[k] == s[from..][k - from];
  }

  /** The white space of the runtime: tabs, line ends, the space, the no-break space, the byte order
      mark and the other Unicode space separators. */
  lemma SpacesAre(c: char)
    ensures IsSpace(c)
            <==> c as int in {9, 10, 11, 12, 13, 32, 160, 5760, 8192, 8193, 8194, 8195, 8196, 8197, 8198, 8199, 8200,
                              8201, 8202, 8232, 8233, 8239, 8287, 12288, 65279}
  {
  }

  lemma {:induction false} TrimStartCuts(s: string) returns (n: nat)
    ensures n <= |s| && TrimStart(s) == s[n..]
    ensures forall k :: 0 <= k < n ==> IsSpace(s[k])
    ensures n < |s| ==> !IsSpace(s[n])
  {
    hide IsSpace;
    if s != [] && IsSpace(s[0]) {
      var m := TrimStartCuts(s[1..]);
      n := m + 1;
      assert forall k :: 0 < k < n ==> s[k] == s[1..][k - 1];
    } else {
      n := 0;
    }
  }

  lemma {:induction false} TrimEndCuts(s: string) returns (n: nat)
    ensures n <= |s| && TrimEnd(s) == s[..n]
    ensures forall k :: n <= k < |s| ==> IsSpace(s[k])
    ensures n > 0 ==> !IsSpace(s[n - 1])
  {
    hide IsSpace;
    if s != [] && IsSpace(s[|s| - 1]) {
      n := TrimEndCuts(s[..|s| - 1]);
    } else {
      n := |s|;
    }
  }

  // ---------------------------------------------------------------------------------------
  // The grammar and the numbers, spelt out
  // ---------------------------------------------------------------------------------------

  /** Digits, and a point and more digits unless there is no fraction. */
  ghost function Spelled(p: Parts): string {
    p.whole + if p.fraction == [] then "" else "." + p.fraction
  }

  lemma UnsignedMatches(p: Parts)
    requires ValidParts(p)
    ensures MatchUnsigned(Spelled(p), p.negative) == Some(p)
    ensures Spelled(p) != [] && IsDigit(Spelled(p)[0])
  {
    DigitsHaveNoPoint(p.whole);
    if p.fraction == [] {
      assert p.whole + "" == p.whole;
      IndexOfNone(p.whole, '.');
    } else {
      var s := p.whole + ['.'] + p.fraction;
      IndexOfFirst(p.whole, '.', p.fraction);
      assert Spelled(p) == s;
      assert s[..|p.whole|] == p.whole && s[|p.whole| + 1..] == p.fraction;
    }
  }

  lemma UnsignedSpells(s: string, negative: bool, p: Parts)
    requires MatchUnsigned(s, negative) == Some(p)
    ensures s == Spelled(p) && p.negative == negative && ValidParts(p)
  {
    var i := IndexOf(s, '.');
    if i < |s| {
      assert s == s[..i] + ("." + s[i + 1..]);
    } else {
      assert s + "" == s;
    }
  }

  /** The strings that match, and how they are read: an optional minus (or plus, where allowed),
      digits, and optionally a point and more digits. */
  lemma MatchIff(s: string, allowPlus: bool, p: Parts)
    ensures Match(s, allowPlus) == Some(p)
            <==> && p.whole != [] && AllDigits(p.whole) && AllDigits(p.fraction)
                 && (if p.negative then s == "-" + Spelled(p)
                     else s == Spelled(p) || (allowPlus && s == "+" + Spelled(p)))
  {
    hide MatchUnsigned, Spelled, AllDigits;
    if ValidParts(p) {
      UnsignedMatches(p);
      assert ("-" + Spelled(p))[1..] == Spelled(p) && ("+" + Spelled(p))[1..] == Spelled(p);
    }
    if Match(s, allowPlus) == Some(p) {
      if s != [] && s[0] == '-' {
        UnsignedSpells(s[1..], true, p);
        assert s == "-" + s[1..];
      } else if allowPlus && s != [] && s[0] == '+' {
        UnsignedSpells(s[1..], false, p);
        assert s == "+" + s[1..];
      } else {
        UnsignedSpells(s, false, p);
      }
    }
  }

  /** Digits are read in base ten, most significant first. */
  lemma DigitsAreDecimal(s: string, c: char)
    requires AllDigits(s) && '0' <= c <= '9'
    ensures AllDigits(s + [c]) && Value([]) == 0
    ensures Value(s + [c]) == 10 * Value(s) + (c as int - 48)
  {
    assert (s + [c])[..|s|] == s;
  }

  lemma UntrimmedEnds(s: string, allowPlus: bool)
    requires Match(s, allowPlus).Some?
    ensures s != [] && !IsSpace(s[0]) && !IsSpace(s[|s| - 1])
    ensures Trim(s) == s
  {
    var u := if s != [] && (s[0] == '-' || (allowPlus && s[0] == '+')) then s[1..] else s;
    var i := IndexOf(u, '.');
    assert u[|u| - 1] == s[|s| - 1];
    if i < |u| {
      assert IsDigit(u[..i][0]) && IsDigit(u[i + 1..][|u| - i - 2]);
    }
  }

  /** A signed string without '+' is read alike by both grammars. */
  lemma GrammarsAgree(s: string)
    requires Match(s, false).Some?
    ensures Match(Trim(s), true) == Match(s, false)
  {
    UntrimmedEnds(s, false);
    var i := IndexOf(s, '.');
    assert s[0] != '-' ==> IsDigit(s[..i][0]);
  }

  lemma ParseDenotes(s: string)
    requires ParseDecimal(s).Some?
    ensures NumberOf(s) == Some(RealOf(ParseDecimal(s).value))
  {
    GrammarsAgree(s);
    PartsDenote(Match(s, false).value);
  }

  /** The printed difference denotes exactly left minus right, and re-parses to it. */
  lemma SubtractionIsExact(left: string, right: string)
    requires ParseDecimal(left).Some? && ParseDecimal(right).Some?
    ensures NumberOf(left).Some? && NumberOf(right).Some? && SubtractDecimalStrings(left, right).Some?
    ensures var text := SubtractDecimalStrings(left, right).value;
            && ParseDecimal(text) == Some(Difference(ParseDecimal(left).value, ParseDecimal(right).value))
            && NumberOf(text) == Some(NumberOf(left).value - NumberOf(right).value)
  {
    hide ParseDecimal, NumberOf, RealOf, Difference, Print;
    var l, r := ParseDecimal(left).value, ParseDecimal(right).value;
    ParseDenotes(left);
    ParseDenotes(right);
    DifferenceIsExact(l, r);
    PrintRoundTrips(Difference(l, r));
    ParseDenotes(Print(Difference(l, r)));
  }

  // ---------------------------------------------------------------------------------------
  // Comparison
  // ---------------------------------------------------------------------------------------

  /** No superfluous scale. */
  ghost predicate Canonical(d: Dec) { d.scale == 0 || d.value % 10 != 0 }

  lemma LastDigit(s: string)
    requires s != [] && AllDigits(s)
    ensures Value(s) % 10 == DigitOf(s[|s| - 1])
  {
  }

  lemma NegationKeepsLastDigit(n: int)
    ensures (-n) % 10 != 0 <==> n % 10 != 0
  {
  }

  lemma FractionWithoutZeros(f: string, zeros: string)
    requires AllDigits(f) && forall k :: 0 <= k < |zeros| ==> zeros[k] == '0'
    ensures AllDigits(f + zeros)
    ensures Value(f + zeros) as real / Pow10(|f + zeros|) as real == Value(f) as real / Pow10(|f|) as real
  {
    hide Value, Pow10;
    ValueOfZeros(zeros);
    ValueOfConcat(f, zeros);
    Rescale(Dec(Value(f), |f|), |zeros|);
  }

  /** Dropping trailing zeros of the fraction changes neither the number nor, but for them, the
      digits. */
  lemma DropTrailingZeros(p: Parts)
    requires ValidParts(p)
    ensures var f := StripTrailingZeros(p.fraction);
            && ValidParts(Parts(p.negative, p.whole, f)) && AllDigits(p.whole + f)
            && PartsNumber(Parts(p.negative, p.whole, f)) == PartsNumber(p)
            && (f != [] ==> Value(p.whole + f) % 10 != 0)
  {
    hide Value, Pow10, StripTrailingZeros;
    var f := StripTrailingZeros(p.fraction);
    var zeros := p.fraction[|f|..];
    assert p.fraction == f + zeros;
    assert forall k :: 0 <= k < |f| ==> f[k] == p.fraction[k];
    FractionWithoutZeros(f, zeros);
    if f != [] {
      LastDigit(p.whole + f);
      assert (p.whole + f)[|p.whole + f| - 1] == f[|f| - 1];
    }
  }

  lemma ZeroOverScale(n: nat)
    ensures RealOf(Dec(0, n)) == 0.0 == RealOf(Dec(0, 0))
  {
  }

  /** The comparison form is canonical and denotes the number of the string; a string has one
      exactly when it denotes a number. */
  lemma ComparisonDenotes(s: string)
    ensures ParseForComparison(s).Some? <==> NumberOf(s).Some?
    ensures ParseForComparison(s).Some? ==>
              && Canonical(ParseForComparison(s).value)
              && NumberOf(s) == Some(RealOf(ParseForComparison(s).value))
  {
    var m := Match(Trim(s), true);
    if m.Some? {
      var p := m.value;
      var f := StripTrailingZeros(p.fraction);
      DropTrailingZeros(p);
      StripLeadingValue(p.whole + f);
      ValueOfZeros("0");
      PartsDenote(Parts(p.negative, p.whole, f));
      ZeroOverScale(|f|);
      NegationKeepsLastDigit(Value(p.whole + f));
    }
  }

  lemma CrossMultiply(a: Dec, b: Dec)
    requires RealOf(a) == RealOf(b)
    ensures a.value * Pow10(b.scale) == b.value * Pow10(a.scale)
  {
    var x := RealOf(a);
    var p, q := Pow10(a.scale) as real, Pow10(b.scale) as real;
    assert x * p == a.value as real && x * q == b.value as real;
    assert a.value as real * q == b.value as real * p;
    assert (a.value * Pow10(b.scale)) as real == a.value as real * q;
    assert (b.value * Pow10(a.scale)) as real == b.value as real * p;
  }

  lemma TimesTen(v: int, p: int)
    ensures (v * (10 * p)) % 10 == 0
  {
    var x := v * p;
    assert v * (10 * p) == 10 * x;
  }

  lemma TimesPowerOfTen(v: int, k: nat)
    requires k > 0
    ensures (v * Pow10(k)) % 10 == 0
  {
    var p := Pow10(k - 1);
    assert Pow10(k) == 10 * p;
    hide Pow10;
    TimesTen(v, p);
  }

  lemma CancelInt(x: int, y: int, p: int)
    requires p > 0 && x * p == y * p
    ensures x == y
  {
    assert (x - y) * p == 0;
  }

  lemma Regroup(x: int, y: int, z: int)
    ensures x * (y * z) == (x * y) * z
  {
  }

  lemma SmallerScaleFirst(a: Dec, b: Dec)
    requires Canonical(a) && Canonical(b) && RealOf(a) == RealOf(b) && a.scale <= b.scale
    ensures a == b
  {
    hide RealOf, Pow10;
    var k := b.scale - a.scale;
    CrossMultiply(a, b);
    Pow10Adds(k, a.scale);
    Regroup(a.value, Pow10(k), Pow10(a.scale));
    CancelInt(a.value * Pow10(k), b.value, Pow10(a.scale));
    if k > 0 { TimesPowerOfTen(a.value, k); }
  }

  /** Canonical forms of equal numbers are equal. */
  lemma CanonicalIsUnique(a: Dec, b: Dec)
    requires Canonical(a) && Canonical(b)
    ensures RealOf(a) == RealOf(b) <==> a == b
  {
    if RealOf(a) == RealOf(b) {
      if a.scale <= b.scale { SmallerScaleFirst(a, b); } else { SmallerScaleFirst(b, a); }
    }
  }

  /** Two strings compare equal exactly when they denote the same number, or, if one of them
      denotes none, when they are the same text. */
  lemma ComparisonIsNumeric(left: string, right: string)
    ensures DecimalStringsEqual(left, right)
            <==> if NumberOf(left).Some? && NumberOf(right).Some?
                 then NumberOf(left) == NumberOf(right) else left == right
  {
    hide ParseForComparison, NumberOf, Canonical, RealOf;
    ComparisonDenotes(left);
    ComparisonDenotes(right);
    if NumberOf(left).Some? && NumberOf(right).Some? {
      CanonicalIsUnique(ParseForComparison(left).value, ParseForComparison(right).value);
    }
  }

  /** A database figure compares equal to the on-chain available credit exactly when it denotes
      the on-chain limit minus the utilized amount. */
  lemma AvailableAgreesIff(db: string, limit: string, utilized: string)
    requires ParseDecimal(limit).Some? && ParseDecimal(utilized).Some?
    ensures SubtractDecimalStrings(limit, utilized).Some? && NumberOf(limit).Some? && NumberOf(utilized).Some?
    ensures DecimalStringsEqual(db, SubtractDecimalStrings(limit, utilized).value)
            <==> NumberOf(db) == Some(NumberOf(limit).value - NumberOf(utilized).value)
  {
    hide NumberOf, DecimalStringsEqual, SubtractDecimalStrings, ParseDecimal;
    SubtractionIsExact(limit, utilized);
    ComparisonIsNumeric(db, SubtractDecimalStrings(limit, utilized).value);
  }
}
