/** The `price` column: `DecimalField(max_digits=20, decimal_places=8)`.
    A stored price is an exact fixed-point number with eight decimal places,
    held here as an integer count of 10^-8 units. A text price reaches the
    column through `decimal.Decimal(text)` and a quantization to eight places
    (round half to even) that fails when more than twenty digits remain. */
module Decimal {
  import opened Common
  import opened Strings

  const Places: nat := 8
  const MaxDigits: nat := 20

  /** 10^8 units make one. */
  const Scale: nat := 100000000

  /** 10^20: the smallest magnitude that needs more than twenty digits. */
  const Limit: nat := 100000000000000000000

  datatype Price = Price(units: int) {
    /** At most twenty digits in all, eight of them after the point. */
    predicate Fits() {
      -(Limit as int) < units < Limit
    }
  }

  /** A finite decimal `coefficient * 10^exponent`, exactly as written. */
  datatype Number = Number(coefficient: int, exponent: int)

  // ---------------------------------------------------------------------
  // Reading a price: Decimal(text), then quantize to eight places

  /** `digits [. digits]`, at least one digit in all: the coefficient and
      the exponent the fraction digits give it. Underscores are gone by now. */
  function ParseMantissa(m: string): Option<Number> {
    var dot := IndexOf(m, '.');
    var whole := m[..dot];
    var frac := if dot == |m| then [] else m[dot + 1..];
    if AllDigits(whole) && AllDigits(frac) && whole + frac != [] then Some(Number(DigitsValue(whole + frac), -|frac|))
    else None
  }

  /** The position of the first exponent mark `e` or `E`, or `|s|`. */
  function ExponentMark(s: string): (i: nat)
    ensures i <= |s|
    ensures i < |s| ==> s[i] == 'e' || s[i] == 'E'
    ensures forall j :: 0 <= j < i ==> s[j] != 'e' && s[j] != 'E'
  {
    if s == [] || s[0] == 'e' || s[0] == 'E' then 0 else 1 + ExponentMark(s[1..])
  }

  /** A mantissa with an optional `e`/`E` exponent. */
  function ParseUnsigned(body: string): Option<Number> {
    var e := ExponentMark(body);
    Scaled(ParseMantissa(body[..e]), if e == |body| then Some(0) else SignedRun(body[e + 1..]))
  }

  /** A mantissa scaled by a power of ten; `None` when either part failed. */
  function Scaled(mantissa: Option<Number>, exp: Option<int>): Option<Number> {
    if exp.None? || mantissa.None? then None
    else Some(Number(mantissa.value.coefficient, exp.value + mantissa.value.exponent))
  }

  /** `decimal.Decimal(s)` for a finite value: surrounding whitespace is
      stripped and every underscore removed, then come a sign, digits with an
      optional point, and an optional exponent. `None` where Python raises
      or where the value would be an infinity or a NaN, which the field
      refuses as well. */
  function ParseNumber(s: string): Option<Number> {
    ParseCleaned(Without(Strip(s), '_'))
  }

  /** An optional sign before an unsigned number. */
  function ParseCleaned(t: string): Option<Number> {
    var signed := t != [] && (t[0] == '-' || t[0] == '+');
    match ParseUnsigned(if signed then t[1..] else t)
    case None => None
    case Some(n) => Some(if signed && t[0] == '-' then Number(-n.coefficient, n.exponent) else n)
  }

  /** `c / d` rounded to the nearest integer, ties to the even neighbour. */
  function RoundHalfEven(c: int, d: nat): int
    requires d >= 1
  {
    var q0, r := c / d, c % d;
    if 2 * r < d then q0
    else if 2 * r > d then q0 + 1
    else if q0 % 2 == 0 then q0
    else q0 + 1
  }

  /** The rounded quotient is within half a step of `c / d`, and on a tie it
      is even. */
  lemma {:induction false} RoundHalfEvenNearest(c: int, d: nat)
    requires d >= 1
    ensures var q := RoundHalfEven(c, d);
      && -(d as int) <= 2 * (c - q * d) <= d
      && (2 * (c - q * d) == d || 2 * (c - q * d) == -(d as int) ==> q % 2 == 0)
  {
    var q0, r := c / d, c % d;
    assert c == q0 * d + r && 0 <= r < d;
    assert (q0 + 1) * d == q0 * d + d;
  }

  /** The number in units of 10^-8, rounded half to even where it has more
      than eight decimal places. */
  function Quantize(n: Number): int {
    var shift := n.exponent + Places;
    if shift >= 0 then n.coefficient * Pow10(shift)
    else RoundHalfEven(n.coefficient, Pow10(-shift))
  }

  /** With at most eight decimal places the number is kept exactly; with
      more, it goes to the nearest unit of 10^-8, ties to the even unit. */
  lemma {:induction false} QuantizeNearest(n: Number)
    ensures n.exponent + Places >= 0 ==>
      Quantize(n) == n.coefficient * Pow10(n.exponent + Places)
    ensures n.exponent + Places < 0 ==>
      var d, q := Pow10(-(n.exponent + Places)), Quantize(n);
      && -(d as int) <= 2 * (n.coefficient - q * d) <= d
      && (2 * (n.coefficient - q * d) == d || 2 * (n.coefficient - q * d) == -(d as int) ==> q % 2 == 0)
  {
    var shift := n.exponent + Places;
    if shift < 0 {
      RoundHalfEvenNearest(n.coefficient, Pow10(-shift));
    }
  }

  /** What the column stores for the text `s`; `None` where saving raises. */
  function StorePrice(s: string): (r: Option<Price>)
    ensures r.Some? ==> r.value.Fits() && ParseNumber(s).Some?
  {
    match ParseNumber(s)
    case None => None
    case Some(n) =>
      var p := Price(Quantize(n));
      if p.Fits() then Some(p) else None
  }

  /** A text is stored exactly when it reads as a number whose quantized
      units fit in twenty digits, and what is stored is those units. */
  lemma {:induction false} StoreQuantized(s: string)
    ensures StorePrice(s).Some? <==>
      ParseNumber(s).Some? && Price(Quantize(ParseNumber(s).value)).Fits()
    ensures StorePrice(s).Some? ==>
      StorePrice(s).value.units == Quantize(ParseNumber(s).value)
  {
  }

  // ---------------------------------------------------------------------
  // Writing a price

  /** The magnitude of a price, in units. */
  function Magnitude(p: Price): (m: nat)
    ensures m == p.units || m == -p.units
  {
    if p.units < 0 then -p.units else p.units
  }

  /** `body` behind a minus sign when the price is negative. */
  function Signed(p: Price, body: string): string {
    if p.units < 0 then "-" + body else body
  }

  /** The digits of `m` units with the point eight places from the right. */
  function FixedBody(m: nat): string {
    NatText(m / Scale) + "." + FixedDigits(m % Scale, Places)
  }

  /** Fixed-point text with exactly eight decimals, as the API returns a
      stored price: `50000.00` is stored and read back as `50000.00000000`. */
  function FixedText(p: Price): string {
    Signed(p, FixedBody(Magnitude(p)))
  }

  /** The coefficient digits of fewer than 100 units, with a point after
      the first when there are two. */
  function ScientificMantissa(m: nat): string
    requires m < 100
  {
    if m >= 10 then [DigitChar(m / 10)] + "." + [DigitChar(m % 10)] else [DigitChar(m)]
  }

  /** Scientific notation for fewer than 100 units: `1.2E-7`, `5E-8`, `0E-8`;
      the exponent is that of the first digit. */
  function ScientificBody(m: nat): string
    requires m < 100
  {
    ScientificMantissa(m) + "E-" + [DigitChar(if m >= 10 then 7 else 8)]
  }

  /** Python's `str()` of a stored price (a Decimal with exponent -8). Its
      adjusted exponent is the number of coefficient digits minus nine;
      Python writes plain notation when that is at least -6, that is when
      the magnitude is at least 100 units, and scientific notation below. */
  function PythonText(p: Price): string {
    var m := Magnitude(p);
    if m >= 100 then FixedText(p) else Signed(p, ScientificBody(m))
  }

  // ---------------------------------------------------------------------
  // Round trips

  /** A text that starts with a digit and ends with one reads with no sign. */
  lemma {:induction false} ParseUnsignedText(body: string, n: Number)
    requires |body| > 0 && IsDigit(body[0]) && IsDigit(body[|body| - 1]) && '_' !in body
    requires ParseUnsigned(body) == Some(n)
    ensures ParseNumber(body) == Some(n)
  {
    StripNoop(body);
    WithoutAbsent(body, '_');
    assert Without(Strip(body), '_') == body;
    CleanedUnsigned(body, n);
  }

  /** With no sign the text reads unsigned. */
  lemma CleanedUnsigned(t: string, n: Number)
    requires t != [] && t[0] != '-' && t[0] != '+'
    requires ParseUnsigned(t) == Some(n)
    ensures ParseCleaned(t) == Some(n)
  {
  }

  /** Behind a minus sign the same text reads negated. */
  lemma {:induction false} ParseNegated(t: string, n: Number)
    requires Strip(t) == t && '_' !in t && |t| > 1 && t[0] == '-'
    requires ParseUnsigned(t[1..]) == Some(n)
    ensures ParseNumber(t) == Some(Number(-n.coefficient, n.exponent))
  {
    WithoutAbsent(t, '_');
    assert Without(Strip(t), '_') == t;
    CleanedNegated(t, n);
  }

  /** A leading minus negates what follows. */
  lemma CleanedNegated(t: string, n: Number)
    requires |t| > 1 && t[0] == '-'
    requires ParseUnsigned(t[1..]) == Some(n)
    ensures ParseCleaned(t) == Some(Number(-n.coefficient, n.exponent))
  {
    assert t != [] && t[0] == '-';
  }

  /** Either sign of a text that starts and ends with a digit. */
  lemma {:induction false} ParseSigned(body: string, n: Number, negative: bool)
    requires |body| > 0 && IsDigit(body[0]) && IsDigit(body[|body| - 1]) && '_' !in body
    requires ParseUnsigned(body) == Some(n)
    ensures ParseNumber(if negative then "-" + body else body)
         == Some(if negative then Number(-n.coefficient, n.exponent) else n)
  {
    if negative {
      var t := "-" + body;
      assert t[1..] == body && t[|t| - 1] == body[|body| - 1];
      assert '_' !in t by { assert forall i :: 1 <= i < |t| ==> t[i] == body[i - 1]; }
      StripNoop(t);
      ParseNegated(t, n);
    } else {
      ParseUnsignedText(body, n);
    }
  }

  /** Digits and points only: there is no exponent. */
  lemma {:induction false} ParsePlain(m: string)
    requires forall i :: 0 <= i < |m| ==> IsDigit(m[i]) || m[i] == '.'
    ensures ParseUnsigned(m) == ParseMantissa(m)
  {
    assert ExponentMark(m) == |m|;
    assert m[..|m|] == m;
  }

  /** A text whose first `e` characters are digits and points and whose
      next one is `E`: the mantissa ends at `e` and the exponent follows. */
  lemma {:induction false} ExponentAt(body: string, e: nat)
    requires e < |body| && body[e] == 'E'
    requires forall j :: 0 <= j < e ==> IsDigit(body[j]) || body[j] == '.'
    ensures ParseUnsigned(body) == Scaled(ParseMantissa(body[..e]), SignedRun(body[e + 1..]))
  {
    MarkAt(body, e);
    assert ParseUnsigned(body) == Scaled(ParseMantissa(body[..e]), SignedRun(body[e + 1..]));
  }

  /** The first exponent mark is at `e` when nothing before it is one. */
  lemma {:induction false} MarkAt(body: string, e: nat)
    requires e < |body| && body[e] == 'E'
    requires forall j :: 0 <= j < e ==> IsDigit(body[j]) || body[j] == '.'
    ensures ExponentMark(body) == e
  {
    assert forall j :: 0 <= j < e ==> body[j] != 'e' && body[j] != 'E';
  }

  /** `w.f` with both parts plain digits. */
  lemma {:induction false} ParsePointed(w: string, f: string)
    requires |w| > 0 && AllDigits(w) && |f| > 0 && AllDigits(f)
    ensures ParseMantissa(w + "." + f) == Some(Number(DigitsValue(w) * Pow10(|f|) + DigitsValue(f), -|f|))
  {
    var m := w + "." + f;
    assert m[|w|] == '.';
    assert forall j :: 0 <= j < |w| ==> m[j] == w[j];
    assert IndexOf(m, '.') == |w|;
    assert m[..|w|] == w && m[|w| + 1..] == f;
    DigitsValueAppend(w, f);
  }

  /** Plain digits, no point. */
  lemma {:induction false} ParseWhole(w: string)
    requires |w| > 0 && AllDigits(w)
    ensures ParseMantissa(w) == Some(Number(DigitsValue(w), 0))
  {
    assert IndexOf(w, '.') == |w|;
    assert w[..|w|] == w;
    assert w + [] == w;
  }

  /** A price of exponent -8 and the given sign quantizes to itself. */
  lemma {:induction false} QuantizeExact(units: int)
    ensures Quantize(Number(units, -8)) == units
  {
  }

  /** A body that reads as the magnitude stores the price, with its sign. */
  lemma {:induction false} StoreSigned(p: Price, body: string)
    requires p.Fits()
    requires |body| > 0 && IsDigit(body[0]) && IsDigit(body[|body| - 1]) && '_' !in body
    requires ParseUnsigned(body) == Some(Number(Magnitude(p), -8))
    ensures StorePrice(Signed(p, body)) == Some(p)
  {
    ParseSigned(body, Number(Magnitude(p), -8), p.units < 0);
    QuantizeExact(p.units);
  }

  lemma {:induction false} FixedBodyReads(m: nat)
    ensures var body := FixedBody(m);
      |body| > 0 && IsDigit(body[0]) && IsDigit(body[|body| - 1]) && '_' !in body
      && ParseUnsigned(body) == Some(Number(m, -8))
  {
    var w, f := NatText(m / Scale), FixedDigits(m % Scale, Places);
    PointedReads(w, f);
    assert DigitsValue(w) * Pow10(|f|) + DigitsValue(f) == m by {
      assert |f| == 8 && Pow10(8) == Scale;
      assert DigitsValue(w) == m / Scale && DigitsValue(f) == m % Scale;
      assert (m / Scale) * Scale + m % Scale == m;
    }
    var body := w + "." + f;
    assert Number(DigitsValue(w) * Pow10(|f|) + DigitsValue(f), -|f|) == Number(m, -8);
    assert ParseUnsigned(body) == Some(Number(m, -8));
    assert FixedBody(m) == body;
  }

  /** `w.f` with no exponent. */
  lemma {:induction false} PointedReads(w: string, f: string)
    requires |w| > 0 && AllDigits(w) && |f| > 0 && AllDigits(f)
    ensures var body := w + "." + f;
      |body| > 0 && IsDigit(body[0]) && IsDigit(body[|body| - 1]) && '_' !in body
      && ParseUnsigned(body) == Some(Number(DigitsValue(w) * Pow10(|f|) + DigitsValue(f), -|f|))
  {
    var body := w + "." + f;
    ParsePointed(w, f);
    assert forall i :: 0 <= i < |body| ==> IsDigit(body[i]) || body[i] == '.' by {
      forall i | 0 <= i < |body| ensures IsDigit(body[i]) || body[i] == '.' {
        if i < |w| { assert body[i] == w[i]; }
        else if i > |w| { assert body[i] == f[i - |w| - 1]; }
      }
    }
    assert '_' !in body;
    ParsePlain(body);
  }

  /** A mantissa followed by a negative exponent. */
  lemma {:induction false} NegativeExponentReads(mant: string, d: string)
    requires forall j :: 0 <= j < |mant| ==> IsDigit(mant[j]) || mant[j] == '.'
    requires |d| > 0 && AllDigits(d)
    ensures ParseUnsigned(mant + "E-" + d) == Scaled(ParseMantissa(mant), Some(-(DigitsValue(d) as int)))
  {
    var body := mant + "E-" + d;
    var e := |mant|;
    assert e < |body| && body[e] == 'E'
      && (forall j :: 0 <= j < e ==> IsDigit(body[j]) || body[j] == '.')
      && body[..e] == mant && body[e + 1..] == "-" + d by {
      assert forall j :: 0 <= j < e ==> body[j] == mant[j];
    }
    ExponentAt(body, e);
    NegatedDigitsRead(d);
  }

  /** One digit reads as its value. */
  lemma {:induction false} DigitReads(a: nat)
    requires a < 10
    ensures AllDigits([DigitChar(a)]) && DigitsValue([DigitChar(a)]) == a
  {
    var w: string := [DigitChar(a)];
    assert w[1..] == [];
  }

  /** The mantissa of scientific text reads as the units, one or two places
      above the exponent. */
  lemma {:induction false} ScientificMantissaReads(m: nat)
    requires m < 100
    ensures var mant := ScientificMantissa(m);
      |mant| > 0 && IsDigit(mant[0])
      && (forall j :: 0 <= j < |mant| ==> IsDigit(mant[j]) || mant[j] == '.')
      && ParseMantissa(mant) == Some(Number(m, if m >= 10 then -1 else 0))
  {
    if m >= 10 {
      var w, f: string := [DigitChar(m / 10)], [DigitChar(m % 10)];
      DigitReads(m / 10);
      DigitReads(m % 10);
      ParsePointed(w, f);
      assert Pow10(1) == 10;
    } else {
      DigitReads(m);
      ParseWhole([DigitChar(m)]);
    }
  }

  lemma {:induction false} ScientificBodyReads(m: nat)
    requires m < 100
    ensures var body := ScientificBody(m);
      |body| > 0 && IsDigit(body[0]) && IsDigit(body[|body| - 1]) && '_' !in body
      && ParseUnsigned(body) == Some(Number(m, -8))
  {
    var mant, k := ScientificMantissa(m), if m >= 10 then 7 else 8;
    var d: string := [DigitChar(k)];
    ScientificMantissaReads(m);
    DigitReads(k);
    NegativeExponentReads(mant, d);
    var body := mant + "E-" + d;
    assert body[0] == mant[0] && body[|body| - 1] == d[0];
    assert '_' !in mant && '_' !in d && '_' !in "E-";
  }

  /** Reading back the fixed-point text of a price gives the same price. */
  lemma {:induction false} StoreFixedText(p: Price)
    requires p.Fits()
    ensures StorePrice(FixedText(p)) == Some(p)
  {
    FixedBodyReads(Magnitude(p));
    StoreSigned(p, FixedBody(Magnitude(p)));
  }

  /** Reading back Python's text of a price gives the same price. */
  lemma {:induction false} StorePythonText(p: Price)
    requires p.Fits()
    ensures StorePrice(PythonText(p)) == Some(p)
  {
    var m := Magnitude(p);
    if m >= 100 {
      StoreFixedText(p);
    } else {
      ScientificBodyReads(m);
      StoreSigned(p, ScientificBody(m));
    }
  }

  // ---------------------------------------------------------------------
  // Stored values

  /** A text `w.f` with at most eight fraction digits is stored exactly: its
      digits, scaled up to eight places, when that fits in twenty digits. */
  lemma {:induction false} StorePointed(w: string, f: string)
    requires |w| > 0 && AllDigits(w) && |f| > 0 && AllDigits(f) && |f| <= Places
    ensures AllDigits(w + f)
    ensures var u := DigitsValue(w + f) * Pow10(Places - |f|);
      StorePrice(w + "." + f) == if u < Limit then Some(Price(u)) else None
  {
    var c, k := DigitsValue(w + f), Places - |f|;
    ScaledUp(c, -|f|, k);
    PointedNumber(w, f);
    StoreNonNegative(w + "." + f, Number(c, -|f|), c * Pow10(k));
  }

  /** A number with at most eight decimal places is scaled up exactly. */
  lemma {:induction false} ScaledUp(c: nat, e: int, k: nat)
    requires e + Places == k
    ensures Quantize(Number(c, e)) == c * Pow10(k) >= 0
  {
    NonNegativeProduct(c, Pow10(k));
  }

  /** A text that reads as a number quantizing to `u >= 0` units is stored as
      `u` when that has at most twenty digits. */
  lemma {:induction false} StoreNonNegative(s: string, n: Number, u: int)
    requires ParseNumber(s) == Some(n) && Quantize(n) == u && u >= 0
    ensures StorePrice(s) == if u < Limit then Some(Price(u)) else None
  {
  }

  /** `w.f` reads as the digits of `w` and `f` together, scaled down by the
      length of `f`. */
  lemma {:induction false} PointedNumber(w: string, f: string)
    requires |w| > 0 && AllDigits(w) && |f| > 0 && AllDigits(f)
    ensures AllDigits(w + f)
    ensures ParseNumber(w + "." + f) == Some(Number(DigitsValue(w + f), -|f|))
  {
    var body := w + "." + f;
    var n := Number(DigitsValue(w + f), -|f|);
    DigitsValueAppend(w, f);
    PointedReads(w, f);
    assert DigitsValue(w) * Pow10(|f|) + DigitsValue(f) == DigitsValue(w + f);
    assert ParseUnsigned(body) == Some(n);
    ParseUnsignedText(body, n);
  }

  /** Python's `str()` of an integer is stored as that integer scaled to
      eight places, when that fits in twenty digits. */
  lemma {:induction false} StoreWhole(i: int)
    ensures StorePrice(IntText(i)) ==
      if Price(i * Scale).Fits() then Some(Price(i * Scale)) else None
  {
    assert Quantize(Number(i, 0)) == i * Scale;
    WholeNumber(i);
    StoreNumber(IntText(i), Number(i, 0), i * Scale);
  }

  /** Python's `str()` of an integer reads back as that integer. */
  lemma {:induction false} WholeNumber(i: int)
    ensures ParseNumber(IntText(i)) == Some(Number(i, 0))
  {
    var d := NatText(if i < 0 then -i else i);
    var n := Number(DigitsValue(d), 0);
    assert ParseUnsigned(d) == Some(n) && '_' !in d by {
      ParseWhole(d);
      assert forall k :: 0 <= k < |d| ==> IsDigit(d[k]) || d[k] == '.';
      ParsePlain(d);
    }
    ParseSigned(d, n, i < 0);
    assert IntText(i) == if i < 0 then "-" + d else d;
  }

  /** A text that reads as a number quantizing to `u` units is stored as `u`
      when that has at most twenty digits. */
  lemma {:induction false} StoreNumber(s: string, n: Number, u: int)
    requires ParseNumber(s) == Some(n) && Quantize(n) == u
    ensures StorePrice(s) == if Price(u).Fits() then Some(Price(u)) else None
  {
  }

  lemma {:induction false} NonNegativeProduct(a: nat, b: nat)
    ensures a * b >= 0
  {
  }

  /** The price text of the listener's test: `50000.00` is stored as 50000
      exactly. */
  lemma {:induction false} StoreTestPrice()
    ensures StorePrice("50000.00") == Some(Price(5000000000000))
  {
    var w, f := NatText(50000), FixedDigits(0, 2);
    FiftyThousandText();
    assert f == "00" by { ZeroDigits(2); }
    assert "50000.00" == w + "." + f;
    StorePointed(w, f);
    assert |f| == 2 && Places - |f| == 6;
    assert DigitsValue(w + f) == 5000000 by {
      DigitsValueAppend(w, f);
      assert Pow10(2) == 100;
    }
    assert Pow10(6) == 1000000 by {
      assert Pow10(2) == 100;
      assert Pow10(4) == 10000;
    }
  }

  /** The API writes that price back as `50000.00000000`. */
  lemma {:induction false} TestPriceText()
    ensures FixedText(Price(5000000000000)) == "50000.00000000"
  {
    var p := Price(5000000000000);
    assert Magnitude(p) == 5000000000000;
    FiftyThousandBody();
  }

  /** The digits of 50000 in units, with the point eight places from the
      right. */
  lemma {:induction false} FiftyThousandBody()
    ensures FixedBody(5000000000000) == "50000.00000000"
  {
    var w, z := NatText(50000), FixedDigits(0, 8);
    FiftyThousandText();
    assert z == "00000000" by { ZeroDigits(8); }
    var m: nat := 5000000000000;
    assert m / Scale == 50000 && m % Scale == 0;
    assert FixedBody(m) == w + "." + z;
    assert "50000.00000000" == w + "." + z;
  }

  /** Zero written with `k` digits is `k` zeros. */
  lemma {:induction false} ZeroDigits(k: nat)
    ensures FixedDigits(0, k) == seq(k, _ => '0')
  {
    if k > 0 {
      ZeroDigits(k - 1);
    }
  }

  /** The whole digits of the test price. */
  lemma {:induction false} FiftyThousandText()
    ensures NatText(50000) == "50000"
  {
    assert NatText(5) == "5";
    TimesTenText(5);
    TimesTenText(50);
    TimesTenText(500);
    TimesTenText(5000);
  }

  /** Ten times a positive number is written with one more zero. */
  lemma {:induction false} TimesTenText(m: nat)
    requires m >= 1
    ensures NatText(m * 10) == NatText(m) + ['0']
  {
    assert (m * 10) / 10 == m && (m * 10) % 10 == 0;
    assert DigitChar(0) == '0';
  }
}
