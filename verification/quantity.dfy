// Memory quantities: reading "512Mi" as a byte count, and writing a byte count back in the units it was given in.
module Quantity {
  import opened Decimal
  import opened Text

  datatype Option<+T> = None | Some(value: T)

  datatype Result = Ok(bytes: int) | Empty | UnknownSuffix(suffix: string) | NotANumber | DoesNotFit

  datatype Unit = Unit(suffix: string, factor: nat)

  const KI := 0x400
  const MI := 0x10_0000
  const GI := 0x4000_0000
  const TI := 0x100_0000_0000
  const PI := 0x4_0000_0000_0000
  const EI := 0x1000_0000_0000_0000

  // Longest suffix first, so that "Mi" is not read as "M" with a stray "i".
  const UNITS := [
    Unit("Ki", KI), Unit("Mi", MI), Unit("Gi", GI), Unit("Ti", TI), Unit("Pi", PI), Unit("Ei", EI),
    Unit("k", 1_000), Unit("M", 1_000_000), Unit("G", 1_000_000_000), Unit("T", 1_000_000_000_000),
    Unit("P", 1_000_000_000_000_000), Unit("E", 1_000_000_000_000_000_000), Unit("", 1)]

  // Largest first.
  const BINARY := [Unit("Ei", EI), Unit("Pi", PI), Unit("Ti", TI), Unit("Gi", GI), Unit("Mi", MI), Unit("Ki", KI)]

  // The first byte count that does not fit, and the largest count up to which every integer is a float64.
  const OVERFLOW := 0x8000_0000_0000_0000
  const EXACT := 0x20_0000_0000_0000

  // Up to this count a float64 is off by much less than a tenth.
  const FINE := 0x2_0000_0000_0000

  // The floating-point operations used: reading a numeral (None where it is malformed or too large), multiplying by a
  // unit, rounding to an integer, and the number of tenths a quotient is written with.
  datatype Product = Finite(value: real) | Infinite

  datatype Arithmetic = Arithmetic(
    parse: string -> Option<real>,
    times: (real, nat) -> Product,
    round: real -> int,
    tenths: (nat, nat) -> nat)

  function Real(n: int): real {
    n as real
  }

  // A number of tenths to one decimal place.
  function Decimals(d: nat): string {
    Digits(d / 10) + "." + [Char(d % 10)]
  }

  // The nearest whole number to `d` tenths of `f`.
  function Nearest(d: nat, f: nat): nat {
    (d * f + 5) / 10
  }

  // What is needed of them, all of which float64 arithmetic gives.
  ghost predicate IsFloat64(a: Arithmetic) {
    ReadsIntegers(a) && StaysPositive(a) && ScalesExactly(a) && WritesTenths(a) && ReadsTenths(a)
  }

  // A numeral for an integer that is a float64 is read exactly.
  ghost predicate ReadsIntegers(a: Arithmetic) {
    forall n: nat | n <= EXACT :: a.parse(Digits(n)) == Some(Real(n))
  }

  // A product of numbers that are not negative is not, and rounding keeps the order.
  ghost predicate StaysPositive(a: Arithmetic) {
    && (forall x: real, f: nat | x >= 0.0 && a.times(x, f).Finite? :: a.times(x, f).value >= 0.0)
    && (forall x: real, y: real | x <= y :: a.round(x) <= a.round(y))
  }

  // Scaling such an integer by one or by a binary unit, a power of two, is exact; so is scaling by a decimal unit where
  // the product is such an integer; and integers round to themselves.
  ghost predicate ScalesExactly(a: Arithmetic) {
    && (forall n: nat, f: nat | n <= EXACT && IsPower(f) :: a.times(Real(n), f) == Finite(Real(n * f)))
    && (forall n: nat, f: nat | n * f <= EXACT && IsThousands(f) :: a.times(Real(n), f) == Finite(Real(n * f)))
    && (forall n: int :: a.round(Real(n)) == n)
  }

  // A quotient is written with a nearest number of tenths.
  ghost predicate WritesTenths(a: Arithmetic) {
    forall b: nat, f: nat | b <= EXACT && IsDecimalFactor(f) :: Within(10 * b, a.tenths(b, f) * f, f)
  }

  // No further apart than half of `f`.
  predicate Within(x: nat, y: nat, f: nat) {
    2 * x <= 2 * y + f && 2 * y <= 2 * x + f
  }

  // Tenths of a unit, read and scaled, come so close that they round as the exact product does: that product is a
  // multiple of a fifth, and so at least a tenth away from where rounding turns.
  ghost predicate ReadsTenths(a: Arithmetic) {
    forall d: nat, f: nat | IsDecimalFactor(f) && d * f <= 10 * FINE + MI :: ReadsBack(a, d, f)
  }

  ghost predicate ReadsBack(a: Arithmetic, d: nat, f: nat) {
    var value := a.parse(Decimals(d));
    && value.Some? && value.value >= 0.0
    && a.times(value.value, f).Finite?
    && a.round(a.times(value.value, f).value) == Nearest(d, f)
  }

  predicate IsDecimalFactor(f: nat) {
    f == KI || f == MI
  }

  predicate IsPower(f: nat) {
    f == 1 || f == KI || f == MI || f == GI || f == TI || f == PI || f == EI
  }

  predicate IsThousands(f: nat) {
    || f == 1_000 || f == 1_000_000 || f == 1_000_000_000 || f == 1_000_000_000_000
    || f == 1_000_000_000_000_000 || f == 1_000_000_000_000_000_000
  }

  // The contract can be met: arithmetic on tenths meets it.

  function ParseTenths(s: string): Option<real> {
    if s != "" && AllDigits(s) then Some(Real(Val(s)))
    else if |s| > 2 && s[|s| - 2] == '.' && AllDigits(s[..|s| - 2]) && IsDigit(s[|s| - 1]) then
      Some(Real(10 * Val(s[..|s| - 2]) + Digit(s[|s| - 1])) / 10.0)
    else None
  }

  function TimesTenths(x: real, f: nat): Product {
    Finite(Real((10.0 * x).Floor * f) / 10.0)
  }

  function Tenths(): Arithmetic {
    Arithmetic(ParseTenths, TimesTenths, (x: real) => (x + 0.5).Floor,
               (b: nat, f: nat) => if f == 0 then 0 else (20 * b + f) / (2 * f))
  }

  lemma DecimalsParse(d: nat)
    ensures ParseTenths(Decimals(d)) == Some(Real(d) / 10.0)
  {
    var s := Decimals(d);
    ValOfDigits(d / 10);
    assert s[|s| - 2] == '.' && s[..|s| - 2] == Digits(d / 10) && s[|s| - 1] == Char(d % 10);
  }

  lemma TenthsScale(n: nat, f: nat)
    ensures TimesTenths(Real(n), f) == Finite(Real(n * f))
    ensures TimesTenths(Real(n) / 10.0, f) == Finite(Real(n * f) / 10.0)
  {
    assert (10.0 * Real(n)).Floor == 10 * n && (10 * n) * f == 10 * (n * f);
    assert (10.0 * (Real(n) / 10.0)).Floor == n;
  }

  lemma TenthsRound(d: nat, f: nat)
    ensures (Real(d * f) / 10.0 + 0.5).Floor == Nearest(d, f)
  {
    var m := d * f;
    assert (Real(m) / 10.0 + 0.5).Floor == (m + 5) / 10;
  }

  lemma TenthsAreNearest(b: nat, f: nat)
    requires f > 0
    ensures Within(10 * b, (20 * b + f) / (2 * f) * f, f)
  {
    var q := (20 * b + f) / (2 * f);
    assert q * (2 * f) <= 20 * b + f < q * (2 * f) + 2 * f;
    assert q * (2 * f) == 2 * (q * f);
  }

  lemma TenthsReadBack(d: nat, f: nat)
    ensures ReadsBack(Tenths(), d, f)
  {
    DecimalsParse(d);
    TenthsScale(d, f);
    TenthsRound(d, f);
  }

  lemma TenthsRead()
    ensures ReadsIntegers(Tenths()) && ReadsTenths(Tenths())
  {
    forall n: nat
      ensures ParseTenths(Digits(n)) == Some(Real(n))
    {
      ValOfDigits(n);
    }
    forall d: nat, f: nat
      ensures ReadsBack(Tenths(), d, f)
    {
      TenthsReadBack(d, f);
    }
  }

  lemma TenthsStayPositive(x: real, f: nat)
    requires x >= 0.0
    ensures TimesTenths(x, f).value >= 0.0
  {
    var n: nat := (10.0 * x).Floor;
    assert n * f >= 0;
  }

  lemma TenthsCompute()
    ensures StaysPositive(Tenths()) && ScalesExactly(Tenths()) && WritesTenths(Tenths())
  {
    forall x: real, f: nat | x >= 0.0
      ensures TimesTenths(x, f).value >= 0.0
    {
      TenthsStayPositive(x, f);
    }
    forall n: nat, f: nat
      ensures TimesTenths(Real(n), f) == Finite(Real(n * f))
    {
      TenthsScale(n, f);
    }
    forall b: nat, f: nat | IsDecimalFactor(f)
      ensures Within(10 * b, Tenths().tenths(b, f) * f, f)
    {
      TenthsAreNearest(b, f);
    }
  }

  lemma TenthsWillDo()
    ensures IsFloat64(Tenths())
  {
    TenthsRead();
    TenthsCompute();
  }

  // The parts of a quantity.

  predicate IsNumeric(c: char) {
    IsDigit(c) || c == '.'
  }

  predicate InNumber(s: string) {
    forall i | 0 <= i < |s| :: IsNumeric(s[i])
  }

  function NumberEnd(text: string): (n: nat)
    ensures n <= |text|
  {
    if text != "" && IsNumeric(text[0]) then 1 + NumberEnd(text[1..]) else 0
  }

  // split.
  method Split(text: string) returns (digits: string, suffix: string)
    ensures digits == text[..NumberEnd(text)] && suffix == text[NumberEnd(text)..]
  {
    var end := 0;
    while end < |text| && IsNumeric(text[end])
      invariant 0 <= end <= |text|
      invariant NumberEnd(text) == end + NumberEnd(text[end..])
    {
      assert text[end..][1..] == text[end + 1..];
      end := end + 1;
    }
    digits, suffix := text[..end], text[end..];
  }

  lemma {:induction false} NumberEnds(digits: string, suffix: string)
    requires InNumber(digits) && (suffix == "" || !IsNumeric(suffix[0]))
    ensures NumberEnd(digits + suffix) == |digits|
    ensures (digits + suffix)[..|digits|] == digits && (digits + suffix)[|digits|..] == suffix
  {
    if digits == "" {
      assert digits + suffix == suffix;
    } else {
      assert (digits + suffix)[1..] == digits[1..] + suffix;
      NumberEnds(digits[1..], suffix);
    }
  }

  function FactorOf(suffix: string, units: seq<Unit>): Option<nat> {
    if units == [] then None
    else if units[0].suffix == suffix then Some(units[0].factor)
    else FactorOf(suffix, units[1..])
  }

  // A suffix has a factor exactly when some unit is written with it.
  lemma {:induction false} FactorOfFinds(suffix: string, units: seq<Unit>)
    ensures FactorOf(suffix, units).Some? <==> exists u | u in units :: u.suffix == suffix
    ensures FactorOf(suffix, units).Some? ==> Unit(suffix, FactorOf(suffix, units).value) in units
  {
    if units != [] {
      assert units == [units[0]] + units[1..];
      FactorOfFinds(suffix, units[1..]);
    }
  }

  // Parse.

  function Scaled(a: Arithmetic, digits: string, factor: nat): Result {
    match a.parse(digits)
    case None => NotANumber
    case Some(value) =>
      if value < 0.0 then NotANumber
      else match a.times(value, factor)
        case Infinite => DoesNotFit
        case Finite(x) => if a.round(x) >= OVERFLOW then DoesNotFit else Ok(a.round(x))
  }

  function Parsed(a: Arithmetic, text: string): Result {
    var trimmed := TrimSpace(text);
    if trimmed == "" then Empty
    else
      var end := NumberEnd(trimmed);
      match FactorOf(trimmed[end..], UNITS)
      case None => UnknownSuffix(trimmed[end..])
      case Some(factor) => Scaled(a, trimmed[..end], factor)
  }

  // Parse. What it accepts fits in 63 bits.
  method Parse(a: Arithmetic, text: string) returns (r: Result)
    ensures r == Parsed(a, text)
    ensures IsFloat64(a) && r.Ok? ==> 0 <= r.bytes < OVERFLOW
  {
    ParsedFits(a, text);
    var trimmed := TrimSpace(text);
    if trimmed == "" {
      return Empty;
    }
    var digits, suffix := Split(trimmed);
    var factor := FactorOf(suffix, UNITS);
    if factor.None? {
      return UnknownSuffix(suffix);
    }
    return Scaled(a, digits, factor.value);
  }

  // Every count that is read fits in 63 bits.
  lemma ParsedFits(a: Arithmetic, text: string)
    ensures IsFloat64(a) && Parsed(a, text).Ok? ==> 0 <= Parsed(a, text).bytes < OVERFLOW
  {
    if IsFloat64(a) {
      assert a.round(Real(0)) == 0;
    }
  }

  ghost predicate IsSuffix(suffix: string) {
    exists u | u in UNITS :: u.suffix == suffix
  }

  lemma SuffixesHaveFactors(suffix: string)
    ensures FactorOf(suffix, UNITS).Some? <==> IsSuffix(suffix)
  {
    FactorOfFinds(suffix, UNITS);
  }

  // What is refused for its suffix: everything whose text after the number is no unit, whatever the number.
  lemma OnlyUnitsAreRead(a: Arithmetic, text: string)
    ensures Parsed(a, text) == Empty <==> TrimSpace(text) == ""
    ensures Parsed(a, text).UnknownSuffix? <==>
              TrimSpace(text) != "" && !IsSuffix(TrimSpace(text)[NumberEnd(TrimSpace(text))..])
  {
    var trimmed := TrimSpace(text);
    SuffixesHaveFactors(trimmed[NumberEnd(trimmed)..]);
  }

  // Format.

  function FormatInt(n: int): string {
    if n < 0 then "-" + Digits(-n) else Digits(n)
  }

  predicate IsWhole(bytes: nat, f: nat) {
    f > 0 && bytes >= f && bytes % f == 0
  }

  function Count(bytes: nat, f: nat): nat
    requires f > 0
  {
    bytes / f
  }

  function FirstUnit(units: seq<Unit>, fits: Unit -> bool): (r: Option<Unit>)
    ensures r.Some? ==> r.value in units && fits(r.value)
  {
    if units == [] then None
    else if fits(units[0]) then Some(units[0])
    else FirstUnit(units[1..], fits)
  }

  // The first unit that a count is a whole number of.
  function WholeUnit(bytes: nat): (r: Option<Unit>)
    ensures r.Some? ==> r.value in BINARY && IsWhole(bytes, r.value.factor)
  {
    FirstUnit(BINARY, (u: Unit) => IsWhole(bytes, u.factor))
  }

  function Formatted(a: Arithmetic, bytes: int): string {
    if bytes < KI then FormatInt(bytes)
    else match WholeUnit(bytes)
      case Some(u) => FormatInt(Count(bytes, u.factor)) + u.suffix
      case None =>
        if bytes >= MI then Decimals(a.tenths(bytes, MI)) + "Mi" else Decimals(a.tenths(bytes, KI)) + "Ki"
  }

  lemma {:induction false} FirstIsLargest(units: seq<Unit>, fits: Unit -> bool, i: nat)
    requires forall j, k | 0 <= j < k < |units| :: units[j].factor > units[k].factor
    requires i < |units| && fits(units[i])
    ensures FirstUnit(units, fits).Some? && FirstUnit(units, fits).value.factor >= units[i].factor
  {
    if !fits(units[0]) {
      assert i > 0 && units[1..][i - 1] == units[i];
      FirstIsLargest(units[1..], fits, i - 1);
    }
  }

  // The unit a count is written in is the largest of which it is a whole number.
  lemma LargestWholeUnit(bytes: nat, i: nat)
    requires i < |BINARY| && IsWhole(bytes, BINARY[i].factor)
    ensures WholeUnit(bytes).Some? && WholeUnit(bytes).value.factor >= BINARY[i].factor
  {
    FirstIsLargest(BINARY, (v: Unit) => IsWhole(bytes, v.factor), i);
  }

  // Reading back what was written.

  lemma Unspaced(text: string)
    requires text != "" && !IsSpace(text[0]) && !IsSpace(text[|text| - 1])
    ensures TrimSpace(text) == text
  {
  }

  lemma ParsedOf(a: Arithmetic, digits: string, suffix: string, factor: nat)
    requires digits != "" && InNumber(digits)
    requires FactorOf(suffix, UNITS) == Some(factor)
    requires suffix != "" ==> !IsNumeric(suffix[0]) && !IsSpace(suffix[|suffix| - 1])
    ensures Parsed(a, digits + suffix) == Scaled(a, digits, factor)
  {
    var text := digits + suffix;
    assert IsNumeric(digits[0]) && IsNumeric(digits[|digits| - 1]);
    assert text[0] == digits[0];
    assert text[|text| - 1] == if suffix == "" then digits[|digits| - 1] else suffix[|suffix| - 1];
    Unspaced(text);
    NumberEnds(digits, suffix);
  }

  lemma {:induction false} FactorAt(units: seq<Unit>, i: nat)
    requires i < |units| && forall j | 0 <= j < i :: units[j].suffix != units[i].suffix
    ensures FactorOf(units[i].suffix, units) == Some(units[i].factor)
  {
    if i > 0 {
      FactorAt(units[1..], i - 1);
    }
  }

  lemma BinaryAmongUnits(k: nat)
    requires k < |BINARY|
    ensures UNITS[5 - k] == BINARY[k] && forall j | 0 <= j < 5 - k :: UNITS[j].suffix != UNITS[5 - k].suffix
  {
    assert UNITS[0] == BINARY[5] && UNITS[1] == BINARY[4] && UNITS[2] == BINARY[3];
    assert UNITS[3] == BINARY[2] && UNITS[4] == BINARY[1] && UNITS[5] == BINARY[0];
    assert forall j | 0 <= j < 6 :: UNITS[j].suffix[0] == "KMGTPE"[j];
  }

  lemma BinaryShape(u: Unit)
    requires u in BINARY
    ensures IsPower(u.factor) && KI <= u.factor && u.factor % KI == 0
    ensures u.suffix != "" && !IsNumeric(u.suffix[0]) && !IsSpace(u.suffix[|u.suffix| - 1])
  {
  }

  lemma BinaryFactor(u: Unit)
    requires u in BINARY
    ensures FactorOf(u.suffix, UNITS) == Some(u.factor)
  {
    var k :| 0 <= k < |BINARY| && BINARY[k] == u;
    BinaryAmongUnits(k);
    FactorAt(UNITS, 5 - k);
  }

  lemma ScaledExactly(a: Arithmetic, n: nat, factor: nat)
    requires IsFloat64(a) && n <= EXACT && IsPower(factor) && n * factor < OVERFLOW
    ensures Scaled(a, Digits(n), factor) == Ok(n * factor)
  {
  }

  lemma WholeCount(bytes: nat, f: nat)
    requires f >= KI && bytes < OVERFLOW && IsWhole(bytes, f)
    ensures Count(bytes, f) * f == bytes && Count(bytes, f) <= EXACT
  {
    var n := Count(bytes, f);
    assert n * KI <= n * f;
  }

  lemma SmallRoundTrip(a: Arithmetic, bytes: nat)
    requires IsFloat64(a) && bytes < KI
    ensures Parsed(a, Digits(bytes)) == Ok(bytes)
  {
    FactorAt(UNITS, 12);
    ParsedOf(a, Digits(bytes), "", 1);
    assert Digits(bytes) + "" == Digits(bytes);
    ScaledExactly(a, bytes, 1);
  }

  lemma WholeRoundTrip(a: Arithmetic, bytes: nat, u: Unit)
    requires IsFloat64(a) && u in BINARY && bytes < OVERFLOW && IsWhole(bytes, u.factor)
    ensures Parsed(a, Digits(Count(bytes, u.factor)) + u.suffix) == Ok(bytes)
  {
    BinaryShape(u);
    BinaryFactor(u);
    WholeCount(bytes, u.factor);
    ParsedOf(a, Digits(Count(bytes, u.factor)), u.suffix, u.factor);
    ScaledExactly(a, Count(bytes, u.factor), u.factor);
  }

  // A count below 1024, or a whole number of 1024s, is written so that it is read back as itself.
  lemma RoundTrip(a: Arithmetic, bytes: int)
    requires IsFloat64(a) && 0 <= bytes < OVERFLOW
    requires bytes < KI || bytes % KI == 0
    ensures Parsed(a, Formatted(a, bytes)) == Ok(bytes)
  {
    if bytes < KI {
      SmallRoundTrip(a, bytes);
    } else {
      LargestWholeUnit(bytes, 5);
      WholeRoundTrip(a, bytes, WholeUnit(bytes).value);
    }
  }

  // Any other count is written to one decimal place of a unit, and read back as the nearest count to that.

  function DecimalUnit(bytes: nat): (u: Unit)
    ensures IsDecimalFactor(u.factor)
  {
    if bytes >= MI then Unit("Mi", MI) else Unit("Ki", KI)
  }

  lemma {:induction false} MultipleOfMultiple(bytes: nat, f: nat)
    requires f > 0 && f % KI == 0 && bytes % f == 0
    ensures bytes % KI == 0
  {
    var n, c := bytes / f, f / KI;
    assert bytes == n * f == n * (c * KI) == (n * c) * KI;
  }

  lemma WholeUnitsAreWhole(bytes: nat)
    requires WholeUnit(bytes).Some?
    ensures bytes % KI == 0
  {
    var u := WholeUnit(bytes).value;
    BinaryShape(u);
    MultipleOfMultiple(bytes, u.factor);
  }

  lemma DecimalsAreNumeric(d: nat)
    ensures Decimals(d) != "" && InNumber(Decimals(d))
  {
  }

  lemma DecimalIsRead(a: Arithmetic, d: nat, u: Unit)
    requires IsFloat64(a) && u in BINARY && IsDecimalFactor(u.factor) && d * u.factor <= 10 * FINE + MI
    ensures Parsed(a, Decimals(d) + u.suffix) == Ok(Nearest(d, u.factor))
  {
    BinaryShape(u);
    BinaryFactor(u);
    DecimalsAreNumeric(d);
    ParsedOf(a, Decimals(d), u.suffix, u.factor);
    assert ReadsBack(a, d, u.factor);
  }

  lemma DecimalRead(a: Arithmetic, bytes: nat)
    requires IsFloat64(a) && KI <= bytes <= FINE && bytes % KI != 0
    ensures var f := DecimalUnit(bytes).factor;
            Parsed(a, Formatted(a, bytes)) == Ok(Nearest(a.tenths(bytes, f), f))
  {
    var u := DecimalUnit(bytes);
    assert BINARY[4] in BINARY && BINARY[5] in BINARY;
    if WholeUnit(bytes).Some? {
      WholeUnitsAreWhole(bytes);
    }
    assert Within(10 * bytes, a.tenths(bytes, u.factor) * u.factor, u.factor);
    DecimalIsRead(a, a.tenths(bytes, u.factor), u);
  }

  // A count that is within half a byte of some tenths of the unit it is written in.
  ghost predicate IsDecimal(bytes: nat) {
    exists d: nat :: Close(bytes, d, DecimalUnit(bytes).factor)
  }

  predicate Close(bytes: nat, d: nat, f: nat) {
    10 * bytes < d * f + 5 && d * f < 10 * bytes + 5
  }

  // Only one number of tenths can be that close, and it is then the one written.
  lemma CloseIsWritten(bytes: nat, d: nat, e: nat, f: nat)
    requires IsDecimalFactor(f) && Close(bytes, d, f) && Within(10 * bytes, e * f, f)
    ensures d == e
  {
    if d < e {
      ScaleGrows(d, e, f);
    } else if e < d {
      ScaleGrows(e, d, f);
    }
  }

  // Rounding never meets a tie: the product is even.
  lemma NearestOfEven(half: nat, bytes: nat)
    ensures (2 * half + 5) / 10 == bytes <==> 10 * bytes < 2 * half + 5 && 2 * half < 10 * bytes + 5
  {
  }

  lemma NearestIsClose(bytes: nat, d: nat, f: nat)
    requires IsDecimalFactor(f)
    ensures Nearest(d, f) == bytes <==> Close(bytes, d, f)
  {
    var half := d * (f / 2);
    assert d * f == 2 * half by {
      assert f == 2 * (f / 2);
    }
    NearestOfEven(half, bytes);
  }

  // Which counts survive being written and read: those below 1024, the multiples of 1024, and those within half a byte
  // of a whole number of tenths of their unit. No other does.
  lemma RoundTripExactly(a: Arithmetic, bytes: nat)
    requires IsFloat64(a) && bytes <= FINE
    ensures Parsed(a, Formatted(a, bytes)) == Ok(bytes) <==> bytes < KI || bytes % KI == 0 || IsDecimal(bytes)
  {
    if bytes < KI || bytes % KI == 0 {
      RoundTrip(a, bytes);
    } else {
      var f := DecimalUnit(bytes).factor;
      var e := a.tenths(bytes, f);
      DecimalRead(a, bytes);
      NearestIsClose(bytes, e, f);
      forall d: nat | Close(bytes, d, f)
        ensures d == e
      {
        CloseIsWritten(bytes, d, e, f);
      }
    }
  }

  // What the suffixes stand for, spelt out: powers of 1024 and of 1000, with any space around.

  function Power(base: nat, n: nat): (p: nat)
    ensures base > 0 ==> p > 0
  {
    if n == 0 then 1 else base * Power(base, n - 1)
  }

  lemma ParsedAround(a: Arithmetic, before: string, digits: string, suffix: string, after: string, factor: nat)
    requires AllSpace(before) && AllSpace(after) && digits != "" && InNumber(digits)
    requires FactorOf(suffix, UNITS) == Some(factor)
    requires suffix != "" ==> !IsNumeric(suffix[0]) && !IsSpace(suffix[|suffix| - 1])
    ensures Parsed(a, before + (digits + suffix) + after) == Scaled(a, digits, factor)
  {
    var text := digits + suffix;
    ParsedOf(a, digits, suffix, factor);
    assert IsNumeric(digits[0]) && IsNumeric(digits[|digits| - 1]);
    assert text[0] == digits[0];
    assert text[|text| - 1] == if suffix == "" then digits[|digits| - 1] else suffix[|suffix| - 1];
    TrimsAround(before, text, after);
    Unspaced(text);
  }

  // A number with a suffix that is a unit's.
  lemma ReadsUnit(a: Arithmetic, before: string, n: nat, suffix: string, after: string, factor: nat)
    requires IsFloat64(a) && n <= EXACT && AllSpace(before) && AllSpace(after)
    requires FactorOf(suffix, UNITS) == Some(factor)
    requires suffix != "" ==> !IsNumeric(suffix[0]) && !IsSpace(suffix[|suffix| - 1])
    requires IsPower(factor) || (n * factor <= EXACT && IsThousands(factor))
    ensures Parsed(a, before + (Digits(n) + suffix) + after) ==
            if n * factor < 0x8000_0000_0000_0000 then Ok(n * factor) else DoesNotFit
  {
    ParsedAround(a, before, Digits(n), suffix, after, factor);
    ScaledOrTooLarge(a, n, factor);
  }

  lemma ScaledOrTooLarge(a: Arithmetic, n: nat, factor: nat)
    requires IsFloat64(a) && n <= EXACT
    requires IsPower(factor) || (n * factor <= EXACT && IsThousands(factor))
    ensures Scaled(a, Digits(n), factor) == if n * factor < 0x8000_0000_0000_0000 then Ok(n * factor) else DoesNotFit
  {
  }

  lemma PowersOf1024(j: nat)
    requires j < 6
    ensures UNITS[j] == Unit(["KMGTPE"[j]] + "i", Power(1024, j + 1)) && IsPower(Power(1024, j + 1))
    ensures forall i | 0 <= i < j :: UNITS[i].suffix != UNITS[j].suffix
  {
    assert Power(1024, 1) == KI && Power(1024, 2) == MI && Power(1024, 3) == GI;
    assert Power(1024, 4) == TI && Power(1024, 5) == PI && Power(1024, 6) == EI;
    assert forall i | 0 <= i < 6 :: UNITS[i].suffix[0] == "KMGTPE"[i];
  }

  lemma PowersOf1000(j: nat)
    requires j < 6
    ensures UNITS[6 + j] == Unit(["kMGTPE"[j]], Power(1000, j + 1)) && IsThousands(Power(1000, j + 1))
    ensures forall i | 0 <= i < 6 + j :: UNITS[i].suffix != UNITS[6 + j].suffix
  {
    assert Power(1000, 1) == 1_000 && Power(1000, 2) == 1_000_000 && Power(1000, 3) == 1_000_000_000;
    assert Power(1000, 4) == 1_000_000_000_000 && Power(1000, 5) == 1_000_000_000_000_000;
    assert Power(1000, 6) == 1_000_000_000_000_000_000;
    assert forall i | 0 <= i < 6 :: |UNITS[i].suffix| == 2;
    assert forall i | 6 <= i < 12 :: UNITS[i].suffix == ["kMGTPE"[i - 6]];
  }

  lemma BinarySuffix(j: nat)
    requires j < 6
    ensures var suffix := ["KMGTPE"[j]] + "i";
            && FactorOf(suffix, UNITS) == Some(Power(1024, j + 1)) && IsPower(Power(1024, j + 1))
            && !IsNumeric(suffix[0]) && !IsSpace(suffix[|suffix| - 1])
  {
    PowersOf1024(j);
    FactorAt(UNITS, j);
  }

  lemma DecimalSuffix(j: nat)
    requires j < 6
    ensures var suffix := ["kMGTPE"[j]];
            && FactorOf(suffix, UNITS) == Some(Power(1000, j + 1)) && IsThousands(Power(1000, j + 1))
            && !IsNumeric(suffix[0]) && !IsSpace(suffix[|suffix| - 1])
  {
    PowersOf1000(j);
    FactorAt(UNITS, 6 + j);
  }

  // "<n>Ki" up to "<n>Ei": so many powers of 1024, or too many.
  lemma ReadsBinary(a: Arithmetic, before: string, n: nat, j: nat, after: string)
    requires IsFloat64(a) && n <= EXACT && j < 6 && AllSpace(before) && AllSpace(after)
    ensures var bytes := n * Power(1024, j + 1);
            Parsed(a, before + (Digits(n) + (["KMGTPE"[j]] + "i")) + after) ==
            if bytes < 0x8000_0000_0000_0000 then Ok(bytes) else DoesNotFit
  {
    BinarySuffix(j);
    ReadsUnit(a, before, n, ["KMGTPE"[j]] + "i", after, Power(1024, j + 1));
  }

  // "<n>k" up to "<n>E": so many powers of 1000, where a float64 holds the product.
  lemma ReadsDecimal(a: Arithmetic, before: string, n: nat, j: nat, after: string)
    requires IsFloat64(a) && j < 6 && n * Power(1000, j + 1) <= EXACT && AllSpace(before) && AllSpace(after)
    ensures Parsed(a, before + (Digits(n) + ["kMGTPE"[j]]) + after) == Ok(n * Power(1000, j + 1))
  {
    DecimalSuffix(j);
    ReadsThousands(a, before, n, ["kMGTPE"[j]], after, Power(1000, j + 1));
  }

  lemma ReadsThousands(a: Arithmetic, before: string, n: nat, suffix: string, after: string, factor: nat)
    requires IsFloat64(a) && AllSpace(before) && AllSpace(after)
    requires FactorOf(suffix, UNITS) == Some(factor) && IsThousands(factor) && n * factor <= EXACT
    requires suffix != "" ==> !IsNumeric(suffix[0]) && !IsSpace(suffix[|suffix| - 1])
    ensures Parsed(a, before + (Digits(n) + suffix) + after) == Ok(n * factor)
  {
    AtLeastItself(n, factor);
    ReadsUnit(a, before, n, suffix, after, factor);
  }

  lemma AtLeastItself(n: nat, f: nat)
    requires f > 0
    ensures n <= n * f
  {
  }

  // A bare count of bytes.
  lemma ReadsBytes(a: Arithmetic, before: string, n: nat, after: string)
    requires IsFloat64(a) && n <= EXACT && AllSpace(before) && AllSpace(after)
    ensures Parsed(a, before + (Digits(n) + "") + after) == Ok(n)
  {
    FactorAt(UNITS, 12);
    ReadsUnit(a, before, n, "", after, 1);
  }

  // And no other suffix is read.
  lemma ReadsNothingElse(a: Arithmetic, digits: string, suffix: string)
    requires digits != "" && InNumber(digits) && suffix != "" && !IsNumeric(suffix[0])
    requires !IsSpace(suffix[|suffix| - 1])
    requires forall j | 0 <= j < 6 :: suffix != ["KMGTPE"[j]] + "i" && suffix != ["kMGTPE"[j]]
    ensures Parsed(a, digits + suffix) == UnknownSuffix(suffix)
  {
    var text := digits + suffix;
    assert text[0] == digits[0] && text[|text| - 1] == suffix[|suffix| - 1];
    assert IsNumeric(digits[0]);
    Unspaced(text);
    NumberEnds(digits, suffix);
    FactorOfFinds(suffix, UNITS);
    if u :| u in UNITS && u.suffix == suffix {
      var i :| 0 <= i < |UNITS| && UNITS[i] == u;
      if i < 6 {
        PowersOf1024(i);
      } else if i < 12 {
        PowersOf1000(i - 6);
      }
    }
  }

  // How a count is written, spelt out.

  lemma {:induction false} FirstFits(units: seq<Unit>, fits: Unit -> bool, i: nat)
    requires i < |units| && fits(units[i]) && forall k | 0 <= k < i :: !fits(units[k])
    ensures FirstUnit(units, fits) == Some(units[i])
  {
    if i > 0 {
      assert units[1..][i - 1] == units[i] && forall k | 0 <= k < i - 1 :: units[1..][k] == units[k + 1];
      FirstFits(units[1..], fits, i - 1);
    }
  }

  lemma {:induction false} NoneFits(units: seq<Unit>, fits: Unit -> bool)
    requires forall k | 0 <= k < |units| :: !fits(units[k])
    ensures FirstUnit(units, fits) == None
  {
    if units != [] {
      assert forall k | 0 <= k < |units[1..]| :: units[1..][k] == units[k + 1];
      NoneFits(units[1..], fits);
    }
  }

  lemma BinaryIs(j: nat)
    requires j < 6
    ensures BINARY[5 - j] == Unit(["KMGTPE"[j]] + "i", Power(1024, j + 1)) && Power(1024, j + 1) > 0
  {
    BinaryAmongUnits(5 - j);
    PowersOf1024(j);
  }

  // The power of 1024 that divides the count, and the next does not.
  lemma WritesWhole(a: Arithmetic, bytes: nat, j: nat)
    requires bytes >= 1024 && j < 6 && bytes % Power(1024, j + 1) == 0
    requires forall k: nat | j + 1 < k <= 6 :: bytes % Power(1024, k) != 0
    ensures Formatted(a, bytes) == Digits(bytes / Power(1024, j + 1)) + (["KMGTPE"[j]] + "i")
  {
    var fits := (u: Unit) => IsWhole(bytes, u.factor);
    BinaryIs(j);
    assert fits(BINARY[5 - j]) by {
      DividesIsLess(bytes, Power(1024, j + 1));
    }
    forall k | 0 <= k < 5 - j
      ensures !fits(BINARY[k])
    {
      BinaryIs(5 - k);
      assert bytes % Power(1024, 6 - k) != 0;
    }
    FirstFits(BINARY, fits, 5 - j);
  }

  lemma DividesIsLess(bytes: nat, f: nat)
    requires bytes > 0 && f > 0 && bytes % f == 0
    ensures bytes >= f
  {
  }

  // No power of 1024: tenths of a mebibyte from one mebibyte on, and of a kibibyte below.
  lemma WritesDecimals(a: Arithmetic, bytes: nat)
    requires bytes >= 1024 && bytes % 1024 != 0
    ensures Formatted(a, bytes) ==
            if bytes >= 1024 * 1024 then Decimals(a.tenths(bytes, 1024 * 1024)) + "Mi"
            else Decimals(a.tenths(bytes, 1024)) + "Ki"
  {
    var fits := (u: Unit) => IsWhole(bytes, u.factor);
    forall k | 0 <= k < |BINARY|
      ensures !fits(BINARY[k])
    {
      if fits(BINARY[k]) {
        BinaryShape(BINARY[k]);
        MultipleOfMultiple(bytes, BINARY[k].factor);
      }
    }
    NoneFits(BINARY, fits);
  }

  // Below 1024, and for what is no count, the bytes themselves.
  lemma WritesBytes(a: Arithmetic, bytes: int)
    requires bytes < 1024
    ensures Formatted(a, bytes) == if bytes < 0 then "-" + Digits(-bytes) else Digits(bytes)
  {
  }

  // What is refused besides an unknown suffix: nothing at all, what is no number or a negative one, and what does not
  // fit.

  lemma RefusesSpace(a: Arithmetic, text: string)
    requires AllSpace(text)
    ensures Parsed(a, text) == Empty
  {
    assert text == text + "" + "";
    TrimsAround(text, "", "");
  }

  lemma RefusesNumbers(a: Arithmetic, before: string, digits: string, i: nat, after: string)
    requires AllSpace(before) && AllSpace(after) && digits != "" && InNumber(digits) && i < 13
    ensures Parsed(a, before + (digits + UNITS[i].suffix) + after) ==
            match a.parse(digits)
            case None => NotANumber
            case Some(value) =>
              if value < 0.0 then NotANumber
              else match a.times(value, UNITS[i].factor)
                case Infinite => DoesNotFit
                case Finite(product) =>
                  if a.round(product) < 0x8000_0000_0000_0000 then Ok(a.round(product)) else DoesNotFit
  {
    UnitIsFound(i);
    ParsedAround(a, before, digits, UNITS[i].suffix, after, UNITS[i].factor);
  }

  lemma UnitIsFound(i: nat)
    requires i < 13
    ensures var u := UNITS[i];
            && FactorOf(u.suffix, UNITS) == Some(u.factor)
            && (u.suffix != "" ==> !IsNumeric(u.suffix[0]) && !IsSpace(u.suffix[|u.suffix| - 1]))
  {
    if i < 6 {
      BinarySuffix(i);
      PowersOf1024(i);
    } else if i < 12 {
      DecimalSuffix(i - 6);
      PowersOf1000(i - 6);
    } else {
      FactorAt(UNITS, 12);
    }
  }
}
