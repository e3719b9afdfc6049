/**
 Exact conversions between currency amounts and minor units, after
 apps/api/integrations/meta_ads/money.py.
 */
module Money {
  import opened Wrappers

  const MAX_DIGITS := 256
  const MAX_EXPONENT := 256

  datatype Error =
    | UnsupportedCurrency
    | WrongType
    | NotFinite
    | OutOfBounds
    | NotWhole

  /** The digits of a decimal: without leading zeros, and a single 0 for zero. */
  type Digits = s: seq<nat> |
      s != [] && (forall i :: 0 <= i < |s| ==> s[i] < 10) && (s[0] == 0 ==> |s| == 1)
    witness [0]

  /** A finite decimal: its digits times ten to its exponent. */
  datatype Decimal = Decimal(negative: bool, digits: Digits, exponent: int) {
    predicate IsZero() { digits == [0] }

    /** The exponent of the first digit. */
    function Adjusted(): int { exponent + |digits| - 1 }

    function Coefficient(): int { if negative then 0 - Number(digits) else Number(digits) }

    function Value(): real { Worth(Coefficient(), exponent) }
  }

  const ZERO := Decimal(false, [0], 0)

  /** What a caller may pass; a text comes with the decimal it reads as, finite or not. */
  datatype Input =
    | Text(read: Option<Decimal>)
    | Whole(number: int)
    | Exact(decimal: Option<Decimal>)
    | Other

  // ---------------------------------------------------------------------------
  // Decimals
  // ---------------------------------------------------------------------------

  function Number(digits: seq<nat>): nat {
    if digits == [] then 0
    else Number(digits[..|digits| - 1]) * 10 + digits[|digits| - 1]
  }

  /** Ten to a power, which may be negative. */
  function Power(exponent: int): (r: real)
    ensures r > 0.0
    decreases if exponent < 0 then -exponent else exponent
  {
    if exponent == 0 then 1.0
    else if exponent > 0 then 10.0 * Power(exponent - 1)
    else Power(exponent + 1) / 10.0
  }

  /** A count of powers of ten. */
  function Worth(count: int, exponent: int): real { count as real * Power(exponent) }

  predicate IsInteger(x: real) { x == x.Floor as real }

  function DigitsOf(n: nat): (r: Digits)
    ensures Number(r) == n
    ensures r == [0] <==> n == 0
  {
    if n < 10 then [n]
    else
      var front := DigitsOf(n / 10);
      front + [n % 10]
  }

  function FromInt(n: int): Decimal {
    Decimal(n < 0, DigitsOf(if n < 0 then -n else n), 0)
  }

  // ---------------------------------------------------------------------------
  // The conversions
  // ---------------------------------------------------------------------------

  predicate OneUnit(currency: string) {
    currency in ["CLP", "COP", "CRC", "HUF", "ISK", "IDR", "JPY", "KRW", "PYG", "TWD", "VND"]
  }

  predicate Hundredths(currency: string) {
    currency in [
      "AED", "ARS", "AUD", "BDT", "BOB", "BRL", "CAD", "CHF", "CNY", "CZK", "DKK", "DZD", "EGP", "EUR",
      "GBP", "GTQ", "HKD", "HNL", "ILS", "INR", "KES", "LKR", "MOP", "MXN", "MYR", "NGN", "NIO", "NOK",
      "NZD", "PEN", "PHP", "PKR", "PLN", "QAR", "RON", "SAR", "SEK", "SGD", "THB", "TRY", "UAH", "USD",
      "UYU", "ZAR"
    ]
  }

  predicate IsSupported(currency: string) {
    OneUnit(currency) || Hundredths(currency)
  }

  function DecimalPlaces(currency: string): (r: Result<nat, Error>)
    ensures r.Success? <==> IsSupported(currency)
    ensures r == Success(0) <==> OneUnit(currency)
    ensures r == Success(2) <==> Hundredths(currency) && !OneUnit(currency)
    ensures r.Failure? ==> r.error == UnsupportedCurrency
  {
    if !IsSupported(currency) then Failure(UnsupportedCurrency)
    else Success(if OneUnit(currency) then 0 else 2)
  }

  /** The decimal an input reads as. */
  function Read(input: Input): Result<Decimal, Error> {
    match input
    case Text(Some(d)) => Success(d)
    case Text(None) => Failure(NotFinite)
    case Whole(n) => Success(FromInt(n))
    case Exact(Some(d)) => Success(d)
    case Exact(None) => Failure(NotFinite)
    case Other => Failure(WrongType)
  }

  predicate WithinBounds(d: Decimal) {
    && |d.digits| <= MAX_DIGITS
    && -MAX_EXPONENT <= d.exponent <= MAX_EXPONENT
    && (d.IsZero() || d.Adjusted() < MAX_DIGITS)
  }

  /** The same number without trailing zeros; zero has just its one digit. */
  function Stripped(d: Decimal): (r: Decimal)
    decreases |d.digits|
  {
    var last := |d.digits| - 1;
    if d.IsZero() then ZERO
    else if d.digits[last] != 0 then d
    else Stripped(Decimal(d.negative, d.digits[..last], d.exponent + 1))
  }

  /** A bounded finite decimal, without trailing zeros. */
  function Checked(input: Input): Result<Decimal, Error> {
    match Read(input)
    case Failure(error) => Failure(error)
    case Success(d) => if WithinBounds(d) then Success(Stripped(d)) else Failure(OutOfBounds)
  }

  /** The number of the first digits, if only zeros follow them. */
  function Leading(d: Decimal, significant: nat): Decimal
    requires 0 < significant <= |d.digits| && d.digits[0] != 0
  {
    Decimal(d.negative, d.digits[..significant], d.exponent + |d.digits| - significant)
  }

  lemma StrippedWithoutZero(d: Decimal, significant: nat)
    requires 1 < significant <= |d.digits| && d.digits[0] != 0 && d.digits[significant - 1] == 0
    ensures Stripped(Leading(d, significant)) == Stripped(Leading(d, significant - 1))
  {
    assert d.digits[..significant][..significant - 1] == d.digits[..significant - 1];
  }

  method ToDecimal(input: Input) returns (result: Result<Decimal, Error>)
    ensures result == Checked(input)
  {
    var read := Read(input);
    if read.Failure? {
      return read;
    }
    var number := read.value;
    if !WithinBounds(number) {
      return Failure(OutOfBounds);
    }
    if number.IsZero() {
      return Success(ZERO);
    }
    var significant := |number.digits|;
    assert Leading(number, significant) == number;
    while number.digits[significant - 1] == 0
      invariant 0 < significant <= |number.digits| && number.digits[0] != 0
      invariant Stripped(number) == Stripped(Leading(number, significant))
      decreases significant
    {
      StrippedWithoutZero(number, significant);
      significant := significant - 1;
    }
    result := Success(Leading(number, significant));
  }

  /** Shifts the decimal point. */
  function Shifted(d: Decimal, places: int): Decimal {
    Decimal(d.negative, d.digits, d.exponent + places)
  }

  function MinorToAmount(value: Input, currency: string): Result<Decimal, Error> {
    match DecimalPlaces(currency)
    case Failure(error) => Failure(error)
    case Success(places) =>
      match Checked(value)
      case Failure(error) => Failure(error)
      case Success(number) =>
        if !IsInteger(number.Value()) then Failure(NotWhole) else Success(Shifted(number, 0 - places))
  }

  function AmountToMinor(amount: Input, currency: string): Result<int, Error> {
    match DecimalPlaces(currency)
    case Failure(error) => Failure(error)
    case Success(places) =>
      match Checked(amount)
      case Failure(error) => Failure(error)
      case Success(number) =>
        match Checked(Exact(Some(Shifted(number, places))))
        case Failure(error) => Failure(error)
        case Success(minor) =>
          if !IsInteger(minor.Value()) then Failure(NotWhole) else Success(minor.Value().Floor)
  }

  // ---------------------------------------------------------------------------
  // Values
  // ---------------------------------------------------------------------------

  function Tens(k: nat): nat {
    if k == 0 then 1 else 10 * Tens(k - 1)
  }

  lemma Regroup(a: real, b: real, c: real)
    ensures a * (b * c) == b * (a * c) == (b * a) * c
  {
  }

  lemma WorthNext(count: int, exponent: int)
    ensures Worth(count, exponent + 1) == 10.0 * Worth(count, exponent) == Worth(10 * count, exponent)
  {
    assert Power(exponent + 1) == 10.0 * Power(exponent);
    Regroup(count as real, 10.0, Power(exponent));
  }

  /** A value in units ten to the places smaller. */
  function Scaled(d: Decimal, places: nat): real { d.Value() * Tens(places) as real }

  /** Moving the point multiplies the value. */
  lemma ShiftScales(d: Decimal, places: nat)
    requires places in {0, 2}
    ensures Shifted(d, places).Value() == Scaled(d, places)
  {
    hide Worth;
    if places == 2 {
      WorthNext(d.Coefficient(), d.exponent);
      WorthNext(d.Coefficient(), d.exponent + 1);
      assert Tens(1) == 10 && Tens(2) == 100;
    }
  }

  lemma {:induction false} NumberIsZero(digits: Digits)
    ensures Number(digits) == 0 <==> digits == [0]
  {
    var last := |digits| - 1;
    if last > 0 {
      var front: Digits := digits[..last];
      NumberIsZero(front);
    }
  }

  /** What stripping gives: the same value and first exponent, and no trailing zero unless it is zero. */
  ghost predicate Strips(d: Decimal, r: Decimal) {
    && r.Value() == d.Value()
    && (r == ZERO <==> d.IsZero())
    && (r.IsZero() <==> d.IsZero())
    && (!d.IsZero() ==>
          && r.digits[|r.digits| - 1] != 0
          && r.Adjusted() == d.Adjusted()
          && d.exponent <= r.exponent
          && r.negative == d.negative)
  }

  lemma {:induction false} StrippingKeepsValue(d: Decimal)
    ensures Strips(d, Stripped(d))
    decreases |d.digits|
  {
    var last := |d.digits| - 1;
    if !d.IsZero() && d.digits[last] == 0 {
      hide Worth;
      var shorter := Decimal(d.negative, d.digits[..last], d.exponent + 1);
      StrippingKeepsValue(shorter);
      assert d.Coefficient() == 10 * shorter.Coefficient();
      WorthNext(shorter.Coefficient(), d.exponent);
    }
  }

  lemma {:induction false} WholeWorth(count: int, exponent: nat)
    ensures Worth(count, exponent) == (count * Tens(exponent)) as real
  {
    if exponent > 0 {
      WholeWorth(count, exponent - 1);
      WorthNext(count, exponent - 1);
      assert count * (10 * Tens(exponent - 1)) == 10 * (count * Tens(exponent - 1));
    }
  }

  lemma {:induction false} PartWorth(count: int, places: nat)
    ensures Worth(count, 0 - places) * Tens(places) as real == count as real
  {
    if places > 0 {
      PartWorth(count, places - 1);
      WorthNext(count, 0 - places);
      Regroup(10.0, Worth(count, 0 - places), Tens(places - 1) as real);
    }
  }

  lemma TenfoldEndsInZero(n: int, places: nat)
    requires places > 0
    ensures n * Tens(places) % 10 == 0
  {
    assert n * (10 * Tens(places - 1)) == 10 * (n * Tens(places - 1));
  }

  /** Without a trailing zero, a number is whole exactly when its exponent is not negative. */
  lemma StrippedIsWholeIff(d: Decimal)
    requires d.digits[|d.digits| - 1] != 0
    ensures IsInteger(d.Value()) <==> d.exponent >= 0
  {
    hide Worth;
    if d.exponent >= 0 {
      WholeWorth(d.Coefficient(), d.exponent);
    } else if IsInteger(d.Value()) {
      var n, places := d.Value().Floor, -d.exponent;
      PartWorth(d.Coefficient(), places);
      assert d.Coefficient() == n * Tens(places);
      TenfoldEndsInZero(n, places);
      assert false;
    }
  }

  // ---------------------------------------------------------------------------
  // What is converted
  // ---------------------------------------------------------------------------

  /** An input that reads as a decimal within the bounds. */
  predicate Readable(input: Input) {
    Read(input).Success? && WithinBounds(Read(input).value)
  }

  /** Whole minor units of a supported currency, and nothing else, become an amount; the point alone moves. */
  lemma MinorToAmountIff(input: Input, currency: string)
    ensures MinorToAmount(input, currency).Success?
            <==> && DecimalPlaces(currency).Success?
                 && Readable(input)
                 && IsInteger(Read(input).value.Value())
    ensures MinorToAmount(input, currency).Success? ==>
              Scaled(MinorToAmount(input, currency).value, DecimalPlaces(currency).value)
              == Read(input).value.Value()
  {
    hide OneUnit, Hundredths, Worth, Decimal.Value, IsInteger;
    if DecimalPlaces(currency).Success? && Readable(input) {
      var d, places := Read(input).value, DecimalPlaces(currency).value;
      StrippingKeepsValue(d);
      var amount := MinorToAmount(input, currency);
      if amount.Success? {
        assert Shifted(amount.value, places) == Stripped(d);
        ShiftScales(amount.value, places);
      }
    }
  }

  /** Why an input is refused before its value is looked at: its currency, then its type, then that it is not finite. */
  predicate RefusedFor(input: Input, currency: string, error: Error) {
    if !OneUnit(currency) && !Hundredths(currency) then error == UnsupportedCurrency
    else if input.Other? then error == WrongType
    else if input == Text(None) || input == Exact(None) then error == NotFinite
    else false
  }

  /** Whose refusal it is, in the order of the checks; a whole number out of bounds is out of bounds. */
  lemma MinorRefusals(input: Input, currency: string)
    ensures var result := MinorToAmount(input, currency);
            result.Failure? ==>
              || RefusedFor(input, currency, result.error)
              || (Read(input).Success? && !WithinBounds(Read(input).value) && result.error == OutOfBounds)
              || (&& Read(input).Success? && WithinBounds(Read(input).value)
                  && !IsInteger(Read(input).value.Value()) && result.error == NotWhole)
  {
    hide OneUnit, Hundredths, Worth, Decimal.Value, IsInteger;
    if Readable(input) {
      StrippingKeepsValue(Read(input).value);
    }
  }

  /** Moving the point of a stripped number right stays in bounds unless its first digit passes them. */
  lemma ShiftStaysInBounds(d: Decimal, places: nat)
    requires WithinBounds(d) && places in {0, 2}
    ensures WithinBounds(Shifted(Stripped(d), places)) <==> d.IsZero() || d.Adjusted() + places < MAX_DIGITS
    ensures Stripped(Shifted(Stripped(d), places)).Value() == Scaled(d, places)
  {
    hide Worth, Decimal.Value, Stripped, Tens;
    StrippingKeepsValue(d);
    StrippingKeepsValue(Shifted(Stripped(d), places));
    ShiftScales(Stripped(d), places);
  }

  /** Moving the point right gives a whole number whose first digit is still within bounds. */
  predicate HasWholeMinor(d: Decimal, places: nat) {
    && (d.IsZero() || d.Adjusted() + places < MAX_DIGITS)
    && IsInteger(Scaled(d, places))
  }

  /** An amount becomes its whole number of minor units, unless it has none or too many digits. */
  lemma AmountToMinorIff(input: Input, currency: string)
    ensures AmountToMinor(input, currency).Success?
            <==> && DecimalPlaces(currency).Success?
                 && Readable(input)
                 && HasWholeMinor(Read(input).value, DecimalPlaces(currency).value)
    ensures AmountToMinor(input, currency).Success? ==>
              AmountToMinor(input, currency).value as real
              == Scaled(Read(input).value, DecimalPlaces(currency).value)
  {
    hide OneUnit, Hundredths, Scaled, Decimal.Value, WithinBounds;
    if DecimalPlaces(currency).Success? && Readable(input) {
      var d, places := Read(input).value, DecimalPlaces(currency).value;
      ShiftStaysInBounds(d, places);
    }
  }

  lemma AmountRefusals(input: Input, currency: string)
    ensures var result := AmountToMinor(input, currency);
            result.Failure? ==>
              || RefusedFor(input, currency, result.error)
              || (&& Read(input).Success? && result.error == OutOfBounds
                  && var d := Read(input).value;
                     WithinBounds(d) ==>
                       && DecimalPlaces(currency).Success? && !d.IsZero()
                       && d.Adjusted() + DecimalPlaces(currency).value >= 256)
              || (&& Read(input).Success? && WithinBounds(Read(input).value) && result.error == NotWhole
                  && DecimalPlaces(currency).Success?
                  && !IsInteger(Scaled(Read(input).value, DecimalPlaces(currency).value)))
  {
    hide OneUnit, Hundredths, Scaled, Decimal.Value, WithinBounds, IsInteger;
    if DecimalPlaces(currency).Success? && Readable(input) {
      ShiftStaysInBounds(Read(input).value, DecimalPlaces(currency).value);
    }
  }

  // ---------------------------------------------------------------------------
  // Round trips
  // ---------------------------------------------------------------------------

  /** The amount a whole number of minor units becomes is within the bounds again. */
  lemma AmountIsBounded(d: Decimal, places: nat)
    requires WithinBounds(d) && places in {0, 2} && IsInteger(d.Value())
    ensures var amount := Shifted(Stripped(d), 0 - places as int);
            WithinBounds(amount) && (amount.IsZero() || amount.Adjusted() + places < MAX_DIGITS)
  {
    StrippingKeepsValue(d);
    hide Decimal.Value, Stripped, IsInteger;
    if !d.IsZero() {
      StrippedIsWholeIff(Stripped(d));
    }
  }

  /** Every accepted count of minor units comes back from its amount. */
  lemma MinorComesBack(input: Input, currency: string)
    requires MinorToAmount(input, currency).Success?
    ensures var amount := MinorToAmount(input, currency).value;
            AmountToMinor(Exact(Some(amount)), currency) == Success(Read(input).value.Value().Floor)
  {
    hide Scaled, Decimal.Value, OneUnit, Hundredths;
    var d, places := Read(input).value, DecimalPlaces(currency).value;
    var amount := MinorToAmount(input, currency).value;
    MinorToAmountIff(input, currency);
    AmountToMinorIff(Exact(Some(amount)), currency);
    AmountIsBounded(d, places);
  }

  lemma TensArePositive(k: nat)
    ensures Tens(k) > 0
  {
  }

  lemma {:induction false} DigitsFit(n: nat, k: nat)
    requires k > 0
    ensures |DigitsOf(n)| <= k <==> n < Tens(k)
  {
    if n < 10 {
      TensArePositive(k - 1);
    } else if k > 1 {
      DigitsFit(n / 10, k - 1);
    }
  }

  predicate FewDigits(n: int) {
    0 - Tens(MAX_DIGITS) < n < Tens(MAX_DIGITS)
  }

  lemma IntegerReads(n: int)
    ensures FromInt(n).Value() == n as real
    ensures WithinBounds(FromInt(n)) <==> FewDigits(n)
  {
    var size := if n < 0 then -n else n;
    DigitsFit(size, MAX_DIGITS);
    WholeWorth(n, 0);
    hide Tens, Worth, Stripped;
    assert n * 1 == n;
  }

  /** Every integer of at most 256 digits is accepted, and comes back. */
  lemma IntegerComesBack(n: int, currency: string)
    requires DecimalPlaces(currency).Success? && FewDigits(n)
    ensures MinorToAmount(Whole(n), currency).Success?
    ensures AmountToMinor(Exact(Some(MinorToAmount(Whole(n), currency).value)), currency) == Success(n)
  {
    hide Tens, OneUnit, Hundredths, FromInt, WithinBounds;
    IntegerReads(n);
    MinorToAmountIff(Whole(n), currency);
    MinorComesBack(Whole(n), currency);
  }

  lemma {:induction false} NumberFits(digits: seq<nat>)
    requires forall i :: 0 <= i < |digits| ==> digits[i] < 10
    ensures Number(digits) < Tens(|digits|)
  {
    if digits != [] {
      NumberFits(digits[..|digits| - 1]);
    }
  }

  lemma TenTimes(x: int, y: int)
    ensures (10 * x) * y == 10 * (x * y)
  {
  }

  lemma {:induction false} TensMultiply(a: nat, b: nat)
    ensures Tens(a) * Tens(b) == Tens(a + b)
  {
    if a > 0 {
      TensMultiply(a - 1, b);
      TenTimes(Tens(a - 1), Tens(b));
    }
  }

  lemma {:induction false} TensAscend(a: nat, b: nat)
    requires a <= b
    ensures Tens(a) <= Tens(b)
  {
    if a < b {
      TensAscend(a, b - 1);
    }
  }

  lemma Below(a: nat, b: nat, scale: nat)
    requires a < b && scale > 0
    ensures a * scale < b * scale && (0 - a) * scale > -(b * scale)
  {
  }

  /** Digits without leading zeros make a number of that many digits. */
  lemma {:induction false} NumberIsLarge(digits: Digits)
    requires digits != [0]
    ensures Number(digits) >= Tens(|digits| - 1)
  {
    var last := |digits| - 1;
    if last > 0 {
      var front: Digits := digits[..last];
      NumberIsLarge(front);
    }
  }

  lemma {:induction false} TensShift(k: nat, exponent: int)
    ensures Worth(Tens(k), exponent) == Power(exponent + k)
    decreases k
  {
    if k > 0 {
      TensShift(k - 1, exponent + 1);
      WorthNext(Tens(k - 1), exponent);
    }
  }

  lemma {:induction false} PowerAscends(a: int, b: int)
    requires a <= b
    ensures Power(a) <= Power(b)
    decreases b - a
  {
    if a < b {
      PowerAscends(a, b - 1);
      assert Power(b) == 10.0 * Power(b - 1);
    }
  }

  lemma WorthAscends(a: int, b: int, exponent: int)
    ensures a < b <==> Worth(a, exponent) < Worth(b, exponent)
    ensures Worth(0 - a, exponent) == -Worth(a, exponent)
  {
    var unit := Power(exponent);
    assert (b as real - a as real) * unit == b as real * unit - a as real * unit;
    assert a < b ==> (b as real - a as real) * unit > 0.0;
    assert a >= b ==> (a as real - b as real) * unit >= 0.0;
  }

  /** A number of so many digits lies between two powers of ten. */
  lemma SizeOf(d: Decimal)
    requires !d.IsZero()
    ensures var size := Worth(Number(d.digits), d.exponent);
            && Power(d.Adjusted()) <= size < Power(d.Adjusted() + 1)
            && d.Value() == if d.negative then -size else size
  {
    var n, k := Number(d.digits), |d.digits|;
    NumberIsLarge(d.digits);
    NumberFits(d.digits);
    TensShift(k, d.exponent);
    TensShift(k - 1, d.exponent);
    hide Worth, Tens, Number;
    WorthAscends(n, Tens(k), d.exponent);
    WorthAscends(n, Tens(k - 1), d.exponent);
  }

  /** What is within the bounds: at most 256 digits, an exponent of at most 256 either way, and a size below 10^256. */
  lemma WithinBoundsIff(d: Decimal)
    ensures WithinBounds(d) <==>
              && |d.digits| <= 256 && -256 <= d.exponent <= 256
              && -Power(256) < d.Value() < Power(256)
  {
    if d.IsZero() {
      assert Number(d.digits) == 0;
      hide Power;
      assert d.Value() == 0.0;
    } else {
      SizeOf(d);
      hide Power, Decimal.Value, Worth;
      if d.Adjusted() < 256 {
        PowerAscends(d.Adjusted() + 1, 256);
      } else {
        PowerAscends(256, d.Adjusted());
      }
    }
  }

  /** A whole number whose first digit is within bounds is an integer of at most 256 digits. */
  lemma WholeFits(d: Decimal)
    requires !d.IsZero() && d.Adjusted() < MAX_DIGITS && d.exponent >= 0
    ensures forall n: int :: n as real == d.Value() ==> FewDigits(n)
  {
    hide Tens, Number;
    var scale := Tens(d.exponent);
    WholeWorth(d.Coefficient(), d.exponent);
    NumberFits(d.digits);
    TensMultiply(|d.digits|, d.exponent);
    TensAscend(|d.digits| + d.exponent, MAX_DIGITS);
    TensArePositive(d.exponent);
    Below(Number(d.digits), Tens(|d.digits|), scale);
  }

  lemma CancelFactor(x: real, y: real, factor: real)
    requires x * factor == y * factor && factor > 0.0
    ensures x == y
  {
    assert (x - y) * factor == 0.0;
  }

  lemma Cancel(a: Decimal, b: Decimal, places: nat)
    requires Scaled(a, places) == Scaled(b, places)
    ensures a.Value() == b.Value()
  {
    hide Decimal.Value;
    TensArePositive(places);
    var factor := Tens(places) as real;
    assert Scaled(a, places) == a.Value() * factor && Scaled(b, places) == b.Value() * factor;
    CancelFactor(a.Value(), b.Value(), factor);
  }

  lemma ZeroIsWorthNothing()
    ensures ZERO.Value() == 0.0 && Shifted(ZERO, 2).Value() == 0.0
  {
  }

  lemma MinorFits(d: Decimal, places: nat, minor: int)
    requires WithinBounds(d) && places in {0, 2} && minor as real == Scaled(d, places)
    requires d.IsZero() || d.Adjusted() + places < MAX_DIGITS
    ensures FewDigits(minor)
  {
    hide Tens, Worth, Stripped, Decimal.Coefficient;
    TensArePositive(MAX_DIGITS);
    var s := Shifted(Stripped(d), places);
    StrippingKeepsValue(d);
    ShiftScales(Stripped(d), places);
    if d.IsZero() {
      ZeroIsWorthNothing();
    } else {
      assert s.Value() == minor as real;
      StrippedIsWholeIff(s);
      WholeFits(s);
    }
  }

  /** And every accepted amount comes back, as a number, from its minor units. */
  lemma AmountComesBack(input: Input, currency: string)
    requires AmountToMinor(input, currency).Success?
    ensures var minor := AmountToMinor(input, currency).value;
            && MinorToAmount(Whole(minor), currency).Success?
            && MinorToAmount(Whole(minor), currency).value.Value() == Read(input).value.Value()
  {
    hide OneUnit, Hundredths, FromInt, Worth, Decimal.Value;
    var d, places := Read(input).value, DecimalPlaces(currency).value;
    var minor := AmountToMinor(input, currency).value;
    AmountToMinorIff(input, currency);
    MinorFits(d, places, minor);
    IntegerReads(minor);
    MinorToAmountIff(Whole(minor), currency);
    Cancel(MinorToAmount(Whole(minor), currency).value, d, places);
  }
}
