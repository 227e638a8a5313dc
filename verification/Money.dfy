// Amounts of money (src/lib/pricing.ts, src/lib/currency.ts). Arithmetic is exact here; the
// only rounding is the one the program asks for.
module Money {
  /** Math.round(100 n): the nearest whole number of cents, halves upwards. */
  function Cents(n: real): int {
    (100.0 * n + 0.5).Floor
  }

  function FromCents(c: int): real {
    c as real / 100.0
  }

  /** round2 without the EPSILON that compensates binary fractions. */
  function Round2(n: real): real {
    FromCents(Cents(n))
  }

  ghost predicate IsWhole(n: real) {
    exists c :: n == FromCents(c)
  }

  lemma FloorIs(y: real, k: int)
    requires k as real <= y < k as real + 1.0
    ensures y.Floor == k
  {
  }

  lemma ScaleToCents(n: real, c: real)
    requires -0.005 <= n - c / 100.0 < 0.005
    ensures c <= 100.0 * n + 0.5 < c + 1.0
  {
  }

  lemma NearCents(c: int, n: real)
    requires -0.005 <= n - FromCents(c) < 0.005
    ensures Cents(n) == c && Round2(n) == FromCents(c)
  {
    ScaleToCents(n, c as real);
    FloorIs(100.0 * n + 0.5, c);
  }

  lemma RoundError(n: real)
    ensures -0.005 < Round2(n) - n <= 0.005
  {
    var y := 100.0 * n + 0.5;
    var c := Cents(n) as real;
    assert c <= y < c + 1.0;
    assert Round2(n) == c / 100.0;
  }

  /** The amount rounded to whole cents, halves upwards: there is only one such number of cents. */
  ghost predicate IsNearest(rounded: real, exact: real) {
    IsWhole(rounded) && -0.005 < rounded - exact <= 0.005
  }

  lemma RoundIsNearest(n: real)
    ensures IsNearest(Round2(n), n)
  {
    RoundError(n);
    RoundsToWhole(n);
  }

  lemma SeatsAreNearest(k: int, price: real)
    ensures IsNearest(Round2(Times(k, price)), k as real * price)
  {
    RoundIsNearest(Times(k, price));
  }

  lemma NearestIsUnique(a: real, b: real, exact: real)
    requires IsNearest(a, exact) && IsNearest(b, exact)
    ensures a == b
  {
    var c, d :| a == FromCents(c) && b == FromCents(d);
    assert -1.0 < (c - d) as real < 1.0;
  }

  lemma RoundsToWhole(n: real)
    ensures IsWhole(Round2(n))
  {
  }

  lemma RoundOfWhole(n: real)
    requires IsWhole(n)
    ensures Round2(n) == n
  {
    var c :| n == FromCents(c);
    NearCents(c, n);
  }

  lemma SumIsWhole(m: real, n: real)
    requires IsWhole(m) && IsWhole(n)
    ensures IsWhole(m + n)
  {
    var c, d :| m == FromCents(c) && n == FromCents(d);
    assert m + n == FromCents(c + d);
  }

  /** The price of `k` seats. */
  function Times(k: int, price: real): real {
    k as real * price
  }

  lemma MultipleIsWhole(k: int, n: real)
    requires IsWhole(n)
    ensures IsWhole(Times(k, n))
  {
    var c :| n == FromCents(c);
    TimesCents(k, c);
    assert Times(k, n) == FromCents(k * c);
  }

  lemma TimesCents(k: int, c: int)
    ensures k as real * (c as real / 100.0) == (k * c) as real / 100.0
  {
    assert k as real * c as real == (k * c) as real;
  }

  // ---- prices of a quote -------------------------------------------------------------------

  datatype PricingInput = PricingInput(
    adults: int, children: int, infants: int,
    adultPrice: real, childPrice: real, infantPrice: real,
    taxes: real, serviceFee: real, gratuity: real)

  datatype PricingBreakdown = PricingBreakdown(
    adultSubtotal: real, childSubtotal: real, infantSubtotal: real, ticketSubtotal: real,
    taxes: real, serviceFee: real, gratuity: real, total: real)

  function CalculatePricing(input: PricingInput): PricingBreakdown {
    var adultSubtotal := Round2(Times(input.adults, input.adultPrice));
    var childSubtotal := Round2(Times(input.children, input.childPrice));
    var infantSubtotal := Round2(Times(input.infants, input.infantPrice));
    var ticketSubtotal := Round2(adultSubtotal + childSubtotal + infantSubtotal);
    var taxes := Round2(input.taxes);
    var serviceFee := Round2(input.serviceFee);
    var gratuity := Round2(input.gratuity);
    var total := Round2(ticketSubtotal + taxes + serviceFee + gratuity);
    PricingBreakdown(adultSubtotal, childSubtotal, infantSubtotal, ticketSubtotal, taxes, serviceFee, gratuity, total)
  }

  function Fares(input: PricingInput): real {
    Times(input.adults, input.adultPrice) + Times(input.children, input.childPrice)
        + Times(input.infants, input.infantPrice)
  }

  /** Whatever the inputs, the rounded lines add up to the total to the cent, and the total is near the exact amount. */
  lemma BreakdownAddsUp(input: PricingInput)
    ensures var b := CalculatePricing(input);
            && b.ticketSubtotal == b.adultSubtotal + b.childSubtotal + b.infantSubtotal
            && b.total == b.ticketSubtotal + b.taxes + b.serviceFee + b.gratuity
            && IsWhole(b.total)
            && var exact := Fares(input) + input.taxes + input.serviceFee + input.gratuity;
               -0.03 < b.total - exact <= 0.03
  {
    hide Round2, IsWhole, Times;
    var b := CalculatePricing(input);
    RoundsToWhole(Times(input.adults, input.adultPrice));
    RoundsToWhole(Times(input.children, input.childPrice));
    RoundsToWhole(Times(input.infants, input.infantPrice));
    RoundError(Times(input.adults, input.adultPrice));
    RoundError(Times(input.children, input.childPrice));
    RoundError(Times(input.infants, input.infantPrice));
    SumIsWhole(b.adultSubtotal, b.childSubtotal);
    SumIsWhole(b.adultSubtotal + b.childSubtotal, b.infantSubtotal);
    RoundOfWhole(b.adultSubtotal + b.childSubtotal + b.infantSubtotal);
    FeesAddUp(b.ticketSubtotal, input.taxes, input.serviceFee, input.gratuity);
  }

  /** Each line is the exact amount of its seats or its fee, rounded. */
  lemma LinesAreNearest(input: PricingInput)
    ensures var b := CalculatePricing(input);
            && IsNearest(b.adultSubtotal, input.adults as real * input.adultPrice)
            && IsNearest(b.childSubtotal, input.children as real * input.childPrice)
            && IsNearest(b.infantSubtotal, input.infants as real * input.infantPrice)
            && IsNearest(b.taxes, input.taxes) && IsNearest(b.serviceFee, input.serviceFee)
            && IsNearest(b.gratuity, input.gratuity)
  {
    hide Round2, IsNearest, Times;
    SeatsAreNearest(input.adults, input.adultPrice);
    SeatsAreNearest(input.children, input.childPrice);
    SeatsAreNearest(input.infants, input.infantPrice);
    RoundIsNearest(input.taxes);
    RoundIsNearest(input.serviceFee);
    RoundIsNearest(input.gratuity);
  }

  lemma FeesAddUp(ticketSubtotal: real, taxes: real, serviceFee: real, gratuity: real)
    requires IsWhole(ticketSubtotal)
    ensures var sum := ticketSubtotal + Round2(taxes) + Round2(serviceFee) + Round2(gratuity);
            Round2(sum) == sum && IsWhole(sum)
                && -0.015 < sum - (ticketSubtotal + taxes + serviceFee + gratuity) <= 0.015
  {
    hide Round2, IsWhole, Times;
    RoundsToWhole(taxes);
    RoundsToWhole(serviceFee);
    RoundsToWhole(gratuity);
    RoundError(taxes);
    RoundError(serviceFee);
    RoundError(gratuity);
    SumIsWhole(ticketSubtotal, Round2(taxes));
    SumIsWhole(ticketSubtotal + Round2(taxes), Round2(serviceFee));
    SumIsWhole(ticketSubtotal + Round2(taxes) + Round2(serviceFee), Round2(gratuity));
    RoundOfWhole(ticketSubtotal + Round2(taxes) + Round2(serviceFee) + Round2(gratuity));
  }

  ghost predicate IsInCents(input: PricingInput) {
    && IsWhole(input.adultPrice) && IsWhole(input.childPrice) && IsWhole(input.infantPrice)
    && IsWhole(input.taxes) && IsWhole(input.serviceFee) && IsWhole(input.gratuity)
  }

  /** Prices in whole cents are not rounded at all. */
  lemma WholeCentsAreExact(input: PricingInput)
    requires IsInCents(input)
    ensures CalculatePricing(input).ticketSubtotal == Fares(input)
    ensures CalculatePricing(input).total == Fares(input) + input.taxes + input.serviceFee + input.gratuity
  {
    hide Round2, IsWhole, Times;
    BreakdownAddsUp(input);
    MultipleIsWhole(input.adults, input.adultPrice);
    MultipleIsWhole(input.children, input.childPrice);
    MultipleIsWhole(input.infants, input.infantPrice);
    RoundOfWhole(Times(input.adults, input.adultPrice));
    RoundOfWhole(Times(input.children, input.childPrice));
    RoundOfWhole(Times(input.infants, input.infantPrice));
    RoundOfWhole(input.taxes);
    RoundOfWhole(input.serviceFee);
    RoundOfWhole(input.gratuity);
  }

  /** computeTotalSellingPriceUsd */
  function TotalSellingPrice(input: PricingInput): real {
    Round2(Fares(input))
  }

  /**
   * The selling price of the seats, rounded once, is the ticket subtotal, rounded line by line, when prices are in
   * cents; else they are near.
   */
  lemma SellingPriceIsTicketSubtotal(input: PricingInput)
    ensures -0.02 < CalculatePricing(input).ticketSubtotal - TotalSellingPrice(input) < 0.02
    ensures IsInCents(input) ==> CalculatePricing(input).ticketSubtotal == TotalSellingPrice(input)
  {
    hide Round2, IsWhole, Times;
    var b := CalculatePricing(input);
    BreakdownAddsUp(input);
    RoundError(Times(input.adults, input.adultPrice));
    RoundError(Times(input.children, input.childPrice));
    RoundError(Times(input.infants, input.infantPrice));
    RoundError(Fares(input));
    if IsInCents(input) {
      WholeCentsAreExact(input);
      SubtotalIsWhole(input);
      RoundOfWhole(Fares(input));
    }
  }

  lemma SubtotalIsWhole(input: PricingInput)
    ensures IsWhole(CalculatePricing(input).ticketSubtotal)
  {
    hide Round2, IsWhole, Times;
    var b := CalculatePricing(input);
    RoundsToWhole(b.adultSubtotal + b.childSubtotal + b.infantSubtotal);
  }

  // ---- conversion -----------------------------------------------------------------------------

  function Product(amount: real, rate: real): real {
    amount * rate
  }

  function Quotient(amount: real, rate: real): real
    requires rate != 0.0
  {
    amount / rate
  }

  function ConvertAmount(usdAmount: real, rate: real): real {
    Round2(Product(usdAmount, rate))
  }

  function ConvertToUsd(amount: real, rate: real): real
    requires rate != 0.0
  {
    Round2(Quotient(amount, rate))
  }

  /** Both conversions are the exact product and quotient, rounded. */
  lemma ConversionsAreNearest(amount: real, rate: real)
    requires rate != 0.0
    ensures IsNearest(ConvertAmount(amount, rate), amount * rate)
    ensures IsNearest(ConvertToUsd(amount, rate), amount / rate)
  {
    RoundIsNearest(Product(amount, rate));
    RoundIsNearest(Quotient(amount, rate));
  }

  /** The dollars at the rate, rounded. */
  ghost predicate IsAtRate(amount: real, usd: real, rate: real) {
    IsNearest(amount, usd * rate)
  }

  lemma ProductIsAtRate(usd: real, rate: real)
    ensures IsAtRate(Round2(Product(usd, rate)), usd, rate)
  {
    RoundIsNearest(Product(usd, rate));
  }

  predicate RoundTrips(c: int, rate: real)
    requires rate != 0.0
  {
    ConvertToUsd(ConvertAmount(FromCents(c), rate), rate) == FromCents(c)
  }

  lemma ConvertError(x: real, rate: real)
    ensures -0.005 < ConvertAmount(x, rate) - Product(x, rate) <= 0.005
  {
    hide Round2, Product;
    RoundError(Product(x, rate));
  }

  lemma DividedIsMonotone(a: real, b: real, rate: real)
    requires rate > 0.0 && a <= b
    ensures a / rate <= b / rate
    ensures a < b ==> a / rate < b / rate
  {
    var p, q := a / rate, b / rate;
    assert p * rate == a && q * rate == b;
    assert (q - p) * rate == b - a;
  }

  lemma DividedIsSmaller(b: real, rate: real)
    requires b > 0.0 && rate > 1.0
    ensures 0.0 < b / rate < b
  {
    var q := b / rate;
    assert q * rate == b;
    assert q * (rate - 1.0) == b - q;
  }

  lemma NegatedDivision(b: real, rate: real)
    requires rate > 0.0
    ensures (-b) / rate == -(b / rate)
  {
    var p, q := (-b) / rate, b / rate;
    assert p * rate == -b && q * rate == b;
    assert (p + q) * rate == 0.0;
  }

  lemma DivideSum(x: real, y: real, rate: real)
    requires rate > 0.0
    ensures y / rate == x + (y - x * rate) / rate
  {
    var p, q := y / rate, (y - x * rate) / rate;
    assert p * rate == y && q * rate == y - x * rate;
    assert (p - x - q) * rate == 0.0;
  }

  /** The error that is left of the first rounding after dividing by the rate. */
  lemma DividedError(x: real, rate: real)
    requires rate > 0.0
    ensures -(0.005 / rate) < Quotient(ConvertAmount(x, rate), rate) - x <= 0.005 / rate
  {
    hide ConvertAmount;
    var y := ConvertAmount(x, rate);
    ConvertError(x, rate);
    DivideSum(x, y, rate);
    DividedIsMonotone(y - x * rate, 0.005, rate);
    DividedIsMonotone(-0.005, y - x * rate, rate);
    NegatedDivision(0.005, rate);
  }

  /** There and back is never off by more than half a cent each way. */
  lemma RoundTripError(x: real, rate: real)
    requires rate > 0.0
    ensures -(0.005 / rate + 0.005) < ConvertToUsd(ConvertAmount(x, rate), rate) - x <= 0.005 / rate + 0.005
  {
    hide Round2, ConvertAmount, Quotient;
    DividedError(x, rate);
    RoundError(Quotient(ConvertAmount(x, rate), rate));
  }

  /** At a rate of one or more the error of the first rounding is too small to survive the second. */
  lemma RateOfOneOrMore(c: int, rate: real)
    requires rate >= 1.0
    ensures RoundTrips(c, rate)
  {
    hide Round2, ConvertAmount, Quotient;
    var x := FromCents(c);
    if rate == 1.0 {
      UnitRate(c, rate);
    } else {
      DividedError(x, rate);
      DividedIsSmaller(0.005, rate);
      NearCents(c, Quotient(ConvertAmount(x, rate), rate));
    }
  }

  lemma UnitRate(c: int, rate: real)
    requires rate == 1.0
    ensures ConvertAmount(FromCents(c), rate) == FromCents(c) && RoundTrips(c, rate)
  {
    hide Round2;
    var x := FromCents(c);
    assert Product(x, rate) == x && Quotient(x, rate) == x;
    NearCents(c, x);
  }

  /** The cents a whole number of cents is converted to. */
  function Converted(c: int, rate: real): int {
    Cents(Product(FromCents(c), rate))
  }

  lemma ConvertedIsMonotone(c: int, rate: real)
    requires rate > 0.0
    ensures Converted(c, rate) <= Converted(c + 1, rate)
  {
    assert FromCents(c) * rate < FromCents(c + 1) * rate;
  }

  /** If every amount up to `n` cents came back, no two could be converted to the same number of cents. */
  lemma {:induction false} ConvertedGrows(n: nat, rate: real)
    requires rate > 0.0 && forall c :: 0 <= c <= n ==> RoundTrips(c, rate)
    ensures Converted(n, rate) >= n
  {
    hide Cents;
    if n == 0 {
      ConvertedOfZero(rate);
    } else {
      ConvertedGrows(n - 1, rate);
      ConvertedIsMonotone(n - 1, rate);
      if Converted(n, rate) == Converted(n - 1, rate) {
        SameConverted(n - 1, n, rate);
      }
    }
  }

  lemma ConvertedOfZero(rate: real)
    ensures Converted(0, rate) == 0
  {
    assert Product(FromCents(0), rate) == 0.0;
  }

  lemma SameConverted(c: int, d: int, rate: real)
    requires rate > 0.0 && RoundTrips(c, rate) && RoundTrips(d, rate) && Converted(c, rate) == Converted(d, rate)
    ensures c == d
  {
    hide Cents;
    assert ConvertAmount(FromCents(c), rate) == ConvertAmount(FromCents(d), rate);
    assert FromCents(c) == FromCents(d);
  }

  /** Enough cents for a rate below one to lose one of them. */
  lemma ConvertedShrinks(rate: real) returns (n: nat)
    requires 0.0 < rate < 1.0
    ensures Converted(n, rate) < n
  {
    var needed := 0.5 / (1.0 - rate);
    assert needed > 0.0;
    n := needed.Floor + 1;
    assert n as real > needed;
    LosesHalf(n as real, rate, needed);
    assert 100.0 * (FromCents(n) * rate) == n as real * rate;
    assert 100.0 * (FromCents(n) * rate) + 0.5 < n as real;
  }

  lemma LosesHalf(n: real, rate: real, needed: real)
    requires 0.0 < rate < 1.0 && needed * (1.0 - rate) == 0.5 && n > needed
    ensures n * rate + 0.5 < n
  {
    var k := 1.0 - rate;
    assert (n - needed) * k > 0.0;
    assert (n - needed) * k == n * k - needed * k;
    assert n * k == n - n * rate;
  }

  /** Conversion there and back is exact on all whole-cent amounts exactly when the rate is at least one. */
  lemma RoundTripIsExact(rate: real)
    requires rate > 0.0
    ensures (forall c :: RoundTrips(c, rate)) <==> rate >= 1.0
  {
    hide RoundTrips;
    if rate >= 1.0 {
      forall c ensures RoundTrips(c, rate) {
        RateOfOneOrMore(c, rate);
      }
    } else if forall c :: RoundTrips(c, rate) {
      var n := ConvertedShrinks(rate);
      ConvertedGrows(n, rate);
    }
  }

  // ---- converted bookings ------------------------------------------------------------------------

  datatype BookingPricing = BookingPricing(ticketSubtotal: real, taxes: real, serviceFee: real, gratuity: real,
                                           total: real)

  function ConvertBookingPricing(usd: BookingPricing, rate: real): BookingPricing {
    BookingPricing(
      ConvertAmount(usd.ticketSubtotal, rate), ConvertAmount(usd.taxes, rate), ConvertAmount(usd.serviceFee, rate),
      ConvertAmount(usd.gratuity, rate), ConvertAmount(usd.total, rate))
  }

  /** Every amount of a booking is converted by itself. */
  lemma EachPartIsConverted(usd: BookingPricing, rate: real)
    ensures var p := ConvertBookingPricing(usd, rate);
            && IsAtRate(p.ticketSubtotal, usd.ticketSubtotal, rate) && IsAtRate(p.taxes, usd.taxes, rate)
            && IsAtRate(p.serviceFee, usd.serviceFee, rate) && IsAtRate(p.gratuity, usd.gratuity, rate)
            && IsAtRate(p.total, usd.total, rate)
  {
    hide Round2, IsAtRate, Product;
    ProductIsAtRate(usd.ticketSubtotal, rate);
    ProductIsAtRate(usd.taxes, rate);
    ProductIsAtRate(usd.serviceFee, rate);
    ProductIsAtRate(usd.gratuity, rate);
    ProductIsAtRate(usd.total, rate);
  }

  function SumOfParts(p: BookingPricing): real {
    p.ticketSubtotal + p.taxes + p.serviceFee + p.gratuity
  }

  function BookingOf(b: PricingBreakdown): BookingPricing {
    BookingPricing(b.ticketSubtotal, b.taxes, b.serviceFee, b.gratuity, b.total)
  }

  /** The total is converted on its own, so the converted parts of a booking may miss it, by less than 2.5 cents. */
  lemma ConvertedTotalIsNear(input: PricingInput, rate: real)
    ensures var p := ConvertBookingPricing(BookingOf(CalculatePricing(input)), rate);
            -0.025 < p.total - SumOfParts(p) < 0.025
  {
    hide Round2, CalculatePricing, ConvertAmount, Product;
    var b := BookingOf(CalculatePricing(input));
    BreakdownAddsUp(input);
    ConvertError(b.ticketSubtotal, rate);
    ConvertError(b.taxes, rate);
    ConvertError(b.serviceFee, rate);
    ConvertError(b.gratuity, rate);
    ConvertError(b.total, rate);
    Distributes(b.ticketSubtotal, b.taxes, b.serviceFee, b.gratuity, rate);
  }

  lemma Distributes(a: real, b: real, c: real, d: real, rate: real)
    ensures Product(a + b + c + d, rate) == Product(a, rate) + Product(b, rate) + Product(c, rate) + Product(d, rate)
  {
  }

  /** In dollars nothing changes. */
  lemma DollarsAreNotConverted(input: PricingInput)
    ensures ConvertBookingPricing(BookingOf(CalculatePricing(input)), 1.0) == BookingOf(CalculatePricing(input))
  {
    hide Round2, CalculatePricing;
    var b := BookingOf(CalculatePricing(input));
    PartsAreWhole(input);
    BreakdownAddsUp(input);
    RoundOfWhole(b.ticketSubtotal);
    RoundOfWhole(b.taxes);
    RoundOfWhole(b.serviceFee);
    RoundOfWhole(b.gratuity);
    RoundOfWhole(b.total);
  }

  lemma PartsAreWhole(input: PricingInput)
    ensures var b := CalculatePricing(input);
            IsWhole(b.ticketSubtotal) && IsWhole(b.taxes) && IsWhole(b.serviceFee) && IsWhole(b.gratuity)
  {
    hide Round2, IsWhole, Times;
    SubtotalIsWhole(input);
    RoundsToWhole(input.taxes);
    RoundsToWhole(input.serviceFee);
    RoundsToWhole(input.gratuity);
  }

  /** The converted parts of a booking add up to its converted total. */
  predicate PartsAddUp(input: PricingInput, rate: real) {
    var p := ConvertBookingPricing(BookingOf(CalculatePricing(input)), rate);
    p.total == SumOfParts(p)
  }

  /** Whole-cent prices and fees, and none of the amounts or counts negative. */
  ghost predicate IsSale(input: PricingInput) {
    && IsInCents(input) && input.adults >= 0 && input.children >= 0 && input.infants >= 0
    && input.adultPrice >= 0.0 && input.childPrice >= 0.0 && input.infantPrice >= 0.0
    && input.taxes >= 0.0 && input.serviceFee >= 0.0 && input.gratuity >= 0.0
  }

  predicate IsWholeRate(rate: real) {
    rate == rate.Floor as real
  }

  lemma WholeRateIsExact(n: real, k: int)
    requires IsWhole(n)
    ensures ConvertAmount(n, k as real) == Product(n, k as real)
  {
    hide Round2, IsWhole;
    MultipleIsWhole(k, n);
    assert Times(k, n) == Product(n, k as real);
    RoundOfWhole(Product(n, k as real));
  }

  /** At a whole rate nothing is rounded, so the parts of every booking add up. */
  lemma WholeRateAddsUp(input: PricingInput, k: int)
    ensures PartsAddUp(input, k as real)
  {
    hide Round2, IsWhole, CalculatePricing, ConvertAmount, Product;
    var b := BookingOf(CalculatePricing(input));
    var rate := k as real;
    BreakdownAddsUp(input);
    PartsAreWhole(input);
    WholeRateIsExact(b.ticketSubtotal, k);
    WholeRateIsExact(b.taxes, k);
    WholeRateIsExact(b.serviceFee, k);
    WholeRateIsExact(b.gratuity, k);
    WholeRateIsExact(b.total, k);
    Distributes(b.ticketSubtotal, b.taxes, b.serviceFee, b.gratuity, rate);
  }

  /** One seat of `a` cents and taxes of `b` cents. */
  function SeatAndTaxes(a: nat, b: nat): PricingInput {
    PricingInput(1, 0, 0, FromCents(a), 0.0, 0.0, FromCents(b), 0.0, 0.0)
  }

  lemma SeatAndTaxesIsSale(a: nat, b: nat)
    ensures IsSale(SeatAndTaxes(a, b))
    ensures BookingOf(CalculatePricing(SeatAndTaxes(a, b)))
         == BookingPricing(FromCents(a), FromCents(b), 0.0, 0.0, FromCents(a + b))
  {
    var input := SeatAndTaxes(a, b);
    assert IsInCents(input) by {
      assert 0.0 == FromCents(0) && IsWhole(FromCents(a)) && IsWhole(FromCents(b));
    }
    hide Round2, CalculatePricing, IsWhole;
    WholeCentsAreExact(input);
    FeesOfWhole(input);
    OneSeat(input);
    assert FromCents(a) + FromCents(b) == FromCents(a + b);
  }

  lemma ConvertedInCents(c: int, rate: real)
    ensures ConvertAmount(FromCents(c), rate) == FromCents(Converted(c, rate))
  {
  }

  lemma SameCents(c: int, d: int)
    requires FromCents(c) == FromCents(d)
    ensures c == d
  {
  }

  lemma AddedUpInCents(a: nat, b: nat, rate: real)
    requires PartsAddUp(SeatAndTaxes(a, b), rate)
    ensures Converted(a + b, rate) == Converted(a, rate) + Converted(b, rate)
  {
    hide Cents, CalculatePricing, Converted, ConvertAmount, SeatAndTaxes;
    SeatAndTaxesIsSale(a, b);
    ConvertedInCents(a, rate);
    ConvertedInCents(b, rate);
    ConvertedInCents(0, rate);
    ConvertedInCents(a + b, rate);
    ConvertedOfZero(rate);
    assert FromCents(0) == 0.0;
    SameCents(Converted(a + b, rate), Converted(a, rate) + Converted(b, rate));
  }

  /** If sums are kept, every amount is converted to a multiple of what one cent is converted to. */
  lemma {:induction false} ConvertedIsMultiple(n: nat, rate: real)
    requires forall a: nat, b: nat :: PartsAddUp(SeatAndTaxes(a, b), rate)
    ensures Converted(n, rate) == n * Converted(1, rate)
  {
    hide Converted, PartsAddUp;
    if n == 0 {
      ConvertedOfZero(rate);
    } else {
      ConvertedIsMultiple(n - 1, rate);
      AddedUpInCents(n - 1, 1, rate);
      assert (n - 1) * Converted(1, rate) + Converted(1, rate) == n * Converted(1, rate);
    }
  }

  lemma ConvertedIsNear(n: nat, rate: real)
    ensures -0.5 <= Converted(n, rate) as real - n as real * rate <= 0.5
  {
    var x := n as real * rate;
    assert 100.0 * Product(FromCents(n), rate) == x;
    assert Converted(n, rate) as real <= x + 0.5 < Converted(n, rate) as real + 1.0;
  }

  function Scaled(n: nat, d: real): real {
    n as real * d
  }

  /** A difference has multiples larger than a half. */
  lemma LargeMultiple(d: real) returns (n: nat)
    requires d != 0.0
    ensures Scaled(n, d) < -0.5 || 0.5 < Scaled(n, d)
  {
    var size := if d > 0.0 then d else -d;
    var q := 1.0 / size;
    assert q > 0.0 && q * size == 1.0;
    n := q.Floor + 1;
    var x := n as real;
    assert x > q;
    EnoughTimes(x, q, size);
    Negated(x, d);
  }

  lemma Negated(x: real, d: real)
    ensures x * (-d) == -(x * d)
  {
  }

  lemma EnoughTimes(n: real, q: real, size: real)
    requires size > 0.0 && q * size == 1.0 && n > q
    ensures n * size > 1.0
  {
    var r := (n - q) * size;
    assert r > 0.0;
    DistributesDifference(size, n, q);
    assert r == n * size - 1.0;
  }

  lemma AddingUpMeansWhole(rate: real)
    requires forall a: nat, b: nat :: PartsAddUp(SeatAndTaxes(a, b), rate)
    ensures IsWholeRate(rate)
  {
    hide PartsAddUp, Converted, SeatAndTaxes, Scaled;
    var unit := Converted(1, rate);
    if rate != unit as real {
      var n := LargeMultiple(unit as real - rate);
      ConvertedIsMultiple(n, rate);
      ConvertedIsNear(n, rate);
      ScaledParts(n, unit, rate);
    }
  }

  lemma ScaledParts(n: nat, unit: int, rate: real)
    ensures Scaled(n, unit as real - rate) == (n * unit) as real - n as real * rate
  {
    assert (n * unit) as real == n as real * unit as real;
    DistributesDifference(n as real, unit as real, rate);
  }

  lemma DistributesDifference(x: real, u: real, rate: real)
    ensures x * (u - rate) == x * u - x * rate
  {
  }

  /** The converted parts of every booking add up to its converted total if and only if the rate is a whole number. */
  lemma PartsAddUpExactly(rate: real)
    ensures (forall input :: IsSale(input) ==> PartsAddUp(input, rate)) <==> IsWholeRate(rate)
  {
    hide PartsAddUp, IsSale, SeatAndTaxes;
    if IsWholeRate(rate) {
      forall input ensures PartsAddUp(input, rate) {
        WholeRateAddsUp(input, rate.Floor);
      }
    }
    if forall input :: IsSale(input) ==> PartsAddUp(input, rate) {
      forall a: nat, b: nat ensures PartsAddUp(SeatAndTaxes(a, b), rate) {
        SeatAndTaxesIsSale(a, b);
      }
      AddingUpMeansWhole(rate);
    }
  }

  /** By two cents, for instance: four parts of one cent at half the rate. */
  lemma PartsCanMissTotal()
    ensures var input := PricingInput(1, 0, 0, 0.01, 0.0, 0.0, 0.01, 0.01, 0.01);
            var p := ConvertBookingPricing(BookingOf(CalculatePricing(input)), 0.5);
            p.total == 0.02 && SumOfParts(p) == 0.04
  {
    hide Round2, CalculatePricing, ConvertAmount, Fares, Times;
    var input := PricingInput(1, 0, 0, 0.01, 0.0, 0.0, 0.01, 0.01, 0.01);
    assert 0.01 == FromCents(1) && 0.0 == FromCents(0);
    WholeCentsAreExact(input);
    FeesOfWhole(input);
    OneSeat(input);
    HalfOfCents();
  }

  lemma OneSeat(input: PricingInput)
    requires input.adults == 1 && input.children == 0 && input.infants == 0
    ensures Fares(input) == input.adultPrice
  {
  }

  lemma HalfOfCents()
    ensures ConvertAmount(0.01, 0.5) == 0.01 && ConvertAmount(0.04, 0.5) == 0.02
  {
    hide Round2;
    assert Product(0.01, 0.5) == 0.005 && Product(0.04, 0.5) == 0.02;
    NearCents(1, 0.005);
    NearCents(2, 0.02);
  }

  lemma FeesOfWhole(input: PricingInput)
    requires IsInCents(input)
    ensures var b := CalculatePricing(input);
            b.taxes == input.taxes && b.serviceFee == input.serviceFee && b.gratuity == input.gratuity
  {
    hide Round2, IsWhole, Times;
    RoundOfWhole(input.taxes);
    RoundOfWhole(input.serviceFee);
    RoundOfWhole(input.gratuity);
  }

  // ---- the stored snapshot ----------------------------------------------------------------------------

  datatype UsdPricing = UsdPricing(adultPrice: real, childPrice: real, infantPrice: real, taxes: real,
                                   serviceFee: real, gratuity: real, total: real)

  datatype PricingSnapshot = PricingSnapshot(currency: string, exchangeRate: real, prices: UsdPricing)

  function BuildPricingSnapshot(usd: UsdPricing, currency: string, exchangeRate: real): PricingSnapshot {
    var rate := if currency == "USD" then 1.0 else exchangeRate;
    PricingSnapshot(currency, rate, UsdPricing(
      Round2(Product(usd.adultPrice, rate)), Round2(Product(usd.childPrice, rate)),
      Round2(Product(usd.infantPrice, rate)), Round2(Product(usd.taxes, rate)),
      Round2(Product(usd.serviceFee, rate)), Round2(Product(usd.gratuity, rate)), Round2(Product(usd.total, rate))))
  }

  /** Every price is the one in dollars at the rate, rounded. */
  ghost predicate ArePricesAt(p: UsdPricing, usd: UsdPricing, rate: real) {
    && IsAtRate(p.adultPrice, usd.adultPrice, rate) && IsAtRate(p.childPrice, usd.childPrice, rate)
    && IsAtRate(p.infantPrice, usd.infantPrice, rate) && IsAtRate(p.taxes, usd.taxes, rate)
    && IsAtRate(p.serviceFee, usd.serviceFee, rate) && IsAtRate(p.gratuity, usd.gratuity, rate)
    && IsAtRate(p.total, usd.total, rate)
  }

  /** A snapshot names its currency and rate, which is 1 for dollars, and holds every price at that rate. */
  lemma SnapshotIsConverted(usd: UsdPricing, currency: string, exchangeRate: real)
    ensures var s := BuildPricingSnapshot(usd, currency, exchangeRate);
            && s.currency == currency && s.exchangeRate == (if currency == "USD" then 1.0 else exchangeRate)
            && ArePricesAt(s.prices, usd, s.exchangeRate)
  {
    hide Round2, IsAtRate, Product, ArePricesAt;
    PricesAtRate(usd, BuildPricingSnapshot(usd, currency, exchangeRate).prices,
                 BuildPricingSnapshot(usd, currency, exchangeRate).exchangeRate);
  }

  lemma PricesAtRate(usd: UsdPricing, p: UsdPricing, rate: real)
    requires p == UsdPricing(
                    Round2(Product(usd.adultPrice, rate)), Round2(Product(usd.childPrice, rate)),
                    Round2(Product(usd.infantPrice, rate)), Round2(Product(usd.taxes, rate)),
                    Round2(Product(usd.serviceFee, rate)), Round2(Product(usd.gratuity, rate)),
                    Round2(Product(usd.total, rate)))
    ensures ArePricesAt(p, usd, rate)
  {
    hide Round2, IsAtRate, Product;
    ProductIsAtRate(usd.adultPrice, rate);
    ProductIsAtRate(usd.childPrice, rate);
    ProductIsAtRate(usd.infantPrice, rate);
    ProductIsAtRate(usd.taxes, rate);
    ProductIsAtRate(usd.serviceFee, rate);
    ProductIsAtRate(usd.gratuity, rate);
    ProductIsAtRate(usd.total, rate);
  }

  function BackToUsd(snapshot: PricingSnapshot): UsdPricing
    requires snapshot.exchangeRate != 0.0
  {
    var p, rate := snapshot.prices, snapshot.exchangeRate;
    UsdPricing(
      ConvertToUsd(p.adultPrice, rate), ConvertToUsd(p.childPrice, rate), ConvertToUsd(p.infantPrice, rate),
      ConvertToUsd(p.taxes, rate), ConvertToUsd(p.serviceFee, rate), ConvertToUsd(p.gratuity, rate),
      ConvertToUsd(p.total, rate))
  }

  ghost predicate IsUsdInCents(p: UsdPricing) {
    && IsWhole(p.adultPrice) && IsWhole(p.childPrice) && IsWhole(p.infantPrice)
    && IsWhole(p.taxes) && IsWhole(p.serviceFee) && IsWhole(p.gratuity) && IsWhole(p.total)
  }

  lemma WholeRoundTrips(n: real, rate: real)
    requires IsWhole(n) && rate >= 1.0
    ensures Round2(Quotient(Round2(Product(n, rate)), rate)) == n
  {
    hide Round2, FromCents, Product, Quotient;
    var c :| n == FromCents(c);
    RateOfOneOrMore(c, rate);
    assert ConvertToUsd(ConvertAmount(n, rate), rate) == n;
  }

  /** A snapshot in dollars holds the dollar prices; one at a rate of at least one still determines them. */
  lemma SnapshotKeepsPrices(usd: UsdPricing, currency: string, exchangeRate: real)
    requires IsUsdInCents(usd) && (currency == "USD" || exchangeRate >= 1.0)
    ensures BackToUsd(BuildPricingSnapshot(usd, currency, exchangeRate)) == usd
    ensures currency == "USD" ==> BuildPricingSnapshot(usd, currency, exchangeRate).prices == usd
  {
    hide Round2, IsWhole, Quotient;
    var rate := if currency == "USD" then 1.0 else exchangeRate;
    WholeRoundTrips(usd.adultPrice, rate);
    WholeRoundTrips(usd.childPrice, rate);
    WholeRoundTrips(usd.infantPrice, rate);
    WholeRoundTrips(usd.taxes, rate);
    WholeRoundTrips(usd.serviceFee, rate);
    WholeRoundTrips(usd.gratuity, rate);
    WholeRoundTrips(usd.total, rate);
    RoundOfWhole(usd.adultPrice);
    RoundOfWhole(usd.childPrice);
    RoundOfWhole(usd.infantPrice);
    RoundOfWhole(usd.taxes);
    RoundOfWhole(usd.serviceFee);
    RoundOfWhole(usd.gratuity);
    RoundOfWhole(usd.total);
  }
}
