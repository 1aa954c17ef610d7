/** Selling withheld rewards: the vault's quote, its inverse, and the tolerance check. */
module Conversions {
  import opened Outcomes
  import opened Numbers

  const BPS: int := 10_000
  const RATE_UNIT: int := 1_000_000_000_000

  /** RATE_UNIT * BPS: what a price per reward unit is over. */
  const PRICE_UNIT: int := 10_000_000_000_000_000

  datatype ConversionTerms = ConversionTerms(spreadBps: u16, maxSlippageBps: u16) {
    /** `init_conversion_vault`'s guard. */
    predicate Accepted() {
      spreadBps < BPS && maxSlippageBps < BPS
    }

    /** What one reward unit sells for, over PRICE_UNIT. */
    function Price(rate: u64): int {
      rate * (BPS - spreadBps)
    }

    /** Stablecoin the vault pays for `amount` rewards: rounded down, once. */
    function Quote(amount: u64, rate: u64): Result<u64>
      requires Accepted()
    {
      var gross :- U128(amount * rate);
      var net :- U128(gross * (BPS - spreadBps));
      U64(net / PRICE_UNIT)
    }

    /** The fewest rewards that sell for `stable`, saturating at what an account can hold. */
    function TokensFor(stable: u64, rate: u64): u64
      requires Accepted() && rate > 0
    {
      Min(TokensNeeded(stable, rate), U64_MAX)
    }

    /** The same count before it saturates. */
    function TokensNeeded(stable: u64, rate: u64): nat
      requires Accepted() && rate > 0
    {
      MulStrict(0, rate, BPS - spreadBps);
      DivCeilAtMost(stable * PRICE_UNIT, Price(rate), -1);
      DivCeil(stable * PRICE_UNIT, Price(rate))
    }
  }

  lemma QuoteIsFloor(terms: ConversionTerms, amount: u64, rate: u64)
    requires terms.Accepted()
    ensures terms.Quote(amount, rate).Ok? ==>
            terms.Quote(amount, rate).value == amount * terms.Price(rate) / PRICE_UNIT
  {
    assert amount * rate * (BPS - terms.spreadBps) == amount * terms.Price(rate);
  }

  lemma FloorCeilAdjoint(amount: int, price: int, unit: int, stable: int)
    requires price > 0 && unit > 0
    ensures amount * price / unit >= stable <==> amount >= DivCeil(stable * unit, price)
  {
    DivAtLeast(amount * price, unit, stable);
    DivCeilAtMost(stable * unit, price, amount);
    assert price * amount == amount * price && unit * stable == stable * unit;
  }

  lemma QuoteReaches(terms: ConversionTerms, amount: u64, stable: u64, rate: u64)
    requires terms.Accepted() && rate > 0 && terms.Quote(amount, rate).Ok?
    ensures terms.Quote(amount, rate).value >= stable <==> amount >= terms.TokensNeeded(stable, rate)
  {
    MulStrict(0, rate, BPS - terms.spreadBps);
    var price := terms.Price(rate);
    QuoteIsFloor(terms, amount, rate);
    FloorCeilAdjoint(amount, price, PRICE_UNIT, stable);
  }

  /** The quote and the token count are exact inverses under their roundings: a sale reaches
      `stable` exactly from the token count up. Only a count past what an account can hold
      breaks it, and then no sale reaches `stable` at all. */
  lemma QuoteAdjoint(terms: ConversionTerms, amount: u64, stable: u64, rate: u64)
    requires terms.Accepted() && rate > 0 && terms.Quote(amount, rate).Ok?
    ensures terms.TokensNeeded(stable, rate) <= U64_MAX ==>
            (terms.Quote(amount, rate).value >= stable <==> amount >= terms.TokensFor(stable, rate))
    ensures terms.TokensNeeded(stable, rate) > U64_MAX ==>
            terms.TokensFor(stable, rate) == U64_MAX && terms.Quote(amount, rate).value < stable
  {
    QuoteReaches(terms, amount, stable, rate);
  }

  /** Fewer tokens than the count for a debt never pay it, saturated or not. */
  lemma ShortTakeLeavesDebt(terms: ConversionTerms, take: u64, debt: u64, rate: u64)
    requires terms.Accepted() && rate > 0 && terms.Quote(take, rate).Ok?
    requires take < terms.TokensFor(debt, rate)
    ensures terms.Quote(take, rate).value < debt
  {
    QuoteAdjoint(terms, take, debt, rate);
  }

  /** The token count's intermediates fit u128, rounding up included. */
  lemma TokensForNeverOverflows(terms: ConversionTerms, stable: u64, rate: u64)
    requires terms.Accepted()
    ensures U128(stable * RATE_UNIT).Ok? && U128(stable * PRICE_UNIT).Ok?
    ensures U128(terms.Price(rate)).Ok? && U128(stable * PRICE_UNIT + terms.Price(rate)).Ok?
  {
    MulMonotone(rate, U64_MAX, BPS - terms.spreadBps);
    MulMonotone(0, rate, BPS - terms.spreadBps);
  }

  /** The quote in plain units, a rate being stablecoin per 10^12 reward units and a spread in basis
      points: the attested value less the spread, rounded down, wherever that fits u64. */
  lemma QuoteInUnits(terms: ConversionTerms, amount: u64, rate: u64)
    requires terms.Accepted()
    ensures var net := amount * rate * (10_000 - terms.spreadBps);
            && (terms.Quote(amount, rate).Ok? <==> net < 0x1_0000_0000_0000_0000 * 10_000_000_000_000_000)
            && (terms.Quote(amount, rate).Ok? ==>
                  var quote := terms.Quote(amount, rate).value;
                  quote * 10_000_000_000_000_000 <= net < (quote + 1) * 10_000_000_000_000_000)
  {
    var value := amount * rate;
    MulMonotone(0, rate, amount);
    MulMonotone(amount, U64_MAX, rate);
    MulMonotone(1, 10_000 - terms.spreadBps, value);
    var net := value * (10_000 - terms.spreadBps);
    DivBounds(net, 10_000_000_000_000_000);
    DivAtLeast(net, 10_000_000_000_000_000, U64_MAX + 1);
  }

  // ----- Tolerance --------------------------------------------------------------------------

  datatype ConversionCheck = ConversionCheck(deviationBps: u16, withinTolerance: bool)

  function CheckConversion(amount: u64, rate: u64, received: u64, maxSlippageBps: u16): Result<ConversionCheck> {
    var value := amount * rate;
    var paid := received * RATE_UNIT;
    if paid >= value then Ok(ConversionCheck(0, true)) else
    var scaled :- U128((value - paid) * BPS);
    var deviation :- U16(DivCeil(scaled, value));
    Ok(ConversionCheck(deviation, deviation <= maxSlippageBps))
  }

  /** The deviation is the shortfall in basis points rounded up, at most 10000, and decides as the
      unrounded shortfall would; the only refusal is a shortfall whose basis points pass u128. */
  lemma ToleranceIsExact(amount: u64, rate: u64, received: u64, maxSlippageBps: u16)
    ensures var check := CheckConversion(amount, rate, received, maxSlippageBps);
            var value := amount * rate;
            var paid := received * 1_000_000_000_000;
            && (check.Ok? <==> (value - paid) * 10_000 <= U128_MAX)
            && (check.Ok? ==>
                  && check.value.deviationBps <= 10_000
                  && (value - paid) * 10_000 <= check.value.deviationBps * value
                  && (check.value.deviationBps > 0 ==>
                        (check.value.deviationBps - 1) * value < (value - paid) * 10_000)
                  && (check.value.withinTolerance <==> (value - paid) * 10_000 <= maxSlippageBps * value))
  {
    var value, paid := amount * rate, received * RATE_UNIT;
    MulMonotone(0, amount, rate);
    MulMonotone(0, maxSlippageBps, value);
    if paid < value {
      var scaled := (value - paid) * BPS;
      DivCeilAtMost(scaled, value, BPS);
      DivCeilAtMost(scaled, value, maxSlippageBps);
      DivCeilAtMost(scaled, value, -1);
      DivCeilBounds(scaled, value);
      assert (DivCeil(scaled, value) - 1) * value == value * DivCeil(scaled, value) - value;
    }
  }

  /** A conversion that passes pays at least (10000 - tolerance) / 10000 of the exact attested
      value. */
  lemma PassingPaysItsShare(amount: u64, rate: u64, received: u64, maxSlippageBps: u16)
    requires CheckConversion(amount, rate, received, maxSlippageBps).Ok?
    requires CheckConversion(amount, rate, received, maxSlippageBps).value.withinTolerance
    ensures received * 10_000_000_000_000_000 >= (10_000 - maxSlippageBps) * (amount * rate)
  {
    ToleranceIsExact(amount, rate, received, maxSlippageBps);
    var value := amount * rate;
    assert (BPS - maxSlippageBps) * value == BPS * value - maxSlippageBps * value;
  }

  /** A sale for nothing fits no tolerance a vault may have. */
  lemma NothingFitsNoTolerance(terms: ConversionTerms, amount: u64, rate: u64)
    requires terms.Accepted() && amount > 0 && rate > 0
    ensures var check := CheckConversion(amount, rate, 0, terms.maxSlippageBps);
            check.Ok? <==> check == Ok(ConversionCheck(10_000, false))
  {
    ToleranceIsExact(amount, rate, 0, terms.maxSlippageBps);
    MulStrict(0, rate, amount);
    WholeShortfall(amount * rate);
  }

  lemma WholeShortfall(value: int)
    requires value > 0
    ensures DivCeil(value * 10_000, value) == 10_000
  {
    DivCeilAtMost(value * 10_000, value, 10_000);
    DivCeilAtMost(value * 10_000, value, 9_999);
  }

  // ----- A quote against the tolerance ------------------------------------------------------

  /** A quote's deviation in basis points is the vault's spread and what rounding down one unit may
      cost: no less than the spread, and past it by less than one basis point more than one unit of
      stablecoin is of the value sold. */
  lemma QuoteDeviation(terms: ConversionTerms, amount: u64, rate: u64, quote: u64, maxSlippageBps: u16)
    requires terms.Accepted() && terms.Quote(amount, rate) == Ok(quote) && amount * rate > 0
    requires CheckConversion(amount, rate, quote, maxSlippageBps).Ok?
    ensures var deviation := CheckConversion(amount, rate, quote, maxSlippageBps).value.deviationBps;
            && terms.spreadBps <= deviation
            && (deviation - 1 - terms.spreadBps) * (amount * rate) < 10_000_000_000_000_000
  {
    QuoteInUnits(terms, amount, rate);
    DeviationBounds(amount * rate, terms.spreadBps, quote);
  }

  lemma DeviationBounds(value: int, spread: int, quote: int)
    requires value > 0 && 0 <= spread < 10_000
    requires quote * 10_000_000_000_000_000 <= value * (10_000 - spread) < (quote + 1) * 10_000_000_000_000_000
    ensures var scaled := (value - quote * 1_000_000_000_000) * 10_000;
            && value * spread <= scaled < value * spread + 10_000_000_000_000_000
            && (quote * 1_000_000_000_000 >= value ==> spread == 0)
            && spread <= DivCeil(scaled, value)
            && (DivCeil(scaled, value) - 1 - spread) * value < 10_000_000_000_000_000
  {
    assert value * (10_000 - spread) == value * 10_000 - value * spread;
    if spread > 0 {
      MulStrict(0, spread, value);
    }
    DeviationOver(value, spread, (value - quote * 1_000_000_000_000) * 10_000);
  }

  lemma DeviationOver(value: int, spread: int, scaled: int)
    requires value > 0 && value * spread <= scaled < value * spread + 10_000_000_000_000_000
    ensures spread <= DivCeil(scaled, value)
    ensures (DivCeil(scaled, value) - 1 - spread) * value < 10_000_000_000_000_000
  {
    var deviation := DivCeil(scaled, value);
    DivCeilAtMost(scaled, value, spread - 1);
    DivCeilBounds(scaled, value);
    assert value * (spread - 1) == value * spread - value;
    assert (deviation - 1 - spread) * value == value * deviation - value - value * spread;
  }

  /** A quote of a vault whose spread is within the tolerance passes, once the rounding of one unit is
      within what the tolerance leaves; at no spread and a whole number of units it loses nothing. */
  lemma QuoteMeetsTolerance(terms: ConversionTerms, amount: u64, rate: u64, quote: u64, maxSlippageBps: u16)
    requires terms.Accepted() && rate > 0 && terms.Quote(amount, rate) == Ok(quote)
    ensures var value, check := amount * rate, CheckConversion(amount, rate, quote, maxSlippageBps);
            && (value * terms.spreadBps + 10_000_000_000_000_000 <= U128_MAX ==> check.Ok?)
            && (check.Ok? && terms.spreadBps <= maxSlippageBps
                && (maxSlippageBps - terms.spreadBps) * value >= 10_000_000_000_000_000 ==>
                  check.value.withinTolerance)
            && (terms.spreadBps == 0 && value % 1_000_000_000_000 == 0 ==> check == Ok(ConversionCheck(0, true)))
  {
    QuoteInUnits(terms, amount, rate);
    ToleranceIsExact(amount, rate, quote, maxSlippageBps);
    ShortfallOfQuote(amount * rate, terms.spreadBps, quote, maxSlippageBps);
    if terms.spreadBps == 0 && amount * rate % 1_000_000_000_000 == 0 {
      WholeQuote(amount * rate, quote);
    }
  }

  lemma ShortfallOfQuote(value: int, spread: int, quote: int, maxSlippageBps: int)
    requires value * (10_000 - spread) < (quote + 1) * 10_000_000_000_000_000
    ensures var shortfall := (value - quote * 1_000_000_000_000) * 10_000;
            && shortfall < value * spread + 10_000_000_000_000_000
            && ((maxSlippageBps - spread) * value >= 10_000_000_000_000_000 ==> shortfall <= maxSlippageBps * value)
  {
    assert value * (10_000 - spread) == value * 10_000 - value * spread;
    assert (maxSlippageBps - spread) * value == maxSlippageBps * value - value * spread;
  }

  /** At no spread, a whole number of units is quoted in full. */
  lemma WholeQuote(value: int, quote: int)
    requires value % 1_000_000_000_000 == 0
    requires quote * 10_000_000_000_000_000 <= value * 10_000 < (quote + 1) * 10_000_000_000_000_000
    ensures quote * 1_000_000_000_000 == value
  {
    DivBounds(value, 1_000_000_000_000);
  }
}
