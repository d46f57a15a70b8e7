/**
 Tick sizes and legal prices (src/app/domain/price.py).

 The tick size depends on the band a price falls in, so rounding inside one band could
 in principle leave the set of legal prices or miss a closer one in a neighbouring band.
 The results below show that it never does, for any table whose band limits are multiples
 of the ticks on both sides, and that the stock and ETF tables are such tables.
 */
module Price {
  import opened Outcomes

  datatype SecurityType = Stock | Etf

  /** A band of prices below `upper` that move in steps of `tick`. */
  datatype Band = Band(upper: real, tick: real)

  const STOCK_BANDS: seq<Band> :=
    [Band(10.0, 0.01), Band(50.0, 0.05), Band(100.0, 0.1), Band(500.0, 0.5), Band(1000.0, 1.0)]
  const STOCK_TICK_ABOVE := 5.0
  const ETF_BANDS: seq<Band> := [Band(50.0, 0.01)]
  const ETF_TICK_ABOVE := 0.05

  const MIN_TICK := 0.01

  function Bands(t: SecurityType): seq<Band> {
    if t.Etf? then ETF_BANDS else STOCK_BANDS
  }

  function TickAbove(t: SecurityType): real {
    if t.Etf? then ETF_TICK_ABOVE else STOCK_TICK_ABOVE
  }

  function Lookup(bands: seq<Band>, above: real, price: real): real {
    if bands == [] then above
    else if price < bands[0].upper then bands[0].tick
    else Lookup(bands[1..], above, price)
  }

  function TickSize(t: SecurityType, price: real): real {
    Lookup(Bands(t), TickAbove(t), price)
  }

  /** Decimal's integer quotient, which truncates toward zero. */
  function Quotient(x: real, tick: real): (q: int)
    requires tick > 0.0
  {
    if x >= 0.0 then (x / tick).Floor else -((-x) / tick).Floor
  }

  function Times(n: int, tick: real): (m: real) {
    n as real * tick
  }

  /** The multiple of the tick reached by integer division. */
  function Steps(x: real, tick: real): (m: real)
    requires tick > 0.0
  {
    Times(Quotient(x, tick), tick)
  }

  predicate IsMultiple(x: real, tick: real)
    requires tick > 0.0
  {
    x - Steps(x, tick) == 0.0
  }

  /** Every band of every table has a positive tick. */
  ghost predicate PositiveTicks(bands: seq<Band>, above: real) {
    above > 0.0 && forall i :: 0 <= i < |bands| ==> bands[i].tick > 0.0
  }

  lemma {:induction false} LookupPositive(bands: seq<Band>, above: real, price: real)
    requires PositiveTicks(bands, above)
    ensures Lookup(bands, above, price) > 0.0
  {
    if bands != [] {
      LookupPositive(bands[1..], above, price);
    }
  }

  lemma TickPositive(t: SecurityType, price: real)
    ensures TickSize(t, price) > 0.0
  {
    LookupPositive(Bands(t), TickAbove(t), price);
  }

  predicate IsValidTick(t: SecurityType, price: real) {
    TickPositive(t, price);
    IsMultiple(price, TickSize(t, price))
  }

  function Max(a: real, b: real): real {
    if a >= b then a else b
  }

  function NearestLower(t: SecurityType, price: real): real {
    TickPositive(t, price);
    var tick := TickSize(t, price);
    Max(Steps(price, tick), tick)
  }

  /** The multiple of the tick at or next above. */
  function RoundUp(price: real, tick: real): real
    requires tick > 0.0
  {
    var lower := Steps(price, tick);
    if lower == price then lower else lower + tick
  }

  function NearestUpper(t: SecurityType, price: real): real {
    TickPositive(t, price);
    RoundUp(price, TickSize(t, price))
  }

  /** The exchange's rules: stocks in six bands, ETFs in two, each limit belonging to the band above. */
  lemma TicksOfTheExchange(price: real)
    ensures TickSize(Stock, price)
            == if price < 10.0 then 0.01 else if price < 50.0 then 0.05 else if price < 100.0 then 0.1
               else if price < 500.0 then 0.5 else if price < 1000.0 then 1.0 else 5.0
    ensures TickSize(Etf, price) == if price < 50.0 then 0.01 else 0.05
  {
    var above := STOCK_TICK_ABOVE;
    var b0, b1, b2, b3 := STOCK_BANDS, STOCK_BANDS[1..], STOCK_BANDS[1..][1..], STOCK_BANDS[1..][1..][1..];
    var b4 := b3[1..];
    var b5: seq<Band> := [];
    assert b4[1..] == b5 && Lookup(b5, above, price) == above;
    assert Lookup(b4, above, price) == if price < 1000.0 then 1.0 else Lookup(b4[1..], above, price);
    assert Lookup(b3, above, price) == if price < 500.0 then 0.5 else Lookup(b3[1..], above, price);
    assert Lookup(b2, above, price) == if price < 100.0 then 0.1 else Lookup(b2[1..], above, price);
    assert Lookup(b1, above, price) == if price < 50.0 then 0.05 else Lookup(b1[1..], above, price);
    assert Lookup(b0, above, price) == if price < 10.0 then 0.01 else Lookup(b0[1..], above, price);
    assert ETF_BANDS[1..] == b5 && Lookup(b5, ETF_TICK_ABOVE, price) == ETF_TICK_ABOVE;
    assert Lookup(ETF_BANDS, ETF_TICK_ABOVE, price) == if price < 50.0 then 0.01 else Lookup(ETF_BANDS[1..], ETF_TICK_ABOVE, price);
  }

  /** A price an order may carry. */
  predicate Legal(t: SecurityType, price: real) {
    price > 0.0 && IsValidTick(t, price)
  }

  datatype PriceError = BadAmount | NotPositive | BadTick(lower: real, upper: real)

  /** The checks on a price that parsed as a finite decimal. */
  function Validate(t: SecurityType, amount: int, price: real): Result<real, PriceError> {
    if amount <= 0 then Err(BadAmount)
    else if price <= 0.0 then Err(NotPositive)
    else if !IsValidTick(t, price) then Err(BadTick(NearestLower(t, price), NearestUpper(t, price)))
    else Ok(price)
  }

  function FixedAmountTick(t: SecurityType): real {
    if t.Etf? then 0.05 else 0.1
  }

  /** A fixed trailing offset is aligned to one conservative tick per security type. */
  predicate ValidFixedAmount(t: SecurityType, value: real) {
    IsMultiple(value, FixedAmountTick(t))
  }

  // ---------------------------------------------------------------- multiples of one tick

  lemma TimesNext(n: int, tick: real)
    ensures Times(n + 1, tick) == Times(n, tick) + tick
  {
    assert (n + 1) as real == n as real + 1.0;
  }

  lemma TimesMonotone(a: int, b: int, tick: real)
    requires tick > 0.0 && a <= b
    ensures Times(a, tick) <= Times(b, tick)
  {
    assert (b - a) as real * tick >= 0.0;
  }

  lemma LessTimes(a: real, b: real, tick: real)
    requires tick > 0.0
    ensures a <= b ==> a * tick <= b * tick
    ensures a < b ==> a * tick < b * tick
  {
  }

  lemma BetweenTimes(x: real, d: real, n: int, tick: real)
    requires tick > 0.0 && x == d * tick && n as real <= d < (n + 1) as real
    ensures Times(n, tick) <= x < Times(n + 1, tick)
  {
    LessTimes(n as real, d, tick);
    LessTimes(d, (n + 1) as real, tick);
  }

  lemma QuotientBracket(x: real, tick: real)
    requires tick > 0.0 && x >= 0.0
    ensures Times(Quotient(x, tick), tick) <= x < Times(Quotient(x, tick) + 1, tick)
  {
    hide Times;
    BetweenTimes(x, x / tick, Quotient(x, tick), tick);
  }

  lemma QuotientOfTimes(k: nat, tick: real)
    requires tick > 0.0
    ensures Times(k, tick) >= 0.0 && Quotient(Times(k, tick), tick) == k
  {
    assert Times(k, tick) / tick == k as real;
  }

  lemma WholeSteps(k: nat, tick: real)
    requires tick > 0.0
    ensures Times(k, tick) >= 0.0 && IsMultiple(Times(k, tick), tick)
  {
    QuotientOfTimes(k, tick);
  }

  lemma StepsBracket(x: real, tick: real)
    requires tick > 0.0 && x >= 0.0
    ensures 0.0 <= Steps(x, tick) <= x < Steps(x, tick) + tick
  {
    QuotientBracket(x, tick);
    TimesNext(Quotient(x, tick), tick);
    WholeSteps(Quotient(x, tick), tick);
    hide Times;
  }

  lemma StepsAreMultiples(x: real, tick: real)
    requires tick > 0.0 && x >= 0.0
    ensures IsMultiple(Steps(x, tick), tick) && IsMultiple(Steps(x, tick) + tick, tick)
  {
    hide IsMultiple, Times;
    var n := Quotient(x, tick);
    WholeSteps(n, tick);
    WholeSteps(n + 1, tick);
    TimesNext(n, tick);
  }

  /** Multiples are a tick apart: one beyond Steps(x) is at least a whole tick beyond. */
  lemma MultiplesAreSpaced(m: real, x: real, tick: real)
    requires tick > 0.0 && x >= 0.0 && m >= 0.0 && IsMultiple(m, tick)
    ensures m <= x ==> m <= Steps(x, tick)
    ensures m > Steps(x, tick) ==> m >= Steps(x, tick) + tick
  {
    hide Times, Quotient;
    var a, b := Quotient(m, tick), Quotient(x, tick);
    StepsBracket(x, tick);
    assert m == Times(a, tick) && Steps(x, tick) == Times(b, tick);
    if a <= b {
      TimesMonotone(a, b, tick);
    } else {
      TimesMonotone(b + 1, a, tick);
      TimesNext(b, tick);
    }
  }

  // ---------------------------------------------------------------- tables of bands

  /** Each band limit is a multiple of the tick below it and of the tick above it. */
  ghost predicate Aligned(floor: real, bands: seq<Band>, above: real)
    decreases |bands|
  {
    && floor >= 0.0
    && if bands == [] then above > 0.0 && IsMultiple(floor, above)
       else
         && bands[0].tick > 0.0
         && floor < bands[0].upper
         && IsMultiple(floor, bands[0].tick)
         && IsMultiple(bands[0].upper, bands[0].tick)
         && Aligned(bands[0].upper, bands[1..], above)
  }

  /** A multiple of its own band's tick. */
  ghost predicate OnGrid(bands: seq<Band>, above: real, price: real) {
    var tick := Lookup(bands, above, price);
    tick > 0.0 && IsMultiple(price, tick)
  }

  /** Rounding down stays in the band and is the greatest grid price not above. */
  lemma {:induction false} RoundDownInTable(floor: real, bands: seq<Band>, above: real, price: real)
    requires Aligned(floor, bands, above) && floor <= price
    ensures Lookup(bands, above, price) > 0.0
    ensures var lower := Steps(price, Lookup(bands, above, price));
            && floor <= lower <= price
            && OnGrid(bands, above, lower)
            && forall q :: floor <= q <= price && OnGrid(bands, above, q) ==> q <= lower
    decreases |bands|
  {
    if bands == [] || price < bands[0].upper {
      var tick := Lookup(bands, above, price);
      StepsBracket(price, tick);
      StepsAreMultiples(price, tick);
      MultiplesAreSpaced(floor, price, tick);
      forall q | floor <= q <= price && OnGrid(bands, above, q)
        ensures q <= Steps(price, tick)
      {
        MultiplesAreSpaced(q, price, tick);
      }
    } else {
      RoundDownInTable(bands[0].upper, bands[1..], above, price);
      var lower := Steps(price, Lookup(bands, above, price));
      forall q | floor <= q <= price && OnGrid(bands, above, q)
        ensures q <= lower
      {
        if q >= bands[0].upper {
          assert OnGrid(bands[1..], above, q);
        }
      }
    }
  }

  lemma FloorOnGrid(floor: real, bands: seq<Band>, above: real)
    requires Aligned(floor, bands, above)
    ensures OnGrid(bands, above, floor)
  {
  }

  /** Rounding up may land on the next band's limit, and is the least grid price not below. */
  lemma {:induction false} RoundUpInTable(floor: real, bands: seq<Band>, above: real, price: real)
    requires Aligned(floor, bands, above) && floor <= price
    ensures Lookup(bands, above, price) > 0.0
    ensures var upper := RoundUp(price, Lookup(bands, above, price));
            && price <= upper
            && OnGrid(bands, above, upper)
            && forall q :: price <= q && OnGrid(bands, above, q) ==> upper <= q
    decreases |bands|
  {
    if bands == [] || price < bands[0].upper {
      var tick := Lookup(bands, above, price);
      var upper := RoundUp(price, tick);
      StepsBracket(price, tick);
      StepsAreMultiples(price, tick);
      if bands != [] {
        MultiplesAreSpaced(bands[0].upper, price, tick);
        FloorOnGrid(bands[0].upper, bands[1..], above);
      }
      forall q | price <= q && OnGrid(bands, above, q)
        ensures upper <= q
      {
        if bands == [] || q < bands[0].upper {
          MultiplesAreSpaced(q, price, tick);
        }
      }
    } else {
      RoundUpInTable(bands[0].upper, bands[1..], above, price);
      forall q | price <= q && OnGrid(bands, above, q)
        ensures RoundUp(price, Lookup(bands, above, price)) <= q
      {
        assert OnGrid(bands[1..], above, q);
      }
    }
  }

  lemma MultipleBy(x: real, tick: real, k: nat)
    requires tick > 0.0 && Times(k, tick) == x
    ensures IsMultiple(x, tick)
  {
    WholeSteps(k, tick);
  }

  /** Legal prices are the positive whole numbers of ticks. */
  lemma LegalExactly(t: SecurityType, price: real)
    ensures Legal(t, price) <==> price > 0.0 && exists k: nat :: Times(k, TickSize(t, price)) == price
  {
    hide Steps, IsMultiple;
    var tick := TickSize(t, price);
    TickPositive(t, price);
    if Legal(t, price) {
      WholeTicks(price, tick);
    }
    forall k: nat | Times(k, tick) == price
      ensures IsMultiple(price, tick)
    {
      MultipleBy(price, tick, k);
    }
  }

  lemma WholeTicks(price: real, tick: real)
    requires tick > 0.0 && price > 0.0 && IsMultiple(price, tick)
    ensures exists k: nat :: Times(k, tick) == price
  {
    QuotientBracket(price, tick);
    assert Times(Quotient(price, tick), tick) == price;
  }

  lemma StockTableAlignedAbove100()
    ensures Aligned(100.0, STOCK_BANDS[3..], STOCK_TICK_ABOVE)
  {
    var b := STOCK_BANDS[3..];
    MultipleBy(100.0, 0.5, 200);
    MultipleBy(500.0, 0.5, 1000);
    MultipleBy(500.0, 1.0, 500);
    MultipleBy(1000.0, 1.0, 1000);
    MultipleBy(1000.0, 5.0, 200);
    hide IsMultiple;
    assert Aligned(1000.0, b[1..][1..], STOCK_TICK_ABOVE);
    assert Aligned(500.0, b[1..], STOCK_TICK_ABOVE);
  }

  lemma StockTableAligned()
    ensures Aligned(0.0, STOCK_BANDS, STOCK_TICK_ABOVE)
  {
    var b := STOCK_BANDS;
    MultipleBy(0.0, 0.01, 0);
    MultipleBy(10.0, 0.01, 1000);
    MultipleBy(10.0, 0.05, 200);
    MultipleBy(50.0, 0.05, 1000);
    MultipleBy(50.0, 0.1, 500);
    MultipleBy(100.0, 0.1, 1000);
    StockTableAlignedAbove100();
    hide IsMultiple;
    assert b[1..][1..][1..] == b[3..];
    assert Aligned(50.0, b[1..][1..], STOCK_TICK_ABOVE);
    assert Aligned(10.0, b[1..], STOCK_TICK_ABOVE);
  }

  lemma EtfTableAligned()
    ensures Aligned(0.0, ETF_BANDS, ETF_TICK_ABOVE)
  {
    MultipleBy(0.0, 0.01, 0);
    MultipleBy(50.0, 0.01, 5000);
    MultipleBy(50.0, 0.05, 1000);
    assert Aligned(50.0, ETF_BANDS[1..], ETF_TICK_ABOVE);
  }

  lemma TableAligned(t: SecurityType)
    ensures Aligned(0.0, Bands(t), TickAbove(t))
    ensures forall p :: p < 10.0 ==> TickSize(t, p) == MIN_TICK
  {
    StockTableAligned();
    EtfTableAligned();
  }

  // ---------------------------------------------------------------- the promises

  lemma MinTickLegal(t: SecurityType)
    ensures Legal(t, MIN_TICK)
    ensures forall q :: Legal(t, q) ==> q >= MIN_TICK
  {
    TableAligned(t);
    MultipleBy(MIN_TICK, MIN_TICK, 1);
    forall q | Legal(t, q)
      ensures q >= MIN_TICK
    {
      if q < MIN_TICK {
        StepsBracket(q, MIN_TICK);
        WholeSteps(0, MIN_TICK);
        MultiplesAreSpaced(q, 0.0, MIN_TICK);
      }
    }
  }

  /** A positive multiple is at least one tick. */
  lemma AtLeastOneTick(m: real, tick: real)
    requires tick > 0.0 && m > 0.0 && IsMultiple(m, tick)
    ensures m >= tick
  {
    hide IsMultiple;
    QuotientOfTimes(0, tick);
    MultiplesAreSpaced(m, 0.0, tick);
  }

  lemma LegalOnGrid(t: SecurityType, price: real)
    requires price > 0.0
    ensures Legal(t, price) <==> OnGrid(Bands(t), TickAbove(t), price)
  {
    TickPositive(t, price);
  }

  lemma RoundDownIsLegal(t: SecurityType, price: real)
    requires price >= MIN_TICK
    ensures Legal(t, NearestLower(t, price)) && NearestLower(t, price) <= price
    ensures forall q :: Legal(t, q) && q <= price ==> q <= NearestLower(t, price)
  {
    hide IsMultiple, Steps, Lookup;
    TableAligned(t);
    MinTickLegal(t);
    TickPositive(t, price);
    RoundDownInTable(0.0, Bands(t), TickAbove(t), price);
    var tick := TickSize(t, price);
    var lower := Steps(price, tick);
    LegalOnGrid(t, MIN_TICK);
    StepsAreMultiples(price, tick);
    AtLeastOneTick(lower, tick);
    LegalOnGrid(t, lower);
    forall q | Legal(t, q) && q <= price
      ensures q <= lower
    {
      LegalOnGrid(t, q);
    }
  }

  /**
   Rounding down gives the greatest legal price not above, over all bands, from one tick up;
   below one tick there is no such price and the result is one tick.
   */
  lemma NearestLowerIsGreatestLegal(t: SecurityType, price: real)
    ensures Legal(t, NearestLower(t, price))
    ensures NearestLower(t, price) <= price <==> price >= MIN_TICK
    ensures forall q :: Legal(t, q) && q <= price ==> q <= NearestLower(t, price)
    ensures price < MIN_TICK ==> NearestLower(t, price) == MIN_TICK
  {
    if price >= MIN_TICK {
      RoundDownIsLegal(t, price);
    } else {
      TableAligned(t);
      MinTickLegal(t);
      if price >= 0.0 {
        StepsBracket(price, MIN_TICK);
      }
    }
  }

  /** Rounding up gives the least legal price not below, for every positive price. */
  lemma NearestUpperIsLeastLegal(t: SecurityType, price: real)
    requires price > 0.0
    ensures Legal(t, NearestUpper(t, price))
    ensures NearestUpper(t, price) >= price
    ensures forall q :: Legal(t, q) && q >= price ==> q >= NearestUpper(t, price)
  {
    hide IsMultiple, Steps, Lookup;
    TableAligned(t);
    TickPositive(t, price);
    RoundUpInTable(0.0, Bands(t), TickAbove(t), price);
    LegalOnGrid(t, NearestUpper(t, price));
    forall q | Legal(t, q) && q >= price
      ensures q >= NearestUpper(t, price)
    {
      LegalOnGrid(t, q);
    }
  }

  /** Neither rounding reorders prices, on either side of a band limit. */
  lemma RoundingIsMonotone(t: SecurityType, low: real, high: real)
    requires low <= high
    ensures NearestLower(t, low) <= NearestLower(t, high)
    ensures low > 0.0 ==> NearestUpper(t, low) <= NearestUpper(t, high)
  {
    NearestLowerIsGreatestLegal(t, low);
    NearestLowerIsGreatestLegal(t, high);
    MinTickLegal(t);
    if low > 0.0 {
      NearestUpperIsLeastLegal(t, low);
      NearestUpperIsLeastLegal(t, high);
    }
  }

  /** A legal price is left alone by both roundings, and only a legal price is. */
  lemma FixedPointsAreLegal(t: SecurityType, price: real)
    requires price > 0.0
    ensures Legal(t, price) <==> NearestLower(t, price) == price
    ensures Legal(t, price) <==> NearestUpper(t, price) == price
  {
    NearestLowerIsGreatestLegal(t, price);
    NearestUpperIsLeastLegal(t, price);
    MinTickLegal(t);
  }

  /**
   A price is accepted exactly when it is legal.  A rejected one above the smallest tick
   lies strictly between its two suggestions, which are neighbouring legal prices;
   a rejected one below the smallest tick gets that tick twice.
   */
  lemma RejectedPriceIsBracketed(t: SecurityType, amount: int, price: real)
    ensures Validate(t, amount, price).Ok? <==> amount > 0 && Legal(t, price)
    ensures Validate(t, amount, price) == Err(BadAmount) <==> amount <= 0
    ensures Validate(t, amount, price) == Err(NotPositive) <==> amount > 0 && price <= 0.0
    ensures amount > 0 && price > 0.0 && !Legal(t, price) ==>
              var e := Validate(t, amount, price).error;
              && e.BadTick? && Legal(t, e.lower) && Legal(t, e.upper)
              && (price > MIN_TICK ==> e.lower < price < e.upper)
              && (price < MIN_TICK ==> e.lower == e.upper == MIN_TICK)
              && !exists q :: Legal(t, q) && e.lower < q < e.upper
  {
    if amount > 0 && price > 0.0 && !Legal(t, price) {
      NearestLowerIsGreatestLegal(t, price);
      NearestUpperIsLeastLegal(t, price);
      FixedPointsAreLegal(t, price);
      MinTickLegal(t);
    }
  }
}
