/** Fee schedules and the fees of an order (`src/modules/fees/fees.service.ts`,
    `src/modules/brokerage/fees-json.ts`). */
module Fees {
  import opened Decimals

  datatype FeeCode = COURTAGE_SDB | COMMISSION_ALKE | TAXE

  datatype FeeLine = FeeLine(code: FeeCode, amount: Dec)

  /** `ORDER_FEE_TYPES`, in order. */
  const ORDER_FEE_TYPES: seq<FeeCode> := [COURTAGE_SDB, COMMISSION_ALKE, TAXE]

  datatype Schedule = Schedule(feeType: FeeCode, marketId: Maybe<string>, isPercentage: bool, value: Dec,
                               minAmount: Maybe<Dec>, maxAmount: Maybe<Dec>,
                               isActive: bool, effectiveFrom: int, effectiveTo: Maybe<int>)

  /** What `create` lets into the table. */
  predicate Admissible(s: Schedule) {
    && s.value >= 0
    && (s.isPercentage ==> s.value <= 100 * ONE)
    && (s.minAmount.Just? && s.maxAmount.Just? ==> s.minAmount.value <= s.maxAmount.value)
  }

  function ApplySchedule(s: Schedule, gross: Dec, currency: string): Dec {
    if s.isPercentage then PercentageFee(gross, s.value, currency, s.minAmount, s.maxAmount)
    else
      var floored := if s.minAmount.Just? && s.value < s.minAmount.value then s.minAmount.value else s.value;
      var capped := if s.maxAmount.Just? && floored > s.maxAmount.value then s.maxAmount.value else floored;
      RoundMoney(capped, currency)
  }

  predicate InForce(s: Schedule, feeType: FeeCode, market: Maybe<string>, at: int) {
    && s.feeType == feeType && s.marketId == market && s.isActive && s.effectiveFrom <= at
    && (s.effectiveTo.Just? ==> s.effectiveTo.value > at)
  }

  /** `findFirst` ordered by effectiveFrom, latest first. */
  function Latest(table: seq<Schedule>, feeType: FeeCode, market: Maybe<string>, at: int): (found: Maybe<Schedule>)
    ensures found.Just? ==> found.value in table && InForce(found.value, feeType, market, at)
    ensures forall s :: s in table && InForce(s, feeType, market, at) ==>
      found.Just? && s.effectiveFrom <= found.value.effectiveFrom
  {
    if table == [] then Nothing
    else
      var rest := Latest(table[1..], feeType, market, at);
      if InForce(table[0], feeType, market, at) && (rest.Nothing? || table[0].effectiveFrom >= rest.value.effectiveFrom)
      then Just(table[0]) else rest
  }

  /** The market's own schedule, else the global one. */
  function ActiveSchedule(table: seq<Schedule>, feeType: FeeCode, market: string, at: int): Maybe<Schedule> {
    var specific := Latest(table, feeType, Just(market), at);
    if market != "" && specific.Just? then specific else Latest(table, feeType, Nothing, at)
  }

  /** `computeFee`: no line when nothing applies or the amount rounds to zero or less. */
  function ComputeFee(table: seq<Schedule>, feeType: FeeCode, market: string, gross: Dec, currency: string, at: int)
    : Maybe<FeeLine>
  {
    var schedule := ActiveSchedule(table, feeType, market, at);
    if schedule.Nothing? then Nothing
    else
      var amount := ApplySchedule(schedule.value, gross, currency);
      if amount <= 0 then Nothing else Just(FeeLine(feeType, amount))
  }

  /** The amount charged for one code, zero when it has no line. */
  function Charge(table: seq<Schedule>, feeType: FeeCode, market: string, gross: Dec, currency: string, at: int): Dec {
    var line := ComputeFee(table, feeType, market, gross, currency, at);
    if line.Just? then line.value.amount else 0
  }

  /** Sum of the stored lines of a code (`feesFromJson`). */
  function Pick(lines: seq<FeeLine>, code: FeeCode): Dec {
    if lines == [] then 0 else (if lines[0].code == code then lines[0].amount else 0) + Pick(lines[1..], code)
  }

  function FeeTotal(lines: seq<FeeLine>): Dec {
    if lines == [] then 0 else lines[0].amount + FeeTotal(lines[1..])
  }

  lemma {:induction false} PickAppend(lines: seq<FeeLine>, line: FeeLine, code: FeeCode)
    ensures Pick(lines + [line], code) == Pick(lines, code) + (if line.code == code then line.amount else 0)
  {
    if lines != [] {
      PickAppend(lines[1..], line, code);
      assert (lines + [line])[1..] == lines[1..] + [line];
    }
  }

  /** The total of an order's fees is what its three codes add up to. */
  lemma {:induction false} TotalByCode(lines: seq<FeeLine>)
    ensures FeeTotal(lines) == Pick(lines, COURTAGE_SDB) + Pick(lines, COMMISSION_ALKE) + Pick(lines, TAXE)
  {
    if lines != [] { TotalByCode(lines[1..]); }
  }

  /** `computeOrderFees`: every code is charged once, exactly its schedule's amount, and a
      line is never zero or negative. */
  method ComputeOrderFees(table: seq<Schedule>, market: string, gross: Dec, currency: string, at: int)
    returns (lines: seq<FeeLine>)
    ensures forall code :: Pick(lines, code) == Charge(table, code, market, gross, currency, at)
    ensures forall i :: 0 <= i < |lines| ==> lines[i].amount > 0
    ensures |lines| <= 3
  {
    lines := [];
    for i := 0 to |ORDER_FEE_TYPES|
      invariant |lines| <= i
      invariant forall code :: code in ORDER_FEE_TYPES[..i] ==>
                  Pick(lines, code) == Charge(table, code, market, gross, currency, at)
      invariant forall code :: code !in ORDER_FEE_TYPES[..i] ==> Pick(lines, code) == 0
      invariant forall j :: 0 <= j < |lines| ==> lines[j].amount > 0
    {
      var line := ComputeFee(table, ORDER_FEE_TYPES[i], market, gross, currency, at);
      assert ORDER_FEE_TYPES[..i + 1] == ORDER_FEE_TYPES[..i] + [ORDER_FEE_TYPES[i]];
      if line.Just? {
        forall code { PickAppend(lines, line.value, code); }
        lines := lines + [line.value];
      }
    }
    forall code ensures code in ORDER_FEE_TYPES[..3] {
      assert ORDER_FEE_TYPES[..3] == ORDER_FEE_TYPES;
      match code {
        case COURTAGE_SDB => assert ORDER_FEE_TYPES[0] == code;
        case COMMISSION_ALKE => assert ORDER_FEE_TYPES[1] == code;
        case TAXE => assert ORDER_FEE_TYPES[2] == code;
      }
    }
  }

  lemma DivScaled(a: nat, b: nat, s: nat)
    requires b > 0 && s > 0 && b * s > 0
    ensures a * s / (b * s) == a / b
  {
    var q, r := a / b, a % b;
    assert a == q * b + r;
    assert a * s == q * (b * s) + r * s;
    MultiplesApart(b, r, s);
    QuotientUnique(a * s, b * s, q);
  }

  lemma QuotientUnique(n: nat, d: nat, q: int)
    requires d > 0 && q * d <= n < q * d + d
    ensures n / d == q
  {
    var x := n / d;
    assert x * d <= n < x * d + d;
    if x > q { MultiplesApart(x, q, d); }
    if q > x { MultiplesApart(q, x, d); }
  }

  lemma ScaledHalf(m: nat, u: nat, s: nat)
    requires u > 0 && s > 0 && s * u > 0
    ensures (2 * (m * s) + s * u) / (2 * (s * u)) == (2 * m + u) / (2 * u)
  {
    assert (2 * m + u) * s == 2 * (m * s) + s * u;
    assert 2 * u * s == 2 * (s * u);
    DivScaled(2 * m + u, 2 * u, s);
  }

  lemma NegatedProduct(x: int, s: nat)
    requires s > 0
    ensures -x * s == -(x * s) && (x >= 0 <==> x * s >= 0)
  {
    if x < 0 { MultiplesApart(0, x, s); }
  }

  /** Scaling both sides does not change a rounding. */
  lemma ScaledRoundDiv(x: int, u: nat, s: nat)
    requires u > 0 && s > 0 && s * u > 0
    ensures RoundDiv(x * s, s * u) == RoundDiv(x, u)
  {
    NegatedProduct(x, s);
    if x >= 0 { ScaledHalf(x, u, s); } else { ScaledHalf(-x, u, s); }
  }

  lemma ScaledRounding(x: Dec, currency: string)
    ensures RoundRatio(x * (100 * ONE), 100 * ONE, currency) == RoundMoney(x, currency)
  {
    ScaledRoundDiv(x, Unit(currency), 100 * ONE);
  }

  /** An admissible schedule keeps the fee between its rounded floor and cap. */
  lemma FeeWithinBounds(s: Schedule, gross: Dec, currency: string)
    requires Admissible(s)
    ensures s.minAmount.Just? ==> RoundMoney(s.minAmount.value, currency) <= ApplySchedule(s, gross, currency)
    ensures s.maxAmount.Just? ==> ApplySchedule(s, gross, currency) <= RoundMoney(s.maxAmount.value, currency)
  {
    var u := Unit(currency);
    if s.isPercentage {
      var scale := 100 * ONE;
      var fee := gross * s.value;
      var floored := if s.minAmount.Just? && fee < s.minAmount.value * scale then s.minAmount.value * scale else fee;
      var capped := if s.maxAmount.Just? && floored > s.maxAmount.value * scale then s.maxAmount.value * scale else floored;
      if s.minAmount.Just? {
        ScaledRounding(s.minAmount.value, currency);
        RoundDivMonotone(s.minAmount.value * scale, capped, scale * u);
      }
      if s.maxAmount.Just? {
        ScaledRounding(s.maxAmount.value, currency);
        RoundDivMonotone(capped, s.maxAmount.value * scale, scale * u);
      }
    } else {
      var floored := if s.minAmount.Just? && s.value < s.minAmount.value then s.minAmount.value else s.value;
      var capped := if s.maxAmount.Just? && floored > s.maxAmount.value then s.maxAmount.value else floored;
      if s.minAmount.Just? { RoundDivMonotone(s.minAmount.value, capped, u); }
      if s.maxAmount.Just? { RoundDivMonotone(capped, s.maxAmount.value, u); }
    }
  }

  /** Between its bounds a percentage fee is the nearest minor unit to the exact percentage. */
  lemma PercentageNearest(base: Dec, percent: Dec, currency: string, floor: Maybe<Dec>, cap: Maybe<Dec>)
    requires floor.Just? ==> floor.value * (100 * ONE) <= base * percent
    requires cap.Just? ==> base * percent <= cap.value * (100 * ONE)
    ensures var fee := PercentageFee(base, percent, currency, floor, cap);
            && fee % Unit(currency) == 0
            && -(100 * ONE * Unit(currency)) <= 2 * (fee * (100 * ONE) - base * percent) <= 100 * ONE * Unit(currency)
  {
    Unbounded(base, percent, currency, floor, cap);
    RatioError(base * percent, 100 * ONE, currency);
    RatioMultiple(base * percent, 100 * ONE, currency);
  }

  lemma Unbounded(base: Dec, percent: Dec, currency: string, floor: Maybe<Dec>, cap: Maybe<Dec>)
    requires floor.Just? ==> floor.value * (100 * ONE) <= base * percent
    requires cap.Just? ==> base * percent <= cap.value * (100 * ONE)
    ensures PercentageFee(base, percent, currency, floor, cap) == RoundRatio(base * percent, 100 * ONE, currency)
  {
  }

  lemma RatioMultiple(n: int, d: nat, currency: string)
    requires d > 0
    ensures RoundRatio(n, d, currency) % Unit(currency) == 0
  {
    MultipleOf(RoundDiv(n, d * Unit(currency)), Unit(currency));
  }

  lemma MultipleOf(k: int, u: nat)
    requires u == 10000 || u == 100
    ensures (k * u) % u == 0
  {
  }

  /** A schedule is found exactly when one is in force, the market's own before the global. */
  lemma MarketBeforeGlobal(table: seq<Schedule>, feeType: FeeCode, market: string, at: int)
    ensures var found := ActiveSchedule(table, feeType, market, at);
            && (found.Just? && found.value.marketId == Just(market) && market != "" <==>
                  market != "" && exists s :: s in table && InForce(s, feeType, Just(market), at))
            && (found.Just? && found.value.marketId == Nothing <==>
                  && (market == "" || forall s :: s in table ==> !InForce(s, feeType, Just(market), at))
                  && exists s :: s in table && InForce(s, feeType, Nothing, at))
            && (found.Just? ==> found.value in table && found.value.marketId in {Just(market), Nothing})
  {
    var specific := Latest(table, feeType, Just(market), at);
    var global := Latest(table, feeType, Nothing, at);
    assert specific.Just? ==> InForce(specific.value, feeType, Just(market), at);
    assert global.Just? ==> InForce(global.value, feeType, Nothing, at);
  }

  // -------------------------------------------------------------- proration

  /** `commissionFor`: the commission's share of a fill, rounded to the currency. A zero
      quantity, which placement refuses, takes nothing. */
  function Prorated(commission: Dec, qty: Dec, quantity: Dec, currency: string): Dec {
    if commission == 0 || quantity <= 0 then 0 else RoundRatio(commission * qty, quantity, currency)
  }

  function Add(xs: seq<Dec>): Dec {
    if xs == [] then 0 else Add(xs[..|xs| - 1]) + xs[|xs| - 1]
  }

  /** The rounded commissions of a list of fills. */
  function Commissions(commission: Dec, qtys: seq<Dec>, quantity: Dec, currency: string): Dec {
    if qtys == [] then 0
    else Commissions(commission, qtys[..|qtys| - 1], quantity, currency) +
         Prorated(commission, qtys[|qtys| - 1], quantity, currency)
  }

  lemma ShareError(commission: Dec, qty: Dec, quantity: Dec, currency: string)
    requires quantity > 0
    ensures var e := 2 * (quantity * Prorated(commission, qty, quantity, currency) - commission * qty);
            -(quantity * Unit(currency)) <= e <= quantity * Unit(currency)
  {
    if commission != 0 {
      RatioError(commission * qty, quantity, currency);
    } else {
      assert commission * qty == 0;
    }
  }

  /** A ratio rounded to the currency is off by at most half a minor unit. */
  lemma RatioError(n: int, d: nat, currency: string)
    requires d > 0
    ensures -(d * Unit(currency)) <= 2 * (d * RoundRatio(n, d, currency) - n) <= d * Unit(currency)
  {
    RoundDivNearest(n, d * Unit(currency));
    Swap(RoundDiv(n, d * Unit(currency)), d, Unit(currency));
  }

  lemma Swap(r: int, d: int, u: int)
    ensures r * (d * u) == d * (r * u)
  {
    calc {
      r * (d * u);
      { assert r * (d * u) == r * d * u; }
      r * d * u;
      { assert r * d == d * r; }
      d * r * u;
      { assert d * r * u == d * (r * u); }
      d * (r * u);
    }
  }

  lemma DriftStep(quantity: Dec, w: Dec, n: nat, c: Dec, before: Dec, traded: Dec, share: Dec, qty: Dec)
    requires -(n * w) <= 2 * (quantity * before - c * traded) <= n * w
    requires -w <= 2 * (quantity * share - c * qty) <= w
    ensures -((n + 1) * w) <= 2 * (quantity * (before + share) - c * (traded + qty)) <= (n + 1) * w
  {
    assert (n + 1) * w == n * w + w;
    assert quantity * (before + share) == quantity * before + quantity * share;
    assert c * (traded + qty) == c * traded + c * qty;
  }

  lemma {:induction false} DriftGrows(commission: Dec, qtys: seq<Dec>, quantity: Dec, currency: string)
    requires quantity > 0
    ensures var e := 2 * (quantity * Commissions(commission, qtys, quantity, currency) - commission * Add(qtys));
            -(|qtys| * (quantity * Unit(currency))) <= e <= |qtys| * (quantity * Unit(currency))
  {
    if qtys != [] {
      var n := |qtys| - 1;
      DriftGrows(commission, qtys[..n], quantity, currency);
      ShareError(commission, qtys[n], quantity, currency);
      DriftStep(quantity, quantity * Unit(currency), n, commission,
                Commissions(commission, qtys[..n], quantity, currency), Add(qtys[..n]),
                Prorated(commission, qtys[n], quantity, currency), qtys[n]);
    }
  }

  lemma CancelFactor(q: Dec, x: int, bound: int)
    requires q > 0 && q * x <= q * bound
    ensures x <= bound
  {
    if x > bound { MultiplesApart(x, bound, q); }
  }

  /** However a completed order is split into n fills, the rounded commissions add up to
      within n / 2 minor units of the commission quoted at placement. */
  lemma ProrationBound(commission: Dec, qtys: seq<Dec>, quantity: Dec, currency: string)
    requires quantity > 0 && Add(qtys) == quantity
    ensures var e := 2 * (Commissions(commission, qtys, quantity, currency) - commission);
            -(|qtys| * Unit(currency)) <= e <= |qtys| * Unit(currency)
  {
    DriftGrows(commission, qtys, quantity, currency);
    var total := Commissions(commission, qtys, quantity, currency);
    BoundPerUnit(commission, |qtys|, quantity, Unit(currency), total);
  }

  lemma BoundPerUnit(commission: Dec, n: nat, quantity: Dec, u: nat, total: Dec)
    requires quantity > 0
    requires -(n * (quantity * u)) <= 2 * (quantity * total - commission * quantity) <= n * (quantity * u)
    ensures -(n * u) <= 2 * (total - commission) <= n * u
  {
    assert 2 * (quantity * total - commission * quantity) == quantity * (2 * (total - commission));
    CancelBounds(quantity, n, u, 2 * (total - commission));
  }

  lemma CancelBounds(q: Dec, n: nat, u: nat, e: int)
    requires q > 0 && -(n * (q * u)) <= q * e <= n * (q * u)
    ensures -(n * u) <= e <= n * u
  {
    Reassociate(q, n, u);
    CancelFactor(q, e, n * u);
    CancelFactor(q, -(n * u), e);
  }

  lemma Reassociate(q: int, n: int, u: int)
    ensures n * (q * u) == q * (n * u) && -(n * (q * u)) == q * -(n * u)
  {
    assert n * (q * u) == n * q * u == q * n * u == q * (n * u);
  }

  /** A single fill of the whole order takes exactly the quoted commission. */
  lemma WholeFillTakesAll(commission: Dec, quantity: Dec, currency: string)
    requires quantity > 0 && commission % Unit(currency) == 0
    ensures Prorated(commission, quantity, quantity, currency) == commission
  {
    var u := Unit(currency);
    var k := commission / u;
    assert commission == k * u;
    assert commission * quantity == k * (quantity * u);
    RoundDivExact(k, quantity * u);
  }
}
