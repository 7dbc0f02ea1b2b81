/** The cooperative test connector (`src/modules/brokerage/connectors/simulated.connector.ts`)
    and the two places where a commission is rounded. */
module SimulatedConnector {
  import opened Decimals
  import opened LedgerModel
  import opened OrderState
  import opened BrokerageModel
  import opened BrokerageBooks
  import opened BrokerageInvariant
  import opened BrokerageSteps
  import opened BrokerageFills
  import opened BrokerageTheorems
  import opened BrokerageAcceptance
  import Fees

  /** Half the order, in whole shares, for a first fill of at least a hundred; else the rest. */
  function SimulatedQuantity(quantity: Dec, filled: Dec, partialFills: bool): Dec {
    if partialFills && quantity >= 100 * ONE && filled == 0 then quantity / (2 * ONE) * ONE else quantity - filled
  }

  /** `pollExecutions` on one order: a fill at the estimated price, its fees prorated. */
  function SimulatedTrade(order: nat, d: Draft, filled: Dec, partialFills: bool, ref: ExecRef, now: int, day: int): Trade {
    var qty := SimulatedQuantity(d.quantity, filled, partialFills);
    var gross := RoundRatio(qty * d.price, ONE, d.currency);
    var courtage := Fees.Prorated(Fees.Pick(d.fees, Fees.COURTAGE_SDB), qty, d.quantity, d.currency);
    var taxes := Fees.Prorated(Fees.Pick(d.fees, Fees.TAXE), qty, d.quantity, d.currency);
    var net := if d.side == BUY then gross + courtage + taxes else gross - courtage - taxes;
    Trade(order, ref, qty, d.price, gross, courtage, taxes, net, now, Just(day))
  }

  /** Fee lines as `computeOrderFees` writes them: each a positive multiple of the minor unit. */
  predicate RoundedFees(d: Draft) {
    forall j :: 0 <= j < |d.fees| ==> d.fees[j].amount >= 0 && d.fees[j].amount % Unit(d.currency) == 0
  }

  lemma MultiplesAdd(a: Dec, b: Dec, u: nat)
    requires u > 0 && a % u == 0 && b % u == 0
    ensures (a + b) % u == 0
  {
    assert a == a / u * u && b == b / u * u;
    assert a + b == (a / u + b / u) * u;
    ProductIsMultiple(a / u + b / u, u);
  }

  lemma ProductIsMultiple(k: int, u: nat)
    requires u > 0
    ensures (k * u) % u == 0
  {
    var q, r := k * u / u, k * u % u;
    assert k * u == q * u + r;
    if k > q { MultiplesApart(k, q, u); }
    if q > k { MultiplesApart(q, k, u); }
  }

  lemma {:induction false} PickRounded(fees: seq<Fees.FeeLine>, code: Fees.FeeCode, u: nat)
    requires u > 0 && forall j :: 0 <= j < |fees| ==> fees[j].amount >= 0 && fees[j].amount % u == 0
    ensures Fees.Pick(fees, code) >= 0 && Fees.Pick(fees, code) % u == 0
  {
    if fees != [] {
      PickRounded(fees[1..], code, u);
      MultiplesAdd(fees[0].amount, Fees.Pick(fees[1..], code), u);
    }
  }

  /** One simulated fill of the whole order takes exactly what placement reserved, in any
      currency. */
  lemma WholeFillConsumesAll(order: nat, d: Draft, ref: ExecRef, now: int, day: int)
    requires d.side == BUY && d.quantity > 0 && RoundedFees(d)
    ensures var t := SimulatedTrade(order, d, 0, false, ref, now, day);
            t.quantity == d.quantity && BuyDebit(DraftTerms(d), t, d.currency) == MaxAmount(d)
  {
    var u := Unit(d.currency);
    PickRounded(d.fees, Fees.COURTAGE_SDB, u);
    PickRounded(d.fees, Fees.TAXE, u);
    PickRounded(d.fees, Fees.COMMISSION_ALKE, u);
    Fees.WholeFillTakesAll(Fees.Pick(d.fees, Fees.COURTAGE_SDB), d.quantity, d.currency);
    Fees.WholeFillTakesAll(Fees.Pick(d.fees, Fees.TAXE), d.quantity, d.currency);
    Fees.WholeFillTakesAll(Fees.Pick(d.fees, Fees.COMMISSION_ALKE), d.quantity, d.currency);
    Fees.TotalByCode(d.fees);
  }

  /** An order with no filled quantity has no executions, so it has consumed nothing. */
  lemma UnfilledConsumedNothing(db: Db, i: nat)
    requires Releasable(db, i) && db.orders[i].filled == 0
    ensures ConsumedReserve(db.orders[i].terms, db.execs, i) == 0
  {
    RemainderIsHeld(db, i);
    forall k | 0 <= k < |db.execs| ensures db.execs[k].trade.quantity > 0 && db.execs[k].trade.order < |db.orders| {
      assert ExecOk(db.log, db.orders, k, db.execs[k]);
    }
    NothingTradedNothingConsumed(db.orders, db.execs, i);
  }

  lemma {:induction false} NothingTradedNothingConsumed(orders: seq<Order>, execs: seq<Exec>, i: nat)
    requires i < |orders| && RefsOk(orders, execs) && forall k :: 0 <= k < |execs| ==> execs[k].trade.quantity > 0
    ensures ExecSum(orders, execs, Traded(i)) >= 0
    ensures ExecSum(orders, execs, Traded(i)) == 0 ==> ConsumedReserve(orders[i].terms, execs, i) == 0
  {
    if execs != [] {
      var n := |execs| - 1;
      NothingTradedNothingConsumed(orders, execs[..n], i);
      assert execs[..n] + [execs[n]] == execs;
      ExecSumAppend(orders, execs[..n], execs[n], Traded(i));
    }
  }

  lemma ConsumedAppend(terms: Terms, execs: seq<Exec>, e: Exec, i: nat)
    requires Consumes(e, i)
    ensures ConsumedReserve(terms, execs + [e], i) == ConsumedReserve(terms, execs, i) + BuyDebit(terms, e.trade, "XAF")
  {
    assert (execs + [e])[..|execs|] == execs;
  }

  /** A line that takes the whole order for its whole reserve. */
  ghost predicate TakesAll(db: Db, t: Trade) {
    && t.order < |db.orders| && OpenAtSdb(db.orders[t.order].status) && db.orders[t.order].filled == 0
    && FindExec(db.execs, t.ref) == Nothing
    && var terms := db.orders[t.order].terms;
       terms.side == BUY && t.quantity == terms.quantity && BuyDebit(terms, t, terms.currency) == terms.maxAmount
  }

  /** What `consumedReserve`, counting in XAF, believes is left after such a line. */
  function Believed(terms: Terms, t: Trade): Dec {
    terms.maxAmount - BuyDebit(terms, t, "XAF")
  }

  lemma TakesAllFill(db: Db, t: Trade)
    requires Inv(db) && TakesAll(db, t) && ApplyExecution(db, t).Ok?
    ensures Fillable(db, t) && db.orders[t.order].terms.partnerId.Just? && RecordExecution(db, t) == Ok(Recorded(db, t))
    ensures FillOf(db.orders[t.order], t).Just? && FillOf(db.orders[t.order], t).value.status == EXECUTED
    ensures ApplyExecution(db, t) == ReleaseRemaining(AfterFill(db, t), t.order)
    ensures Releasable(AfterFill(db, t), t.order)
  {
    ApplyNeeds(db, t);
    RecordResult(db, t);
    ApplyResult(db, t);
    FilledIsReleasable(db, t);
  }

  lemma TakesAllRows(db: Db, t: Trade)
    requires t.order < |db.orders| && db.orders[t.order].terms.partnerId.Just? && db.orders[t.order].filled >= 0
    requires FillOf(db.orders[t.order], t).Just? && ConsumedReserve(db.orders[t.order].terms, db.execs, t.order) == 0
    ensures var after := AfterFill(db, t);
            && |after.orders| == |db.orders| && after.orders[t.order].status == FillOf(db.orders[t.order], t).value.status
            && after.orders[t.order].terms == db.orders[t.order].terms
            && after.log == db.log + [Record(FillInput(|db.execs|, db.orders[t.order].terms, t), Nothing)]
            && Remainder(after, t.order) == Believed(after.orders[t.order].terms, t)
  {
    var fill := FillOf(db.orders[t.order], t).value;
    FillRows(db, t, fill, fill.status);
    ConsumedAppend(db.orders[t.order].terms, db.execs, Exec(t, Unsettled, Just(|db.log|), Nothing), t.order);
  }

  /** When it is accepted it completes the order; the ledger gains the FILL, and a RELEASE of
      what is believed to be left. */
  lemma TakesAllLeaves(db: Db, t: Trade, after: Db)
    requires Inv(db) && TakesAll(db, t) && ApplyExecution(db, t) == Ok(after)
    ensures t.order < |after.orders| && after.orders[t.order].status == EXECUTED
    ensures db.orders[t.order].terms.partnerId.Just?
    ensures var terms := db.orders[t.order].terms;
            after.log == db.log + [Record(FillInput(|db.execs|, terms, t), Nothing)] +
              if Believed(terms, t) > 0 then [Record(ReleaseInput(t.order, terms, Believed(terms, t)), Nothing)] else []
  {
    TakesAllFill(db, t);
    OpenIsFillable(db, t);
    UnfilledConsumedNothing(db, t.order);
    TakesAllRows(db, t);
    ReleaseBuy(AfterFill(db, t), t.order);
    ReleasedLog(AfterFill(db, t), t.order);
  }

  lemma ReleasedLog(db: Db, i: nat)
    requires i < |db.orders|
    ensures var after := AfterReleaseBuy(db, i);
            && |after.orders| == |db.orders| && after.orders[i].status == db.orders[i].status
            && after.log == db.log + if Remainder(db, i) > 0 then [Record(ReleaseOf(db, i), Nothing)] else []
  {
  }

  lemma WholeFillTakesAll(db: Db, order: nat, d: Draft, ref: ExecRef, now: int, day: int)
    requires d.side == BUY && d.quantity > 0 && RoundedFees(d)
    requires order < |db.orders| && db.orders[order].terms == DraftTerms(d)
    requires OpenAtSdb(db.orders[order].status) && db.orders[order].filled == 0
    requires FindExec(db.execs, ref) == Nothing
    ensures var t := SimulatedTrade(order, d, 0, false, ref, now, day);
            && TakesAll(db, t)
            && Believed(DraftTerms(d), t) ==
                 Fees.Pick(d.fees, Fees.COMMISSION_ALKE) - Fees.Prorated(Fees.Pick(d.fees, Fees.COMMISSION_ALKE), d.quantity, d.quantity, "XAF")
  {
    WholeFillConsumesAll(order, d, ref, now, day);
    PickRounded(d.fees, Fees.COMMISSION_ALKE, Unit(d.currency));
    Fees.WholeFillTakesAll(Fees.Pick(d.fees, Fees.COMMISSION_ALKE), d.quantity, d.currency);
  }

  lemma NoReleaseYet(db: Db, order: nat, txn: Txn)
    requires Inv(db) && order < |db.orders| && OpenAtSdb(db.orders[order].status) && txn.key != Key.Release(order)
    ensures Find(db.log + [txn], Key.Release(order)) == Nothing
  {
    assert StatusOk(db.orders[order]);
    FreshKey(db, Key.Release(order));
    FindAppend(db.log, txn, Key.Release(order));
  }

  /** One full fill by the simulated connector completes the order. It leaves nothing to
      release if and only if the commission is no more than its rounding to whole units; in
      a currency without decimals it never is more. */
  lemma WholeFillLeavesNothing(db: Db, order: nat, d: Draft, ref: ExecRef, now: int, day: int, after: Db)
    requires Inv(db) && d.side == BUY && d.quantity > 0 && RoundedFees(d)
    requires order < |db.orders| && db.orders[order].terms == DraftTerms(d)
    requires OpenAtSdb(db.orders[order].status) && db.orders[order].filled == 0
    requires FindExec(db.execs, ref) == Nothing
    requires ApplyExecution(db, SimulatedTrade(order, d, 0, false, ref, now, day)) == Ok(after)
    ensures order < |after.orders| && after.orders[order].status == EXECUTED
    ensures |after.log| > |db.log| && after.log[..|db.log|] == db.log && after.log[|db.log|].typ == FILL
    ensures var commission := Fees.Pick(d.fees, Fees.COMMISSION_ALKE);
            var left := commission - Fees.Prorated(commission, d.quantity, d.quantity, "XAF");
            && (left <= 0 <==> |after.log| == |db.log| + 1)
            && (left <= 0 ==> Find(after.log, Key.Release(order)) == Nothing)
            && (left > 0 ==> |after.log| == |db.log| + 2 && after.log[|db.log| + 1].key == Key.Release(order))
            && (d.currency in ZERO_DECIMAL ==> left == 0)
  {
    var t := SimulatedTrade(order, d, 0, false, ref, now, day);
    WholeFillTakesAll(db, order, d, ref, now, day);
    TakesAllLeaves(db, t, after);
    var fill := Record(FillInput(|db.execs|, DraftTerms(d), t), Nothing);
    NoReleaseYet(db, order, fill);
    LastPosts(db.log, fill, Record(ReleaseInput(order, DraftTerms(d), Believed(DraftTerms(d), t)), Nothing),
              Believed(DraftTerms(d), t) > 0, after.log);
    if d.currency in ZERO_DECIMAL { WholeCommission(d); }
  }

  lemma LastPosts(log: Log, fill: Txn, release: Txn, released: bool, after: Log)
    requires after == log + [fill] + if released then [release] else []
    ensures |after| == |log| + (if released then 2 else 1) && after[..|log|] == log && after[|log|] == fill
    ensures released ==> after[|log| + 1] == release
    ensures !released ==> after == log + [fill]
  {
  }

  lemma WholeCommission(d: Draft)
    requires d.currency in ZERO_DECIMAL && d.quantity > 0 && RoundedFees(d)
    ensures var commission := Fees.Pick(d.fees, Fees.COMMISSION_ALKE);
            Fees.Prorated(commission, d.quantity, d.quantity, "XAF") == commission
  {
    ZeroDecimalCurrency(d.currency);
    ZeroDecimalCurrency("XAF");
    PickRounded(d.fees, Fees.COMMISSION_ALKE, Unit(d.currency));
    Fees.WholeFillTakesAll(Fees.Pick(d.fees, Fees.COMMISSION_ALKE), d.quantity, "XAF");
  }

  // ------------------------------------------------------------ two half fills

  /** A partial fill is made of whole shares, at most half the order, and the fill after it
      is the rest. */
  lemma AtMostTwoFills(quantity: Dec, filled: Dec, partialFills: bool)
    requires 0 <= filled < quantity
    ensures var q := SimulatedQuantity(quantity, filled, partialFills);
            && 0 < q <= quantity - filled
            && (q < quantity - filled ==>
                  q % ONE == 0 && 2 * q <= quantity &&
                  SimulatedQuantity(quantity, filled + q, partialFills) == quantity - filled - q)
  {
    var k := quantity / (2 * ONE);
    assert quantity == k * (2 * ONE) + quantity % (2 * ONE);
    ProductIsMultiple(k, ONE);
  }

  /** An order the connector splits into equal halves, at a price in whole minor units. */
  predicate Halvable(d: Draft) {
    && d.side == BUY && !d.simulated && RoundedFees(d)
    && d.quantity >= 100 * ONE && d.quantity % (2 * ONE) == 0 && d.price % Unit(d.currency) == 0
  }

  /** One minor unit when the fee is an odd number of them. */
  function Odd(fee: Dec, u: nat): Dec
    requires u > 0
  {
    if fee / u % 2 == 1 then u else 0
  }

  /** What two halves take beyond the reserve: a minor unit for every odd fee. */
  function Excess(d: Draft): Dec {
    var u := Unit(d.currency);
    Odd(Fees.Pick(d.fees, Fees.COURTAGE_SDB), u) + Odd(Fees.Pick(d.fees, Fees.TAXE), u)
    + Odd(Fees.Pick(d.fees, Fees.COMMISSION_ALKE), u)
  }

  /** Half a fee, rounded, taken twice. */
  lemma TwiceHalf(fee: Dec, h: nat, c: string)
    requires h > 0 && fee >= 0 && fee % Unit(c) == 0
    ensures 2 * Fees.Prorated(fee, h, 2 * h, c) == fee + Odd(fee, Unit(c))
  {
    var u := Unit(c);
    var k := fee / u;
    assert fee == k * u;
    if fee != 0 {
      assert fee * h == k * (u * h) && 2 * h * u == (u * h) * 2;
      Fees.ScaledRoundDiv(k, 2, u * h);
      assert RoundDiv(k, 2) == (k + 1) / 2;
      TwiceCeiling(k, u);
    }
  }

  lemma TwiceCeiling(k: nat, u: nat)
    requires u > 0
    ensures 2 * ((k + 1) / 2 * u) == k * u + (if k % 2 == 1 then u else 0)
  {
    var m := (k + 1) / 2;
    if k % 2 == 1 { assert 2 * m == k + 1; assert 2 * (m * u) == (k + 1) * u == k * u + u; }
    else { assert 2 * m == k; assert 2 * (m * u) == k * u; }
  }

  lemma Shuffle(m: int, p: int, u: int, k: int)
    ensures m * k * (p * u) == m * p * (k * u)
  {
    calc {
      m * k * (p * u);
      m * (k * (p * u));
      { assert k * (p * u) == p * (k * u); }
      m * (p * (k * u));
      m * p * (k * u);
    }
  }

  /** Whole shares at a price in whole minor units cost exactly their product. */
  lemma ExactCost(m: int, price: Dec, c: string)
    requires price % Unit(c) == 0
    ensures RoundRatio(m * ONE * price, ONE, c) == m * price
  {
    ExactRatio(m, price / Unit(c), Unit(c), ONE);
  }

  lemma ExactRatio(m: int, p: int, u: nat, k: nat)
    requires k > 0 && k * u > 0
    ensures RoundDiv(m * k * (p * u), k * u) * u == m * (p * u)
  {
    Shuffle(m, p, u, k);
    RoundDivExact(m * p, k * u);
    assert m * p * u == m * (p * u);
  }

  lemma HalvesCost(d: Draft, m: int)
    requires d.quantity == 2 * (m * ONE) && d.price % Unit(d.currency) == 0
    ensures 2 * RoundRatio(m * ONE * d.price, ONE, d.currency) == EstimatedTotal(d)
  {
    var n := 2 * m;
    ExactCost(m, d.price, d.currency);
    ExactCost(n, d.price, d.currency);
    assert n * ONE == d.quantity;
    DoubledProduct(m, d.price);
  }

  lemma DoubledProduct(m: int, p: int)
    ensures 2 * (m * p) == 2 * m * p
  {
  }

  /** The two halves of an order take its reserve plus a minor unit for every odd fee. */
  lemma TwoHalvesTake(order: nat, d: Draft, ref: ExecRef, now: int, day: int, ref': ExecRef, now': int, day': int)
    requires Halvable(d)
    ensures var t := SimulatedTrade(order, d, 0, true, ref, now, day);
            var t' := SimulatedTrade(order, d, t.quantity, true, ref', now', day');
            && 0 < t.quantity == t'.quantity && t.quantity + t'.quantity == d.quantity
            && BuyDebit(DraftTerms(d), t, d.currency) == BuyDebit(DraftTerms(d), t', d.currency)
            && 2 * BuyDebit(DraftTerms(d), t, d.currency) == MaxAmount(d) + Excess(d)
  {
    var m := d.quantity / (2 * ONE);
    assert d.quantity == 2 * (m * ONE);
    var u := Unit(d.currency);
    PickRounded(d.fees, Fees.COURTAGE_SDB, u);
    PickRounded(d.fees, Fees.TAXE, u);
    PickRounded(d.fees, Fees.COMMISSION_ALKE, u);
    TwiceHalf(Fees.Pick(d.fees, Fees.COURTAGE_SDB), m * ONE, d.currency);
    TwiceHalf(Fees.Pick(d.fees, Fees.TAXE), m * ONE, d.currency);
    TwiceHalf(Fees.Pick(d.fees, Fees.COMMISSION_ALKE), m * ONE, d.currency);
    HalvesCost(d, m);
    Fees.TotalByCode(d.fees);
  }

  lemma RatioRounded(n: int, q: Dec, c: string)
    requires q > 0
    ensures IsRounded(RoundRatio(n, q, c), c)
  {
    Fees.MultipleOf(RoundDiv(n, q * Unit(c)), Unit(c));
    RoundedIsMultiple(RoundRatio(n, q, c), c);
  }

  lemma SimulatedRounded(order: nat, d: Draft, filled: Dec, partialFills: bool, ref: ExecRef, now: int, day: int)
    requires CurrencyCode(d.currency) && d.side == BUY && !d.simulated
    ensures RoundedAmounts(DraftTerms(d), SimulatedTrade(order, d, filled, partialFills, ref, now, day))
  {
    var t := SimulatedTrade(order, d, filled, partialFills, ref, now, day);
    RatioRounded(t.quantity * d.price, ONE, d.currency);
    ShareRounded(Fees.Pick(d.fees, Fees.COURTAGE_SDB), t.quantity, d.quantity, d.currency);
    ShareRounded(Fees.Pick(d.fees, Fees.TAXE), t.quantity, d.quantity, d.currency);
    SumRounded(t.gross, t.courtage, d.currency);
    SumRounded(t.gross + t.courtage, t.taxes, d.currency);
  }

  /** The order after a first partial fill. */
  predicate PartDone(db: Db, t: Trade, mid: Db) {
    && t.order < |db.orders| == |mid.orders|
    && var o := mid.orders[t.order];
       && o.terms == db.orders[t.order].terms && OpenAtSdb(o.status) && o.filled == t.quantity
       && ConsumedReserve(o.terms, mid.execs, t.order) == BuyDebit(o.terms, t, "XAF")
       && mid.execs == db.execs + [Exec(t, Unsettled, Just(|db.log|), Nothing)]
  }

  lemma FirstPartRows(db: Db, t: Trade, mid: Db)
    requires t.order < |db.orders| && OpenAtSdb(db.orders[t.order].status) && db.orders[t.order].filled == 0
    requires t.quantity < db.orders[t.order].terms.quantity && FillOf(db.orders[t.order], t).Just?
    requires ConsumedReserve(db.orders[t.order].terms, db.execs, t.order) == 0
    requires mid.execs == db.execs + [Exec(t, Unsettled, Just(|db.log|), Nothing)]
    requires var fill := FillOf(db.orders[t.order], t).value;
      mid.orders == db.orders[t.order := Updated(db.orders[t.order], fill, fill.status).(released := fill.status == EXECUTED)]
    ensures PartDone(db, t, mid)
  {
    ConsumedAppend(db.orders[t.order].terms, db.execs, Exec(t, Unsettled, Just(|db.log|), Nothing), t.order);
  }

  lemma AfterFirstPart(db: Db, t: Trade, mid: Db)
    requires Inv(db) && t.order < |db.orders| && OpenAtSdb(db.orders[t.order].status) && db.orders[t.order].filled == 0
    requires t.quantity < db.orders[t.order].terms.quantity
    requires FindExec(db.execs, t.ref) == Nothing && ApplyExecution(db, t) == Ok(mid)
    ensures Inv(mid) && PartDone(db, t, mid)
  {
    ExecuteKeeps(db, t);
    ApplyRows(db, t);
    OpenIsFillable(db, t);
    UnfilledConsumedNothing(db, t.order);
    FirstPartRows(db, t, mid);
  }

  /** What the fill of the rest meets. */
  lemma SecondPartMeets(mid: Db, t: Trade, t': Trade)
    requires Inv(mid) && t.order < |mid.orders| && t'.order == t.order && t'.quantity > 0
    requires FindExec(mid.execs, t'.ref) == Nothing && RoundedAmounts(mid.orders[t.order].terms, t')
    requires var o := mid.orders[t.order];
      && OpenAtSdb(o.status) && o.filled == t.quantity && t.quantity + t'.quantity == o.terms.quantity
      && o.terms.side == BUY && o.terms.currency in ZERO_DECIMAL
      && ConsumedReserve(o.terms, mid.execs, t.order) == BuyDebit(o.terms, t, o.terms.currency)
    ensures var o := mid.orders[t.order];
      ApplyExecution(mid, t').Ok? <==>
        BuyDebit(o.terms, t, o.terms.currency) + BuyDebit(o.terms, t', o.terms.currency) <= o.terms.maxAmount
  {
    ExecutionAcceptedIff(mid, t');
  }

  lemma RefAppend(execs: seq<Exec>, e: Exec, ref: ExecRef)
    requires FindExec(execs, ref) == Nothing && e.trade.ref != ref
    ensures FindExec(execs + [e], ref) == Nothing
  {
    assert (execs + [e])[..|execs|] == execs;
  }

  lemma XafAlike(terms: Terms, t: Trade)
    requires terms.currency in ZERO_DECIMAL
    ensures BuyDebit(terms, t, "XAF") == BuyDebit(terms, t, terms.currency)
  {
    ZeroDecimalCurrency(terms.currency);
    ZeroDecimalCurrency("XAF");
  }

  /** A purchase the connector splits: the fill of the rest is accepted if and only if the two
      fills, each with its own rounding, take no more than was reserved. When they take more
      the order is never completed. */
  lemma SecondFillAcceptedIff(db: Db, order: nat, d: Draft, ref: ExecRef, now: int, day: int,
                              ref': ExecRef, now': int, day': int, mid: Db)
    requires Inv(db) && d.side == BUY && !d.simulated && d.quantity >= 100 * ONE && d.currency in ZERO_DECIMAL
    requires order < |db.orders| && db.orders[order].terms == DraftTerms(d)
    requires OpenAtSdb(db.orders[order].status) && db.orders[order].filled == 0
    requires FindExec(db.execs, ref) == Nothing && FindExec(db.execs, ref') == Nothing && ref' != ref
    requires ApplyExecution(db, SimulatedTrade(order, d, 0, true, ref, now, day)) == Ok(mid)
    ensures var t := SimulatedTrade(order, d, 0, true, ref, now, day);
            var t' := SimulatedTrade(order, d, t.quantity, true, ref', now', day');
            ApplyExecution(mid, t').Ok? <==>
              BuyDebit(DraftTerms(d), t, d.currency) + BuyDebit(DraftTerms(d), t', d.currency) <= MaxAmount(d)
  {
    var t := SimulatedTrade(order, d, 0, true, ref, now, day);
    var t' := SimulatedTrade(order, d, t.quantity, true, ref', now', day');
    PartialFirst(d.quantity);
    AfterFirstPart(db, t, mid);
    ZeroDecimalCurrency(d.currency);
    SimulatedRounded(order, d, t.quantity, true, ref', now', day');
    XafAlike(DraftTerms(d), t);
    RefAppend(db.execs, Exec(t, Unsettled, Just(|db.log|), Nothing), ref');
    SecondPartMeets(mid, t, t');
  }

  lemma PartialFirst(quantity: Dec)
    requires quantity >= 100 * ONE
    ensures var q := SimulatedQuantity(quantity, 0, true);
            0 < q < quantity && SimulatedQuantity(quantity, q, true) == quantity - q
  {
  }

  /** Into equal halves at a price in whole minor units: accepted if and only if every fee is an
      even number of minor units. */
  lemma SecondHalfAcceptedIff(db: Db, order: nat, d: Draft, ref: ExecRef, now: int, day: int,
                              ref': ExecRef, now': int, day': int, mid: Db)
    requires Inv(db) && Halvable(d) && d.currency in ZERO_DECIMAL
    requires order < |db.orders| && db.orders[order].terms == DraftTerms(d)
    requires OpenAtSdb(db.orders[order].status) && db.orders[order].filled == 0
    requires FindExec(db.execs, ref) == Nothing && FindExec(db.execs, ref') == Nothing && ref' != ref
    requires ApplyExecution(db, SimulatedTrade(order, d, 0, true, ref, now, day)) == Ok(mid)
    ensures var half := SimulatedTrade(order, d, 0, true, ref, now, day).quantity;
            ApplyExecution(mid, SimulatedTrade(order, d, half, true, ref', now', day')).Ok? <==> Excess(d) == 0
  {
    TwoHalvesTake(order, d, ref, now, day, ref', now', day');
    SecondFillAcceptedIff(db, order, d, ref, now, day, ref', now', day', mid);
  }

  /** A hundred shares at 100 XAF with a commission of 1 XAF are such an order. */
  lemma OddCommissionExample(userId: string, instrumentId: string, partnerId: string)
    ensures var d := Draft(userId, instrumentId, Just(partnerId), BUY, "XAF", 100 * ONE, 100 * ONE,
                           [Fees.FeeLine(Fees.COMMISSION_ALKE, ONE)], false, 1);
            GoodDraft(d) && Halvable(d) && Excess(d) == ONE
  {
    ZeroDecimalCurrency("XAF");
    var line := Fees.FeeLine(Fees.COMMISSION_ALKE, ONE);
    PickOnly(line, Fees.COMMISSION_ALKE);
    PickOnly(line, Fees.COURTAGE_SDB);
    PickOnly(line, Fees.TAXE);
  }

  lemma PickOnly(line: Fees.FeeLine, code: Fees.FeeCode)
    ensures Fees.Pick([line], code) == if line.code == code then line.amount else 0
  {
    assert [line][1..] == [];
  }

  // ------------------------------------------------ the currency that is left out

  lemma CoarserRounding(n: int, q: nat, k: int)
    requires q > 0 && RoundDiv(n, q * 100) == 100 * k
    ensures RoundDiv(n, q * 10000) == k
  {
    RoundDivNearest(n, q * 100);
    assert 100 * k * (q * 100) == k * (q * 10000);
    RoundDivUnique(n, q * 10000, k);
  }

  /** `consumedReserve` leaves the currency out, so it rounds commissions as XAF. In a currency
      with decimals it agrees with what the FILL took if and only if the commission's share
      happened to round to a whole unit. */
  lemma LeftOutCurrencyIff(terms: Terms, t: Trade)
    requires terms.quantity > 0 && DecimalsFor(terms.currency) == 2
    ensures BuyDebit(terms, t, "XAF") == BuyDebit(terms, t, terms.currency) <==>
            Fees.Prorated(terms.commission, t.quantity, terms.quantity, terms.currency) % ONE == 0
  {
    ZeroDecimalCurrency("XAF");
    if terms.commission != 0 {
      var n := terms.commission * t.quantity;
      var r := RoundDiv(n, terms.quantity * 100);
      ProductIsMultiple(RoundDiv(n, terms.quantity * ONE), ONE);
      if (r * 100) % ONE == 0 {
        assert r == 100 * (r / 100);
        CoarserRounding(n, terms.quantity, r / 100);
      }
    }
  }

  /** A purchase of 3 shares out of 10 with a commission of 1.00 USD: the FILL takes 0.30,
      `consumedReserve` counts nothing. */
  lemma LeftOutCurrencyExample()
    ensures Fees.Prorated(10000, 3 * ONE, 10 * ONE, "USD") == 3000
    ensures Fees.Prorated(10000, 3 * ONE, 10 * ONE, "XAF") == 0
  {
    ZeroDecimalCurrency("XAF");
    TwoDecimals("USD");
    RoundDivUnique(10000 * (3 * ONE), 10 * ONE * 100, 30);
    RoundDivUnique(10000 * (3 * ONE), 10 * ONE * ONE, 0);
  }

  /** What the fills of an order took beyond what `consumedReserve` counts: the difference of the
      two roundings of each commission share. */
  function CommissionDrift(terms: Terms, execs: seq<Exec>, order: nat): Dec {
    if execs == [] then 0
    else
      var last := execs[|execs| - 1];
      CommissionDrift(terms, execs[..|execs| - 1], order) +
      (if Consumes(last, order)
       then Fees.Prorated(terms.commission, last.trade.quantity, terms.quantity, terms.currency)
            - Fees.Prorated(terms.commission, last.trade.quantity, terms.quantity, "XAF")
       else 0)
  }

  lemma {:induction false} DriftIsMissing(orders: seq<Order>, execs: seq<Exec>, i: nat)
    requires i < |orders| && RefsOk(orders, execs) && Clean(execs, i)
    requires forall k :: 0 <= k < |execs| ==> execs[k].fillTxn.Just?
    ensures ExecSum(orders, execs, Spent(i)) ==
            ConsumedReserve(orders[i].terms, execs, i) + CommissionDrift(orders[i].terms, execs, i)
  {
    if execs != [] {
      var n := |execs| - 1;
      DriftIsMissing(orders, execs[..n], i);
      assert execs[..n] + [execs[n]] == execs;
      ExecSumAppend(orders, execs[..n], execs[n], Spent(i));
    }
  }

  /** A release asks for what the order still holds and the drift on top. */
  lemma RemainderIsLeftAndDrift(db: Db, i: nat)
    requires Releasable(db, i)
    ensures Remainder(db, i) == Left(db.orders, db.execs, i) + CommissionDrift(db.orders[i].terms, db.execs, i)
  {
    CoreRefs(db);
    AllFillsPosted(db);
    DriftIsMissing(db.orders, db.execs, i);
  }

  /** Counted in XAF, the debit of a stored purchase is still rounded in its currency. */
  lemma XafDebitRounded(log: Log, orders: seq<Order>, k: nat, e: Exec)
    requires WellFormed(log) && ExecOk(log, orders, k, e) && orders[e.trade.order].terms.side == BUY
    ensures var terms := orders[e.trade.order].terms; IsRounded(BuyDebit(terms, e.trade, "XAF"), terms.currency)
  {
    var terms, t := orders[e.trade.order].terms, e.trade;
    var c := terms.currency;
    var fill := log[e.fillTxn.value];
    assert Sound(fill);
    EntriesFine(fill.entries, fill.currency);
    assert fill.entries == FillEntries(terms, t) && IsRounded(fill.entries[0].amount, c);
    RoundedNegated(BuyDebit(terms, t, c), c);
    var share, coarse := Fees.Prorated(terms.commission, t.quantity, terms.quantity, c),
                         Fees.Prorated(terms.commission, t.quantity, terms.quantity, "XAF");
    ShareRounded(terms.commission, t.quantity, terms.quantity, c);
    ShareRounded(terms.commission, t.quantity, terms.quantity, "XAF");
    CoarseIsRounded(coarse, c);
    RoundedNegated(share, c);
    SumRounded(BuyDebit(terms, t, c), -share, c);
    SumRounded(BuyDebit(terms, t, c) - share, coarse, c);
  }

  lemma CoarseIsRounded(amount: Dec, c: string)
    requires IsRounded(amount, "XAF")
    ensures IsRounded(amount, c)
  {
    ZeroDecimalCurrency("XAF");
    RoundedIsMultiple(amount, "XAF");
    RoundedIsMultiple(amount, c);
  }

  predicate XafRounded(terms: Terms, e: Exec, i: nat) {
    Consumes(e, i) ==> IsRounded(BuyDebit(terms, e.trade, "XAF"), terms.currency)
  }

  lemma {:induction false} ConsumedRounded(terms: Terms, execs: seq<Exec>, i: nat)
    requires forall k :: 0 <= k < |execs| ==> XafRounded(terms, execs[k], i)
    ensures IsRounded(ConsumedReserve(terms, execs, i), terms.currency)
  {
    if execs == [] {
      RoundedIsMultiple(0, terms.currency);
    } else {
      var n := |execs| - 1;
      ConsumedRounded(terms, execs[..n], i);
      assert XafRounded(terms, execs[n], i);
      if Consumes(execs[n], i) {
        SumRounded(ConsumedReserve(terms, execs[..n], i), BuyDebit(terms, execs[n].trade, "XAF"), terms.currency);
      }
    }
  }

  lemma AllXafRounded(db: Db, i: nat)
    requires WellFormed(db.log) && ExecsOk(db) && i < |db.orders| && db.orders[i].terms.side == BUY
    ensures forall k :: 0 <= k < |db.execs| ==> XafRounded(db.orders[i].terms, db.execs[k], i)
  {
    forall k | 0 <= k < |db.execs| ensures XafRounded(db.orders[i].terms, db.execs[k], i) {
      assert ExecOk(db.log, db.orders, k, db.execs[k]);
      if db.execs[k].trade.order == i { XafDebitRounded(db.log, db.orders, k, db.execs[k]); }
    }
  }

  lemma RemainderRounded(db: Db, i: nat)
    requires Core(db) && i < |db.orders| && !db.orders[i].terms.simulated && db.orders[i].terms.side == BUY
    ensures CurrencyCode(db.orders[i].terms.currency) && IsRounded(Remainder(db, i), db.orders[i].terms.currency)
  {
    var terms := db.orders[i].terms;
    assert OrderFits(db.orders, db.execs, i);
    AllXafRounded(db, i);
    ConsumedRounded(terms, db.execs, i);
    DifferenceRounded(terms.maxAmount, ConsumedReserve(terms, db.execs, i), terms.currency);
  }

  lemma DifferenceRounded(a: Dec, b: Dec, c: string)
    requires IsRounded(a, c) && IsRounded(b, c)
    ensures IsRounded(a - b, c)
  {
    RoundedNegated(b, c);
    SumRounded(a, -b, c);
  }

  /** In any currency, the release of a purchase is accepted exactly when it asks for nothing or
      RESERVED covers it; it asks for the drift more than the order still holds, so it is
      refused, or takes that much of other orders' reserves. */
  lemma ReleaseAcceptedIff(db: Db, i: nat)
    requires Releasable(db, i) && db.orders[i].terms.side == BUY
    ensures var terms := db.orders[i].terms;
            var asked := Left(db.orders, db.execs, i) + CommissionDrift(terms, db.execs, i);
            ReleaseRemaining(db, i).Ok? <==>
              asked <= 0 || Balance(db.log, UserAccount(terms.userId, terms.currency, RESERVED)) >= asked
  {
    var terms := db.orders[i].terms;
    assert OrderFits(db.orders, db.execs, i);
    RemainderIsLeftAndDrift(db, i);
    ReleaseBuyCases(db, i);
    if Remainder(db, i) > 0 {
      RemainderRounded(db, i);
      ReleaseOutcome(db, i);
      ReleaseFundedIff(db, i);
    }
  }

  lemma ReleaseFundedIff(db: Db, i: nat)
    requires i < |db.orders| && WellFormed(db.log) && Find(db.log, Key.Release(i)) == Nothing && Remainder(db, i) >= 0
    requires CurrencyCode(db.orders[i].terms.currency) && IsRounded(Remainder(db, i), db.orders[i].terms.currency)
    ensures var terms := db.orders[i].terms;
            PostTxn(Flagged(db, i), ReleaseOf(db, i)).Ok? <==>
              Balance(db.log, UserAccount(terms.userId, terms.currency, RESERVED)) >= Remainder(db, i)
  {
    var terms := db.orders[i].terms;
    var from, to := UserAccount(terms.userId, terms.currency, RESERVED), UserAccount(terms.userId, terms.currency, AVAILABLE);
    MoveNormalises(RELEASE, Key.Release(i), terms.currency, from, to, Remainder(db, i));
    MoveFundedIff(db.log, RELEASE, Key.Release(i), terms.currency, from, to, Remainder(db, i));
    PostFacts(Flagged(db, i), ReleaseOf(db, i));
  }

  lemma TwoDecimals(c: string)
    requires IsUpper(c) && c !in ZERO_DECIMAL
    ensures Unit(c) == 100
  {
  }
}
