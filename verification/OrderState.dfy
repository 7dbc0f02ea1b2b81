/** The order state machine and the fill arithmetic (`src/modules/brokerage/order-state.ts`). */
module OrderState {
  import opened Decimals

  datatype OrderStatus =
    | PENDING | TRANSMITTED | ACKNOWLEDGED | PARTIALLY_EXECUTED
    | EXECUTED | REJECTED | CANCELLED | EXPIRED | ADJUSTED

  predicate IsFinal(s: OrderStatus) {
    s in {EXECUTED, REJECTED, CANCELLED, EXPIRED, ADJUSTED}
  }

  /** Statuses in which the SDB still holds the order and may execute it. */
  predicate OpenAtSdb(s: OrderStatus) {
    s in {TRANSMITTED, ACKNOWLEDGED, PARTIALLY_EXECUTED}
  }

  function Transitions(from: OrderStatus): set<OrderStatus> {
    match from
    case PENDING => {TRANSMITTED, CANCELLED, REJECTED, ADJUSTED}
    case TRANSMITTED => {ACKNOWLEDGED, REJECTED, PARTIALLY_EXECUTED, EXECUTED, EXPIRED, ADJUSTED}
    case ACKNOWLEDGED => {PARTIALLY_EXECUTED, EXECUTED, EXPIRED, REJECTED, ADJUSTED}
    case PARTIALLY_EXECUTED => {PARTIALLY_EXECUTED, EXECUTED, EXPIRED, ADJUSTED}
    case _ => {}
  }

  predicate CanTransition(from: OrderStatus, to: OrderStatus) {
    to in Transitions(from)
  }

  /** Distance of a status from the end of the order's life. */
  function Rank(s: OrderStatus): nat {
    match s
    case PENDING => 4
    case TRANSMITTED => 3
    case ACKNOWLEDGED => 2
    case PARTIALLY_EXECUTED => 1
    case _ => 0
  }

  /** Every allowed transition lowers the rank, except one more partial fill; and the
      statuses without any way out are exactly the final ones. */
  lemma TransitionsDescend(from: OrderStatus, to: OrderStatus)
    ensures CanTransition(from, to) ==>
      Rank(to) < Rank(from) || (from == PARTIALLY_EXECUTED && to == PARTIALLY_EXECUTED)
    ensures IsFinal(from) <==> forall s :: !CanTransition(from, s)
  {
    if !IsFinal(from) { assert CanTransition(from, ADJUSTED); }
  }

  // ------------------------------------------------------------------ fills

  datatype FillState = FillState(quantity: Dec, filled: Dec, avg: Maybe<Dec>)

  datatype FillResult = FillResult(filled: Dec, avg: Dec, status: OrderStatus, remaining: Dec)

  /** One execution applied to the fill counters; Nothing for a non-positive quantity or
      an over-fill. */
  function ApplyFill(state: FillState, qty: Dec, price: Dec): Maybe<FillResult>
    requires state.filled >= 0
  {
    var filled := state.filled + qty;
    if qty <= 0 || filled > state.quantity then Nothing
    else
      var prevCost := state.filled * (if state.avg.Just? then state.avg.value else 0);
      var avg := RoundDiv(prevCost + qty * price, filled);
      var remaining := state.quantity - filled;
      Just(FillResult(filled, avg, if remaining == 0 then EXECUTED else PARTIALLY_EXECUTED, remaining))
  }

  /** Average cost of a position after adding `qty` at `price`. */
  function WeightedAvgCost(held: Dec, avgCost: Dec, qty: Dec, price: Dec): Dec
    requires held >= 0 && qty >= 0
  {
    var total := held + qty;
    if total == 0 then price else RoundDiv(held * avgCost + qty * price, total)
  }

  /** The average cost lies between the cost held and the price paid, and is the nearest to
      the exact weighted mean. */
  lemma AverageCostMixes(held: Dec, avgCost: Dec, qty: Dec, price: Dec, lo: Dec, hi: Dec)
    requires held >= 0 && qty > 0 && lo <= price <= hi && (held == 0 || lo <= avgCost <= hi)
    ensures lo <= WeightedAvgCost(held, avgCost, qty, price) <= hi
    ensures var total := held + qty;
            -total <= 2 * (WeightedAvgCost(held, avgCost, qty, price) * total - (held * avgCost + qty * price)) <= total
  {
    var total, cost := held + qty, held * avgCost + qty * price;
    MixBetween(held, avgCost, qty, price, lo, hi);
    RoundDivNearest(cost, total);
    RoundDivExact(lo, total);
    RoundDivExact(hi, total);
    RoundDivMonotone(lo * total, cost, total);
    RoundDivMonotone(cost, hi * total, total);
  }

  datatype Lot = Lot(qty: Dec, price: Dec)

  /** The counters after a list of fills, each applied to the stored, already rounded average. */
  function Filled(quantity: Dec, fills: seq<Lot>): (state: Maybe<FillState>)
    ensures state.Just? ==> state.value.filled >= 0 && state.value.quantity == quantity
  {
    if fills == [] then Just(FillState(quantity, 0, Nothing))
    else match Filled(quantity, fills[..|fills| - 1])
      case Nothing => Nothing
      case Just(s) =>
        var last := fills[|fills| - 1];
        match ApplyFill(s, last.qty, last.price)
        case Nothing => Nothing
        case Just(r) => Just(FillState(quantity, r.filled, Just(r.avg)))
  }

  /** Exact cost of the fills, in units of 10^-8. */
  function Cost(fills: seq<Lot>): int {
    if fills == [] then 0
    else Cost(fills[..|fills| - 1]) + fills[|fills| - 1].qty * fills[|fills| - 1].price
  }

  lemma ErrorGrows(f: Dec, a: Dec, c: int, n: nat, qty: Dec, price: Dec, avg: Dec)
    requires f >= 0 && qty > 0
    requires -(n * f) <= 2 * (f * a - c) <= n * f
    requires -(f + qty) <= 2 * (avg * (f + qty) - (f * a + qty * price)) <= f + qty
    ensures -((n + 1) * (f + qty)) <= 2 * ((f + qty) * avg - (c + qty * price)) <= (n + 1) * (f + qty)
  {
    assert n * (f + qty) == n * f + n * qty;
    assert n * qty >= 0;
    assert (n + 1) * (f + qty) == n * (f + qty) + (f + qty);
  }

  /** After n fills the stored average is within n half-units of 10^-4 (n * 0.00005) of the
      exact weighted average, the one `failSettlement` recomputes from the executions. */
  lemma {:induction false} AverageDrift(quantity: Dec, fills: seq<Lot>)
    requires Filled(quantity, fills).Just? && fills != []
    ensures var s := Filled(quantity, fills).value;
            s.avg.Just? && -(|fills| * s.filled) <= 2 * (s.filled * s.avg.value - Cost(fills)) <= |fills| * s.filled
  {
    var n := |fills| - 1;
    var before := Filled(quantity, fills[..n]).value;
    var last := fills[n];
    var a := if before.avg.Just? then before.avg.value else 0;
    var r := ApplyFill(before, last.qty, last.price).value;
    RoundDivNearest(before.filled * a + last.qty * last.price, r.filled);
    if n == 0 {
      ErrorGrows(0, 0, 0, 0, last.qty, last.price, r.avg);
    } else {
      AverageDrift(quantity, fills[..n]);
      ErrorGrows(before.filled, a, Cost(fills[..n]), n, last.qty, last.price, r.avg);
    }
  }

  lemma MixBetween(f: Dec, a: Dec, qty: Dec, price: Dec, lo: Dec, hi: Dec)
    requires f >= 0 && qty > 0 && lo <= price <= hi && (f == 0 || lo <= a <= hi)
    ensures lo * (f + qty) <= f * a + qty * price <= hi * (f + qty)
  {
    assert qty * lo <= qty * price <= qty * hi;
    assert f * lo <= f * a <= f * hi;
    assert lo * (f + qty) == f * lo + qty * lo;
    assert hi * (f + qty) == f * hi + qty * hi;
  }

  /** The stored average never leaves the range of the fill prices. */
  lemma {:induction false} AverageInRange(quantity: Dec, fills: seq<Lot>, lo: Dec, hi: Dec)
    requires Filled(quantity, fills).Just? && fills != []
    requires forall i :: 0 <= i < |fills| ==> lo <= fills[i].price <= hi
    ensures Filled(quantity, fills).value.avg.Just?
    ensures lo <= Filled(quantity, fills).value.avg.value <= hi
  {
    var n := |fills| - 1;
    var before := Filled(quantity, fills[..n]).value;
    var last := fills[n];
    if n > 0 {
      AverageInRange(quantity, fills[..n], lo, hi);
    }
    var a := if before.avg.Just? then before.avg.value else 0;
    var r := ApplyFill(before, last.qty, last.price).value;
    var cost := before.filled * a + last.qty * last.price;
    MixBetween(before.filled, a, last.qty, last.price, lo, hi);
    RoundDivExact(lo, r.filled);
    RoundDivExact(hi, r.filled);
    RoundDivMonotone(lo * r.filled, cost, r.filled);
    RoundDivMonotone(cost, hi * r.filled, r.filled);
  }

  /** The counters accept a list of fills exactly when every quantity is positive and they
      do not exceed the order; the filled quantity is then their sum. */
  function Traded(fills: seq<Lot>): Dec {
    if fills == [] then 0 else Traded(fills[..|fills| - 1]) + fills[|fills| - 1].qty
  }

  lemma {:induction false} FilledIffWithin(quantity: Dec, fills: seq<Lot>)
    requires quantity >= 0
    ensures Filled(quantity, fills).Just? <==>
      Traded(fills) <= quantity && forall i :: 0 <= i < |fills| ==> fills[i].qty > 0
    ensures Filled(quantity, fills).Just? ==> Filled(quantity, fills).value.filled == Traded(fills)
  {
    if fills != [] {
      var n := |fills| - 1;
      FilledIffWithin(quantity, fills[..n]);
      assert forall i :: 0 <= i < n ==> fills[i] == fills[..n][i];
    }
  }
}
