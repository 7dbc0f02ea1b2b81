/** The average price an order stores, over whole runs: `applyFill` on each execution, the
    recomputation of `failSettlement` after a failed delivery. */
module BrokerageAverages {
  import opened Decimals
  import opened LedgerModel
  import opened OrderState
  import opened BrokerageModel
  import opened BrokerageBooks
  import opened BrokerageInvariant
  import opened BrokerageFills
  import opened BrokerageDelivery
  import opened BrokerageTheorems
  import opened BrokerageLifecycle
  import opened BrokerageRuns
  import Fees

  /** The fills of order i, as they came in. */
  function LotsOf(execs: seq<Exec>, i: nat): seq<Lot> {
    if execs == [] then []
    else
      var last := execs[|execs| - 1];
      LotsOf(execs[..|execs| - 1], i) +
      (if last.trade.order == i then [Lot(last.trade.quantity, last.trade.price)] else [])
  }

  /** As long as no delivery has failed the counters are those of the fills, each averaged
      into the stored value; afterwards they are the recounted ones. */
  predicate CountersSound(execs: seq<Exec>, i: nat, o: Order) {
    !o.terms.simulated ==>
      if Clean(execs, i)
      then Filled(o.terms.quantity, LotsOf(execs, i)) == Just(FillState(o.terms.quantity, o.filled, o.avg))
      else Recounted(execs, i, o)
  }

  // ------------------------------------------------------------------ one step

  /** The same fills for order i, and the same ones of them still standing. */
  predicate SameFor(execs: seq<Exec>, execs': seq<Exec>, i: nat) {
    && |execs'| == |execs|
    && forall k :: 0 <= k < |execs| ==>
         && execs'[k].trade == execs[k].trade
         && (execs[k].trade.order == i ==> (execs'[k].state == Failed <==> execs[k].state == Failed))
  }

  lemma {:induction false} SameForCounts(execs: seq<Exec>, execs': seq<Exec>, i: nat)
    requires SameFor(execs, execs', i)
    ensures LotsOf(execs', i) == LotsOf(execs, i)
    ensures StandingQuantity(execs', i) == StandingQuantity(execs, i) && StandingCost(execs', i) == StandingCost(execs, i)
  {
    if execs != [] {
      var n := |execs| - 1;
      SameForCounts(execs[..n], execs'[..n], i);
    }
  }

  lemma SameForClean(execs: seq<Exec>, execs': seq<Exec>, i: nat)
    requires SameFor(execs, execs', i)
    ensures Clean(execs', i) <==> Clean(execs, i)
  {
  }

  lemma {:induction false} NoLots(execs: seq<Exec>, i: nat)
    requires forall k :: 0 <= k < |execs| ==> execs[k].trade.order != i
    ensures LotsOf(execs, i) == []
  {
    if execs != [] { NoLots(execs[..|execs| - 1], i); }
  }

  lemma FillingKeeps(execs: seq<Exec>, e: Exec, i: nat, o: Order, o': Order)
    requires e.trade.order == i && e.state == Unsettled && Clean(execs, i) && CountersSound(execs, i, o)
    requires Filling(o, o', e.trade) && o'.terms == o.terms && !o.terms.simulated
    ensures CountersSound(execs + [e], i, o')
  {
    var lots := LotsOf(execs + [e], i);
    assert (execs + [e])[..|execs|] == execs;
    assert lots[..|lots| - 1] == LotsOf(execs, i);
  }

  lemma OtherAdded(execs: seq<Exec>, e: Exec, i: nat)
    requires e.trade.order != i
    ensures LotsOf(execs + [e], i) == LotsOf(execs, i)
    ensures StandingQuantity(execs + [e], i) == StandingQuantity(execs, i)
    ensures StandingCost(execs + [e], i) == StandingCost(execs, i)
    ensures Clean(execs + [e], i) <==> Clean(execs, i)
  {
    var all := execs + [e];
    assert all[..|execs|] == execs;
    assert forall k :: 0 <= k < |execs| ==> all[k] == execs[k];
  }

  predicate ExecRowsOk(db: Db, c: Command, after: Db) {
    forall k :: 0 <= k < |db.execs| ==> ExecRowOk(db, c, after, k)
  }

  /** A step that neither adds a fill to order i nor fails one leaves its fills as they were. */
  lemma FillsStay(db: Db, c: Command, after: Db, i: nat)
    requires ExecRowsOk(db, c, after) && AddsOne(db, after) && |after.execs| == |db.execs| && i < |db.orders|
    requires FailsFor(db, c, i) ==> after.execs[c.exec] == db.execs[c.exec]
    ensures SameFor(db.execs, after.execs, i)
  {
    forall k | 0 <= k < |db.execs|
      ensures && after.execs[k].trade == db.execs[k].trade
              && (db.execs[k].trade.order == i ==> (after.execs[k].state == Failed <==> db.execs[k].state == Failed))
    {
      assert ExecRowOk(db, c, after, k);
    }
  }

  lemma OldRowStep(db: Db, c: Command, after: Db, i: nat)
    requires ExecRowsOk(db, c, after) && CountersOk(db, c, after, i) && i < |db.orders|
    requires after.orders[i].terms == db.orders[i].terms && CountersSound(db.execs, i, db.orders[i])
    requires !IsFinal(db.orders[i].status) ==> Clean(db.execs, i)
    requires Adds(db, after, i) ==> !db.orders[i].terms.simulated
    ensures CountersSound(after.execs, i, after.orders[i])
  {
    var n := |db.execs|;
    if |after.execs| > n {
      assert after.execs == db.execs + [after.execs[n]];
      if after.execs[n].trade.order == i {
        FillingKeeps(db.execs, after.execs[n], i, db.orders[i], after.orders[i]);
      } else {
        OtherAdded(db.execs, after.execs[n], i);
      }
    } else if FailsFor(db, c, i) && after.execs[c.exec] != db.execs[c.exec] {
      assert ExecRowOk(db, c, after, c.exec);
      assert !Clean(after.execs, i);
    } else {
      FillsStay(db, c, after, i);
      SameForCounts(db.execs, after.execs, i);
      SameForClean(db.execs, after.execs, i);
    }
  }

  /** A new order has no fills yet. */
  lemma NewRowSound(db: Db, c: Command, after: Db, i: nat)
    requires ExecRowsOk(db, c, after) && OrderRowOk(db, c, after, i) && AddsOne(db, after)
    requires |db.orders| <= i < |after.orders| && RefsOk(db.orders, db.execs)
    ensures CountersSound(after.execs, i, after.orders[i])
  {
    forall k | 0 <= k < |after.execs| ensures after.execs[k].trade.order != i {
      if k < |db.execs| { assert ExecRowOk(db, c, after, k); }
    }
    NoLots(after.execs, i);
  }

  lemma StepRows(db: Db, c: Command, i: nat)
    requires Inv(db) && GoodCommand(c)
    ensures RowOk(db, c, Next(db, c), i) && ExecRowsOk(db, c, Next(db, c)) && Inv(Next(db, c))
  {
    RowStep(db, c, i);
    NextKeeps(db, c);
    forall k | 0 <= k < |db.execs| ensures ExecRowOk(db, c, Next(db, c), k) { RowStep(db, c, k); }
  }

  /** What the step needs of the invariant. */
  lemma StepFacts(db: Db, after: Db, i: nat)
    requires Inv(db) && Inv(after) && i < |after.orders|
    ensures RefsOk(db.orders, db.execs)
    ensures i < |db.orders| && !IsFinal(db.orders[i].status) ==> Clean(db.execs, i)
    ensures |after.execs| > |db.execs| && after.execs[|db.execs|].trade.order == i ==> !after.orders[i].terms.simulated
  {
    CoreRefs(db);
    if |after.execs| > |db.execs| { assert ExecOk(after.log, after.orders, |db.execs|, after.execs[|db.execs|]); }
  }

  lemma SoundStep(db: Db, c: Command, i: nat)
    requires Inv(db) && GoodCommand(c) && i < |Next(db, c).orders|
    requires i < |db.orders| ==> CountersSound(db.execs, i, db.orders[i])
    ensures CountersSound(Next(db, c).execs, i, Next(db, c).orders[i])
  {
    StepRows(db, c, i);
    StepFacts(db, Next(db, c), i);
    if i < |db.orders| {
      OldRowStep(db, c, Next(db, c), i);
    } else {
      NewRowSound(db, c, Next(db, c), i);
    }
  }

  /** The counters are sound after any run. */
  lemma {:induction false} RunKeepsCounters(db: Db, commands: seq<Command>, i: nat)
    requires Inv(db) && GoodRun(commands) && i < |RunAll(db, commands).orders|
    requires i < |db.orders| ==> CountersSound(db.execs, i, db.orders[i])
    ensures CountersSound(RunAll(db, commands).execs, i, RunAll(db, commands).orders[i])
    decreases |commands|
  {
    if commands != [] {
      NextKeeps(db, commands[0]);
      if i < |Next(db, commands[0]).orders| { SoundStep(db, commands[0], i); }
      GrownOrders(db, commands[0]);
      RunKeepsCounters(Next(db, commands[0]), commands[1..], i);
    }
  }

  lemma GrownOrders(db: Db, c: Command)
    requires Inv(db) && GoodCommand(c)
    ensures |db.orders| <= |Next(db, c).orders|
  {
    RowStep(db, c, 0);
  }

  // ------------------------------------------------------------- the average

  lemma {:induction false} LotsCount(execs: seq<Exec>, i: nat)
    requires Clean(execs, i)
    ensures OrderState.Traded(LotsOf(execs, i)) == StandingQuantity(execs, i) && Cost(LotsOf(execs, i)) == StandingCost(execs, i)
  {
    if execs != [] {
      var n := |execs| - 1;
      LotsCount(execs[..n], i);
      var lots := LotsOf(execs, i);
      if execs[n].trade.order == i {
        assert lots[..|lots| - 1] == LotsOf(execs[..n], i);
      } else {
        assert lots == LotsOf(execs[..n], i);
      }
    }
  }

  /** The prices of the standing fills of order i. */
  predicate PricesWithin(execs: seq<Exec>, i: nat, lo: Dec, hi: Dec) {
    forall k :: 0 <= k < |execs| && execs[k].trade.order == i && execs[k].state != Failed ==>
      lo <= execs[k].trade.price <= hi
  }

  lemma {:induction false} LotsWithin(execs: seq<Exec>, i: nat, lo: Dec, hi: Dec)
    requires Clean(execs, i) && PricesWithin(execs, i, lo, hi)
    ensures forall j :: 0 <= j < |LotsOf(execs, i)| ==> lo <= LotsOf(execs, i)[j].price <= hi
  {
    if execs != [] { LotsWithin(execs[..|execs| - 1], i, lo, hi); }
  }

  lemma OneMoreWithin(q: Dec, cost: int, qty: Dec, price: Dec, lo: Dec, hi: Dec)
    requires lo * q <= cost <= hi * q && qty > 0 && lo <= price <= hi
    ensures lo * (q + qty) <= cost + qty * price <= hi * (q + qty)
  {
    assert lo * qty <= qty * price <= hi * qty;
  }

  lemma {:induction false} CostWithin(execs: seq<Exec>, i: nat, lo: Dec, hi: Dec)
    requires PricesWithin(execs, i, lo, hi) && forall k :: 0 <= k < |execs| ==> execs[k].trade.quantity > 0
    ensures StandingQuantity(execs, i) >= 0
    ensures lo * StandingQuantity(execs, i) <= StandingCost(execs, i) <= hi * StandingQuantity(execs, i)
  {
    if execs != [] {
      var n := |execs| - 1;
      CostWithin(execs[..n], i, lo, hi);
      var t := execs[n].trade;
      if t.order == i && execs[n].state != Failed {
        OneMoreWithin(StandingQuantity(execs[..n], i), StandingCost(execs[..n], i), t.quantity, t.price, lo, hi);
      }
    }
  }

  /** How many roundings the stored average has been through. */
  function Roundings(execs: seq<Exec>, i: nat): nat {
    if Clean(execs, i) then |LotsOf(execs, i)| else 1
  }

  /** Within n half-units of the exact weighted average of the standing fills, and between
      the bounds of their prices. */
  predicate Accurate(execs: seq<Exec>, i: nat, avg: Dec, lo: Dec, hi: Dec) {
    var q, n := StandingQuantity(execs, i), Roundings(execs, i);
    && -(n * q) <= 2 * (q * avg - StandingCost(execs, i)) <= n * q
    && lo <= avg <= hi
  }

  lemma FilledIsAccurate(execs: seq<Exec>, i: nat, o: Order, lo: Dec, hi: Dec)
    requires CountersSound(execs, i, o) && Clean(execs, i) && !o.terms.simulated && o.terms.quantity >= 0
    requires StandingQuantity(execs, i) > 0 && PricesWithin(execs, i, lo, hi)
    ensures o.avg.Just? && Accurate(execs, i, o.avg.value, lo, hi)
  {
    var lots := LotsOf(execs, i);
    LotsCount(execs, i);
    LotsWithin(execs, i, lo, hi);
    FilledIffWithin(o.terms.quantity, lots);
    AverageDrift(o.terms.quantity, lots);
    AverageInRange(o.terms.quantity, lots, lo, hi);
  }

  lemma RecountIsAccurate(execs: seq<Exec>, i: nat, o: Order, lo: Dec, hi: Dec)
    requires Recounted(execs, i, o) && !Clean(execs, i) && StandingQuantity(execs, i) > 0
    requires PricesWithin(execs, i, lo, hi) && forall k :: 0 <= k < |execs| ==> execs[k].trade.quantity > 0
    ensures o.avg.Just? && Accurate(execs, i, o.avg.value, lo, hi)
  {
    var q, cost := StandingQuantity(execs, i), StandingCost(execs, i);
    RoundDivNearest(cost, q);
    CostWithin(execs, i, lo, hi);
    RoundDivExact(lo, q);
    RoundDivExact(hi, q);
    RoundDivMonotone(lo * q, cost, q);
    RoundDivMonotone(cost, hi * q, q);
  }

  /** After any run, delivery failures included: the average an order stores lies between the
      smallest and the largest price of its standing fills, and within n * 0.00005 of their
      exact weighted average, n being the number of fills averaged in one by one, or 1 once a
      failed delivery has recounted them. */
  lemma StoredAverage(start: Db, commands: seq<Command>, i: nat, lo: Dec, hi: Dec)
    requires Initial(start) && GoodRun(commands)
    requires var db := RunAll(start, commands);
      && i < |db.orders| && !db.orders[i].terms.simulated
      && StandingQuantity(db.execs, i) > 0 && PricesWithin(db.execs, i, lo, hi)
    ensures var db := RunAll(start, commands);
      db.orders[i].avg.Just? && Accurate(db.execs, i, db.orders[i].avg.value, lo, hi)
  {
    var db := RunAll(start, commands);
    InitialInv(start);
    RunKeeps(start, commands);
    RunKeepsCounters(start, commands, i);
    assert OrderFits(db.orders, db.execs, i);
    if Clean(db.execs, i) {
      FilledIsAccurate(db.execs, i, db.orders[i], lo, hi);
    } else {
      forall k | 0 <= k < |db.execs| ensures db.execs[k].trade.quantity > 0 {
        assert ExecOk(db.log, db.orders, k, db.execs[k]);
      }
      RecountIsAccurate(db.execs, i, db.orders[i], lo, hi);
    }
  }

  // ---------------------------------------------------------- the commissions

  /** The standing fills of order i. */
  function StandingQtys(execs: seq<Exec>, i: nat): seq<Dec> {
    if execs == [] then []
    else
      var last := execs[|execs| - 1];
      StandingQtys(execs[..|execs| - 1], i) +
      (if last.trade.order == i && last.state != Failed then [last.trade.quantity] else [])
  }

  lemma {:induction false} QtysAdd(execs: seq<Exec>, i: nat)
    ensures Fees.Add(StandingQtys(execs, i)) == StandingQuantity(execs, i)
  {
    if execs != [] {
      var n := |execs| - 1;
      QtysAdd(execs[..n], i);
      var qtys := StandingQtys(execs, i);
      if execs[n].trade.order == i && execs[n].state != Failed {
        AddAppend(StandingQtys(execs[..n], i), execs[n].trade.quantity);
      } else {
        assert qtys == StandingQtys(execs[..n], i);
      }
    }
  }

  /** In every reachable state the commissions taken by the n fills of an EXECUTED order add up
      to within n / 2 minor units of the commission it was placed with. */
  lemma CommissionOverFills(db: Db, i: nat)
    requires Inv(db) && i < |db.orders| && !db.orders[i].terms.simulated && db.orders[i].status == EXECUTED
    ensures var terms, qtys := db.orders[i].terms, StandingQtys(db.execs, i);
            var e := 2 * (Fees.Commissions(terms.commission, qtys, terms.quantity, terms.currency) - terms.commission);
            -(|qtys| * Unit(terms.currency)) <= e <= |qtys| * Unit(terms.currency)
  {
    var terms := db.orders[i].terms;
    ExecutedIffFilled(db, i);
    RowInRange(db, i);
    QtysAdd(db.execs, i);
    Fees.ProrationBound(terms.commission, StandingQtys(db.execs, i), terms.quantity, terms.currency);
  }
}
