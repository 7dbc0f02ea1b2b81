/** What whole runs of the brokerage guarantee: every order's life is finite, final states
    last, deliveries end once, reserves back exactly the open orders. */
module BrokerageRuns {
  import opened Decimals
  import opened LedgerModel
  import opened OrderState
  import opened BrokerageModel
  import opened BrokerageBooks
  import opened BrokerageInvariant
  import opened BrokerageSteps
  import opened BrokerageDelivery
  import opened BrokerageTheorems
  import opened BrokerageLifecycle
  import Fees

  predicate GoodRun(commands: seq<Command>) {
    forall j :: 0 <= j < |commands| ==> GoodCommand(commands[j])
  }

  predicate WithoutFailures(commands: seq<Command>) {
    forall j :: 0 <= j < |commands| ==> !commands[j].FailDelivery?
  }

  // ------------------------------------------------------------ finite lives

  /** (rank, remaining) packed into one number. */
  function Measure(o: Order): int {
    Rank(o.status) * (o.terms.quantity + 1) + Remaining(o)
  }

  predicate InRange(o: Order) {
    0 <= Remaining(o) <= o.terms.quantity
  }

  lemma RowInRange(db: Db, i: nat)
    requires Inv(db) && i < |db.orders|
    ensures InRange(db.orders[i]) && db.orders[i].terms.quantity > 0
  {
    assert OrderFits(db.orders, db.execs, i) && StatusOk(db.orders[i]);
  }

  lemma MeasureBounds(o: Order)
    requires InRange(o)
    ensures 0 <= Measure(o) < 5 * (o.terms.quantity + 1)
  {
    assert Rank(o.status) * (o.terms.quantity + 1) >= 0;
    if Rank(o.status) < 5 { MultiplesApart(5, Rank(o.status), o.terms.quantity + 1); }
  }

  /** The lexicographic order shows in the measure. */
  lemma CloserMeasuresLess(o: Order, o': Order)
    requires InRange(o) && InRange(o') && o'.terms == o.terms && Closer(o', o)
    ensures Measure(o') < Measure(o)
  {
    if Rank(o'.status) < Rank(o.status) {
      MultiplesApart(Rank(o.status), Rank(o'.status), o.terms.quantity + 1);
    }
  }

  /** How often a run changes row i of the order table. */
  ghost function Changes(db: Db, commands: seq<Command>, i: nat): nat
    decreases |commands|
  {
    if commands == [] then 0
    else
      var after := Next(db, commands[0]);
      var changed := i < |db.orders| && i < |after.orders| && after.orders[i] != db.orders[i];
      (if changed then 1 else 0) + Changes(after, commands[1..], i)
  }

  lemma StepMeasure(db: Db, c: Command, i: nat)
    requires Inv(db) && GoodCommand(c) && !c.FailDelivery? && i < |db.orders|
    ensures var after := Next(db, c);
            && Inv(after) && i < |after.orders|
            && (after.orders[i] == db.orders[i]
                || (Measure(after.orders[i]) < Measure(db.orders[i]) && Moves(db.orders[i], after.orders[i])))
  {
    RowStep(db, c, i);
    NextKeeps(db, c);
    RowInRange(db, i);
    RowInRange(Next(db, c), i);
    if Moves(db.orders[i], Next(db, c).orders[i]) { CloserMeasuresLess(db.orders[i], Next(db, c).orders[i]); }
  }

  /** Without delivery failures an order's life is finite: each change uses up some of a
      measure that starts below 5 * (quantity + 1). */
  lemma {:induction false} LifeIsFinite(db: Db, commands: seq<Command>, i: nat)
    requires Inv(db) && GoodRun(commands) && WithoutFailures(commands) && i < |db.orders|
    ensures var after := RunAll(db, commands);
            && i < |after.orders|
            && Changes(db, commands, i) + Measure(after.orders[i]) <= Measure(db.orders[i])
            && 0 <= Measure(after.orders[i]) && Measure(db.orders[i]) < 5 * (db.orders[i].terms.quantity + 1)
    decreases |commands|
  {
    RowInRange(db, i);
    MeasureBounds(db.orders[i]);
    if commands != [] {
      StepMeasure(db, commands[0], i);
      LifeIsFinite(Next(db, commands[0]), commands[1..], i);
    }
  }

  /** Without delivery failures, a final order is never touched again. */
  lemma {:induction false} FinalIsForever(db: Db, commands: seq<Command>, i: nat)
    requires Inv(db) && GoodRun(commands) && WithoutFailures(commands)
    requires i < |db.orders| && IsFinal(db.orders[i].status)
    ensures i < |RunAll(db, commands).orders| && RunAll(db, commands).orders[i] == db.orders[i]
    decreases |commands|
  {
    if commands != [] {
      StepMeasure(db, commands[0], i);
      FinalIsForever(Next(db, commands[0]), commands[1..], i);
    }
  }

  lemma FinalRow(db: Db, c: Command, after: Db, i: nat)
    requires OrderRowOk(db, c, after, i) && i < |db.orders| && IsFinal(db.orders[i].status)
    ensures IsFinal(after.orders[i].status) && after.orders[i].terms == db.orders[i].terms
  {
  }

  lemma FinalStep(db: Db, c: Command, i: nat)
    requires Inv(db) && GoodCommand(c) && i < |db.orders| && IsFinal(db.orders[i].status)
    ensures var after := Next(db, c);
            i < |after.orders| && IsFinal(after.orders[i].status) && after.orders[i].terms == db.orders[i].terms
  {
    RowStep(db, c, i);
    FinalRow(db, c, Next(db, c), i);
  }

  /** Delivery failures included, a final order stays final, with the terms it was placed on. */
  lemma {:induction false} FinalStaysFinal(db: Db, commands: seq<Command>, i: nat)
    requires Inv(db) && GoodRun(commands) && i < |db.orders| && IsFinal(db.orders[i].status)
    ensures var after := RunAll(db, commands);
            i < |after.orders| && IsFinal(after.orders[i].status) && after.orders[i].terms == db.orders[i].terms
    decreases |commands|
  {
    if commands != [] {
      FinalStep(db, commands[0], i);
      NextKeeps(db, commands[0]);
      FinalStaysFinal(Next(db, commands[0]), commands[1..], i);
    }
  }

  /** The counters of a real order, in every reachable state: the filled quantity is the sum
      of the executions that stand, never above the order, and EXECUTED means fully filled. */
  lemma ExecutedIffFilled(db: Db, i: nat)
    requires Inv(db) && i < |db.orders| && !db.orders[i].terms.simulated
    ensures var o := db.orders[i];
            && 0 <= o.filled == StandingQuantity(db.execs, i) <= o.terms.quantity
            && (o.status == EXECUTED <==> o.filled == o.terms.quantity)
  {
    CoreRefs(db);
    assert OrderFits(db.orders, db.execs, i) && StatusOk(db.orders[i]);
    StandingIsFilled(db.orders, db.execs, i);
  }

  // --------------------------------------------------------------- deliveries

  /** A delivery ends once: SETTLED stays SETTLED and FAILED stays FAILED, in every run. */
  lemma {:induction false} DeliveryEndsOnce(db: Db, commands: seq<Command>, k: nat)
    requires Inv(db) && GoodRun(commands) && k < |db.execs| && !Undelivered(db.execs[k])
    ensures k < |RunAll(db, commands).execs| && RunAll(db, commands).execs[k] == db.execs[k]
    decreases |commands|
  {
    if commands != [] {
      RowStep(db, commands[0], k);
      NextKeeps(db, commands[0]);
      DeliveryEndsOnce(Next(db, commands[0]), commands[1..], k);
    }
  }

  /** The proceeds of a sale reach AVAILABLE at most once, and exactly once when it is SETTLED;
      the FILL of an execution is reversed exactly when it FAILED. */
  lemma ProceedsPaidOnce(db: Db, k: nat)
    requires Inv(db) && k < |db.execs|
    ensures db.execs[k].trade.order < |db.orders|
    ensures var e := db.execs[k];
            var terms := db.orders[e.trade.order].terms;
            && (forall s, t :: (0 <= s < |db.log| && 0 <= t < |db.log| &&
                                db.log[s].key == db.log[t].key == Key.Settlement(k)) ==> s == t)
            && (Find(db.log, Key.Settlement(k)).Just? ==> e.state == Settled)
            && (e.state == Settled && terms.side == SELL ==>
                  Find(db.log, Key.Settlement(k)) == e.settlementTxn &&
                  e.settlementTxn.Just? &&
                  db.log[e.settlementTxn.value] == Record(SettlementInput(k, terms, e.trade), Nothing))
            && Find(db.log, Key.Fill(k)) == e.fillTxn && e.fillTxn.Just?
            && (db.log[e.fillTxn.value].status == REVERSED <==> e.state == Failed)
  {
    assert ExecOk(db.log, db.orders, k, db.execs[k]);
    FillFound(db, k);
    SettlementFound(db, k);
  }

  lemma FillFound(db: Db, k: nat)
    requires UniqueKeys(db.log) && k < |db.execs| && ExecOk(db.log, db.orders, k, db.execs[k])
    ensures Find(db.log, Key.Fill(k)) == db.execs[k].fillTxn
  {
    FindIsKey(db.log, Key.Fill(k));
    assert db.log[db.execs[k].fillTxn.value].key == Key.Fill(k);
  }

  lemma SettlementFound(db: Db, k: nat)
    requires UniqueKeys(db.log) && KeysOk(db) && k < |db.execs| && ExecOk(db.log, db.orders, k, db.execs[k])
    ensures Find(db.log, Key.Settlement(k)).Just? ==> db.execs[k].state == Settled
    ensures db.execs[k].state == Settled && db.orders[db.execs[k].trade.order].terms.side == SELL ==>
      Find(db.log, Key.Settlement(k)) == db.execs[k].settlementTxn
  {
    FindIsKey(db.log, Key.Settlement(k));
    if Find(db.log, Key.Settlement(k)).Just? {
      assert KeyOk(db, db.log[Find(db.log, Key.Settlement(k)).value].key);
    }
    if db.execs[k].state == Settled && db.orders[db.execs[k].trade.order].terms.side == SELL {
      assert db.log[db.execs[k].settlementTxn.value].key == Key.Settlement(k);
    }
  }

  /** Proceeds of a client's awaited sales. */
  function AwaitedProceeds(orders: seq<Order>, execs: seq<Exec>, userId: string, currency: string): Dec {
    if execs == [] then 0
    else
      var e := execs[|execs| - 1];
      var mine := e.trade.order < |orders| &&
        var terms := orders[e.trade.order].terms;
        terms.side == SELL && terms.userId == userId && terms.currency == currency;
      AwaitedProceeds(orders, execs[..|execs| - 1], userId, currency) + (if mine && Undelivered(e) then e.trade.net else 0)
  }

  lemma {:induction false} ProceedsSum(orders: seq<Order>, execs: seq<Exec>, userId: string, currency: string)
    ensures ExecSum(orders, execs, For(SettlingCash(userId, currency))) == AwaitedProceeds(orders, execs, userId, currency)
  {
    if execs != [] {
      var n := |execs| - 1;
      ProceedsSum(orders, execs[..n], userId, currency);
      assert execs[..n] + [execs[n]] == execs;
      ExecSumAppend(orders, execs[..n], execs[n], For(SettlingCash(userId, currency)));
    }
  }

  /** SETTLING is the net of the client's sales that are neither settled nor failed. */
  lemma SettlingIsAwaitedProceeds(db: Db, userId: string, currency: string)
    requires Inv(db)
    ensures Balance(db.log, UserAccount(userId, currency, Kind.SETTLING)) ==
            AwaitedProceeds(db.orders, db.execs, userId, currency)
  {
    var b := SettlingCash(userId, currency);
    assert BookOk(db, b);
    ZeroSum(OrderTerms(db.orders, db.execs, b));
    ZeroSum(IntentTerms(db.intents, b));
    ProceedsSum(db.orders, db.execs, userId, currency);
  }

  /** A client's withdrawals waiting for the payout. */
  function PendingWithdrawals(intents: seq<Intent>, userId: string, currency: string): Dec {
    if intents == [] then 0
    else
      var i := intents[|intents| - 1];
      PendingWithdrawals(intents[..|intents| - 1], userId, currency) +
      (if i.direction == OUT && i.state == IntentState.Pending && i.userId == userId && i.currency == currency
       then i.amount else 0)
  }

  lemma {:induction false} WithdrawalsSum(intents: seq<Intent>, userId: string, currency: string)
    ensures IntentSum(intents, WithdrawableCash(userId, currency)) == PendingWithdrawals(intents, userId, currency)
  {
    if intents != [] {
      var n := |intents| - 1;
      WithdrawalsSum(intents[..n], userId, currency);
      assert intents[..n] + [intents[n]] == intents;
      IntentSumAppend(intents[..n], intents[n], WithdrawableCash(userId, currency));
    }
  }

  /** WITHDRAWABLE is the sum of the client's pending withdrawals. */
  lemma WithdrawableIsPending(db: Db, userId: string, currency: string)
    requires Inv(db)
    ensures Balance(db.log, UserAccount(userId, currency, WITHDRAWABLE)) ==
            PendingWithdrawals(db.intents, userId, currency)
  {
    var b := WithdrawableCash(userId, currency);
    assert BookOk(db, b);
    ZeroSum(OrderTerms(db.orders, db.execs, b));
    ZeroSum(ExecTerms(db.orders, db.execs, For(b)));
    WithdrawalsSum(db.intents, userId, currency);
  }

  // ------------------------------------------------------- nothing stranded

  /** No order is stuck with an unreleased reserve. */
  predicate Tidy(db: Db) {
    forall i :: 0 <= i < |db.orders| ==> !Stuck(db.orders[i])
  }

  /** A delivery failure reported only once its order is final. */
  predicate Orderly(db: Db, c: Command) {
    c.FailDelivery? && Awaited(db, c.exec) ==> IsFinal(db.orders[db.execs[c.exec].trade.order].status)
  }

  ghost predicate OrderlyRun(db: Db, commands: seq<Command>)
    decreases |commands|
  {
    commands != [] ==> Orderly(db, commands[0]) && OrderlyRun(Next(db, commands[0]), commands[1..])
  }

  lemma OrderlyStepIsTidy(db: Db, c: Command)
    requires Inv(db) && GoodCommand(c) && Tidy(db) && Orderly(db, c)
    ensures Tidy(Next(db, c))
  {
    var after := Next(db, c);
    forall i | 0 <= i < |after.orders| ensures !Stuck(after.orders[i]) {
      RowStep(db, c, i);
    }
  }

  lemma {:induction false} OrderlyRunIsTidy(db: Db, commands: seq<Command>)
    requires Inv(db) && GoodRun(commands) && Tidy(db) && OrderlyRun(db, commands)
    ensures Inv(RunAll(db, commands)) && Tidy(RunAll(db, commands))
    decreases |commands|
  {
    if commands != [] {
      OrderlyStepIsTidy(db, commands[0]);
      NextKeeps(db, commands[0]);
      OrderlyRunIsTidy(Next(db, commands[0]), commands[1..]);
    }
  }

  /** The reserve theorem. When delivery failures hit only orders already final, RESERVED is,
      after any run, exactly what the open BUY orders still reserve (final orders contribute
      zero), and the shares a position reserves are the unfilled open sales and the awaited
      ones. The cash half is for currencies without decimals, in which `consumedReserve` rounds
      as the order does. */
  lemma ReservesBackOpenOrders(start: Db, commands: seq<Command>, userId: string, currency: string, instrumentId: string)
    requires Initial(start) && GoodRun(commands) && OrderlyRun(start, commands)
    ensures var db := RunAll(start, commands);
            && (currency in ZERO_DECIMAL ==>
                  Balance(db.log, UserAccount(userId, currency, RESERVED)) == OpenReserve(db, userId, currency, |db.orders|))
            && PositionOf(db, userId, instrumentId).reserved ==
                 OpenShares(db, userId, instrumentId, |db.orders|) + AwaitedShares(db, SELL, userId, instrumentId, |db.execs|)
  {
    InitialInv(start);
    OrderlyRunIsTidy(start, commands);
    var db := RunAll(start, commands);
    if currency in ZERO_DECIMAL { ReservedIsOpenReserve(db, userId, currency); }
    PositionsAreSums(db, userId, instrumentId);
    TidySharesStrandNothing(db, userId, instrumentId, |db.orders|);
    forall i | 0 <= i < |db.orders| ensures StuckReserveOf(db, i, userId, currency) == 0 {
      assert !Stuck(db.orders[i]);
    }
  }

  lemma {:induction false} TidySharesStrandNothing(db: Db, userId: string, instrumentId: string, n: nat)
    requires Tidy(db) && n <= |db.orders|
    ensures StuckShares(db, userId, instrumentId, n) == 0
  {
    if n > 0 {
      TidySharesStrandNothing(db, userId, instrumentId, n - 1);
      assert !Stuck(db.orders[n - 1]);
    }
  }

  /** The reserve of one order after a failed delivery, row by row. */
  lemma StrandedRow(db: Db, k: nat, j: nat, after: Db, userId: string, currency: string)
    requires Awaited(db, k) && RefsOk(db.orders, db.execs) && ExecOk(db.log, db.orders, k, db.execs[k])
    requires j < |db.orders| && StatusOk(db.orders[j]) && !Stuck(db.orders[j])
    requires after.orders == FailedRows(db, k).orders && after.execs == FailedRows(db, k).execs
    ensures j < |after.orders|
    ensures StuckReserveOf(after, j, userId, currency) ==
            if j == db.execs[k].trade.order && RealBuy(db.orders[j], userId, currency) && !IsFinal(db.orders[j].status)
            then Left(db.orders, db.execs, j) else 0
  {
    FailSums(db, k, j);
  }

  /** After a failed delivery, what is stranded is the remainder of the order it hit, when
      that order was still open. */
  lemma FailureStrands(db: Db, k: nat, j: nat, userId: string, currency: string)
    requires Inv(db) && Tidy(db) && Awaited(db, k) && FailSettlement(db, k).Ok? && j < |db.orders|
    ensures var after := FailSettlement(db, k).value;
            && j < |after.orders|
            && StuckReserveOf(after, j, userId, currency) ==
                 if j == db.execs[k].trade.order && RealBuy(db.orders[j], userId, currency) && !IsFinal(db.orders[j].status)
                 then Left(db.orders, db.execs, j) else 0
  {
    assert ExecOk(db.log, db.orders, k, db.execs[k]);
    assert StatusOk(db.orders[j]) && !Stuck(db.orders[j]);
    CoreRefs(db);
    FailRowsOf(db, k);
    StrandedRow(db, k, j, FailSettlement(db, k).value, userId, currency);
  }

  lemma OneStuckIff(after: Db, i: nat, userId: string, currency: string, left: Dec)
    requires i < |after.orders|
    requires forall j :: 0 <= j < |after.orders| ==> StuckReserveOf(after, j, userId, currency) == if j == i then left else 0
    ensures (forall j :: 0 <= j < |after.orders| ==> StuckReserveOf(after, j, userId, currency) == 0) <==> left == 0
  {
    assert StuckReserveOf(after, i, userId, currency) == left;
  }

  lemma StrandedIff(db: Db, k: nat, after: Db)
    requires Inv(db) && Tidy(db) && Awaited(db, k) && FailSettlement(db, k) == Ok(after)
    requires TermsOf(db, k).side == BUY
    ensures var i := db.execs[k].trade.order;
            var terms := db.orders[i].terms;
            (forall j :: 0 <= j < |after.orders| ==> StuckReserveOf(after, j, terms.userId, terms.currency) == 0)
            <==> (IsFinal(db.orders[i].status) || Left(db.orders, db.execs, i) == 0)
  {
    var i := db.execs[k].trade.order;
    var terms := db.orders[i].terms;
    var left := if IsFinal(db.orders[i].status) then 0 else Left(db.orders, db.execs, i);
    RealIfExecuted(db, k);
    FailRowsOf(db, k);
    assert |after.orders| == |db.orders|;
    forall j | 0 <= j < |after.orders|
      ensures StuckReserveOf(after, j, terms.userId, terms.currency) == if j == i then left else 0
    {
      FailureStrands(db, k, j, terms.userId, terms.currency);
    }
    OneStuckIff(after, i, terms.userId, terms.currency, left);
  }

  /** A failed delivery of a purchase leaves RESERVED equal to what open orders reserve if and
      only if its order was already final, or had nothing left to release. */
  lemma FailureStrandsIff(db: Db, k: nat)
    requires Inv(db) && Tidy(db) && Awaited(db, k) && FailSettlement(db, k).Ok?
    requires TermsOf(db, k).side == BUY && TermsOf(db, k).currency in ZERO_DECIMAL
    ensures var after := FailSettlement(db, k).value;
            var i := db.execs[k].trade.order;
            var terms := db.orders[i].terms;
            (Balance(after.log, UserAccount(terms.userId, terms.currency, RESERVED)) ==
               OpenReserve(after, terms.userId, terms.currency, |after.orders|))
            <==> (IsFinal(db.orders[i].status) || ConsumedReserve(terms, db.execs, i) == terms.maxAmount)
  {
    var i := db.execs[k].trade.order;
    var terms := db.orders[i].terms;
    FailKeeps(db, k);
    StrandedIff(db, k, FailSettlement(db, k).value);
    ReservedIsOpenReserve(FailSettlement(db, k).value, terms.userId, terms.currency);
    if !IsFinal(db.orders[i].status) { RealIfExecuted(db, k); OpenConsumption(db, i); }
  }

  /** The shares of one order after a failed delivery, row by row. */
  lemma StrandedShareRow(db: Db, k: nat, j: nat, after: Db, userId: string, instrumentId: string)
    requires Awaited(db, k) && RefsOk(db.orders, db.execs) && ExecOk(db.log, db.orders, k, db.execs[k])
    requires j < |db.orders| && StatusOk(db.orders[j]) && !Stuck(db.orders[j])
    requires after.orders == FailedRows(db, k).orders && after.execs == FailedRows(db, k).execs
    ensures j < |after.orders|
    ensures StuckSharesOf(after, j, userId, instrumentId) ==
            if j == db.execs[k].trade.order && RealSell(db.orders[j].terms, userId, instrumentId) && !IsFinal(db.orders[j].status)
            then db.orders[j].terms.quantity - ExecSum(db.orders, db.execs, Traded(j)) else 0
  {
    FailSums(db, k, j);
  }

  lemma {:induction false} OnlyStuckShares(after: Db, i: nat, userId: string, instrumentId: string, left: Dec, n: nat)
    requires n <= |after.orders|
    requires forall j :: 0 <= j < |after.orders| ==> StuckSharesOf(after, j, userId, instrumentId) == if j == i then left else 0
    ensures StuckShares(after, userId, instrumentId, n) == if i < n then left else 0
  {
    if n > 0 { OnlyStuckShares(after, i, userId, instrumentId, left, n - 1); }
  }

  lemma StrandedShare(db: Db, k: nat, j: nat, after: Db, userId: string, instrumentId: string)
    requires Inv(db) && Tidy(db) && Awaited(db, k) && FailSettlement(db, k) == Ok(after) && j < |db.orders|
    ensures |after.orders| == |db.orders|
    ensures StuckSharesOf(after, j, userId, instrumentId) ==
            if j == db.execs[k].trade.order && RealSell(db.orders[j].terms, userId, instrumentId) && !IsFinal(db.orders[j].status)
            then db.orders[j].terms.quantity - ExecSum(db.orders, db.execs, Traded(j)) else 0
  {
    assert ExecOk(db.log, db.orders, k, db.execs[k]);
    assert StatusOk(db.orders[j]) && !Stuck(db.orders[j]);
    CoreRefs(db);
    FailRowsOf(db, k);
    StrandedShareRow(db, k, j, after, userId, instrumentId);
  }

  lemma FailureStrandsShares(db: Db, k: nat, after: Db)
    requires Inv(db) && Tidy(db) && Awaited(db, k) && FailSettlement(db, k) == Ok(after) && TermsOf(db, k).side == SELL
    ensures var i := db.execs[k].trade.order;
            var terms := db.orders[i].terms;
            StuckShares(after, terms.userId, terms.instrumentId, |after.orders|) ==
              if IsFinal(db.orders[i].status) then 0 else terms.quantity - db.orders[i].filled
  {
    var i := db.execs[k].trade.order;
    var terms := db.orders[i].terms;
    RealIfExecuted(db, k);
    StrandedShare(db, k, i, after, terms.userId, terms.instrumentId);
    if !IsFinal(db.orders[i].status) { OpenFilled(db, i); }
    var left := if IsFinal(db.orders[i].status) then 0 else terms.quantity - db.orders[i].filled;
    forall j | 0 <= j < |after.orders|
      ensures StuckSharesOf(after, j, terms.userId, terms.instrumentId) == if j == i then left else 0
    {
      StrandedShare(db, k, j, after, terms.userId, terms.instrumentId);
    }
    OnlyStuckShares(after, i, terms.userId, terms.instrumentId, left, |after.orders|);
  }

  /** A failed delivery of a sale leaves a position's reserved shares equal to the unfilled open
      sales and the awaited ones if and only if its order was already final; otherwise the
      unfilled shares of the order it turned ADJUSTED stay reserved. */
  lemma SaleFailureStrandsIff(db: Db, k: nat)
    requires Inv(db) && Tidy(db) && Awaited(db, k) && FailSettlement(db, k).Ok? && TermsOf(db, k).side == SELL
    ensures var after := FailSettlement(db, k).value;
            var i := db.execs[k].trade.order;
            var terms := db.orders[i].terms;
            var accounted := OpenShares(after, terms.userId, terms.instrumentId, |after.orders|)
                             + AwaitedShares(after, SELL, terms.userId, terms.instrumentId, |after.execs|);
            && (PositionOf(after, terms.userId, terms.instrumentId).reserved == accounted <==> IsFinal(db.orders[i].status))
            && (!IsFinal(db.orders[i].status) ==>
                  PositionOf(after, terms.userId, terms.instrumentId).reserved ==
                  accounted + terms.quantity - db.orders[i].filled)
  {
    var i := db.execs[k].trade.order;
    var terms := db.orders[i].terms;
    FailKeeps(db, k);
    FailureStrandsShares(db, k, FailSettlement(db, k).value);
    PositionsAreSums(FailSettlement(db, k).value, terms.userId, terms.instrumentId);
    RealIfExecuted(db, k);
    OpenIsUnfilled(db, i);
  }

  /** An open order is never fully filled. */
  lemma OpenIsUnfilled(db: Db, i: nat)
    requires Inv(db) && i < |db.orders|
    ensures !db.orders[i].terms.simulated && !IsFinal(db.orders[i].status) ==> db.orders[i].filled < db.orders[i].terms.quantity
  {
    assert StatusOk(db.orders[i]);
    assert OrderFits(db.orders, db.execs, i);
  }

  lemma RealIfExecuted(db: Db, k: nat)
    requires ExecsOk(db) && k < |db.execs|
    ensures db.execs[k].trade.order < |db.orders| && !db.orders[db.execs[k].trade.order].terms.simulated
  {
    assert ExecOk(db.log, db.orders, k, db.execs[k]);
  }

  // -------------------------------------------------------- never refused

  /** A due settlement is never refused, as long as proceeds are not negative. */
  lemma SettlementNeverRefused(db: Db, k: nat)
    requires Inv(db) && NetsNonNegative(db) && k < |db.execs|
    ensures Settle(db, k).Ok?
  {
    CoreRefs(db);
    if Awaited(db, k) && TermsOf(db, k).side == SELL {
      SettlementPosts(db, k);
    }
  }

  lemma SettlementPosts(db: Db, k: nat)
    requires Core(db) && NetsNonNegative(db) && Awaited(db, k) && TermsOf(db, k).side == SELL
    ensures PostTxn(db, SettlementInput(k, TermsOf(db, k), db.execs[k].trade)).Ok?
  {
    assert ExecOk(db.log, db.orders, k, db.execs[k]);
    var terms := TermsOf(db, k);
    var t := db.execs[k].trade;
    var input := SettlementInput(k, terms, t);
    var from := UserAccount(terms.userId, terms.currency, Kind.SETTLING);
    var to := UserAccount(terms.userId, terms.currency, AVAILABLE);
    FreshKey(db, input.key);
    SettlingCovers(db, k);
    FillAmountRounded(db, k);
    MoveNormalises(SETTLEMENT, input.key, terms.currency, from, to, t.net);
    MoveFunded(db.log, SETTLEMENT, input.key, terms.currency, from, to, t.net);
    PostFacts(db, input);
  }

  /** The amount a stored FILL moved is rounded in the order's currency. */
  lemma FillAmountRounded(db: Db, k: nat)
    requires WellFormed(db.log) && Awaited(db, k) && ExecOk(db.log, db.orders, k, db.execs[k])
    ensures var terms, t := TermsOf(db, k), db.execs[k].trade;
            && CurrencyCode(terms.currency)
            && IsRounded(if terms.side == BUY then BuyDebit(terms, t, terms.currency) else t.net, terms.currency)
  {
    var fill := db.log[db.execs[k].fillTxn.value];
    var terms, t := TermsOf(db, k), db.execs[k].trade;
    assert Sound(fill);
    EntriesFine(fill.entries, fill.currency);
    assert fill.entries == FillEntries(terms, t);
    assert IsRounded(fill.entries[0].amount, fill.currency) && IsRounded(fill.entries[1].amount, fill.currency);
    if terms.side == BUY { RoundedNegated(BuyDebit(terms, t, terms.currency), terms.currency); }
  }

  /** Cost of a purchase never below zero. */
  predicate DebitsNonNegative(db: Db) {
    forall k :: 0 <= k < |db.execs| && db.execs[k].trade.order < |db.orders| ==>
      var terms := db.orders[db.execs[k].trade.order].terms;
      terms.side == BUY ==> BuyDebit(terms, db.execs[k].trade, terms.currency) >= 0
  }

  lemma ReversalFunded(db: Db, k: nat)
    requires Core(db) && NetsNonNegative(db) && DebitsNonNegative(db) && Awaited(db, k)
    requires ExecOk(db.log, db.orders, k, db.execs[k])
    ensures var id := db.execs[k].fillTxn.value; Funded(db.log, ReversalInput(db.log[id], id))
  {
    var id := db.execs[k].fillTxn.value;
    var terms := TermsOf(db, k);
    var t := db.execs[k].trade;
    var input := ReversalInput(db.log[id], id);
    if terms.side == SELL { SettlingCovers(db, k); }
    forall a | Guarded(input, a) ensures Affordable(db.log, input.entries, a) {
      NegatedDelta(FillEntries(terms, t), Of(a));
      FillDelta(terms, t, Of(a));
    }
  }

  lemma FailReleasePosts(db: Db, k: nat)
    requires Core(db) && DebitsNonNegative(db) && Awaited(db, k) && TermsOf(db, k).side == BUY
    requires ExecOk(db.log, db.orders, k, db.execs[k]) && WellFormed(ReversedLog(db, k))
    ensures PostTxn(db.(log := ReversedLog(db, k)), FailReleaseInput(k, TermsOf(db, k), db.execs[k].trade)).Ok?
  {
    var terms := TermsOf(db, k);
    var t := db.execs[k].trade;
    var input := FailReleaseInput(k, terms, t);
    var debit := BuyDebit(terms, t, terms.currency);
    var from := UserAccount(terms.userId, terms.currency, RESERVED);
    var to := UserAccount(terms.userId, terms.currency, AVAILABLE);
    FillAmountRounded(db, k);
    FailReleaseFresh(db, k);
    ReversedTotal(db.log, db.execs[k].fillTxn.value, Of(from));
    FillDelta(terms, t, Of(from));
    assert Balance(db.log, from) >= 0;
    MoveNormalises(RELEASE, input.key, terms.currency, from, to, debit);
    MoveFunded(ReversedLog(db, k), RELEASE, input.key, terms.currency, from, to, debit);
    PostFacts(db.(log := ReversedLog(db, k)), input);
  }

  lemma ReverseFillTaken(db: Db, k: nat)
    requires Awaited(db, k) && db.execs[k].fillTxn.Just? && db.execs[k].fillTxn.value < |db.log|
    requires ReverseOutcome(db.log, db.execs[k].fillTxn.value).Posted?
    requires Reverse(db.log, db.execs[k].fillTxn.value) == ReversedLog(db, k)
    requires TermsOf(db, k).side == BUY ==>
      PostTxn(db.(log := ReversedLog(db, k)), FailReleaseInput(k, TermsOf(db, k), db.execs[k].trade)).Ok?
    ensures ReverseFill(db, k).Ok?
  {
  }

  lemma ReverseFillPosts(db: Db, k: nat)
    requires Core(db) && NetsNonNegative(db) && DebitsNonNegative(db) && Awaited(db, k)
    ensures ReverseFill(db, k).Ok?
  {
    assert ExecOk(db.log, db.orders, k, db.execs[k]);
    ReversalFunded(db, k);
    ReverseResult(db.log, db.execs[k].fillTxn.value);
    if TermsOf(db, k).side == BUY { FailReleasePosts(db, k); }
    ReverseFillTaken(db, k);
  }

  /** Nor is a delivery failure, on any execution that has not been settled. */
  lemma FailureNeverRefused(db: Db, k: nat)
    requires Inv(db) && NetsNonNegative(db) && DebitsNonNegative(db) && k < |db.execs|
    ensures FailSettlement(db, k).Ok? <==> db.execs[k].state != Settled
  {
    CoreRefs(db);
    if Awaited(db, k) { ReverseFillPosts(db, k); }
  }
}
