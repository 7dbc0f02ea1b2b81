/** Runs on which the service strands a reserve: an order placed and sent, part of it executed,
    and that delivery failed while the order is still open. And the same order, only sent, met
    by an ACK file that rejects it and then accepts it. */
module BrokerageExample {
  import opened Decimals
  import opened LedgerModel
  import opened OrderState
  import opened BrokerageModel
  import opened BrokerageBooks
  import opened BrokerageInvariant
  import opened BrokerageSteps
  import opened BrokerageFills
  import opened BrokerageDelivery
  import opened BrokeragePayments
  import opened BrokerageTheorems
  import opened BrokerageRuns
  import opened BrokerageAcceptance
  import DepositRaces
  import Fees
  import Files = BrokerageFiles

  /** An order for something, in a currency without decimals. */
  predicate Regular(d: Draft) {
    && RoundedReserve(d) && d.currency in ZERO_DECIMAL && !d.simulated && d.partnerId.Just? && d.quantity > 0
    && (d.side == BUY ==> MaxAmount(d) > 0)
  }

  /** An execution of less than all of it, for less than its reserve. */
  predicate Partly(d: Draft, t: Trade) {
    && Regular(d) && t.order == 0 && 0 < t.quantity < d.quantity && RoundedAmounts(DraftTerms(d), t)
    && (d.side == BUY ==> 0 <= BuyDebit(DraftTerms(d), t, d.currency) < MaxAmount(d))
  }

  // ------------------------------------------------------------- the beginning

  /** A seller holds the shares to sell; a buyer has nothing yet. */
  function Start(d: Draft): Db {
    Db([], [], [], if d.side == SELL then map[(d.userId, d.instrumentId) := Position(d.quantity, 0, 0, 0)] else map[], [])
  }

  function Paying(d: Draft): Intent {
    Intent(d.userId, IN, "P", d.currency, MaxAmount(d), IntentState.Pending, Nothing)
  }

  function Depositing(d: Draft): Command {
    RequestDeposit(d.userId, "P", d.currency, MaxAmount(d), AnswerPaid, AnswerPaid)
  }

  /** A buyer pays in what the order costs. */
  function Opening(d: Draft): seq<Command> {
    if d.side == BUY then [Depositing(d)] else []
  }

  function Deposited(d: Draft): Db {
    Db([Record(DepositInput(0, Paying(d)), Nothing)], [], [], map[], [Paying(d).(state := Paid, txn := Just(0))])
  }

  lemma CreditResult(d: Draft)
    requires d.side == BUY && Outcome([], DepositInput(0, Paying(d))) == Posted(0)
    ensures CreditDeposit(Start(d).(intents := [Paying(d)]), 0) == Ok(Deposited(d))
  {
    assert [] + [Record(DepositInput(0, Paying(d)), Nothing)] == Deposited(d).log;
    assert [Paying(d)][0 := Paying(d).(state := Paid, txn := Just(0))] == Deposited(d).intents;
  }

  lemma DepositResult(d: Draft)
    requires d.side == BUY && Upper(d.currency) == d.currency && ValidAmount(MaxAmount(d), d.currency)
    requires CreditDeposit(Start(d).(intents := [Paying(d)]), 0) == Ok(Deposited(d))
    ensures Next(Start(d), Depositing(d)) == Deposited(d)
  {
    assert [] + [Paying(d)] == [Paying(d)];
  }

  lemma DepositedFunds(d: Draft)
    ensures Balance(Deposited(d).log, UserAccount(d.userId, d.currency, AVAILABLE)) == MaxAmount(d)
  {
    var a := UserAccount(d.userId, d.currency, AVAILABLE);
    TotalAppend([], Record(DepositInput(0, Paying(d)), Nothing), Of(a));
    DepositDelta(0, Paying(d), Of(a));
    assert [] + [Record(DepositInput(0, Paying(d)), Nothing)] == Deposited(d).log;
  }

  /** Ready to place the order. */
  ghost predicate Ready(d: Draft, db: Db) {
    && Inv(db) && db.orders == [] && db.execs == []
    && if d.side == BUY then Balance(db.log, UserAccount(d.userId, d.currency, AVAILABLE)) >= MaxAmount(d)
       else PositionOf(db, d.userId, d.instrumentId) == Position(d.quantity, 0, 0, 0)
  }

  lemma OpeningReady(d: Draft)
    requires Regular(d)
    ensures Initial(Start(d)) && Inv(Start(d)) && Ready(d, RunAll(Start(d), Opening(d)))
  {
    InitialInv(Start(d));
    if d.side == BUY {
      DepositRaces.DepositAccepted([], 0, Paying(d));
      CreditResult(d);
      DepositResult(d);
      DepositedFunds(d);
      NextKeeps(Start(d), Depositing(d));
      LastIs(Start(d), Depositing(d));
    }
  }

  lemma LastIs(db: Db, c: Command)
    ensures RunAll(db, [c]) == Next(db, c)
  {
    assert [c][1..] == [];
  }

  // ------------------------------------------------------------------ the steps

  /** The one order, nothing executed on it yet. */
  predicate Waiting(d: Draft, db: Db, status: OrderStatus) {
    && |db.orders| == 1 && db.orders[0].terms == DraftTerms(d) && db.orders[0].status == status
    && db.orders[0].filled == 0 && db.execs == []
  }

  lemma PlaceStep(d: Draft, db: Db)
    requires Regular(d) && Ready(d, db)
    ensures var after := Next(db, Place(d)); Inv(after) && Waiting(d, after, PENDING)
  {
    NextKeeps(db, Place(d));
    if d.side == BUY {
      PurchaseAcceptedIff(db, d);
      PlaceBuyResult(db, d);
    } else {
      SaleAcceptedIff(db, d);
      PlaceSellKeeps(db, d);
    }
  }

  lemma SendStep(d: Draft, db: Db)
    requires Inv(db) && !d.simulated && Waiting(d, db, PENDING)
    ensures var after := Next(db, Send(0, 0, 0));
            Inv(after) && Waiting(d, after, TRANSMITTED) && Files.InBatch(after.orders, 0, 0)
  {
    NextKeeps(db, Send(0, 0, 0));
  }

  /** The state before the failure. */
  predicate PartlyExecuted(d: Draft, t: Trade, db: Db) {
    && |db.orders| == 1 && db.orders[0].status == PARTIALLY_EXECUTED && db.orders[0].terms == DraftTerms(d)
    && |db.execs| == 1 && db.execs[0].trade == t && db.execs[0].state == Unsettled && db.execs[0].fillTxn.Just?
  }

  lemma ExecuteRow(d: Draft, t: Trade, db: Db, after: Db)
    requires Partly(d, t) && Waiting(d, db, TRANSMITTED) && FillOf(db.orders[0], t).Just?
    requires after.execs == db.execs + [Exec(t, Unsettled, Just(|db.log|), Nothing)]
    requires var fill := FillOf(db.orders[0], t).value;
      after.orders == db.orders[0 := Updated(db.orders[0], fill, fill.status).(released := fill.status == EXECUTED)]
    ensures PartlyExecuted(d, t, after)
  {
  }

  lemma NextExecutes(db: Db, t: Trade)
    requires ApplyExecution(db, t).Ok?
    ensures Next(db, Execute(t)) == ApplyExecution(db, t).value
  {
  }

  lemma ExecuteStep(d: Draft, t: Trade, db: Db)
    requires Partly(d, t) && Inv(db) && Waiting(d, db, TRANSMITTED)
    ensures Inv(Next(db, Execute(t))) && PartlyExecuted(d, t, Next(db, Execute(t)))
  {
    ExecutionAcceptedIff(db, t);
    NextExecutes(db, t);
    ExecuteKeeps(db, t);
    ApplyRows(db, t);
    ExecuteRow(d, t, db, Next(db, Execute(t)));
  }

  lemma OnlyFine(d: Draft, t: Trade, db: Db)
    requires Partly(d, t) && PartlyExecuted(d, t, db)
    ensures NetsNonNegative(db) && DebitsNonNegative(db) && Awaited(db, 0) && Tidy(db)
  {
  }

  /** Cash, or shares, that no open order accounts for. */
  ghost predicate Stranded(d: Draft, db: Db) {
    && |db.orders| == 1 && db.orders[0].status == ADJUSTED
    && if d.side == BUY
       then Balance(db.log, UserAccount(d.userId, d.currency, RESERVED)) != OpenReserve(db, d.userId, d.currency, |db.orders|)
       else PositionOf(db, d.userId, d.instrumentId).reserved !=
            OpenShares(db, d.userId, d.instrumentId, |db.orders|)
            + AwaitedShares(db, SELL, d.userId, d.instrumentId, |db.execs|)
  }

  lemma PartConsumed(d: Draft, t: Trade, execs: seq<Exec>)
    requires Partly(d, t) && d.side == BUY && |execs| == 1 && Consumes(execs[0], 0) && execs[0].trade == t
    ensures ConsumedReserve(DraftTerms(d), execs, 0) < MaxAmount(d)
  {
    assert execs[..0] == [];
    ZeroDecimalCurrency(d.currency);
    ZeroDecimalCurrency("XAF");
  }

  lemma FailRowIs(db: Db, k: nat)
    requires Inv(db) && Awaited(db, k) && FailSettlement(db, k).Ok?
    ensures var after := FailSettlement(db, k).value;
            |after.orders| == |db.orders| && after.orders[db.execs[k].trade.order].status == ADJUSTED
  {
    FailRowsOf(db, k);
  }

  lemma FailStep(d: Draft, t: Trade, db: Db)
    requires Partly(d, t) && Inv(db) && PartlyExecuted(d, t, db)
    ensures FailSettlement(db, 0).Ok? && Stranded(d, FailSettlement(db, 0).value)
  {
    OnlyFine(d, t, db);
    FailureNeverRefused(db, 0);
    FailRowIs(db, 0);
    if d.side == BUY {
      PartConsumed(d, t, db.execs);
      FailureStrandsIff(db, 0);
    } else {
      SaleFailureStrandsIff(db, 0);
    }
  }

  lemma NextFails(db: Db, k: nat)
    requires FailSettlement(db, k).Ok?
    ensures Next(db, FailDelivery(k)) == FailSettlement(db, k).value
  {
  }

  // ------------------------------------------------------------------- the runs

  lemma {:induction false} RunConcat(db: Db, xs: seq<Command>, ys: seq<Command>)
    ensures RunAll(db, xs + ys) == RunAll(RunAll(db, xs), ys)
    decreases |xs|
  {
    if xs == [] {
      assert xs + ys == ys;
    } else {
      assert (xs + ys)[1..] == xs[1..] + ys;
      RunConcat(Next(db, xs[0]), xs[1..], ys);
    }
  }

  lemma RunOneMore(db: Db, xs: seq<Command>, c: Command)
    ensures RunAll(db, xs + [c]) == Next(RunAll(db, xs), c)
  {
    RunConcat(db, xs, [c]);
    LastIs(RunAll(db, xs), c);
  }

  function Sending(d: Draft): seq<Command> {
    Opening(d) + [Place(d)] + [Send(0, 0, 0)]
  }

  lemma SentState(d: Draft)
    requires Regular(d)
    ensures var db := RunAll(Start(d), Sending(d));
            Inv(db) && Waiting(d, db, TRANSMITTED) && Files.InBatch(db.orders, 0, 0)
  {
    OpeningReady(d);
    RunOneMore(Start(d), Opening(d), Place(d));
    PlaceStep(d, RunAll(Start(d), Opening(d)));
    RunOneMore(Start(d), Opening(d) + [Place(d)], Send(0, 0, 0));
    SendStep(d, RunAll(Start(d), Opening(d) + [Place(d)]));
  }

  lemma RunIsGood(d: Draft, t: Trade)
    requires Regular(d)
    ensures GoodRun(Sending(d) + [Execute(t)] + [FailDelivery(0)])
  {
  }

  lemma ExecutedState(d: Draft, t: Trade)
    requires Partly(d, t)
    ensures var db := RunAll(Start(d), Sending(d) + [Execute(t)]); Inv(db) && PartlyExecuted(d, t, db)
  {
    SentState(d);
    RunOneMore(Start(d), Sending(d), Execute(t));
    ExecuteStep(d, t, RunAll(Start(d), Sending(d)));
  }

  /** Every run that places, sends and partly executes an order and then fails that delivery
      ends with a final order, nothing open, and yet cash or shares reserved. */
  lemma StrandedRun(d: Draft, t: Trade)
    requires Partly(d, t)
    ensures var run := Sending(d) + [Execute(t)] + [FailDelivery(0)];
            Initial(Start(d)) && GoodRun(run) && Stranded(d, RunAll(Start(d), run))
  {
    var executed := Sending(d) + [Execute(t)];
    OpeningReady(d);
    ExecutedState(d, t);
    RunOneMore(Start(d), executed, FailDelivery(0));
    FailStep(d, t, RunAll(Start(d), executed));
    NextFails(RunAll(Start(d), executed), 0);
    RunIsGood(d, t);
  }

  /** An order as sent, and a file that rejects it and then accepts it: ACKNOWLEDGED again,
      although its reserve was handed back. */
  lemma ReopenedRun(d: Draft)
    requires Regular(d)
    ensures var db := RunAll(Start(d), Sending(d));
            var run := Files.AckFile(db, 0, [Files.AckLine(0, false), Files.AckLine(0, true)]);
            && Initial(Start(d)) && Inv(db) && !Inv(run.db)
            && run.accepted == [0] && run.rejected == [0] && |run.db.orders| == 1
            && run.db.orders[0].status == ACKNOWLEDGED && run.db.orders[0].released
  {
    OpeningReady(d);
    SentState(d);
    var db := RunAll(Start(d), Sending(d));
    Files.LateAcceptanceReopens(db, 0, 0);
    Files.AckFileRows(db, 0, [Files.AckLine(0, false), Files.AckLine(0, true)]);
  }

  /** Two shares at 100 XAF, bought or sold, one of them executed. */
  lemma StrandedInput(side: Side)
    ensures var hundred := 100 * ONE;
            Partly(Draft("u", "I", Just("S"), side, "XAF", 2 * ONE, hundred, [], false, 1),
                   Trade(0, SdbRef("r", 0), ONE, hundred, hundred, 0, 0, hundred, 0, Nothing))
  {
    var hundred := 100 * ONE;
    var d := Draft("u", "I", Just("S"), side, "XAF", 2 * ONE, hundred, [], false, 1);
    ZeroDecimalCurrency("XAF");
    RoundDivExact(200, ONE * ONE);
    assert MaxAmount(d) == 200 * ONE;
    WholeIsRounded(200 * ONE, "XAF");
    WholeIsRounded(hundred, "XAF");
    WholeIsRounded(0, "XAF");
    assert Fees.Pick(d.fees, Fees.COMMISSION_ALKE) == 0;
  }
}
