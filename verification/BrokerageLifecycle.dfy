/** The life of orders and executions over whole runs: which way statuses move, when
    nothing is stranded, which calls are never refused. */
module BrokerageLifecycle {
  import opened Decimals
  import opened LedgerModel
  import opened OrderState
  import opened BrokerageModel
  import opened BrokerageBooks
  import opened BrokerageInvariant
  import opened BrokerageSteps
  import opened BrokerageFills
  import opened BrokerageDelivery
  import opened BrokerageTheorems
  import Fees

  // ------------------------------------------------------------ one order row

  function Remaining(o: Order): Dec {
    o.terms.quantity - o.filled
  }

  /** Lexicographically smaller: a lower rank, or the same rank with less left to fill. */
  predicate Closer(o': Order, o: Order) {
    || Rank(o'.status) < Rank(o.status)
    || (Rank(o'.status) == Rank(o.status) && Remaining(o') < Remaining(o))
  }

  /** A legal move of one order row: along the transition table, closer to the end, and
      released once final. */
  predicate Moves(o: Order, o': Order) {
    && o'.terms == o.terms && CanTransition(o.status, o'.status) && Closer(o', o)
    && (IsFinal(o'.status) ==> o'.released)
  }

  /** The order row a failed delivery leaves. */
  predicate Fails(db: Db, c: Command, i: nat, o': Order)
    requires i < |db.orders|
  {
    && FailsFor(db, c, i)
    && o' == db.orders[i].(status := ADJUSTED, filled := o'.filled, avg := o'.avg)
  }

  /** An order joins a batch only when it is sent in it. */
  predicate BatchOk(db: Db, c: Command, i: nat, o': Order) {
    || o'.batch == (if i < |db.orders| then db.orders[i].batch else Nothing)
    || (c.Send? && c.order == i && o'.batch == Just(c.batch))
  }

  /** What one call may do to row i of the order table, or add there. */
  predicate OrderRowOk(db: Db, c: Command, after: Db, i: nat) {
    && |db.orders| <= |after.orders|
    && (i < |db.orders| ==>
          || after.orders[i] == db.orders[i]
          || Moves(db.orders[i], after.orders[i]) || Fails(db, c, i, after.orders[i]))
    && (|db.orders| <= i < |after.orders| ==> c.Place? && !Stuck(after.orders[i]) && Unfilled(after.orders[i]))
    && (i < |after.orders| ==> BatchOk(db, c, i, after.orders[i]))
  }

  /** A real order starts with nothing filled. */
  predicate Unfilled(o: Order) {
    o.terms.simulated || (o.filled == 0 && o.avg.Nothing?)
  }

  /** One call adds one execution at most, never a failed one, on an order that exists. */
  predicate AddsOne(db: Db, after: Db) {
    && |db.execs| <= |after.execs| <= |db.execs| + 1
    && (|after.execs| > |db.execs| ==>
          && after.execs[..|db.execs|] == db.execs
          && after.execs[|db.execs|].trade.order < |db.orders| && after.execs[|db.execs|].state == Unsettled)
  }

  /** The call adds an execution of order i. */
  predicate Adds(db: Db, after: Db, i: nat) {
    |after.execs| > |db.execs| && after.execs[|db.execs|].trade.order == i
  }

  /** The counters one more execution gives. */
  predicate Filling(o: Order, o': Order, t: Trade) {
    && !IsFinal(o.status) && o.filled >= 0 && FillOf(o, t).Just?
    && o'.filled == FillOf(o, t).value.filled && o'.avg == Just(FillOf(o, t).value.avg)
  }

  /** The counters a failed delivery recomputes from the executions that stand. */
  predicate Recounted(execs: seq<Exec>, i: nat, o: Order) {
    && o.filled == StandingQuantity(execs, i)
    && o.avg == if o.filled <= 0 then Nothing else Just(RoundDiv(StandingCost(execs, i), o.filled))
  }

  predicate FailsFor(db: Db, c: Command, i: nat) {
    c.FailDelivery? && Awaited(db, c.exec) && db.execs[c.exec].trade.order == i
  }

  /** What one call may do to the fill counters of order i. */
  predicate CountersOk(db: Db, c: Command, after: Db, i: nat) {
    && |db.orders| <= |after.orders| && AddsOne(db, after)
    && (i < |db.orders| ==>
          var o, o' := db.orders[i], after.orders[i];
          if Adds(db, after, i) then Filling(o, o', after.execs[|db.execs|].trade)
          else if FailsFor(db, c, i) && after.execs[c.exec] != db.execs[c.exec] then Recounted(after.execs, i, o')
          else o'.filled == o.filled && o'.avg == o.avg)
  }

  /** What one call may do to row i of the execution table: deliver it, or fail it, once. */
  predicate ExecRowOk(db: Db, c: Command, after: Db, i: nat) {
    && |db.execs| <= |after.execs|
    && (i < |db.execs| ==>
          || after.execs[i] == db.execs[i]
          || (Undelivered(db.execs[i]) && c == SettleExec(i) && after.execs[i] == SettledRow(db, i, after.execs[i].settlementTxn))
          || (Undelivered(db.execs[i]) && c == FailDelivery(i) && after.execs[i] == FailedRow(db, i)))
  }

  predicate RowOk(db: Db, c: Command, after: Db, i: nat) {
    OrderRowOk(db, c, after, i) && ExecRowOk(db, c, after, i) && CountersOk(db, c, after, i)
  }

  lemma ClosedRowMoves(db: Db, c: Command, after: Db, i: nat, j: nat, status: OrderStatus)
    requires j < |db.orders| && CanTransition(db.orders[j].status, status) && IsFinal(status)
    requires after.orders == db.orders[j := db.orders[j].(status := status, released := true)]
    requires after.execs == db.execs
    ensures RowOk(db, c, after, i)
  {
    TransitionsDescend(db.orders[j].status, status);
  }

  lemma CloseRow(db: Db, c: Command, i: nat, j: nat, status: OrderStatus)
    requires Inv(db) && j < |db.orders| && !IsFinal(db.orders[j].status)
    requires IsFinal(status) && status != EXECUTED && CanTransition(db.orders[j].status, status)
    requires Apply(db, c) == Close(db, j, status) && Apply(db, c).Ok?
    ensures RowOk(db, c, Next(db, c), i)
  {
    CloseKeeps(db, j, status);
    ClosedRowMoves(db, c, Next(db, c), i, j, status);
  }

  lemma FilledRowMoves(db: Db, c: Command, t: Trade, after: Db, i: nat)
    requires !c.FailDelivery?
    requires t.order < |db.orders| && db.orders[t.order].filled >= 0 && FillOf(db.orders[t.order], t).Just?
    requires var o := db.orders[t.order];
      var fill := FillOf(o, t).value;
      && CanTransition(o.status, fill.status) && !o.released
      && after.orders == db.orders[t.order := Updated(o, fill, fill.status).(released := fill.status == EXECUTED)]
    requires after.execs == db.execs + [Exec(t, Unsettled, Just(|db.log|), Nothing)]
    ensures RowOk(db, c, after, i)
  {
    TransitionsDescend(db.orders[t.order].status, FillOf(db.orders[t.order], t).value.status);
  }

  lemma ExecuteRow(db: Db, c: Command, i: nat, t: Trade)
    requires Inv(db) && !c.FailDelivery? && Apply(db, c) == ApplyExecution(db, t) && Apply(db, c).Ok?
    ensures RowOk(db, c, Next(db, c), i)
  {
    if FindExec(db.execs, t.ref) == Nothing {
      ApplyNeeds(db, t);
      ApplyRows(db, t);
      FilledRowMoves(db, c, t, Next(db, c), i);
    }
  }

  lemma FailedRowMoves(db: Db, k: nat, after: Db, i: nat)
    requires Awaited(db, k) && ExecOk(db.log, db.orders, k, db.execs[k])
    requires after.orders == FailedRows(db, k).orders && after.execs == db.execs[k := FailedRow(db, k)]
    ensures RowOk(db, FailDelivery(k), after, i)
  {
  }

  lemma FailIdle(db: Db, k: nat)
    requires !Awaited(db, k) && FailSettlement(db, k).Ok?
    ensures FailSettlement(db, k) == Ok(db)
  {
  }

  lemma FailRow(db: Db, k: nat, after: Db, i: nat)
    requires Core(db) && FailSettlement(db, k) == Ok(after)
    ensures RowOk(db, FailDelivery(k), after, i)
  {
    if Awaited(db, k) {
      FailRowsOf(db, k);
      FailedRowMoves(db, k, after, i);
    } else {
      FailIdle(db, k);
    }
  }

  lemma SettledRowMoves(db: Db, k: nat, after: Db, txn: Maybe<nat>, i: nat)
    requires Awaited(db, k) && after.orders == db.orders && after.execs == db.execs[k := SettledRow(db, k, txn)]
    ensures RowOk(db, SettleExec(k), after, i)
  {
  }

  lemma SettleIdle(db: Db, k: nat)
    requires !Awaited(db, k) && Settle(db, k).Ok?
    ensures Settle(db, k) == Ok(db)
  {
  }

  lemma SettleRow(db: Db, k: nat, after: Db, i: nat)
    requires Core(db) && Settle(db, k) == Ok(after)
    ensures RowOk(db, SettleExec(k), after, i)
  {
    if !Awaited(db, k) {
      SettleIdle(db, k);
    } else if TermsOf(db, k).side == SELL {
      SettleSellKeeps(db, k);
      SettledRowMoves(db, k, after, Just(|db.log|), i);
    } else {
      SettleBuyKeeps(db, k);
      SettledRowMoves(db, k, after, Nothing, i);
    }
  }

  lemma PlaceRow(db: Db, d: Draft, i: nat)
    requires Inv(db) && GoodDraft(d) && PlaceOrder(db, d).Ok?
    ensures RowOk(db, Place(d), Next(db, Place(d)), i)
  {
    if !d.simulated {
      if d.side == BUY { PlaceBuyResult(db, d); } else { PlaceSellKeeps(db, d); }
    }
  }

  /** `applyReview`, case by case. */
  lemma CorrectCases(db: Db, c: Command)
    requires c.Correct? && Apply(db, c).Ok?
    ensures c.order < |db.orders| && CanTransition(db.orders[c.order].status, c.target)
    ensures c.target == EXECUTED || c.target == PARTIALLY_EXECUTED ==>
      Apply(db, c) == ApplyExecution(db, ManualTrade(c.order, db.orders[c.order].terms, c.approval, c.qty, c.price, c.now))
    ensures IsFinal(c.target) && c.target != EXECUTED ==> Apply(db, c) == Close(db, c.order, c.target)
  {
  }

  lemma CorrectRow(db: Db, c: Command, i: nat)
    requires Inv(db) && c.Correct? && Apply(db, c).Ok?
    ensures RowOk(db, c, Next(db, c), i)
  {
    CorrectCases(db, c);
    if c.target == EXECUTED || c.target == PARTIALLY_EXECUTED {
      ExecuteRow(db, c, i, ManualTrade(c.order, db.orders[c.order].terms, c.approval, c.qty, c.price, c.now));
    } else if IsFinal(c.target) {
      TransitionsDescend(db.orders[c.order].status, c.target);
      CloseRow(db, c, i, c.order, c.target);
    } else {
      AdvanceRow(db, c, i);
    }
  }

  lemma AdvanceRow(db: Db, c: Command, i: nat)
    requires c.Correct? && Apply(db, c).Ok? && c.order < |db.orders|
    requires c.target == TRANSMITTED || c.target == ACKNOWLEDGED
    ensures RowOk(db, c, Next(db, c), i)
  {
    TransitionsDescend(db.orders[c.order].status, c.target);
  }

  /** An ACK line that is accepted, or that no longer applies. */
  lemma AckAdvances(db: Db, c: Command, i: nat)
    requires c.Ack? && c.order < |db.orders| && Apply(db, c).Ok?
    requires c.accepted || !(db.orders[c.order].status in {TRANSMITTED, ACKNOWLEDGED})
    ensures RowOk(db, c, Next(db, c), i)
  {
  }

  lemma AckRow(db: Db, c: Command, i: nat)
    requires Inv(db) && c.Ack? && Apply(db, c).Ok?
    ensures RowOk(db, c, Next(db, c), i)
  {
    if c.accepted || !(db.orders[c.order].status in {TRANSMITTED, ACKNOWLEDGED}) {
      AckAdvances(db, c, i);
    } else {
      CloseRow(db, c, i, c.order, REJECTED);
    }
  }

  predicate PaymentCommand(c: Command) {
    c.RequestDeposit? || c.Confirm? || c.ExpireDeposit? || c.Withdraw? || c.PayOut? || c.RefuseOut? || c.Force?
  }

  predicate SameTables(db: Db, after: Db) {
    after.orders == db.orders && after.execs == db.execs && after.positions == db.positions
  }

  lemma ConfirmLeavesOrders(db: Db, id: nat, answer: ProviderAnswer)
    ensures ConfirmDeposit(db, id, answer).Ok? ==> SameTables(db, ConfirmDeposit(db, id, answer).value)
  {
  }

  lemma PayOutLeavesOrders(db: Db, id: nat)
    ensures MarkWithdrawalPaid(db, id).Ok? ==> SameTables(db, MarkWithdrawalPaid(db, id).value)
  {
  }

  lemma DepositLeavesOrders(db: Db, c: Command)
    requires (c.RequestDeposit? || c.Confirm? || c.ExpireDeposit?) && Apply(db, c).Ok?
    ensures SameTables(db, Apply(db, c).value)
  {
    match c {
      case RequestDeposit(u, p, cur, a, answer, second) =>
        var i := Intent(u, IN, p, Upper(cur), a, if answer == AnswerFailed then FailedIntent else IntentState.Pending, Nothing);
        ConfirmLeavesOrders(db.(intents := db.intents + [i]), |db.intents|, second);
      case Confirm(intent, answer) => ConfirmLeavesOrders(db, intent, answer);
      case ExpireDeposit(intent, answer) => ConfirmLeavesOrders(db, intent, answer);
    }
  }

  lemma WithdrawalLeavesOrders(db: Db, c: Command)
    requires (c.Withdraw? || c.PayOut? || c.RefuseOut? || c.Force?) && Apply(db, c).Ok?
    ensures SameTables(db, Apply(db, c).value)
  {
    match c {
      case PayOut(intent) => PayOutLeavesOrders(db, intent);
      case Force(intent) => PayOutLeavesOrders(db, intent);
      case _ =>
    }
  }

  lemma PaymentLeavesOrders(db: Db, c: Command)
    requires PaymentCommand(c) && Apply(db, c).Ok?
    ensures SameTables(db, Apply(db, c).value)
  {
    if c.RequestDeposit? || c.Confirm? || c.ExpireDeposit? { DepositLeavesOrders(db, c); }
    else { WithdrawalLeavesOrders(db, c); }
  }

  lemma SendRow(db: Db, c: Command, i: nat)
    requires c.Send? && Apply(db, c).Ok?
    ensures RowOk(db, c, Next(db, c), i)
  {
  }

  function ClosesTo(c: Command): OrderStatus
    requires c.Cancel? || c.Reject? || c.Expire?
  {
    if c.Cancel? then CANCELLED else if c.Reject? then REJECTED else EXPIRED
  }

  lemma ClosingCases(db: Db, c: Command)
    requires (c.Cancel? || c.Reject? || c.Expire?) && Apply(db, c).Ok?
    ensures c.order < |db.orders| && Apply(db, c) == Close(db, c.order, ClosesTo(c))
    ensures CanTransition(db.orders[c.order].status, ClosesTo(c))
  {
  }

  lemma OrderRow(db: Db, c: Command, i: nat)
    requires Inv(db) && Apply(db, c).Ok?
    requires c.Cancel? || c.Reject? || c.Expire? || c.Send?
    ensures RowOk(db, c, Next(db, c), i)
  {
    if c.Send? {
      SendRow(db, c, i);
    } else {
      ClosingCases(db, c);
      TransitionsDescend(db.orders[c.order].status, ClosesTo(c));
      CloseRow(db, c, i, c.order, ClosesTo(c));
    }
  }

  lemma TradingRow(db: Db, c: Command, i: nat)
    requires Inv(db) && GoodCommand(c) && Apply(db, c).Ok? && !PaymentCommand(c)
    ensures RowOk(db, c, Next(db, c), i)
  {
    match c {
      case Place(draft) => PlaceRow(db, draft, i);
      case Ack(order, accepted) => AckRow(db, c, i);
      case Execute(trade) => ExecuteRow(db, c, i, trade);
      case Correct(_, _, _, _, _, _) => CorrectRow(db, c, i);
      case SettleExec(exec) => SettleRow(db, exec, Next(db, c), i);
      case FailDelivery(exec) => FailRow(db, exec, Next(db, c), i);
      case _ => OrderRow(db, c, i);
    }
  }

  lemma SameRow(db: Db, c: Command, after: Db, i: nat)
    requires SameTables(db, after)
    ensures RowOk(db, c, after, i)
  {
  }

  /** Every status change made by any service call follows the transition table and brings
      the order closer to its end, except that a failed delivery adjusts its order; the fill
      counters take one execution, are recounted by a failed delivery, or stay. */
  lemma RowStep(db: Db, c: Command, i: nat)
    requires Inv(db) && GoodCommand(c)
    ensures RowOk(db, c, Next(db, c), i)
  {
    if Apply(db, c).Err? {
      SameRow(db, c, db, i);
    } else if PaymentCommand(c) {
      PaymentLeavesOrders(db, c);
      SameRow(db, c, Next(db, c), i);
    } else {
      TradingRow(db, c, i);
    }
  }
}
