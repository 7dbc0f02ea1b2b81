/** What holds in every reachable state of the brokerage: money, shares, life-cycles. */
module BrokerageTheorems {
  import opened Decimals
  import opened LedgerModel
  import opened OrderState
  import opened BrokerageModel
  import opened BrokerageBooks
  import opened BrokerageInvariant
  import opened BrokerageSteps
  import opened BrokerageFills
  import opened BrokerageDelivery
  import opened BrokeragePayments
  import Fees

  // ------------------------------------------------------------------- runs

  predicate GoodCommand(c: Command) {
    c.Place? ==> GoodDraft(c.draft)
  }

  /** Nothing placed, executed or paid yet; clients may hold settled shares. */
  ghost predicate Initial(db: Db) {
    && db.log == [] && db.orders == [] && db.execs == [] && db.intents == []
    && forall row :: row in db.positions ==>
         var p := db.positions[row]; p.quantity >= 0 && p.pending == 0 && p.reserved == 0
  }

  lemma InitialInv(db: Db)
    requires Initial(db)
    ensures Inv(db)
  {
    assert WellFormed(db.log);
    forall u, i ensures PositionOk(db, u, i) {}
    forall b | Kept(b) ensures BookOk(db, b) {
      assert OrderTerms(db.orders, db.execs, b) == [] && IntentTerms(db.intents, b) == [];
      assert ExecTerms(db.orders, db.execs, For(b)) == [];
    }
  }

  lemma AckKeeps(db: Db, i: nat, accepted: bool)
    requires Inv(db) && i < |db.orders| && AckLine(db, i, accepted, db.orders[i].status).Ok?
    ensures Inv(AckLine(db, i, accepted, db.orders[i].status).value)
  {
    assert StatusOk(db.orders[i]);
    if accepted && db.orders[i].status == TRANSMITTED {
      AdvanceKeeps(db, i, db.orders[i].(status := ACKNOWLEDGED));
    } else if !accepted && (db.orders[i].status == TRANSMITTED || db.orders[i].status == ACKNOWLEDGED) {
      CloseKeeps(db, i, REJECTED);
    }
  }

  /** `applyReview`, case by case. */
  lemma ReviewCases(db: Db, i: nat, target: OrderStatus, approval: nat, qty: Dec, price: Dec, now: int)
    requires Review(db, i, target, approval, qty, price, now).Ok?
    ensures i < |db.orders| && CanTransition(db.orders[i].status, target) && !IsFinal(db.orders[i].status)
    ensures var o := db.orders[i];
            Review(db, i, target, approval, qty, price, now) ==
              if target == EXECUTED || target == PARTIALLY_EXECUTED
              then ApplyExecution(db, ManualTrade(i, o.terms, approval, qty, price, now))
              else if IsFinal(target) then Close(db, i, target)
              else if target == TRANSMITTED
              then Ok(db.(orders := db.orders[i := o.(status := TRANSMITTED, transmittedAt := Just(now))]))
              else Ok(SetStatus(db, i, target))
  {
  }

  lemma ReviewKeeps(db: Db, i: nat, target: OrderStatus, approval: nat, qty: Dec, price: Dec, now: int)
    requires Inv(db) && Review(db, i, target, approval, qty, price, now).Ok?
    ensures Inv(Review(db, i, target, approval, qty, price, now).value)
  {
    var o := db.orders[i];
    assert StatusOk(o);
    ReviewCases(db, i, target, approval, qty, price, now);
    if target == EXECUTED || target == PARTIALLY_EXECUTED {
      ExecuteKeeps(db, ManualTrade(i, o.terms, approval, qty, price, now));
    } else if IsFinal(target) {
      CloseKeeps(db, i, target);
    } else if target == TRANSMITTED {
      AdvanceKeeps(db, i, o.(status := TRANSMITTED, transmittedAt := Just(now)));
    } else {
      AdvanceKeeps(db, i, o.(status := target));
    }
  }

  lemma OrderCommandKeeps(db: Db, c: Command)
    requires Inv(db) && Apply(db, c).Ok?
    requires c.Cancel? || c.Reject? || c.Send? || c.Expire?
    ensures Inv(Apply(db, c).value)
  {
    assert StatusOk(db.orders[c.order]);
    match c {
      case Cancel(userId, order) => CloseKeeps(db, order, CANCELLED);
      case Reject(order) => CloseKeeps(db, order, REJECTED);
      case Send(order, batch, now) =>
        AdvanceKeeps(db, order, db.orders[order].(status := TRANSMITTED, batch := Just(batch), transmittedAt := Just(now)));
      case Expire(order) => CloseKeeps(db, order, EXPIRED);
    }
  }

  /** Every service call, accepted or not, keeps the invariant. */
  lemma NextKeeps(db: Db, c: Command)
    requires Inv(db) && GoodCommand(c)
    ensures Inv(Next(db, c))
  {
    if Apply(db, c).Ok? {
      match c {
        case Place(draft) => PlaceKeeps(db, draft);
        case Ack(order, accepted) => AckKeeps(db, order, accepted);
        case Execute(trade) => ExecuteKeeps(db, trade);
        case Correct(order, target, approval, qty, price, now) => ReviewKeeps(db, order, target, approval, qty, price, now);
        case SettleExec(exec) => SettleKeeps(db, exec);
        case FailDelivery(exec) => FailKeeps(db, exec);
        case RequestDeposit(u, p, cur, a, answer, second) => CreateKeeps(db, u, p, cur, a, answer, second);
        case Confirm(intent, answer) => ConfirmKeeps(db, intent, answer);
        case ExpireDeposit(intent, answer) => ExpireIntentKeeps(db, intent, answer);
        case Withdraw(u, p, cur, a) => RequestKeeps(db, u, p, cur, a);
        case PayOut(intent) => PayOutKeeps(db, intent);
        case RefuseOut(intent) => RefuseOutKeeps(db, intent);
        case Force(intent) => ForceKeeps(db, intent);
        case _ => OrderCommandKeeps(db, c);
      }
    }
  }

  /** The invariant holds over every run, whatever the order of the calls and whatever the
      SDB's files contain. */
  lemma {:induction false} RunKeeps(db: Db, commands: seq<Command>)
    requires Inv(db) && forall j :: 0 <= j < |commands| ==> GoodCommand(commands[j])
    ensures Inv(RunAll(db, commands))
    decreases |commands|
  {
    if commands != [] {
      NextKeeps(db, commands[0]);
      RunKeeps(Next(db, commands[0]), commands[1..]);
    }
  }

  // ------------------------------------------------------------- reserved cash

  predicate RealBuy(o: Order, userId: string, currency: string) {
    !o.terms.simulated && o.terms.side == BUY && o.terms.userId == userId && o.terms.currency == currency
  }

  /** What an open BUY order still reserves: maxAmount minus what `consumedReserve` finds. */
  function OpenReserveOf(db: Db, i: nat, userId: string, currency: string): Dec
    requires i < |db.orders|
  {
    var o := db.orders[i];
    if RealBuy(o, userId, currency) && !IsFinal(o.status)
    then o.terms.maxAmount - ConsumedReserve(o.terms, db.execs, i) else 0
  }

  /** A final order whose reserve was never released: only a failed delivery on an open
      order leaves one behind. */
  predicate Stuck(o: Order) {
    !o.terms.simulated && IsFinal(o.status) && !o.released
  }

  function StuckReserveOf(db: Db, i: nat, userId: string, currency: string): Dec
    requires i < |db.orders|
  {
    if RealBuy(db.orders[i], userId, currency) && Stuck(db.orders[i]) then Left(db.orders, db.execs, i) else 0
  }

  /** Over the first n orders of the table. */
  function OpenReserve(db: Db, userId: string, currency: string, n: nat): Dec
    requires n <= |db.orders|
  {
    if n == 0 then 0 else OpenReserve(db, userId, currency, n - 1) + OpenReserveOf(db, n - 1, userId, currency)
  }

  function StuckReserve(db: Db, userId: string, currency: string, n: nat): Dec
    requires n <= |db.orders|
  {
    if n == 0 then 0 else StuckReserve(db, userId, currency, n - 1) + StuckReserveOf(db, n - 1, userId, currency)
  }

  lemma AllFillsPosted(db: Db)
    requires ExecsOk(db)
    ensures forall k :: 0 <= k < |db.execs| ==> db.execs[k].fillTxn.Just?
  {
    forall k | 0 <= k < |db.execs| ensures db.execs[k].fillTxn.Just? {
      assert ExecOk(db.log, db.orders, k, db.execs[k]);
    }
  }

  /** The filled quantity of an open order is all that was ever executed on it. */
  lemma OpenFilled(db: Db, i: nat)
    requires Inv(db) && i < |db.orders| && !db.orders[i].terms.simulated && !IsFinal(db.orders[i].status)
    ensures db.orders[i].filled == ExecSum(db.orders, db.execs, Traded(i)) && !db.orders[i].released
  {
    assert StatusOk(db.orders[i]);
    assert OrderFits(db.orders, db.execs, i);
    CoreRefs(db);
    FilledIsTraded(db.orders, db.execs, i);
  }

  /** On an open order in a currency without decimals the program's own computation of the
      consumed reserve agrees with the books. */
  lemma OpenConsumption(db: Db, i: nat)
    requires Inv(db) && i < |db.orders| && !db.orders[i].terms.simulated && !IsFinal(db.orders[i].status)
    requires db.orders[i].terms.currency in ZERO_DECIMAL
    ensures db.orders[i].terms.maxAmount - ConsumedReserve(db.orders[i].terms, db.execs, i) == Left(db.orders, db.execs, i)
  {
    assert StatusOk(db.orders[i]);
    CoreRefs(db);
    AllFillsPosted(db);
    ConsumedIsSpent(db.orders, db.execs, i);
  }

  predicate ReserveTermSplits(db: Db, i: nat, userId: string, currency: string)
    requires i < |db.orders|
  {
    && OrderTerm(db.orders, db.execs, i, ReservedCash(userId, currency)) ==
         OpenReserveOf(db, i, userId, currency) + StuckReserveOf(db, i, userId, currency)
    && StuckReserveOf(db, i, userId, currency) >= 0
  }

  lemma ReserveTerm(db: Db, i: nat, userId: string, currency: string)
    requires Inv(db) && i < |db.orders| && currency in ZERO_DECIMAL
    ensures ReserveTermSplits(db, i, userId, currency)
  {
    assert StatusOk(db.orders[i]);
    assert OrderFits(db.orders, db.execs, i);
    if RealBuy(db.orders[i], userId, currency) && !IsFinal(db.orders[i].status) {
      OpenFilled(db, i);
      OpenConsumption(db, i);
    }
  }

  lemma {:induction false} ReserveSplit(db: Db, userId: string, currency: string, n: nat)
    requires n <= |db.orders| && forall i :: 0 <= i < n ==> ReserveTermSplits(db, i, userId, currency)
    ensures Fees.Add(OrderTerms(db.orders, db.execs, ReservedCash(userId, currency))[..n]) ==
            OpenReserve(db, userId, currency, n) + StuckReserve(db, userId, currency, n)
    ensures StuckReserve(db, userId, currency, n) >= 0
    ensures StuckReserve(db, userId, currency, n) == 0 <==>
      forall i :: 0 <= i < n ==> StuckReserveOf(db, i, userId, currency) == 0
  {
    if n > 0 {
      ReserveSplit(db, userId, currency, n - 1);
      var held := OrderTerms(db.orders, db.execs, ReservedCash(userId, currency));
      assert held[..n][..n - 1] == held[..n - 1];
      assert ReserveTermSplits(db, n - 1, userId, currency);
    }
  }

  /** In a currency without decimals a client's RESERVED balance is what is left of the reserves of their open BUY orders,
      plus what failed deliveries stranded; that second part is zero exactly when no stuck
      order has anything left. */
  lemma ReservedIsOpenReserve(db: Db, userId: string, currency: string)
    requires Inv(db) && currency in ZERO_DECIMAL
    ensures var n := |db.orders|;
            && Balance(db.log, UserAccount(userId, currency, RESERVED)) ==
                 OpenReserve(db, userId, currency, n) + StuckReserve(db, userId, currency, n)
            && StuckReserve(db, userId, currency, n) >= 0
            && (StuckReserve(db, userId, currency, n) == 0 <==>
                  forall i :: 0 <= i < n ==> StuckReserveOf(db, i, userId, currency) == 0)
  {
    assert BookOk(db, ReservedCash(userId, currency));
    forall i | 0 <= i < |db.orders| ensures ReserveTermSplits(db, i, userId, currency) {
      ReserveTerm(db, i, userId, currency);
    }
    ReserveSplit(db, userId, currency, |db.orders|);
    ReservedIsOrderSum(db, userId, currency);
  }

  lemma ReservedIsOrderSum(db: Db, userId: string, currency: string)
    requires BookOk(db, ReservedCash(userId, currency))
    ensures Balance(db.log, UserAccount(userId, currency, RESERVED)) ==
            Fees.Add(OrderTerms(db.orders, db.execs, ReservedCash(userId, currency))[..|db.orders|])
  {
    var b := ReservedCash(userId, currency);
    ZeroSum(ExecTerms(db.orders, db.execs, For(b)));
    ZeroSum(IntentTerms(db.intents, b));
    assert OrderTerms(db.orders, db.execs, b)[..|db.orders|] == OrderTerms(db.orders, db.execs, b);
  }

  // ------------------------------------------------------------ reserved shares

  predicate RealSell(terms: Terms, userId: string, instrumentId: string) {
    !terms.simulated && terms.side == SELL && terms.userId == userId && terms.instrumentId == instrumentId
  }

  /** The unfilled quantity of an open SELL order. */
  function OpenSharesOf(db: Db, i: nat, userId: string, instrumentId: string): Dec
    requires i < |db.orders|
  {
    var o := db.orders[i];
    if RealSell(o.terms, userId, instrumentId) && !IsFinal(o.status) then o.terms.quantity - o.filled else 0
  }

  function StuckSharesOf(db: Db, i: nat, userId: string, instrumentId: string): Dec
    requires i < |db.orders|
  {
    var o := db.orders[i];
    if RealSell(o.terms, userId, instrumentId) && Stuck(o)
    then o.terms.quantity - ExecSum(db.orders, db.execs, Traded(i)) else 0
  }

  function OpenShares(db: Db, userId: string, instrumentId: string, n: nat): Dec
    requires n <= |db.orders|
  {
    if n == 0 then 0 else OpenShares(db, userId, instrumentId, n - 1) + OpenSharesOf(db, n - 1, userId, instrumentId)
  }

  function StuckShares(db: Db, userId: string, instrumentId: string, n: nat): Dec
    requires n <= |db.orders|
  {
    if n == 0 then 0 else StuckShares(db, userId, instrumentId, n - 1) + StuckSharesOf(db, n - 1, userId, instrumentId)
  }

  /** Shares of a client's awaited executions on one side of the market. */
  function AwaitedShares(db: Db, side: Side, userId: string, instrumentId: string, n: nat): Dec
    requires n <= |db.execs|
  {
    if n == 0 then 0
    else
      var e := db.execs[n - 1];
      var mine := e.trade.order < |db.orders| &&
        var terms := db.orders[e.trade.order].terms;
        terms.side == side && terms.userId == userId && terms.instrumentId == instrumentId;
      AwaitedShares(db, side, userId, instrumentId, n - 1) + (if mine && Undelivered(e) then e.trade.quantity else 0)
  }

  lemma {:induction false} AwaitedSplit(db: Db, userId: string, instrumentId: string, n: nat)
    requires n <= |db.execs|
    ensures Fees.Add(ExecTerms(db.orders, db.execs, For(PendingShares(userId, instrumentId)))[..n]) ==
            AwaitedShares(db, BUY, userId, instrumentId, n)
    ensures Fees.Add(ExecTerms(db.orders, db.execs, For(ReservedShares(userId, instrumentId)))[..n]) ==
            AwaitedShares(db, SELL, userId, instrumentId, n)
  {
    if n > 0 {
      AwaitedSplit(db, userId, instrumentId, n - 1);
      var bought := ExecTerms(db.orders, db.execs, For(PendingShares(userId, instrumentId)));
      var sold := ExecTerms(db.orders, db.execs, For(ReservedShares(userId, instrumentId)));
      assert bought[..n][..n - 1] == bought[..n - 1] && sold[..n][..n - 1] == sold[..n - 1];
    }
  }

  predicate ShareTermSplits(db: Db, i: nat, userId: string, instrumentId: string)
    requires i < |db.orders|
  {
    && OrderTerm(db.orders, db.execs, i, ReservedShares(userId, instrumentId)) ==
         OpenSharesOf(db, i, userId, instrumentId) + StuckSharesOf(db, i, userId, instrumentId)
    && StuckSharesOf(db, i, userId, instrumentId) >= 0
  }

  lemma ShareTermLocal(db: Db, i: nat, userId: string, instrumentId: string)
    requires i < |db.orders| && StatusOk(db.orders[i]) && OrderFits(db.orders, db.execs, i)
    requires var o := db.orders[i];
      !o.terms.simulated && !IsFinal(o.status) ==> o.filled == ExecSum(db.orders, db.execs, Traded(i))
    ensures ShareTermSplits(db, i, userId, instrumentId)
  {
  }

  lemma ShareTerm(db: Db, i: nat, userId: string, instrumentId: string)
    requires Inv(db) && i < |db.orders|
    ensures ShareTermSplits(db, i, userId, instrumentId)
  {
    assert StatusOk(db.orders[i]);
    assert OrderFits(db.orders, db.execs, i);
    if !db.orders[i].terms.simulated && !IsFinal(db.orders[i].status) { OpenFilled(db, i); }
    ShareTermLocal(db, i, userId, instrumentId);
  }

  lemma {:induction false} SharesSplit(db: Db, userId: string, instrumentId: string, n: nat)
    requires n <= |db.orders| && forall i :: 0 <= i < n ==> ShareTermSplits(db, i, userId, instrumentId)
    ensures Fees.Add(OrderTerms(db.orders, db.execs, ReservedShares(userId, instrumentId))[..n]) ==
            OpenShares(db, userId, instrumentId, n) + StuckShares(db, userId, instrumentId, n)
    ensures StuckShares(db, userId, instrumentId, n) >= 0
    ensures StuckShares(db, userId, instrumentId, n) == 0 <==>
      forall i :: 0 <= i < n ==> StuckSharesOf(db, i, userId, instrumentId) == 0
  {
    if n > 0 {
      SharesSplit(db, userId, instrumentId, n - 1);
      var held := OrderTerms(db.orders, db.execs, ReservedShares(userId, instrumentId));
      assert held[..n][..n - 1] == held[..n - 1];
      assert ShareTermSplits(db, n - 1, userId, instrumentId);
    }
  }

  lemma PendingIsSum(db: Db, userId: string, instrumentId: string)
    requires BookOk(db, PendingShares(userId, instrumentId))
    ensures PositionOf(db, userId, instrumentId).pending == AwaitedShares(db, BUY, userId, instrumentId, |db.execs|)
  {
    var b := PendingShares(userId, instrumentId);
    ZeroSum(OrderTerms(db.orders, db.execs, b));
    ZeroSum(IntentTerms(db.intents, b));
    AwaitedSplit(db, userId, instrumentId, |db.execs|);
    assert ExecTerms(db.orders, db.execs, For(b))[..|db.execs|] == ExecTerms(db.orders, db.execs, For(b));
  }

  lemma ReservedIsSum(db: Db, userId: string, instrumentId: string)
    requires BookOk(db, ReservedShares(userId, instrumentId))
    requires forall i :: 0 <= i < |db.orders| ==> ShareTermSplits(db, i, userId, instrumentId)
    ensures PositionOf(db, userId, instrumentId).reserved ==
            OpenShares(db, userId, instrumentId, |db.orders|) + StuckShares(db, userId, instrumentId, |db.orders|)
            + AwaitedShares(db, SELL, userId, instrumentId, |db.execs|)
  {
    var b := ReservedShares(userId, instrumentId);
    ZeroSum(IntentTerms(db.intents, b));
    SharesSplit(db, userId, instrumentId, |db.orders|);
    AwaitedSplit(db, userId, instrumentId, |db.execs|);
    assert OrderTerms(db.orders, db.execs, b)[..|db.orders|] == OrderTerms(db.orders, db.execs, b);
    assert ExecTerms(db.orders, db.execs, For(b))[..|db.execs|] == ExecTerms(db.orders, db.execs, For(b));
  }

  /** A position's counters are sums over the tables: pending shares are the awaited
      purchases; reserved shares are the unfilled open sales, the awaited sales, and what
      failed deliveries stranded. And 0 <= reserved <= held. */
  lemma PositionsAreSums(db: Db, userId: string, instrumentId: string)
    requires Inv(db)
    ensures var p := PositionOf(db, userId, instrumentId);
            && p.pending == AwaitedShares(db, BUY, userId, instrumentId, |db.execs|)
            && p.reserved == OpenShares(db, userId, instrumentId, |db.orders|)
                           + StuckShares(db, userId, instrumentId, |db.orders|)
                           + AwaitedShares(db, SELL, userId, instrumentId, |db.execs|)
            && 0 <= p.reserved <= p.quantity && 0 <= p.pending
  {
    assert BookOk(db, PendingShares(userId, instrumentId)) && BookOk(db, ReservedShares(userId, instrumentId));
    assert PositionOk(db, userId, instrumentId);
    PendingIsSum(db, userId, instrumentId);
    forall i | 0 <= i < |db.orders| ensures ShareTermSplits(db, i, userId, instrumentId) {
      ShareTerm(db, i, userId, instrumentId);
    }
    ReservedIsSum(db, userId, instrumentId);
  }

  /** The position holds the unfilled shares of an open sale. */
  predicate HoldsUnfilled(db: Db, i: nat)
    requires i < |db.orders|
  {
    var o := db.orders[i];
    o.terms.quantity - o.filled <= PositionOf(db, o.terms.userId, o.terms.instrumentId).reserved
  }

  /** The position holds the shares of an awaited execution, in the columns its settlement
      or its failure subtracts them from. */
  predicate HoldsAwaited(db: Db, k: nat)
    requires Awaited(db, k)
  {
    var terms := TermsOf(db, k);
    var p := PositionOf(db, terms.userId, terms.instrumentId);
    var qty := db.execs[k].trade.quantity;
    if terms.side == BUY then qty <= p.pending else qty <= p.reserved <= p.quantity
  }

  /** The release of an open sale subtracts its unfilled shares, without a clamp. */
  predicate ReleasesExactly(db: Db, i: nat)
    requires i < |db.orders|
  {
    var terms := db.orders[i].terms;
    var p, unfilled := PositionOf(db, terms.userId, terms.instrumentId), terms.quantity - db.orders[i].filled;
    UnreserveShares(db, terms, unfilled) == UpdatePosition(db, terms, p.(reserved := p.reserved - unfilled))
  }

  /** So do the settlement of an awaited execution, and its failure. */
  predicate DeliversExactly(db: Db, k: nat)
    requires Awaited(db, k)
  {
    var terms, qty := TermsOf(db, k), db.execs[k].trade.quantity;
    var p := PositionOf(db, terms.userId, terms.instrumentId);
    if terms.side == BUY then
      && SettleBuyShares(db, terms, qty) == UpdatePosition(db, terms, p.(pending := p.pending - qty, quantity := p.quantity + qty))
      && DropPendingShares(db, terms, qty) == UpdatePosition(db, terms, p.(pending := p.pending - qty))
    else
      && SettleSellShares(db, terms, qty) == UpdatePosition(db, terms, p.(reserved := p.reserved - qty, quantity := p.quantity - qty))
      && UnreserveShares(db, terms, qty) == UpdatePosition(db, terms, p.(reserved := p.reserved - qty))
  }

  lemma HeldReleasesExactly(db: Db, i: nat)
    requires i < |db.orders| && HoldsUnfilled(db, i) && db.orders[i].filled < db.orders[i].terms.quantity
    ensures ReleasesExactly(db, i)
  {
  }

  lemma HeldDeliversExactly(db: Db, k: nat)
    requires Awaited(db, k) && HoldsAwaited(db, k) && db.execs[k].trade.quantity > 0
    ensures DeliversExactly(db, k)
  {
  }

  /** Hence none of the GREATEST(..., 0) clamps ever changes a result: an update subtracts no
      more than the column holds, and is the plain subtraction. */
  lemma ClampsNeverBite(db: Db)
    requires Inv(db)
    ensures forall i :: 0 <= i < |db.orders| && !IsFinal(db.orders[i].status) && db.orders[i].terms.side == SELL
              ==> HoldsUnfilled(db, i) && ReleasesExactly(db, i)
    ensures forall k :: 0 <= k < |db.execs| && Awaited(db, k) ==> HoldsAwaited(db, k) && DeliversExactly(db, k)
  {
    forall i | 0 <= i < |db.orders| && !IsFinal(db.orders[i].status) && db.orders[i].terms.side == SELL
      ensures HoldsUnfilled(db, i) && ReleasesExactly(db, i)
    {
      assert StatusOk(db.orders[i]);
      assert OrderFits(db.orders, db.execs, i);
      OpenFilled(db, i);
      ReservedSharesCover(db, i);
      HeldReleasesExactly(db, i);
    }
    forall k | 0 <= k < |db.execs| && Awaited(db, k) ensures HoldsAwaited(db, k) && DeliversExactly(db, k) {
      assert ExecOk(db.log, db.orders, k, db.execs[k]);
      assert PositionOk(db, TermsOf(db, k).userId, TermsOf(db, k).instrumentId);
      if TermsOf(db, k).side == BUY { PendingCovers(db, k); } else { SoldCovers(db, k); }
      HeldDeliversExactly(db, k);
    }
  }

  // --------------------------------------------------------------- the mirror

  function PaidDeposits(intents: seq<Intent>, currency: string): Dec {
    if intents == [] then 0
    else
      var i := intents[|intents| - 1];
      PaidDeposits(intents[..|intents| - 1], currency) +
      (if i.direction == IN && i.state == Paid && i.currency == currency then i.amount else 0)
  }

  function CommittedWithdrawals(intents: seq<Intent>, currency: string): Dec {
    if intents == [] then 0
    else
      var i := intents[|intents| - 1];
      CommittedWithdrawals(intents[..|intents| - 1], currency) +
      (if i.direction == OUT && (i.state == IntentState.Pending || i.state == Paid) && i.currency == currency
       then i.amount else 0)
  }

  /** Over the executions of one side and currency that no delivery failure has undone: what a
      BUY took, or what a SELL brought in. */
  function Standing(orders: seq<Order>, execs: seq<Exec>, side: Side, currency: string): Dec {
    if execs == [] then 0
    else
      var e := execs[|execs| - 1];
      var counts := e.trade.order < |orders| && e.state != Failed &&
        orders[e.trade.order].terms.side == side && orders[e.trade.order].terms.currency == currency;
      Standing(orders, execs[..|execs| - 1], side, currency) +
      (if !counts then 0 else if side == BUY then BuyDebit(orders[e.trade.order].terms, e.trade, currency) else e.trade.net)
  }

  lemma {:induction false} StandingSplit(orders: seq<Order>, execs: seq<Exec>, currency: string)
    ensures ExecSum(orders, execs, For(MirrorCash(currency))) ==
            Standing(orders, execs, SELL, currency) - Standing(orders, execs, BUY, currency)
  {
    if execs != [] {
      var n := |execs| - 1;
      StandingSplit(orders, execs[..n], currency);
      assert execs[..n] + [execs[n]] == execs;
      ExecSumAppend(orders, execs[..n], execs[n], For(MirrorCash(currency)));
    }
  }

  lemma {:induction false} IntentSplit(intents: seq<Intent>, currency: string)
    ensures IntentSum(intents, MirrorCash(currency)) ==
            PaidDeposits(intents, currency) - CommittedWithdrawals(intents, currency)
  {
    if intents != [] {
      var n := |intents| - 1;
      IntentSplit(intents[..n], currency);
      assert intents[..n] + [intents[n]] == intents;
      IntentSumAppend(intents[..n], intents[n], MirrorCash(currency));
    }
  }

  /** The mirror principle: in every state, what clients hold in a currency (AVAILABLE,
      RESERVED and SETTLING) is the paid deposits, minus the withdrawals pending or paid,
      minus what standing purchases cost, plus what standing sales brought in. */
  lemma MirrorEquation(db: Db, currency: string)
    requires Inv(db)
    ensures Total(db.log, Mirror(currency)) ==
      PaidDeposits(db.intents, currency) - CommittedWithdrawals(db.intents, currency)
      - Standing(db.orders, db.execs, BUY, currency) + Standing(db.orders, db.execs, SELL, currency)
  {
    var b := MirrorCash(currency);
    assert BookOk(db, b);
    ZeroSum(OrderTerms(db.orders, db.execs, b));
    StandingSplit(db.orders, db.execs, currency);
    IntentSplit(db.intents, currency);
  }
}
