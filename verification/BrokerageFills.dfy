/** Every service call keeps the invariant: one execution applied to an order. */
module BrokerageFills {
  import opened Decimals
  import opened LedgerModel
  import opened OrderState
  import opened BrokerageModel
  import opened BrokerageBooks
  import opened BrokerageInvariant
  import opened BrokerageSteps
  import Fees

  /** The order may take this execution: open, no failed delivery, no over-fill. */
  ghost predicate Fillable(db: Db, t: Trade) {
    && t.order < |db.orders| && Releasable(db, t.order)
    && t.quantity > 0 && db.orders[t.order].filled + t.quantity <= db.orders[t.order].terms.quantity
    && FindExec(db.execs, t.ref) == Nothing
  }

  /** The rows after an accepted execution, before the order's own counters. */
  function Recorded(db: Db, t: Trade): Db
    requires t.order < |db.orders| && db.orders[t.order].terms.partnerId.Just?
  {
    var terms := db.orders[t.order].terms;
    var n := |db.execs|;
    var db' := db.(log := db.log + [Record(FillInput(n, terms, t), Nothing)],
                   execs := db.execs + [Exec(t, Unsettled, Just(|db.log|), Nothing)]);
    if terms.side == BUY then AddPendingShares(db', terms, t.quantity, t.price) else db'
  }

  lemma {:induction false} FindExecIsRef(execs: seq<Exec>, ref: ExecRef)
    ensures FindExec(execs, ref).Just? ==>
      FindExec(execs, ref).value < |execs| && execs[FindExec(execs, ref).value].trade.ref == ref
    ensures FindExec(execs, ref).Nothing? <==> forall k :: 0 <= k < |execs| ==> execs[k].trade.ref != ref
  {
    if execs != [] {
      FindExecIsRef(execs[..|execs| - 1], ref);
      assert forall k :: 0 <= k < |execs| - 1 ==> execs[k] == execs[..|execs| - 1][k];
    }
  }

  /** The reserve check of `postFill` compares with what was consumed before; in a currency
      without decimals that is exactly what the books have spent. */
  lemma ReserveCheck(db: Db, t: Trade)
    requires Fillable(db, t)
    ensures var terms := db.orders[t.order].terms;
            var e := Exec(t, Unsettled, Nothing, Nothing);
            && ConsumedReserve(terms, db.execs + [e], t.order) == ConsumedReserve(terms, db.execs, t.order)
            && (terms.currency in ZERO_DECIMAL ==>
                  ConsumedReserve(terms, db.execs, t.order) == ExecSum(db.orders, db.execs, Spent(t.order)))
  {
    RemainderIsHeld(db, t.order);
    assert (db.execs + [Exec(t, Unsettled, Nothing, Nothing)])[..|db.execs|] == db.execs;
  }

  /** What an accepted execution writes. */
  lemma RecordResult(db: Db, t: Trade)
    requires Fillable(db, t) && db.orders[t.order].terms.partnerId.Just?
    requires RecordExecution(db, t).Ok?
    ensures RecordExecution(db, t).value == Recorded(db, t)
    ensures var terms := db.orders[t.order].terms;
            var input := FillInput(|db.execs|, terms, t);
            && Normalise(input) == Nothing && WellFormed(db.log + [Record(input, Nothing)])
            && (terms.side == BUY && terms.currency in ZERO_DECIMAL ==>
                  BuyDebit(terms, t, terms.currency) <= Left(db.orders, db.execs, t.order))
  {
    var created := db.(execs := db.execs + [Exec(t, Unsettled, Nothing, Nothing)]);
    ReserveCheck(db, t);
    FreshKey(db, Key.Fill(|db.execs|));
    PostFacts(created, FillInput(|db.execs|, db.orders[t.order].terms, t));
    RecordCases(db, t, ConsumedReserve(db.orders[t.order].terms, db.execs, t.order));
  }

  /** An execution on a real order, spelled out. */
  lemma RecordCases(db: Db, t: Trade, consumed: Dec)
    requires t.order < |db.orders| && db.orders[t.order].terms.partnerId.Just? && !db.orders[t.order].terms.simulated
    requires consumed == ConsumedReserve(db.orders[t.order].terms, db.execs + [Exec(t, Unsettled, Nothing, Nothing)], t.order)
    requires RecordExecution(db, t).Ok?
    ensures var terms := db.orders[t.order].terms;
            var created := db.(execs := db.execs + [Exec(t, Unsettled, Nothing, Nothing)]);
            var input := FillInput(|db.execs|, terms, t);
            && PostTxn(created, input).Ok?
            && (terms.side == BUY ==> consumed + BuyDebit(terms, t, terms.currency) <= terms.maxAmount)
            && (PostTxn(created, input).value == (created.(log := db.log + [Record(input, Nothing)]), |db.log|) ==>
                  RecordExecution(db, t).value == Recorded(db, t))
  {
    var n := |db.execs|;
    var e := Exec(t, Unsettled, Nothing, Nothing);
    assert (db.execs + [e])[n := e.(fillTxn := Just(|db.log|))] == db.execs + [e.(fillTxn := Just(|db.log|))];
  }

  /** The position row after a BUY fill: only the pending shares and the average cost move. */
  lemma PendingExact(db: Db, terms: Terms, qty: Dec, price: Dec)
    requires PositionsOk(db) && qty > 0
    ensures var after := AddPendingShares(db, terms, qty, price);
            && after == db.(positions := after.positions)
            && PositionsOk(after)
            && forall u, i :: var p, q := PositionOf(db, u, i), PositionOf(after, u, i);
                 q.quantity == p.quantity && q.reserved == p.reserved &&
                 q.pending == if u == terms.userId && i == terms.instrumentId then p.pending + qty else p.pending
  {
    var after := AddPendingShares(db, terms, qty, price);
    forall u, i ensures PositionOk(after, u, i) { assert PositionOk(db, u, i); }
  }

  /** One book after an execution: cash leaves the reserve as the books say, or arrives in
      SETTLING; bought shares are pending, sold shares stay reserved under the execution. */
  lemma FillBook(db: Db, t: Trade, b: Book)
    requires t.order < |db.orders| && RefsOk(db.orders, db.execs) && BookOk(db, b) && PositionsOk(db)
    requires var o := db.orders[t.order];
      !o.terms.simulated && !o.released && o.terms.partnerId.Just? && t.quantity > 0
    ensures BookOk(Recorded(db, t), b)
  {
    var terms := db.orders[t.order].terms;
    var n := |db.execs|;
    var e := Exec(t, Unsettled, Just(|db.log|), Nothing);
    var txn := Record(FillInput(n, terms, t), Nothing);
    var db1 := db.(log := db.log + [txn], execs := db.execs + [e]);
    ExecAdded(db, e, b);
    ExecSumAppend(db.orders, db.execs, e, Spent(t.order));
    ExecSumAppend(db.orders, db.execs, e, Traded(t.order));
    assert Expected(db1, b) == Expected(db.(execs := db.execs + [e]), b);
    forall u, i ensures PositionOk(db1, u, i) { assert PositionOk(db, u, i); }
    if ViewOf(b).Just? {
      TotalAppend(db.log, txn, ViewOf(b).value);
      FillDelta(terms, t, ViewOf(b).value);
    }
    if terms.side == BUY {
      PendingExact(db1, terms, t.quantity, t.price);
      assert Expected(Recorded(db, t), b) == Expected(db1, b);
    }
  }

  /** The new execution is backed by its FILL; the old ones are untouched. */
  lemma FillExecs(db: Db, t: Trade, after: Db)
    requires ExecsOk(db) && t.order < |db.orders| && t.quantity > 0 && FindExec(db.execs, t.ref) == Nothing
    requires !db.orders[t.order].terms.simulated && db.orders[t.order].terms.partnerId.Just?
    requires SameTerms(db.orders, after.orders)
    requires after.log == db.log + [Record(FillInput(|db.execs|, db.orders[t.order].terms, t), Nothing)]
    requires after.execs == db.execs + [Exec(t, Unsettled, Just(|db.log|), Nothing)]
    ensures ExecsOk(after)
  {
    FindExecIsRef(db.execs, t.ref);
    forall k | 0 <= k < |after.execs| ensures ExecOk(after.log, after.orders, k, after.execs[k]) {
      if k < |db.execs| { assert ExecOk(db.log, db.orders, k, db.execs[k]); }
    }
    forall k | 0 <= k < |after.execs| ensures OwnRef(after.execs, k) {
      if k < |db.execs| { assert OwnRef(db.execs, k); }
    }
  }

  /** The sums of each order after the execution. */
  lemma FillSums(db: Db, t: Trade, j: nat)
    requires RefsOk(db.orders, db.execs) && t.order < |db.orders| && db.orders[t.order].terms.partnerId.Just?
    ensures var execs := Recorded(db, t).execs;
            var terms := db.orders[t.order].terms;
            var mine := t.order == j;
            && ExecSum(db.orders, execs, Spent(j)) == ExecSum(db.orders, db.execs, Spent(j)) + (if mine then BuyDebit(terms, t, terms.currency) else 0)
            && ExecSum(db.orders, execs, Traded(j)) == ExecSum(db.orders, db.execs, Traded(j)) + (if mine then t.quantity else 0)
            && ExecSum(db.orders, execs, FilledOf(j)) == ExecSum(db.orders, db.execs, FilledOf(j)) + (if mine then t.quantity else 0)
  {
    var e := Exec(t, Unsettled, Just(|db.log|), Nothing);
    RecordedExecs(db, t);
    ExecSumAppend(db.orders, db.execs, e, Spent(j));
    ExecSumAppend(db.orders, db.execs, e, Traded(j));
    ExecSumAppend(db.orders, db.execs, e, FilledOf(j));
  }

  lemma RecordedExecs(db: Db, t: Trade)
    requires t.order < |db.orders| && db.orders[t.order].terms.partnerId.Just?
    ensures Recorded(db, t).execs == db.execs + [Exec(t, Unsettled, Just(|db.log|), Nothing)]
  {
  }

  function Updated(o: Order, fill: FillResult, status: OrderStatus): Order {
    o.(filled := fill.filled, avg := Just(fill.avg), status := status)
  }

  lemma WholeDifference(a: Dec, b: Dec)
    requires a % ONE == 0 && b % ONE == 0
    ensures (a - b) % ONE == 0
  {
  }

  /** The order tables around an execution: same sums whichever table they are read with. */
  lemma FillFrames(db: Db, t: Trade, o: Order, j: nat)
    requires RefsOk(db.orders, db.execs) && t.order < |db.orders| && db.orders[t.order].terms.partnerId.Just?
    requires o.terms == db.orders[t.order].terms
    ensures var execs := Recorded(db, t).execs;
            var after := db.orders[t.order := o];
            && ExecSum(after, execs, Spent(j)) == ExecSum(db.orders, execs, Spent(j))
            && ExecSum(after, execs, Traded(j)) == ExecSum(db.orders, execs, Traded(j))
            && ExecSum(after, execs, FilledOf(j)) == ExecSum(db.orders, execs, FilledOf(j))
  {
    var execs := Recorded(db, t).execs;
    var after := db.orders[t.order := o];
    assert RefsOk(db.orders, execs);
    ExecSumFrame(db.orders, after, execs, Spent(j));
    ExecSumFrame(db.orders, after, execs, Traded(j));
    ExecSumFrame(db.orders, after, execs, FilledOf(j));
  }

  lemma FillFitOther(db: Db, t: Trade, o: Order, j: nat)
    requires RefsOk(db.orders, db.execs) && t.order < |db.orders| && db.orders[t.order].terms.partnerId.Just?
    requires o.terms == db.orders[t.order].terms && j < |db.orders| && j != t.order
    requires OrderFits(db.orders, db.execs, j)
    ensures OrderFits(db.orders[t.order := o], Recorded(db, t).execs, j)
  {
    FillSums(db, t, j);
    FillFrames(db, t, o, j);
  }

  lemma FillFitOwn(db: Db, t: Trade, o: Order)
    requires RefsOk(db.orders, db.execs) && t.order < |db.orders| && OrderFits(db.orders, db.execs, t.order)
    requires var own := db.orders[t.order];
      && !own.terms.simulated && own.terms.partnerId.Just? && t.quantity > 0
      && own.filled == ExecSum(db.orders, db.execs, Traded(t.order))
      && o.terms == own.terms && o.reserveTxn == own.reserveTxn
      && o.filled == own.filled + t.quantity <= own.terms.quantity
      && (own.terms.side == BUY && own.terms.currency in ZERO_DECIMAL ==>
            var debit := BuyDebit(own.terms, t, own.terms.currency);
            debit <= Left(db.orders, db.execs, t.order) && debit % ONE == 0)
    ensures OrderFits(db.orders[t.order := o], Recorded(db, t).execs, t.order)
  {
    FillSums(db, t, t.order);
    FillFrames(db, t, o, t.order);
    if o.terms.side == BUY && o.terms.currency in ZERO_DECIMAL {
      WholeDifference(Left(db.orders, db.execs, t.order), BuyDebit(o.terms, t, o.terms.currency));
    }
  }

  lemma FillWhole(db: Db, t: Trade)
    requires Fillable(db, t) && db.orders[t.order].terms.partnerId.Just? && RecordExecution(db, t).Ok?
    requires db.orders[t.order].terms.side == BUY && db.orders[t.order].terms.currency in ZERO_DECIMAL
    ensures var terms := db.orders[t.order].terms;
            var debit := BuyDebit(terms, t, terms.currency);
            debit <= Left(db.orders, db.execs, t.order) && debit % ONE == 0
  {
    RecordResult(db, t);
    assert OrderFits(db.orders, db.execs, t.order);
    DebitWhole(|db.execs|, db.orders[t.order].terms, t);
  }

  lemma DebitWhole(exec: nat, terms: Terms, t: Trade)
    requires terms.partnerId.Just? && terms.side == BUY && terms.currency in ZERO_DECIMAL
    requires Normalise(FillInput(exec, terms, t)) == Nothing
    ensures BuyDebit(terms, t, terms.currency) % ONE == 0
  {
    AcceptedAmountRounded(FillInput(exec, terms, t), 0);
    RoundedNegated(BuyDebit(terms, t, terms.currency), terms.currency);
    WholeIsRounded(BuyDebit(terms, t, terms.currency), terms.currency);
  }

  lemma FillOrders(db: Db, t: Trade, after: Db)
    requires Fillable(db, t) && db.orders[t.order].terms.partnerId.Just? && RecordExecution(db, t).Ok?
    requires after.execs == Recorded(db, t).execs && |after.orders| == |db.orders|
    requires after.orders == db.orders[t.order := after.orders[t.order]]
    requires var o, own := after.orders[t.order], db.orders[t.order];
      o.terms == own.terms && o.reserveTxn == own.reserveTxn && o.filled == own.filled + t.quantity
    ensures OrdersFit(after)
  {
    var o := after.orders[t.order];
    RemainderIsHeld(db, t.order);
    if o.terms.side == BUY && o.terms.currency in ZERO_DECIMAL { FillWhole(db, t); }
    CoreRefs(db);
    assert OrderFits(db.orders, db.execs, t.order);
    FillFitOwn(db, t, o);
    forall j | 0 <= j < |after.orders| ensures OrderFits(after.orders, after.execs, j) {
      assert OrderFits(db.orders, db.execs, j);
      if j != t.order { FillFitOther(db, t, o, j); }
    }
  }

  lemma FillKeys(db: Db, t: Trade, after: Db)
    requires KeysOk(db) && t.order < |db.orders| && db.orders[t.order].terms.partnerId.Just?
    requires after.log == db.log + [Record(FillInput(|db.execs|, db.orders[t.order].terms, t), Nothing)]
    requires after.execs == db.execs + [Exec(t, Unsettled, Just(|db.log|), Nothing)] && after.intents == db.intents
    requires |after.orders| == |db.orders|
    requires forall i :: 0 <= i < |db.orders| ==> after.orders[i].released == db.orders[i].released
    ensures KeysOk(after)
  {
  }

  lemma FillPositions(db: Db, t: Trade, after: Db)
    requires PositionsOk(db) && t.order < |db.orders| && db.orders[t.order].terms.partnerId.Just? && t.quantity > 0
    requires after.positions == Recorded(db, t).positions
    ensures PositionsOk(after)
  {
    var terms := db.orders[t.order].terms;
    var db1 := db.(log := Recorded(db, t).log, execs := Recorded(db, t).execs);
    forall u, i ensures PositionOk(db1, u, i) { assert PositionOk(db, u, i); }
    if terms.side == BUY { PendingExact(db1, terms, t.quantity, t.price); }
    forall u, i ensures PositionOk(after, u, i) { assert PositionOk(Recorded(db, t), u, i); }
  }

  /** One book after the execution and the order's counters. */
  lemma FillRowBook(db: Db, t: Trade, fill: FillResult, status: OrderStatus, b: Book)
    requires t.order < |db.orders| && RefsOk(db.orders, db.execs) && BookOk(db, b) && PositionsOk(db)
    requires var o := db.orders[t.order];
      !o.terms.simulated && !o.released && o.terms.partnerId.Just? && t.quantity > 0
    ensures BookOk(SetFill(Recorded(db, t), t.order, fill, status), b)
  {
    var recorded := Recorded(db, t);
    var o := Updated(db.orders[t.order], fill, status);
    FillBook(db, t, b);
    IdleOrderColumns(recorded, t.order, o, b);
    assert SetFill(recorded, t.order, fill, status) == recorded.(orders := recorded.orders[t.order := o]);
    IdleActual(recorded, recorded.orders[t.order := o], b);
  }

  /** The order table has no part in what the counters say. */
  lemma IdleActual(db: Db, orders: seq<Order>, b: Book)
    ensures Actual(db.(orders := orders), b) == Actual(db, b)
  {
  }

  lemma FillBooks(db: Db, t: Trade, fill: FillResult, status: OrderStatus)
    requires Fillable(db, t) && db.orders[t.order].terms.partnerId.Just?
    ensures BooksOk(SetFill(Recorded(db, t), t.order, fill, status))
  {
    CoreRefs(db);
    forall b | Kept(b) ensures BookOk(SetFill(Recorded(db, t), t.order, fill, status), b) {
      assert BookOk(db, b);
      FillRowBook(db, t, fill, status, b);
    }
  }

  /** The rows an accepted execution leaves, with the order's counters. */
  lemma FillRows(db: Db, t: Trade, fill: FillResult, status: OrderStatus)
    requires t.order < |db.orders| && db.orders[t.order].terms.partnerId.Just?
    ensures var after := SetFill(Recorded(db, t), t.order, fill, status);
            && after.log == db.log + [Record(FillInput(|db.execs|, db.orders[t.order].terms, t), Nothing)]
            && after.execs == db.execs + [Exec(t, Unsettled, Just(|db.log|), Nothing)]
            && after.orders == db.orders[t.order := Updated(db.orders[t.order], fill, status)]
            && after.positions == Recorded(db, t).positions && after.intents == db.intents
  {
  }

  /** An accepted execution, with the order's counters, keeps the core. */
  lemma FillKeeps(db: Db, t: Trade, fill: FillResult, status: OrderStatus)
    requires Fillable(db, t) && db.orders[t.order].terms.partnerId.Just? && RecordExecution(db, t).Ok?
    requires fill.filled == db.orders[t.order].filled + t.quantity
    ensures Core(SetFill(Recorded(db, t), t.order, fill, status))
  {
    RecordResult(db, t);
    FillRows(db, t, fill, status);
    var after := SetFill(Recorded(db, t), t.order, fill, status);
    FillOrders(db, t, after);
    FillBooks(db, t, fill, status);
    FillKeys(db, t, after);
    FillExecs(db, t, after);
    FillPositions(db, t, after);
  }

  // ------------------------------------------------------------ whole lines

  function FillOf(o: Order, t: Trade): Maybe<FillResult>
    requires o.filled >= 0
  {
    ApplyFill(FillState(o.terms.quantity, o.filled, o.avg), t.quantity, t.price)
  }

  /** Statuses after an execution, closing or not. */
  lemma FillStatuses(db: Db, t: Trade, o: Order, after: Db)
    requires StatusesOk(db) && t.order < |db.orders| && db.orders[t.order].terms.partnerId.Just?
    requires after.orders == db.orders[t.order := o]
    requires after.execs == db.execs + [Exec(t, Unsettled, Just(|db.log|), Nothing)]
    requires StatusOk(o) && Clean(db.execs, t.order)
    ensures StatusesOk(after)
  {
    forall i | 0 <= i < |after.orders|
      ensures StatusOk(after.orders[i]) && (!IsFinal(after.orders[i].status) ==> Clean(after.execs, i))
    {
      assert StatusOk(db.orders[i]);
    }
  }

  /** An order open at the SDB is real, unreleased and clean, so it can be filled. */
  lemma OpenIsFillable(db: Db, t: Trade)
    requires Inv(db) && t.order < |db.orders| && OpenAtSdb(db.orders[t.order].status)
    requires FindExec(db.execs, t.ref) == Nothing
    ensures Releasable(db, t.order) && db.orders[t.order].terms.partnerId.Just? && db.orders[t.order].filled >= 0
    ensures FillOf(db.orders[t.order], t).Just? ==> Fillable(db, t)
  {
    assert StatusOk(db.orders[t.order]);
    assert OrderFits(db.orders, db.execs, t.order);
  }

  /** The rows an accepted line leaves before the reserve's remainder is released. */
  function AfterFill(db: Db, t: Trade): Db
    requires t.order < |db.orders| && db.orders[t.order].terms.partnerId.Just? && db.orders[t.order].filled >= 0
    requires FillOf(db.orders[t.order], t).Just?
  {
    var fill := FillOf(db.orders[t.order], t).value;
    SetFill(Recorded(db, t), t.order, fill, fill.status)
  }

  /** A new line is accepted only on an open order it does not over-fill. */
  lemma ApplyNeeds(db: Db, t: Trade)
    requires Inv(db) && FindExec(db.execs, t.ref) == Nothing && ApplyExecution(db, t).Ok?
    ensures t.order < |db.orders| && OpenAtSdb(db.orders[t.order].status) && Fillable(db, t)
    ensures db.orders[t.order].terms.partnerId.Just? && RecordExecution(db, t).Ok?
    ensures db.orders[t.order].filled >= 0 && FillOf(db.orders[t.order], t).Just?
    ensures CanTransition(db.orders[t.order].status, FillOf(db.orders[t.order], t).value.status)
  {
    OpenIsFillable(db, t);
  }

  /** `applyExecution` spelled out for a new reference on an open order. */
  lemma ApplyResult(db: Db, t: Trade)
    requires t.order < |db.orders| && OpenAtSdb(db.orders[t.order].status) && FindExec(db.execs, t.ref) == Nothing
    requires db.orders[t.order].terms.partnerId.Just? && db.orders[t.order].filled >= 0
    requires FillOf(db.orders[t.order], t).Just?
    requires CanTransition(db.orders[t.order].status, FillOf(db.orders[t.order], t).value.status)
    requires RecordExecution(db, t) == Ok(Recorded(db, t))
    ensures ApplyExecution(db, t) ==
      if FillOf(db.orders[t.order], t).value.status == EXECUTED then ReleaseRemaining(AfterFill(db, t), t.order)
      else Ok(AfterFill(db, t))
  {
  }

  lemma FilledIsReleasable(db: Db, t: Trade)
    requires Fillable(db, t) && db.orders[t.order].terms.partnerId.Just? && RecordExecution(db, t).Ok?
    requires db.orders[t.order].filled >= 0 && FillOf(db.orders[t.order], t).Just?
    ensures Releasable(AfterFill(db, t), t.order)
  {
    var fill := FillOf(db.orders[t.order], t).value;
    FillKeeps(db, t, fill, fill.status);
    FillRows(db, t, fill, fill.status);
  }

  /** An accepted line: what it leaves of the orders and executions. */
  lemma ApplyRows(db: Db, t: Trade)
    requires Inv(db) && FindExec(db.execs, t.ref) == Nothing && ApplyExecution(db, t).Ok?
    ensures t.order < |db.orders| && db.orders[t.order].filled >= 0 && FillOf(db.orders[t.order], t).Just?
    ensures db.orders[t.order].terms.partnerId.Just?
    ensures var o := db.orders[t.order];
            var fill := FillOf(o, t).value;
            var after := ApplyExecution(db, t).value;
            && CanTransition(o.status, fill.status)
            && after.execs == db.execs + [Exec(t, Unsettled, Just(|db.log|), Nothing)] && after.intents == db.intents
            && after.orders == db.orders[t.order := Updated(o, fill, fill.status).(released := fill.status == EXECUTED)]
            && Core(after)
  {
    ApplyNeeds(db, t);
    RecordResult(db, t);
    ApplyResult(db, t);
    var o := db.orders[t.order];
    assert !o.released;
    var fill := FillOf(o, t).value;
    FillRows(db, t, fill, fill.status);
    FilledIsReleasable(db, t);
    if fill.status == EXECUTED { ReleaseKeeps(AfterFill(db, t), t.order); }
  }

  lemma ExecuteKeeps(db: Db, t: Trade)
    requires Inv(db) && ApplyExecution(db, t).Ok?
    ensures Inv(ApplyExecution(db, t).value)
  {
    if FindExec(db.execs, t.ref) == Nothing {
      ApplyNeeds(db, t);
      ApplyRows(db, t);
      var o := db.orders[t.order];
      var fill := FillOf(o, t).value;
      assert StatusOk(o);
      FillStatuses(db, t, Updated(o, fill, fill.status).(released := fill.status == EXECUTED), ApplyExecution(db, t).value);
    }
  }
}
