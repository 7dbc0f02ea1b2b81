/** Every service call keeps the invariant: placement, status moves and closings. */
module BrokerageSteps {
  import opened Decimals
  import opened LedgerModel
  import opened OrderState
  import opened BrokerageModel
  import opened BrokerageBooks
  import opened BrokerageInvariant
  import Fees

  // ------------------------------------------------------- moving one status

  /** A change of status, batch or times leaves the core as it is. */
  lemma IdleRowKeeps(db: Db, i: nat, o: Order)
    requires Core(db) && i < |db.orders|
    requires o.terms == db.orders[i].terms && o.released == db.orders[i].released
    requires o.filled == db.orders[i].filled && o.reserveTxn == db.orders[i].reserveTxn
    ensures Core(db.(orders := db.orders[i := o]))
  {
    var after := db.(orders := db.orders[i := o]);
    CoreRefs(db);
    KeysCarryOver(db, after);
    ExecsCarryOver(db, after);
    OrdersCarryOver(db, after);
    forall u, ins ensures PositionOk(after, u, ins) { assert PositionOk(db, u, ins); }
    forall b | Kept(b) ensures BookOk(after, b) {
      assert BookOk(db, b);
      IdleOrderColumns(db, i, o, b);
    }
  }

  /** Moving an order between two non-final statuses. */
  lemma AdvanceKeeps(db: Db, i: nat, o: Order)
    requires Inv(db) && i < |db.orders| && !IsFinal(db.orders[i].status)
    requires o == db.orders[i].(status := o.status, batch := o.batch, transmittedAt := o.transmittedAt)
    requires o.status in {TRANSMITTED, ACKNOWLEDGED} && db.orders[i].filled == 0
    ensures Inv(db.(orders := db.orders[i := o]))
  {
    assert OrderFits(db.orders, db.execs, i);
    assert StatusOk(db.orders[i]);
    IdleRowKeeps(db, i, o);
    AdvanceStatuses(db, i, o);
  }

  lemma AdvanceStatuses(db: Db, i: nat, o: Order)
    requires StatusesOk(db) && i < |db.orders| && !IsFinal(db.orders[i].status) && StatusOk(o)
    ensures StatusesOk(db.(orders := db.orders[i := o]))
  {
    var after := db.(orders := db.orders[i := o]);
    forall j | 0 <= j < |after.orders|
      ensures StatusOk(after.orders[j]) && (!IsFinal(after.orders[j].status) ==> Clean(after.execs, j))
    {
      assert StatusOk(db.orders[j]);
    }
  }

  lemma Closable(db: Db, i: nat, status: OrderStatus)
    requires Inv(db) && i < |db.orders| && !IsFinal(db.orders[i].status)
    requires IsFinal(status) && status != EXECUTED
    ensures Releasable(SetStatus(db, i, status), i)
    ensures StatusOk(db.orders[i].(status := status, released := true))
  {
    assert StatusOk(db.orders[i]);
    IdleRowKeeps(db, i, db.orders[i].(status := status));
  }

  lemma ClosedStatuses(db: Db, i: nat, o: Order, after: Db)
    requires StatusesOk(db) && i < |db.orders| && StatusOk(o) && IsFinal(o.status)
    requires after.orders == db.orders[i := o] && after.execs == db.execs
    ensures StatusesOk(after)
  {
    forall j | 0 <= j < |after.orders|
      ensures StatusOk(after.orders[j]) && (!IsFinal(after.orders[j].status) ==> Clean(after.execs, j))
    {
      assert StatusOk(db.orders[j]);
    }
  }

  /** Closing an open order on a final status other than EXECUTED: the release goes with it,
      and is refused at most on a purchase in a currency with decimals. */
  lemma CloseKeeps(db: Db, i: nat, status: OrderStatus)
    requires Inv(db) && i < |db.orders| && !IsFinal(db.orders[i].status)
    requires IsFinal(status) && status != EXECUTED
    ensures ExactRelease(db.orders[i].terms) ==> Close(db, i, status).Ok?
    ensures Close(db, i, status).Ok? ==>
      var after := Close(db, i, status).value;
      && Inv(after)
      && after.orders == db.orders[i := db.orders[i].(status := status, released := true)]
      && after.execs == db.execs && after.intents == db.intents
  {
    Closable(db, i, status);
    ReleaseKeeps(SetStatus(db, i, status), i);
    if Close(db, i, status).Ok? {
      ClosedStatuses(db, i, db.orders[i].(status := status, released := true), Close(db, i, status).value);
    }
  }

  // --------------------------------------------------------------- placement

  /** Drafts of the program: a listed price is positive, and so are the fee lines
      (`Fees.ComputeOrderFees`). */
  predicate GoodDraft(d: Draft) {
    d.price >= 0 && forall j :: 0 <= j < |d.fees| ==> d.fees[j].amount >= 0
  }

  lemma {:induction false} FeesNonNegative(fees: seq<Fees.FeeLine>)
    requires forall j :: 0 <= j < |fees| ==> fees[j].amount >= 0
    ensures Fees.FeeTotal(fees) >= 0
  {
    if fees != [] { FeesNonNegative(fees[1..]); }
  }

  lemma MaxAmountNonNegative(d: Draft)
    requires GoodDraft(d) && d.quantity > 0
    ensures MaxAmount(d) >= 0
  {
    FeesNonNegative(d.fees);
    assert d.quantity * d.price >= 0;
  }

  /** A new row at the end of the order table. */
  lemma NewRowKeeps(db: Db, o: Order, after: Db)
    requires ExecsOk(db) && OrdersFit(db)
    requires after == db.(orders := db.orders + [o], log := after.log, positions := after.positions)
    requires |db.log| <= |after.log| && forall t :: 0 <= t < |db.log| ==> after.log[t] == db.log[t]
    requires o.terms.quantity > 0
    requires !o.terms.simulated ==>
      && o.terms.partnerId.Just? && o.filled == 0
      && (o.terms.side == BUY ==> o.reserveTxn.Just? && o.terms.maxAmount >= 0 && ReserveRounded(o.terms))
    ensures ExecsOk(after) && OrdersFit(after)
  {
    CoreRefs(db);
    ExecsCarryOver(db, after);
    var n := |db.orders|;
    forall j | 0 <= j < |after.orders| ensures OrderFits(after.orders, after.execs, j) {
      if j < n {
        FitCarriesOver(db.orders, after.orders, db.execs, j);
      } else {
        NoExecsYet(after.orders, after.execs, n);
        if o.terms.currency in ZERO_DECIMAL { WholeIsRounded(o.terms.maxAmount, o.terms.currency); }
      }
    }
  }

  lemma NewRowKeys(db: Db, o: Order, log: Log)
    requires KeysOk(db)
    requires log == db.log || exists t :: log == db.log + [t] && t.key == Key.Reserve(|db.orders|)
    ensures KeysOk(db.(orders := db.orders + [o], log := log))
  {
  }

  /** One book after a new BUY order and its RESERVE. */
  lemma PlaceBuyBook(db: Db, o: Order, b: Book)
    requires RefsOk(db.orders, db.execs) && BookOk(db, b)
    requires o.terms.side == BUY && !o.terms.simulated && !o.released
    ensures var txn := Record(ReserveInput(|db.orders|, o.terms), Nothing);
            BookOk(db.(orders := db.orders + [o], log := db.log + [txn]), b)
  {
    var n := |db.orders|;
    var txn := Record(ReserveInput(n, o.terms), Nothing);
    var after := db.(orders := db.orders + [o], log := db.log + [txn]);
    OrderAdded(db, o, b);
    NoExecsYet(after.orders, db.execs, n);
    assert Expected(after, b) == Expected(db.(orders := db.orders + [o]), b);
    if ViewOf(b).Just? {
      TotalAppend(db.log, txn, ViewOf(b).value);
      MoveDelta(UserAccount(o.terms.userId, o.terms.currency, AVAILABLE),
                UserAccount(o.terms.userId, o.terms.currency, RESERVED), o.terms.maxAmount, ViewOf(b).value);
    }
  }

  lemma PlaceBuyResult(db: Db, d: Draft)
    requires Core(db) && GoodDraft(d) && d.quantity > 0 && d.partnerId.Just? && !d.simulated && d.side == BUY
    requires PlaceOrder(db, d).Ok?
    ensures var o := NewOrder(d).(reserveTxn := Just(|db.log|));
            var txn := Record(ReserveInput(|db.orders|, o.terms), Nothing);
            && PlaceOrder(db, d).value == db.(orders := db.orders + [o], log := db.log + [txn])
            && WellFormed(db.log + [txn]) && o.terms.maxAmount >= 0 && ReserveRounded(o.terms)
  {
    var input := ReserveInput(|db.orders|, DraftTerms(d));
    var created := db.(orders := db.orders + [NewOrder(d)]);
    FreshKey(db, input.key);
    PostFacts(created, input);
    MaxAmountNonNegative(d);
    AcceptedAmountRounded(input, 1);
    assert PostTxn(created, input).Ok?;
    assert (db.orders + [NewOrder(d)])[|db.orders| := NewOrder(d).(reserveTxn := Just(|db.log|))]
        == db.orders + [NewOrder(d).(reserveTxn := Just(|db.log|))];
  }

  lemma PlaceBuyKeeps(db: Db, d: Draft)
    requires Core(db) && GoodDraft(d) && d.quantity > 0 && d.partnerId.Just? && !d.simulated && d.side == BUY
    requires PlaceOrder(db, d).Ok?
    ensures Core(PlaceOrder(db, d).value)
  {
    PlaceBuyResult(db, d);
    var o := NewOrder(d).(reserveTxn := Just(|db.log|));
    var after := PlaceOrder(db, d).value;
    CoreRefs(db);
    NewRowKeys(db, o, after.log);
    NewRowKeeps(db, o, after);
    forall u, ins ensures PositionOk(after, u, ins) { assert PositionOk(db, u, ins); }
    forall b | Kept(b) ensures BookOk(after, b) {
      assert BookOk(db, b);
      PlaceBuyBook(db, o, b);
    }
  }

  /** Shares put aside for a sale, when the position has them free. */
  lemma ReserveExact(db: Db, terms: Terms)
    requires PositionsOk(db) && terms.quantity > 0 && ReserveShares(db, terms).Ok?
    ensures var after := ReserveShares(db, terms).value;
            && after == db.(positions := after.positions)
            && PositionsOk(after)
            && forall u, i :: PositionOf(after, u, i) ==
                 (var p := PositionOf(db, u, i);
                  if u == terms.userId && i == terms.instrumentId then p.(reserved := p.reserved + terms.quantity) else p)
  {
    var after := ReserveShares(db, terms).value;
    forall u, i
      ensures PositionOf(after, u, i) ==
        (var p := PositionOf(db, u, i);
         if u == terms.userId && i == terms.instrumentId then p.(reserved := p.reserved + terms.quantity) else p)
    {
    }
    forall u, i ensures PositionOk(after, u, i) { assert PositionOk(db, u, i); }
  }

  lemma PlaceSellBook(db: Db, o: Order, b: Book)
    requires RefsOk(db.orders, db.execs) && BookOk(db, b) && PositionsOk(db)
    requires o.terms.side == SELL && !o.terms.simulated && !o.released && o.terms.quantity > 0
    requires ReserveShares(db.(orders := db.orders + [o]), o.terms).Ok?
    ensures BookOk(ReserveShares(db.(orders := db.orders + [o]), o.terms).value, b)
  {
    var created := db.(orders := db.orders + [o]);
    OrderAdded(db, o, b);
    NoExecsYet(created.orders, db.execs, |db.orders|);
    forall u, ins ensures PositionOk(created, u, ins) { assert PositionOk(db, u, ins); }
    ReserveExact(created, o.terms);
    var after := ReserveShares(created, o.terms).value;
    assert Expected(after, b) == Expected(created, b);
  }

  lemma PlaceSellKeeps(db: Db, d: Draft)
    requires Core(db) && GoodDraft(d) && d.quantity > 0 && d.partnerId.Just? && !d.simulated && d.side == SELL
    requires PlaceOrder(db, d).Ok?
    ensures Core(PlaceOrder(db, d).value)
    ensures PlaceOrder(db, d).value.orders == db.orders + [NewOrder(d)]
    ensures PlaceOrder(db, d).value.execs == db.execs
  {
    var o := NewOrder(d);
    var created := db.(orders := db.orders + [o]);
    var after := PlaceOrder(db, d).value;
    CoreRefs(db);
    forall u, ins ensures PositionOk(created, u, ins) { assert PositionOk(db, u, ins); }
    ReserveExact(created, o.terms);
    NewRowKeys(db, o, db.log);
    NewRowKeeps(db, o, after);
    forall b | Kept(b) ensures BookOk(after, b) {
      assert BookOk(db, b);
      PlaceSellBook(db, o, b);
    }
  }

  lemma PlacePaperKeeps(db: Db, d: Draft)
    requires Core(db) && d.quantity > 0 && d.simulated
    ensures Core(db.(orders := db.orders + [NewOrder(d)]))
  {
    var o := NewOrder(d);
    var after := db.(orders := db.orders + [o]);
    CoreRefs(db);
    NewRowKeys(db, o, db.log);
    NewRowKeeps(db, o, after);
    forall u, ins ensures PositionOk(after, u, ins) { assert PositionOk(db, u, ins); }
    forall b | Kept(b) ensures BookOk(after, b) {
      assert BookOk(db, b);
      OrderAdded(db, o, b);
    }
  }

  /** Statuses after a new row: nothing was executed on it. */
  lemma NewRowStatuses(db: Db, o: Order, after: Db)
    requires StatusesOk(db) && RefsOk(db.orders, db.execs)
    requires after.orders == db.orders + [o] && after.execs == db.execs && StatusOk(o)
    ensures StatusesOk(after)
  {
    forall i | 0 <= i < |after.orders|
      ensures StatusOk(after.orders[i]) && (!IsFinal(after.orders[i].status) ==> Clean(after.execs, i))
    {
      if i < |db.orders| { assert StatusOk(db.orders[i]); }
    }
  }

  lemma PlaceKeeps(db: Db, d: Draft)
    requires Inv(db) && GoodDraft(d) && PlaceOrder(db, d).Ok?
    ensures Inv(PlaceOrder(db, d).value)
  {
    CoreRefs(db);
    var after := PlaceOrder(db, d).value;
    if d.simulated {
      PlacePaperKeeps(db, d);
      NewRowStatuses(db, NewOrder(d), after);
    } else if d.side == BUY {
      PlaceBuyResult(db, d);
      PlaceBuyKeeps(db, d);
      NewRowStatuses(db, NewOrder(d).(reserveTxn := Just(|db.log|)), after);
    } else {
      PlaceSellKeeps(db, d);
      NewRowStatuses(db, NewOrder(d), after);
    }
  }
}
