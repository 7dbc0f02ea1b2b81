/** Every service call keeps the invariant: settlement and failed deliveries. */
module BrokerageDelivery {
  import opened Decimals
  import opened LedgerModel
  import opened OrderState
  import opened BrokerageModel
  import opened BrokerageBooks
  import opened BrokerageInvariant
  import opened BrokerageSteps
  import Fees

  /** An execution whose delivery is still awaited. */
  predicate Awaited(db: Db, k: nat) {
    k < |db.execs| && Undelivered(db.execs[k]) && db.execs[k].trade.order < |db.orders|
  }

  function TermsOf(db: Db, k: nat): Terms
    requires Awaited(db, k)
  {
    db.orders[db.execs[k].trade.order].terms
  }

  // ------------------------------------------------- the clamps never bite

  /** A position's pending shares cover each awaited purchase. */
  lemma PendingCovers(db: Db, k: nat)
    requires Core(db) && Awaited(db, k) && TermsOf(db, k).side == BUY
    ensures var terms := TermsOf(db, k);
            PositionOf(db, terms.userId, terms.instrumentId).pending >= db.execs[k].trade.quantity
  {
    var terms := TermsOf(db, k);
    var b := PendingShares(terms.userId, terms.instrumentId);
    assert BookOk(db, b);
    ZeroSum(OrderTerms(db.orders, db.execs, b));
    ZeroSum(IntentTerms(db.intents, b));
    ShareTermsCover(db, b, k);
  }

  /** A sum of shares over the executions is at least each of its terms. */
  lemma ShareTermsCover(db: Db, b: Book, k: nat)
    requires ExecsOk(db) && (b.PendingShares? || b.ReservedShares?) && k < |db.execs|
    ensures ExecSum(db.orders, db.execs, For(b)) >= ExecTerm(db.orders, db.execs[k], For(b))
  {
    var shares := ExecTerms(db.orders, db.execs, For(b));
    forall j | 0 <= j < |shares| ensures shares[j] >= 0 {
      assert ExecOk(db.log, db.orders, j, db.execs[j]);
    }
    AddAtLeast(shares, k);
  }

  lemma HeldSharesNonNegative(db: Db, b: Book)
    requires OrdersFit(db) && b.ReservedShares?
    ensures OrderSum(db.orders, db.execs, b) >= 0
  {
    var held := OrderTerms(db.orders, db.execs, b);
    forall j | 0 <= j < |held| ensures held[j] >= 0 {
      assert OrderFits(db.orders, db.execs, j);
    }
    AddNonNegative(held);
  }

  /** A position's reserved shares cover each awaited sale. */
  lemma SoldCovers(db: Db, k: nat)
    requires Core(db) && Awaited(db, k) && TermsOf(db, k).side == SELL
    ensures var terms := TermsOf(db, k);
            PositionOf(db, terms.userId, terms.instrumentId).reserved >= db.execs[k].trade.quantity
  {
    var terms := TermsOf(db, k);
    var b := ReservedShares(terms.userId, terms.instrumentId);
    assert BookOk(db, b);
    HeldSharesNonNegative(db, b);
    ZeroSum(IntentTerms(db.intents, b));
    ShareTermsCover(db, b, k);
  }

  /** Proceeds never below zero: what the SDB's files are assumed to hold for sales. */
  predicate NetsNonNegative(db: Db) {
    forall k :: 0 <= k < |db.execs| ==>
      var t := db.execs[k].trade;
      t.order < |db.orders| && db.orders[t.order].terms.side == SELL ==> t.net >= 0
  }

  /** A client's SETTLING balance covers the proceeds of each awaited sale. */
  lemma SettlingCovers(db: Db, k: nat)
    requires Core(db) && NetsNonNegative(db) && Awaited(db, k) && TermsOf(db, k).side == SELL
    ensures var terms := TermsOf(db, k);
            Balance(db.log, UserAccount(terms.userId, terms.currency, Kind.SETTLING)) >= db.execs[k].trade.net
  {
    var terms := TermsOf(db, k);
    var b := SettlingCash(terms.userId, terms.currency);
    assert BookOk(db, b);
    ZeroSum(OrderTerms(db.orders, db.execs, b));
    ZeroSum(IntentTerms(db.intents, b));
    AddAtLeast(ExecTerms(db.orders, db.execs, For(b)), k);
  }

  // ------------------------------------------------------------- positions

  /** A settled purchase moves shares from pending to held. */
  lemma SettleBuyExact(db: Db, terms: Terms, qty: Dec)
    requires PositionsOk(db) && 0 < qty <= PositionOf(db, terms.userId, terms.instrumentId).pending
    ensures var after := SettleBuyShares(db, terms, qty);
            && after == db.(positions := after.positions) && PositionsOk(after)
            && forall u, i :: PositionOf(after, u, i) ==
                 (var p := PositionOf(db, u, i);
                  if u == terms.userId && i == terms.instrumentId
                  then p.(pending := p.pending - qty, quantity := p.quantity + qty) else p)
  {
    var after := SettleBuyShares(db, terms, qty);
    forall u, i ensures PositionOk(after, u, i) { assert PositionOk(db, u, i); }
  }

  /** A settled sale takes the shares out of both the reserve and the holding. */
  lemma SettleSellExact(db: Db, terms: Terms, qty: Dec)
    requires PositionsOk(db) && 0 < qty <= PositionOf(db, terms.userId, terms.instrumentId).reserved
    ensures var after := SettleSellShares(db, terms, qty);
            && after == db.(positions := after.positions) && PositionsOk(after)
            && forall u, i :: PositionOf(after, u, i) ==
                 (var p := PositionOf(db, u, i);
                  if u == terms.userId && i == terms.instrumentId
                  then p.(reserved := p.reserved - qty, quantity := p.quantity - qty) else p)
  {
    var after := SettleSellShares(db, terms, qty);
    assert PositionOk(db, terms.userId, terms.instrumentId);
    forall u, i ensures PositionOk(after, u, i) { assert PositionOk(db, u, i); }
  }

  lemma DropPendingExact(db: Db, terms: Terms, qty: Dec)
    requires PositionsOk(db) && 0 < qty <= PositionOf(db, terms.userId, terms.instrumentId).pending
    ensures var after := DropPendingShares(db, terms, qty);
            && after == db.(positions := after.positions) && PositionsOk(after)
            && forall u, i :: PositionOf(after, u, i) ==
                 (var p := PositionOf(db, u, i);
                  if u == terms.userId && i == terms.instrumentId then p.(pending := p.pending - qty) else p)
  {
    var after := DropPendingShares(db, terms, qty);
    forall u, i ensures PositionOk(after, u, i) { assert PositionOk(db, u, i); }
  }

  // ------------------------------------------------------------ settlement

  /** The rows after a settlement, ledger apart. */
  function SettledRow(db: Db, k: nat, txn: Maybe<nat>): Exec
    requires k < |db.execs|
  {
    db.execs[k].(state := Settled, settlementTxn := txn)
  }

  lemma SettleBuyBook(db: Db, k: nat, b: Book)
    requires Awaited(db, k) && TermsOf(db, k).side == BUY && BookOk(db, b) && PositionsOk(db)
    requires var terms := TermsOf(db, k);
      0 < db.execs[k].trade.quantity <= PositionOf(db, terms.userId, terms.instrumentId).pending
    ensures BookOk(MarkExec(SettleBuyShares(db, TermsOf(db, k), db.execs[k].trade.quantity), k, Settled, Nothing), b)
  {
    var terms := TermsOf(db, k);
    SettleBuyExact(db, terms, db.execs[k].trade.quantity);
    var moved := SettleBuyShares(db, terms, db.execs[k].trade.quantity);
    var e := SettledRow(db, k, Nothing);
    ExecRowChanges(db, k, e, b);
    var after := MarkExec(moved, k, Settled, Nothing);
    assert Expected(after, b) == Expected(db.(execs := db.execs[k := e]), b);
  }

  lemma SettleSellBook(db: Db, k: nat, b: Book)
    requires Awaited(db, k) && TermsOf(db, k).side == SELL && !TermsOf(db, k).simulated && BookOk(db, b) && PositionsOk(db)
    requires var terms := TermsOf(db, k);
      0 < db.execs[k].trade.quantity <= PositionOf(db, terms.userId, terms.instrumentId).reserved
    ensures var terms := TermsOf(db, k);
            var t := db.execs[k].trade;
            var posted := db.(log := db.log + [Record(SettlementInput(k, terms, t), Nothing)]);
            BookOk(MarkExec(SettleSellShares(posted, terms, t.quantity), k, Settled, Just(|db.log|)), b)
  {
    var terms := TermsOf(db, k);
    var t := db.execs[k].trade;
    var txn := Record(SettlementInput(k, terms, t), Nothing);
    var posted := db.(log := db.log + [txn]);
    forall u, i ensures PositionOk(posted, u, i) { assert PositionOk(db, u, i); }
    SettleSellExact(posted, terms, t.quantity);
    var after := MarkExec(SettleSellShares(posted, terms, t.quantity), k, Settled, Just(|db.log|));
    var e := SettledRow(db, k, Just(|db.log|));
    ExecRowChanges(db, k, e, b);
    assert Expected(after, b) == Expected(db.(execs := db.execs[k := e]), b);
    if ViewOf(b).Just? {
      TotalAppend(db.log, txn, ViewOf(b).value);
      MoveDelta(UserAccount(terms.userId, terms.currency, Kind.SETTLING),
                UserAccount(terms.userId, terms.currency, AVAILABLE), t.net, ViewOf(b).value);
    }
  }

  /** An order's figures do not depend on which deliveries succeeded. */
  lemma SettledFit(db: Db, k: nat, e: Exec, after: Db)
    requires OrdersFit(db) && k < |db.execs| && e.trade == db.execs[k].trade
    requires (e.state == Failed) == (db.execs[k].state == Failed)
    requires after.orders == db.orders && after.execs == db.execs[k := e]
    ensures OrdersFit(after)
  {
    forall j | 0 <= j < |after.orders| ensures OrderFits(after.orders, after.execs, j) {
      assert OrderFits(db.orders, db.execs, j);
      ExecSumUpdate(db.orders, db.execs, k, e, Spent(j));
      ExecSumUpdate(db.orders, db.execs, k, e, Traded(j));
      ExecSumUpdate(db.orders, db.execs, k, e, FilledOf(j));
    }
  }

  lemma SettledExecs(db: Db, k: nat, after: Db)
    requires ExecsOk(db) && Awaited(db, k) && after.orders == db.orders
    requires
      if TermsOf(db, k).side == BUY then after.log == db.log && after.execs == db.execs[k := SettledRow(db, k, Nothing)]
      else after.log == db.log + [Record(SettlementInput(k, TermsOf(db, k), db.execs[k].trade), Nothing)] &&
           after.execs == db.execs[k := SettledRow(db, k, Just(|db.log|))]
    ensures ExecsOk(after)
  {
    forall j | 0 <= j < |after.execs| ensures ExecOk(after.log, after.orders, j, after.execs[j]) {
      assert ExecOk(db.log, db.orders, j, db.execs[j]);
    }
    forall j | 0 <= j < |after.execs| ensures OwnRef(after.execs, j) { assert OwnRef(db.execs, j); }
  }

  lemma SettledKeys(db: Db, k: nat, after: Db)
    requires KeysOk(db) && Awaited(db, k) && after.orders == db.orders && after.intents == db.intents
    requires |after.execs| == |db.execs| && after.execs[k].state == Settled
    requires forall j :: 0 <= j < |db.execs| && j != k ==> after.execs[j] == db.execs[j]
    requires after.log == db.log || exists t :: after.log == db.log + [t] && t.key == Key.Settlement(k)
    ensures KeysOk(after)
  {
  }

  lemma SettleBuyKeeps(db: Db, k: nat)
    requires Core(db) && Awaited(db, k) && TermsOf(db, k).side == BUY && Settle(db, k).Ok?
    ensures Core(Settle(db, k).value) && Settle(db, k).value.execs == db.execs[k := SettledRow(db, k, Nothing)]
    ensures Settle(db, k).value.orders == db.orders
  {
    assert ExecOk(db.log, db.orders, k, db.execs[k]);
    var terms := TermsOf(db, k);
    var qty := db.execs[k].trade.quantity;
    PendingCovers(db, k);
    SettleBuyExact(db, terms, qty);
    var after := MarkExec(SettleBuyShares(db, terms, qty), k, Settled, Nothing);
    SettledKeys(db, k, after);
    SettledExecs(db, k, after);
    SettledFit(db, k, SettledRow(db, k, Nothing), after);
    forall u, i ensures PositionOk(after, u, i) { assert PositionOk(SettleBuyShares(db, terms, qty), u, i); }
    forall b | Kept(b) ensures BookOk(after, b) {
      assert BookOk(db, b);
      SettleBuyBook(db, k, b);
    }
  }

  lemma SettleSellResult(db: Db, k: nat)
    requires Core(db) && Awaited(db, k) && TermsOf(db, k).side == SELL && Settle(db, k).Ok?
    ensures var terms := TermsOf(db, k);
            var t := db.execs[k].trade;
            var posted := db.(log := db.log + [Record(SettlementInput(k, terms, t), Nothing)]);
            && WellFormed(posted.log)
            && Settle(db, k).value == MarkExec(SettleSellShares(posted, terms, t.quantity), k, Settled, Just(|db.log|))
  {
    assert ExecOk(db.log, db.orders, k, db.execs[k]);
    var input := SettlementInput(k, TermsOf(db, k), db.execs[k].trade);
    FreshKey(db, input.key);
    PostFacts(db, input);
  }

  lemma SettleSellKeeps(db: Db, k: nat)
    requires Core(db) && Awaited(db, k) && TermsOf(db, k).side == SELL && Settle(db, k).Ok?
    ensures Core(Settle(db, k).value) && Settle(db, k).value.execs == db.execs[k := SettledRow(db, k, Just(|db.log|))]
    ensures Settle(db, k).value.orders == db.orders && Settle(db, k).value.intents == db.intents
  {
    assert ExecOk(db.log, db.orders, k, db.execs[k]);
    var terms := TermsOf(db, k);
    var t := db.execs[k].trade;
    SettleSellResult(db, k);
    SoldCovers(db, k);
    var posted := db.(log := db.log + [Record(SettlementInput(k, terms, t), Nothing)]);
    forall u, i ensures PositionOk(posted, u, i) { assert PositionOk(db, u, i); }
    SettleSellExact(posted, terms, t.quantity);
    var moved := SettleSellShares(posted, terms, t.quantity);
    var after := MarkExec(moved, k, Settled, Just(|db.log|));
    SettledKeys(db, k, after);
    SettledExecs(db, k, after);
    SettledFit(db, k, SettledRow(db, k, Just(|db.log|)), after);
    forall u, i ensures PositionOk(after, u, i) { assert PositionOk(moved, u, i); }
    forall b | Kept(b) ensures BookOk(after, b) {
      assert BookOk(db, b);
      SettleSellBook(db, k, b);
    }
  }

  lemma SettleKeeps(db: Db, k: nat)
    requires Inv(db) && Settle(db, k).Ok?
    ensures Inv(Settle(db, k).value)
  {
    if Awaited(db, k) {
      assert ExecOk(db.log, db.orders, k, db.execs[k]);
      if TermsOf(db, k).side == BUY { SettleBuyKeeps(db, k); } else { SettleSellKeeps(db, k); }
      var after := Settle(db, k).value;
      forall i | 0 <= i < |after.orders|
        ensures StatusOk(after.orders[i]) && (!IsFinal(after.orders[i].status) ==> Clean(after.execs, i))
      {
        assert StatusOk(db.orders[i]);
      }
    }
  }

  // ------------------------------------------------------- failed delivery

  /** The ledger after `reverseFill`: the reversal, then for a BUY the release of what it gave back. */
  function ReversedLog(db: Db, k: nat): Log
    requires Awaited(db, k) && db.execs[k].fillTxn.Just? && db.execs[k].fillTxn.value < |db.log|
  {
    var id := db.execs[k].fillTxn.value;
    MarkReversed(db.log + [Record(ReversalInput(db.log[id], id), Just(id))], id)
  }

  function FailedLog(db: Db, k: nat): Log
    requires Awaited(db, k) && db.execs[k].fillTxn.Just? && db.execs[k].fillTxn.value < |db.log|
  {
    if TermsOf(db, k).side == SELL then ReversedLog(db, k)
    else ReversedLog(db, k) + [Record(FailReleaseInput(k, TermsOf(db, k), db.execs[k].trade), Nothing)]
  }

  /** Reversing takes back exactly what the transaction moved. */
  lemma ReversedTotal(log: Log, id: nat, v: View)
    requires id < |log|
    ensures Total(MarkReversed(log + [Record(ReversalInput(log[id], id), Just(id))], id), v)
         == Total(log, v) - Delta(log[id].entries, v)
  {
    var rev := Record(ReversalInput(log[id], id), Just(id));
    TotalStatus(log + [rev], id, REVERSED, v);
    TotalAppend(log, rev, v);
    NegatedDelta(log[id].entries, v);
  }

  /** A FILL that stands can be reversed unless a client account cannot afford it. */
  lemma ReverseResult(log: Log, id: nat)
    requires WellFormed(log) && id < |log| && log[id].typ != REVERSAL && log[id].status == POSTED
    ensures ReverseOutcome(log, id).Posted? || ReverseOutcome(log, id).Refused?
    ensures ReverseOutcome(log, id).Posted? ==>
      && Reverse(log, id) == MarkReversed(log + [Record(ReversalInput(log[id], id), Just(id))], id)
      && WellFormed(Reverse(log, id))
    ensures Funded(log, ReversalInput(log[id], id)) ==> ReverseOutcome(log, id).Posted?
  {
    FindIsKey(log, Reversal(id));
    ReversalNormalises(log[id], id);
    ReverseKeepsWellFormed(log, id);
  }

  lemma FailReleaseFresh(db: Db, k: nat)
    requires KeysOk(db) && Awaited(db, k) && db.execs[k].fillTxn.Just? && db.execs[k].fillTxn.value < |db.log|
    ensures Find(ReversedLog(db, k), Key.FailRelease(k)) == Nothing
  {
    var id := db.execs[k].fillTxn.value;
    var rev := Record(ReversalInput(db.log[id], id), Just(id));
    FreshKey(db, Key.FailRelease(k));
    FindAppend(db.log, rev, Key.FailRelease(k));
    FindStatus(db.log + [rev], id, REVERSED, Key.FailRelease(k));
  }

  /** `reverseFill` spelled out on an execution that has its FILL. */
  lemma ReverseFillCases(db: Db, k: nat)
    requires Awaited(db, k) && db.execs[k].fillTxn.Just? && db.execs[k].fillTxn.value < |db.log| && ReverseFill(db, k).Ok?
    requires ReverseOutcome(db.log, db.execs[k].fillTxn.value).Posted? ==>
      Reverse(db.log, db.execs[k].fillTxn.value) == ReversedLog(db, k)
    requires ReverseOutcome(db.log, db.execs[k].fillTxn.value).Posted? || ReverseOutcome(db.log, db.execs[k].fillTxn.value).Refused?
    ensures var reversed := db.(log := ReversedLog(db, k));
            if TermsOf(db, k).side == SELL then ReverseFill(db, k).value == reversed
            else
              var posted := PostTxn(reversed, FailReleaseInput(k, TermsOf(db, k), db.execs[k].trade));
              posted.Ok? && ReverseFill(db, k).value == posted.value.0
  {
  }

  /** What a failed delivery posts. */
  lemma FailLog(db: Db, k: nat)
    requires WellFormed(db.log) && KeysOk(db) && Awaited(db, k) && ExecOk(db.log, db.orders, k, db.execs[k])
    requires ReverseFill(db, k).Ok?
    ensures ReverseFill(db, k).value == db.(log := FailedLog(db, k)) && WellFormed(FailedLog(db, k))
  {
    ReverseResult(db.log, db.execs[k].fillTxn.value);
    ReverseFillCases(db, k);
    if TermsOf(db, k).side == BUY {
      FailReleaseFresh(db, k);
      PostFacts(db.(log := ReversedLog(db, k)), FailReleaseInput(k, TermsOf(db, k), db.execs[k].trade));
    }
  }

  /** Net effect of a failed delivery on what clients own. */
  lemma FailedTotal(db: Db, k: nat, v: View)
    requires Awaited(db, k) && ExecOk(db.log, db.orders, k, db.execs[k]) && UserView(v)
    ensures var terms := TermsOf(db, k);
            var debit := BuyDebit(terms, db.execs[k].trade, terms.currency);
            Total(FailedLog(db, k), v) == Total(db.log, v) +
              if terms.side == BUY then (if Covers(v, UserAccount(terms.userId, terms.currency, AVAILABLE)) then debit else 0)
              else (if Covers(v, UserAccount(terms.userId, terms.currency, Kind.SETTLING)) then -db.execs[k].trade.net else 0)
  {
    var terms := TermsOf(db, k);
    var t := db.execs[k].trade;
    ReversedTotal(db.log, db.execs[k].fillTxn.value, v);
    FillDelta(terms, t, v);
    if terms.side == BUY {
      TotalAppend(ReversedLog(db, k), Record(FailReleaseInput(k, terms, t), Nothing), v);
      MoveDelta(UserAccount(terms.userId, terms.currency, RESERVED),
                UserAccount(terms.userId, terms.currency, AVAILABLE), BuyDebit(terms, t, terms.currency), v);
    }
  }

  function FailedRow(db: Db, k: nat): Exec
    requires k < |db.execs|
  {
    db.execs[k].(state := Failed, settlementTxn := Nothing)
  }

  /** The ledger, the execution and the order counters after a failed delivery. */
  function FailedRows(db: Db, k: nat): Db
    requires Awaited(db, k) && db.execs[k].fillTxn.Just? && db.execs[k].fillTxn.value < |db.log|
  {
    var i := db.execs[k].trade.order;
    var marked := db.(log := FailedLog(db, k), execs := db.execs[k := FailedRow(db, k)]);
    marked.(orders := db.orders[i := Rewound(marked, i)])
  }

  /** And the position: pending shares of a purchase dropped, shares of a sale freed. */
  function FailedDb(db: Db, k: nat): Db
    requires Awaited(db, k) && db.execs[k].fillTxn.Just? && db.execs[k].fillTxn.value < |db.log|
  {
    var qty := db.execs[k].trade.quantity;
    if TermsOf(db, k).side == BUY then DropPendingShares(FailedRows(db, k), TermsOf(db, k), qty)
    else UnreserveShares(FailedRows(db, k), TermsOf(db, k), qty)
  }

  lemma FailResult(db: Db, k: nat)
    requires Core(db) && Awaited(db, k) && FailSettlement(db, k).Ok?
    ensures ExecOk(db.log, db.orders, k, db.execs[k])
    ensures FailSettlement(db, k).value == FailedDb(db, k) && WellFormed(FailedLog(db, k))
  {
    assert ExecOk(db.log, db.orders, k, db.execs[k]);
    FailLog(db, k);
  }

  /** One book after the ledger, execution and order rows of a failed delivery, but before
      the position is updated. */
  lemma FailRowsExpected(db: Db, k: nat, b: Book)
    requires Awaited(db, k) && RefsOk(db.orders, db.execs) && ExecOk(db.log, db.orders, k, db.execs[k])
    ensures Expected(FailedRows(db, k), b) ==
            Expected(db, b) - ExecTerm(db.orders, db.execs[k], For(b)) + ExecTerm(db.orders, FailedRow(db, k), For(b))
  {
    var i := db.execs[k].trade.order;
    var e := FailedRow(db, k);
    ExecRowChanges(db, k, e, b);
    var marked := db.(log := FailedLog(db, k), execs := db.execs[k := e]);
    assert Expected(marked, b) == Expected(db.(execs := db.execs[k := e]), b);
    IdleOrderColumns(marked, i, Rewound(marked, i), b);
  }

  lemma FailBookBuy(db: Db, k: nat, b: Book)
    requires Awaited(db, k) && RefsOk(db.orders, db.execs) && ExecOk(db.log, db.orders, k, db.execs[k])
    requires BookOk(db, b) && PositionsOk(db) && TermsOf(db, k).side == BUY
    requires var terms := TermsOf(db, k);
      db.execs[k].trade.quantity <= PositionOf(db, terms.userId, terms.instrumentId).pending
    ensures BookOk(FailedDb(db, k), b)
  {
    var rows := FailedRows(db, k);
    FailRowsExpected(db, k, b);
    forall u, i ensures PositionOk(rows, u, i) { assert PositionOk(db, u, i); }
    DropPendingExact(rows, TermsOf(db, k), db.execs[k].trade.quantity);
    assert Expected(FailedDb(db, k), b) == Expected(rows, b);
    if ViewOf(b).Just? { FailedTotal(db, k, ViewOf(b).value); }
  }

  lemma FailBookSell(db: Db, k: nat, b: Book)
    requires Awaited(db, k) && RefsOk(db.orders, db.execs) && ExecOk(db.log, db.orders, k, db.execs[k])
    requires BookOk(db, b) && PositionsOk(db) && TermsOf(db, k).side == SELL
    requires var terms := TermsOf(db, k);
      db.execs[k].trade.quantity <= PositionOf(db, terms.userId, terms.instrumentId).reserved
    ensures BookOk(FailedDb(db, k), b)
  {
    var rows := FailedRows(db, k);
    FailRowsExpected(db, k, b);
    forall u, i ensures PositionOk(rows, u, i) { assert PositionOk(db, u, i); }
    UnreserveExact(rows, TermsOf(db, k), db.execs[k].trade.quantity);
    assert Expected(FailedDb(db, k), b) == Expected(rows, b);
    if ViewOf(b).Just? { FailedTotal(db, k, ViewOf(b).value); }
  }

  lemma FailBook(db: Db, k: nat, b: Book)
    requires Awaited(db, k) && RefsOk(db.orders, db.execs) && ExecOk(db.log, db.orders, k, db.execs[k])
    requires BookOk(db, b) && PositionsOk(db)
    requires var terms := TermsOf(db, k);
      var p := PositionOf(db, terms.userId, terms.instrumentId);
      db.execs[k].trade.quantity <= if terms.side == BUY then p.pending else p.reserved
    ensures BookOk(FailedDb(db, k), b)
  {
    if TermsOf(db, k).side == BUY { FailBookBuy(db, k, b); } else { FailBookSell(db, k, b); }
  }

  /** The sums of an order after a failed delivery. */
  lemma FailSums(db: Db, k: nat, j: nat)
    requires Awaited(db, k) && RefsOk(db.orders, db.execs) && ExecOk(db.log, db.orders, k, db.execs[k])
    ensures var rows := FailedRows(db, k);
            && ExecSum(rows.orders, rows.execs, Spent(j)) == ExecSum(db.orders, db.execs, Spent(j))
            && ExecSum(rows.orders, rows.execs, Traded(j)) == ExecSum(db.orders, db.execs, Traded(j))
            && ExecSum(rows.orders, rows.execs, FilledOf(j)) == ExecSum(db.orders, rows.execs, FilledOf(j))
            && ExecSum(db.orders, rows.execs, FilledOf(j)) == ExecSum(db.orders, db.execs, FilledOf(j))
                 - (if j == db.execs[k].trade.order then db.execs[k].trade.quantity else 0)
  {
    var rows := FailedRows(db, k);
    var e := FailedRow(db, k);
    ExecSumUpdate(db.orders, db.execs, k, e, Spent(j));
    ExecSumUpdate(db.orders, db.execs, k, e, Traded(j));
    ExecSumUpdate(db.orders, db.execs, k, e, FilledOf(j));
    assert RefsOk(db.orders, rows.execs);
    ExecSumFrame(db.orders, rows.orders, rows.execs, Spent(j));
    ExecSumFrame(db.orders, rows.orders, rows.execs, Traded(j));
    ExecSumFrame(db.orders, rows.orders, rows.execs, FilledOf(j));
  }

  lemma StandingNonNegative(db: Db, execs: seq<Exec>, i: nat)
    requires forall n :: 0 <= n < |execs| ==> execs[n].trade.quantity > 0
    ensures ExecSum(db.orders, execs, FilledOf(i)) >= 0
  {
    AddNonNegative(ExecTerms(db.orders, execs, FilledOf(i)));
  }

  lemma FailFitOwn(db: Db, k: nat)
    requires Awaited(db, k) && RefsOk(db.orders, db.execs) && ExecOk(db.log, db.orders, k, db.execs[k])
    requires OrderFits(db.orders, db.execs, db.execs[k].trade.order)
    requires forall n :: 0 <= n < |db.execs| ==> db.execs[n].trade.quantity > 0
    ensures var j := db.execs[k].trade.order;
            var rows := FailedRows(db, k);
            OrderFits(rows.orders, rows.execs, j) && rows.orders[j].filled < rows.orders[j].terms.quantity
  {
    var j := db.execs[k].trade.order;
    FailSums(db, k, j);
    StandingIsFilled(db.orders, FailedRows(db, k).execs, j);
    StandingNonNegative(db, FailedRows(db, k).execs, j);
  }

  lemma FailFit(db: Db, k: nat, j: nat)
    requires Awaited(db, k) && RefsOk(db.orders, db.execs) && ExecOk(db.log, db.orders, k, db.execs[k])
    requires j < |db.orders| && OrderFits(db.orders, db.execs, j)
    requires forall n :: 0 <= n < |db.execs| ==> db.execs[n].trade.quantity > 0
    ensures OrderFits(FailedRows(db, k).orders, FailedRows(db, k).execs, j)
    ensures j == db.execs[k].trade.order ==>
      FailedRows(db, k).orders[j].filled < FailedRows(db, k).orders[j].terms.quantity
  {
    if j == db.execs[k].trade.order { FailFitOwn(db, k); } else { FailSums(db, k, j); }
  }

  /** The executions of a sound database all have a positive quantity. */
  lemma QuantitiesPositive(db: Db)
    requires ExecsOk(db)
    ensures forall n :: 0 <= n < |db.execs| ==> db.execs[n].trade.quantity > 0
  {
    forall n | 0 <= n < |db.execs| ensures db.execs[n].trade.quantity > 0 {
      assert ExecOk(db.log, db.orders, n, db.execs[n]);
    }
  }

  lemma FailExecs(db: Db, k: nat, after: Db)
    requires ExecsOk(db) && Awaited(db, k) && ExecOk(db.log, db.orders, k, db.execs[k])
    requires after.log == FailedLog(db, k) && after.execs == db.execs[k := FailedRow(db, k)]
    requires SameTerms(db.orders, after.orders)
    ensures ExecsOk(after)
  {
    forall j | 0 <= j < |after.execs| ensures ExecOk(after.log, after.orders, j, after.execs[j]) {
      assert ExecOk(db.log, db.orders, j, db.execs[j]);
    }
    forall j | 0 <= j < |after.execs| ensures OwnRef(after.execs, j) { assert OwnRef(db.execs, j); }
  }

  lemma FailKeys(db: Db, k: nat, after: Db)
    requires KeysOk(db) && Awaited(db, k) && ExecOk(db.log, db.orders, k, db.execs[k])
    requires after.log == FailedLog(db, k) && after.execs == db.execs[k := FailedRow(db, k)]
    requires after.intents == db.intents && |after.orders| == |db.orders|
    requires forall i :: 0 <= i < |db.orders| ==> after.orders[i].released == db.orders[i].released
    ensures KeysOk(after)
  {
    forall t | 0 <= t < |after.log| ensures KeyOk(after, after.log[t].key) {
      if t < |db.log| { assert after.log[t].key == db.log[t].key; }
    }
  }

  lemma FailPositions(db: Db, k: nat)
    requires Core(db) && Awaited(db, k) && ExecOk(db.log, db.orders, k, db.execs[k])
    ensures var terms := TermsOf(db, k);
            var p := PositionOf(db, terms.userId, terms.instrumentId);
            db.execs[k].trade.quantity <= if terms.side == BUY then p.pending else p.reserved
    ensures PositionsOk(FailedDb(db, k)) && FailedDb(db, k) == FailedRows(db, k).(positions := FailedDb(db, k).positions)
  {
    var terms := TermsOf(db, k);
    var rows := FailedRows(db, k);
    if terms.side == BUY { PendingCovers(db, k); } else { SoldCovers(db, k); }
    forall u, i ensures PositionOk(rows, u, i) { assert PositionOk(db, u, i); }
    if terms.side == BUY { DropPendingExact(rows, terms, db.execs[k].trade.quantity); }
    else { UnreserveExact(rows, terms, db.execs[k].trade.quantity); }
  }

  lemma FailBooks(db: Db, k: nat)
    requires Core(db) && Awaited(db, k) && ExecOk(db.log, db.orders, k, db.execs[k])
    ensures BooksOk(FailedDb(db, k))
  {
    CoreRefs(db);
    FailPositions(db, k);
    forall b | Kept(b) ensures BookOk(FailedDb(db, k), b) {
      assert BookOk(db, b);
      FailBook(db, k, b);
    }
  }

  lemma FailOrders(db: Db, k: nat, after: Db)
    requires OrdersFit(db) && ExecsOk(db) && Awaited(db, k) && ExecOk(db.log, db.orders, k, db.execs[k])
    requires after.orders == FailedRows(db, k).orders && after.execs == FailedRows(db, k).execs
    ensures OrdersFit(after)
    ensures var o := after.orders[db.execs[k].trade.order]; o.filled < o.terms.quantity
  {
    CoreRefs(db);
    QuantitiesPositive(db);
    forall j | 0 <= j < |after.orders| ensures OrderFits(after.orders, after.execs, j) {
      FailFit(db, k, j);
    }
    FailFit(db, k, db.execs[k].trade.order);
  }

  lemma FailStatuses(db: Db, k: nat, after: Db)
    requires StatusesOk(db) && Awaited(db, k) && ExecOk(db.log, db.orders, k, db.execs[k])
    requires after.orders == FailedRows(db, k).orders && after.execs == FailedRows(db, k).execs
    requires var o := after.orders[db.execs[k].trade.order]; o.filled < o.terms.quantity
    ensures StatusesOk(after)
  {
    forall i | 0 <= i < |after.orders|
      ensures StatusOk(after.orders[i]) && (!IsFinal(after.orders[i].status) ==> Clean(after.execs, i))
    {
      assert StatusOk(db.orders[i]);
    }
  }

  /** The rows of a failed delivery, field by field. */
  lemma FailShape(db: Db, k: nat)
    requires Awaited(db, k) && ExecOk(db.log, db.orders, k, db.execs[k])
    requires FailedDb(db, k) == FailedRows(db, k).(positions := FailedDb(db, k).positions)
    ensures var after := FailedDb(db, k);
            && after.log == FailedLog(db, k) && after.intents == db.intents
            && after.execs == FailedRows(db, k).execs == db.execs[k := FailedRow(db, k)]
            && after.orders == FailedRows(db, k).orders && SameTerms(db.orders, after.orders)
            && |after.orders| == |db.orders|
            && (forall i :: 0 <= i < |db.orders| ==> after.orders[i].released == db.orders[i].released)
  {
  }

  /** The order and execution rows of an accepted delivery failure. */
  lemma FailRowsOf(db: Db, k: nat)
    requires Core(db) && Awaited(db, k) && FailSettlement(db, k).Ok?
    ensures ExecOk(db.log, db.orders, k, db.execs[k])
    ensures FailSettlement(db, k).value.orders == FailedRows(db, k).orders
    ensures FailSettlement(db, k).value.execs == db.execs[k := FailedRow(db, k)]
  {
    FailResult(db, k);
    FailPositions(db, k);
    FailShape(db, k);
  }

  lemma FailCore(db: Db, k: nat)
    requires Core(db) && Awaited(db, k) && FailSettlement(db, k).Ok?
    ensures Core(FailedDb(db, k))
    ensures var o := FailedDb(db, k).orders[db.execs[k].trade.order]; o.filled < o.terms.quantity
  {
    FailResult(db, k);
    FailPositions(db, k);
    FailShape(db, k);
    FailBooks(db, k);
    var after := FailedDb(db, k);
    FailOrders(db, k, after);
    FailExecs(db, k, after);
    FailKeys(db, k, after);
  }

  lemma FailKeepsAwaited(db: Db, k: nat)
    requires Inv(db) && Awaited(db, k) && FailSettlement(db, k).Ok?
    ensures Inv(FailedDb(db, k))
  {
    FailResult(db, k);
    FailCore(db, k);
    FailPositions(db, k);
    FailShape(db, k);
    FailStatuses(db, k, FailedDb(db, k));
  }

  lemma FailKeeps(db: Db, k: nat)
    requires Inv(db) && FailSettlement(db, k).Ok?
    ensures Inv(FailSettlement(db, k).value)
  {
    if Awaited(db, k) {
      FailResult(db, k);
      FailKeepsAwaited(db, k);
    }
  }
}
