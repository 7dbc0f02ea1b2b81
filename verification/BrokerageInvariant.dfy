/** The whole-state invariant tying the ledger, the orders, the executions, the positions
    and the payment intents together. */
module BrokerageInvariant {
  import opened Decimals
  import opened LedgerModel
  import opened OrderState
  import opened BrokerageModel
  import opened BrokerageBooks
  import Fees

  // -------------------------------------------------------------- the parts

  /** Every idempotency key in the ledger is accounted for by a row. */
  predicate KeyOk(db: Db, key: Key) {
    match key
    case Reserve(i) => i < |db.orders|
    case Release(i) => i < |db.orders| && db.orders[i].released
    case Fill(k) => k < |db.execs|
    case Settlement(k) => k < |db.execs| && db.execs[k].state == Settled
    case FailRelease(k) => k < |db.execs| && db.execs[k].state == Failed
    case Deposit(n) => n < |db.intents| && db.intents[n].direction == IN && db.intents[n].state == Paid
    case WithdrawReserve(n) => n < |db.intents|
    case Withdraw(n) => n < |db.intents| && db.intents[n].direction == OUT && db.intents[n].state == Paid
    case WithdrawRelease(n) => n < |db.intents| && db.intents[n].direction == OUT && db.intents[n].state == FailedIntent
    case _ => true
  }

  ghost predicate KeysOk(db: Db) {
    forall t :: 0 <= t < |db.log| ==> KeyOk(db, db.log[t].key)
  }

  /** An execution belongs to a real order and is backed by its FILL, reversed exactly when
      the delivery failed; a settled sale by its SETTLEMENT. */
  predicate ExecOk(log: Log, orders: seq<Order>, k: nat, e: Exec) {
    && e.trade.order < |orders|
    && var terms := orders[e.trade.order].terms;
    && !terms.simulated && terms.partnerId.Just? && e.trade.quantity > 0
    && e.fillTxn.Just? && e.fillTxn.value < |log|
    && var fill := log[e.fillTxn.value];
    && fill == Record(FillInput(k, terms, e.trade), Nothing).(status := fill.status)
    && (fill.status == REVERSED <==> e.state == Failed)
    && (e.state == Settled && terms.side == SELL ==>
          && e.settlementTxn.Just? && e.settlementTxn.value < |log|
          && log[e.settlementTxn.value] == Record(SettlementInput(k, terms, e.trade), Nothing))
  }

  /** No two executions carry the same reference. */
  predicate OwnRef(execs: seq<Exec>, k: nat)
    requires k < |execs|
  {
    forall j :: 0 <= j < k ==> execs[j].trade.ref != execs[k].trade.ref
  }

  ghost predicate ExecsOk(db: Db) {
    && (forall k :: 0 <= k < |db.execs| ==> ExecOk(db.log, db.orders, k, db.execs[k]))
    && (forall k :: 0 <= k < |db.execs| ==> OwnRef(db.execs, k))
  }

  /** What is left of a BUY reserve, over all its executions, failed deliveries included. */
  function Left(orders: seq<Order>, execs: seq<Exec>, i: nat): Dec
    requires i < |orders|
  {
    orders[i].terms.maxAmount - ExecSum(orders, execs, Spent(i))
  }

  /** The release of such an order recomputes its remainder exactly: `consumedReserve` rounds
      as XAF, which in a currency without decimals is the order's own rounding; a sale
      releases shares. */
  predicate ExactRelease(terms: Terms) {
    terms.side == SELL || terms.currency in ZERO_DECIMAL
  }

  /** A code a transaction can be in. */
  predicate CurrencyCode(c: string) {
    c != "" && Upper(c) == c
  }

  /** The ledger took the RESERVE. */
  predicate ReserveRounded(terms: Terms) {
    CurrencyCode(terms.currency) && IsRounded(terms.maxAmount, terms.currency)
  }

  /** Counters of one order agree with its executions and stay within its limits; what is left
      of a BUY reserve, in a currency without decimals, is a whole amount. */
  predicate OrderFits(orders: seq<Order>, execs: seq<Exec>, i: nat)
    requires i < |orders|
  {
    var o := orders[i];
    && o.terms.quantity > 0
    && (!o.terms.simulated ==>
          && o.terms.partnerId.Just?
          && o.filled == ExecSum(orders, execs, FilledOf(i))
          && 0 <= o.filled <= ExecSum(orders, execs, Traded(i)) <= o.terms.quantity
          && (o.terms.side == BUY ==> o.reserveTxn.Just? && ReserveRounded(o.terms))
          && (o.terms.side == BUY && o.terms.currency in ZERO_DECIMAL ==>
                Left(orders, execs, i) >= 0 && Left(orders, execs, i) % ONE == 0))
  }

  ghost predicate OrdersFit(db: Db) {
    forall i :: 0 <= i < |db.orders| ==> OrderFits(db.orders, db.execs, i)
  }

  predicate PositionOk(db: Db, userId: string, instrumentId: string) {
    var p := PositionOf(db, userId, instrumentId);
    0 <= p.reserved <= p.quantity && 0 <= p.pending
  }

  ghost predicate PositionsOk(db: Db) {
    forall u, i :: PositionOk(db, u, i)
  }

  predicate BookOk(db: Db, b: Book) {
    Actual(db, b) == Expected(db, b)
  }

  /** The books the tables account for: all but RESERVED cash in a currency with decimals. */
  predicate Kept(b: Book) {
    b.ReservedCash? ==> b.currency in ZERO_DECIMAL
  }

  ghost predicate BooksOk(db: Db) {
    forall b :: Kept(b) ==> BookOk(db, b)
  }

  /** Everything but the status discipline. */
  ghost predicate Core(db: Db) {
    && WellFormed(db.log) && KeysOk(db) && ExecsOk(db) && OrdersFit(db) && PositionsOk(db) && BooksOk(db)
  }

  /** No delivery of this order has failed. */
  predicate Clean(execs: seq<Exec>, i: nat) {
    forall k :: 0 <= k < |execs| && execs[k].trade.order == i ==> execs[k].state != Failed
  }

  /** Status, counters and release of one row. A final order that was not released can only
      be one that a failed delivery turned ADJUSTED while it was open. */
  predicate StatusOk(o: Order) {
    && (o.terms.simulated ==> o.status == EXECUTED)
    && (o.status == EXECUTED <==> o.filled == o.terms.quantity)
    && (o.status in {PENDING, TRANSMITTED, ACKNOWLEDGED} ==> o.filled == 0)
    && (o.status == PARTIALLY_EXECUTED ==> o.filled > 0)
    && (!IsFinal(o.status) ==> !o.released)
    && (IsFinal(o.status) && !o.released && !o.terms.simulated ==> o.status == ADJUSTED)
  }

  ghost predicate StatusesOk(db: Db) {
    forall i :: 0 <= i < |db.orders| ==>
      StatusOk(db.orders[i]) && (!IsFinal(db.orders[i].status) ==> Clean(db.execs, i))
  }

  ghost predicate Inv(db: Db) {
    Core(db) && StatusesOk(db)
  }

  // ---------------------------------------------------------- general facts

  lemma CoreRefs(db: Db)
    requires ExecsOk(db)
    ensures RefsOk(db.orders, db.execs)
  {
    forall k | 0 <= k < |db.execs| ensures db.execs[k].trade.order < |db.orders| {
      assert ExecOk(db.log, db.orders, k, db.execs[k]);
    }
  }

  lemma FreshKey(db: Db, key: Key)
    requires KeysOk(db) && !KeyOk(db, key)
    ensures Find(db.log, key) == Nothing
  {
    FindIsKey(db.log, key);
  }

  /** A post under a fresh key either is refused or appends one transaction. */
  lemma PostFacts(db: Db, input: PostInput)
    requires WellFormed(db.log) && Ordinary(input) && Find(db.log, input.key) == Nothing
    ensures PostTxn(db, input).Ok? ==>
      && Normalise(input) == Nothing
      && PostTxn(db, input).value == (db.(log := db.log + [Record(input, Nothing)]), |db.log|)
      && WellFormed(db.log + [Record(input, Nothing)])
    ensures Normalise(input) == Nothing && Funded(db.log, input) ==> PostTxn(db, input).Ok?
  {
    PostKeepsWellFormed(db.log, input);
  }

  lemma ZeroDecimalCurrency(c: string)
    requires c in ZERO_DECIMAL
    ensures c != "" && Upper(c) == c && Unit(c) == ONE == Unit("XAF")
  {
    assert IsUpper(c);
    assert IsUpper("XAF") && "XAF" in ZERO_DECIMAL;
  }

  lemma MoveNormalises(typ: TxnType, key: Key, c: string, from: Account, to: Account, amount: Dec)
    requires key != Free("") && CurrencyCode(c) && from.currency == c == to.currency && IsRounded(amount, c)
    ensures Normalise(PostInput(typ, key, c, Move(from, to, amount), Nothing)) == Nothing
  {
    var es := Move(from, to, amount);
    RoundedNegated(amount, c);
    EntriesFine(es, c);
    assert es[1..] == [Entry(to, amount)];
    assert Sum([Entry(to, amount)]) == amount;
  }

  /** A whole amount is rounded in a currency without decimals. */
  lemma WholeIsRounded(amount: Dec, c: string)
    requires c in ZERO_DECIMAL
    ensures CurrencyCode(c) && (IsRounded(amount, c) <==> amount % ONE == 0)
  {
    ZeroDecimalCurrency(c);
    RoundedIsMultiple(amount, c);
  }

  lemma MoveFunded(log: Log, typ: TxnType, key: Key, c: string, from: Account, to: Account, amount: Dec)
    requires NonNegative(log) && from != to && amount >= 0
    requires from.owner == USER ==> Balance(log, from) >= amount
    ensures Funded(log, PostInput(typ, key, c, Move(from, to, amount), Nothing))
  {
    var input := PostInput(typ, key, c, Move(from, to, amount), Nothing);
    forall a | Guarded(input, a) ensures Affordable(log, input.entries, a) {
      MoveDelta(from, to, amount, Of(a));
    }
  }

  /** Entries of an accepted post are rounded, in the currency of the post. */
  lemma AcceptedAmountRounded(input: PostInput, j: nat)
    requires Normalise(input) == Nothing && j < |input.entries|
    ensures CurrencyCode(input.currency) && IsRounded(input.entries[j].amount, input.currency)
  {
    EntriesFine(input.entries, input.currency);
  }

  lemma {:induction false} ZeroSum(xs: seq<Dec>)
    requires forall j :: 0 <= j < |xs| ==> xs[j] == 0
    ensures Fees.Add(xs) == 0
  {
    if xs != [] { ZeroSum(xs[..|xs| - 1]); }
  }

  /** Without a failed delivery, the figures the code recomputes are the sums of the books. */
  lemma {:induction false} ConsumedIsSpent(orders: seq<Order>, execs: seq<Exec>, i: nat)
    requires i < |orders| && RefsOk(orders, execs) && Clean(execs, i) && orders[i].terms.currency in ZERO_DECIMAL
    requires forall k :: 0 <= k < |execs| ==> execs[k].fillTxn.Just?
    ensures ConsumedReserve(orders[i].terms, execs, i) == ExecSum(orders, execs, Spent(i))
  {
    if execs != [] {
      var n := |execs| - 1;
      ConsumedIsSpent(orders, execs[..n], i);
      assert execs[..n] + [execs[n]] == execs;
      ExecSumAppend(orders, execs[..n], execs[n], Spent(i));
      ZeroDecimalCurrency(orders[i].terms.currency);
    }
  }

  lemma {:induction false} FilledIsTraded(orders: seq<Order>, execs: seq<Exec>, i: nat)
    requires i < |orders| && RefsOk(orders, execs) && Clean(execs, i)
    ensures ExecSum(orders, execs, FilledOf(i)) == ExecSum(orders, execs, Traded(i))
  {
    if execs != [] {
      var n := |execs| - 1;
      FilledIsTraded(orders, execs[..n], i);
      assert execs[..n] + [execs[n]] == execs;
      ExecSumAppend(orders, execs[..n], execs[n], FilledOf(i));
      ExecSumAppend(orders, execs[..n], execs[n], Traded(i));
    }
  }

  lemma {:induction false} StandingIsFilled(orders: seq<Order>, execs: seq<Exec>, i: nat)
    requires i < |orders| && RefsOk(orders, execs)
    ensures StandingQuantity(execs, i) == ExecSum(orders, execs, FilledOf(i))
  {
    if execs != [] {
      var n := |execs| - 1;
      StandingIsFilled(orders, execs[..n], i);
      assert execs[..n] + [execs[n]] == execs;
      ExecSumAppend(orders, execs[..n], execs[n], FilledOf(i));
    }
  }

  lemma HeldCashCovers(db: Db, i: nat, b: Book)
    requires OrdersFit(db) && BookOk(db, b) && Kept(b) && i < |db.orders|
    requires var o := db.orders[i];
      !o.terms.simulated && !o.released && o.terms.side == BUY && b == ReservedCash(o.terms.userId, o.terms.currency)
    ensures Actual(db, b) >= Left(db.orders, db.execs, i)
  {
    ZeroSum(ExecTerms(db.orders, db.execs, For(b)));
    ZeroSum(IntentTerms(db.intents, b));
    var held := OrderTerms(db.orders, db.execs, b);
    forall j | 0 <= j < |held| ensures held[j] >= 0 {
      assert OrderFits(db.orders, db.execs, j);
    }
    AddAtLeast(held, i);
  }

  /** A client's RESERVED balance covers what is left of each unreleased BUY order. */
  lemma ReservedCovers(db: Db, i: nat)
    requires Core(db) && i < |db.orders| && db.orders[i].terms.currency in ZERO_DECIMAL
    requires !db.orders[i].terms.simulated && !db.orders[i].released && db.orders[i].terms.side == BUY
    ensures Balance(db.log, UserAccount(db.orders[i].terms.userId, db.orders[i].terms.currency, RESERVED))
            >= Left(db.orders, db.execs, i)
  {
    var b := ReservedCash(db.orders[i].terms.userId, db.orders[i].terms.currency);
    assert BookOk(db, b);
    HeldCashCovers(db, i, b);
  }

  // -------------------------------------------------------------- release

  /** Keys stay accounted for when rows only move forward and one new key is justified. */
  lemma KeysCarryOver(db: Db, after: Db)
    requires KeysOk(db)
    requires forall key :: KeyOk(db, key) ==> KeyOk(after, key)
    requires forall t :: 0 <= t < |after.log| ==>
      (t < |db.log| && after.log[t].key == db.log[t].key) || KeyOk(after, after.log[t].key)
    ensures KeysOk(after)
  {
  }

  /** Executions stay backed when the ledger only grows and the terms are kept. */
  lemma ExecsCarryOver(db: Db, after: Db)
    requires ExecsOk(db) && SameTerms(db.orders, after.orders) && after.execs == db.execs
    requires |db.log| <= |after.log| && forall t :: 0 <= t < |db.log| ==> after.log[t] == db.log[t]
    ensures ExecsOk(after)
  {
    forall k | 0 <= k < |after.execs| ensures ExecOk(after.log, after.orders, k, after.execs[k]) {
      assert ExecOk(db.log, db.orders, k, db.execs[k]);
    }
  }

  /** One order still fits when its counters and everybody's terms are kept. */
  lemma FitCarriesOver(before: seq<Order>, after: seq<Order>, execs: seq<Exec>, j: nat)
    requires RefsOk(before, execs) && SameTerms(before, after) && j < |before| && OrderFits(before, execs, j)
    requires after[j].filled == before[j].filled && after[j].reserveTxn == before[j].reserveTxn
    ensures OrderFits(after, execs, j)
  {
    ExecSumFrame(before, after, execs, Spent(j));
    ExecSumFrame(before, after, execs, Traded(j));
    ExecSumFrame(before, after, execs, FilledOf(j));
  }

  lemma OrdersCarryOver(db: Db, after: Db)
    requires OrdersFit(db) && RefsOk(db.orders, db.execs) && after.execs == db.execs
    requires SameTerms(db.orders, after.orders) && |after.orders| == |db.orders|
    requires forall j :: 0 <= j < |db.orders| ==>
      after.orders[j].filled == db.orders[j].filled && after.orders[j].reserveTxn == db.orders[j].reserveTxn
    ensures OrdersFit(after)
  {
    forall j | 0 <= j < |after.orders| ensures OrderFits(after.orders, after.execs, j) {
      FitCarriesOver(db.orders, after.orders, db.execs, j);
    }
  }

  ghost predicate Releasable(db: Db, i: nat) {
    && Core(db) && i < |db.orders|
    && !db.orders[i].terms.simulated && !db.orders[i].released && Clean(db.execs, i)
  }

  function Flagged(db: Db, i: nat): Db
    requires i < |db.orders|
  {
    db.(orders := db.orders[i := db.orders[i].(released := true)])
  }

  /** What the code is about to release is exactly what the books hold for the order: the
      unfilled shares of a sale, and in a currency without decimals the rest of the reserve. */
  lemma RemainderIsHeld(db: Db, i: nat)
    requires Releasable(db, i)
    ensures var o := db.orders[i];
            && o.filled == ExecSum(db.orders, db.execs, Traded(i))
            && (o.terms.currency in ZERO_DECIMAL ==>
                  ConsumedReserve(o.terms, db.execs, i) == ExecSum(db.orders, db.execs, Spent(i)))
  {
    assert OrderFits(db.orders, db.execs, i);
    CoreRefs(db);
    forall k | 0 <= k < |db.execs| ensures db.execs[k].fillTxn.Just? {
      assert ExecOk(db.log, db.orders, k, db.execs[k]);
    }
    FilledIsTraded(db.orders, db.execs, i);
    if db.orders[i].terms.currency in ZERO_DECIMAL { ConsumedIsSpent(db.orders, db.execs, i); }
  }

  /** What `releaseRemaining` finds left of a purchase. */
  function Remainder(db: Db, i: nat): Dec
    requires i < |db.orders|
  {
    db.orders[i].terms.maxAmount - ConsumedReserve(db.orders[i].terms, db.execs, i)
  }

  function ReleaseOf(db: Db, i: nat): PostInput
    requires i < |db.orders|
  {
    ReleaseInput(i, db.orders[i].terms, Remainder(db, i))
  }

  /** The RELEASE of a BUY, when the ledger takes it. */
  lemma ReleaseOutcome(db: Db, i: nat)
    requires Releasable(db, i)
    ensures Find(db.log, Key.Release(i)) == Nothing
    ensures PostTxn(Flagged(db, i), ReleaseOf(db, i)).Ok? ==>
      var after := db.(log := db.log + [Record(ReleaseOf(db, i), Nothing)]);
      WellFormed(after.log) && PostTxn(Flagged(db, i), ReleaseOf(db, i)) == Ok((Flagged(after, i), |db.log|))
  {
    FreshKey(db, Key.Release(i));
    PostFacts(Flagged(db, i), ReleaseOf(db, i));
  }

  /** In a currency without decimals it is never refused. */
  lemma ReleasePosts(db: Db, i: nat)
    requires Releasable(db, i) && db.orders[i].terms.side == BUY && db.orders[i].terms.currency in ZERO_DECIMAL
    requires Remainder(db, i) > 0
    ensures PostTxn(Flagged(db, i), ReleaseOf(db, i)).Ok?
  {
    var terms := db.orders[i].terms;
    var left := Left(db.orders, db.execs, i);
    RemainderIsHeld(db, i);
    assert OrderFits(db.orders, db.execs, i);
    ReservedCovers(db, i);
    var from := UserAccount(terms.userId, terms.currency, RESERVED);
    var to := UserAccount(terms.userId, terms.currency, AVAILABLE);
    FreshKey(db, Key.Release(i));
    WholeIsRounded(left, terms.currency);
    MoveNormalises(RELEASE, Key.Release(i), terms.currency, from, to, left);
    MoveFunded(db.log, RELEASE, Key.Release(i), terms.currency, from, to, left);
    PostFacts(Flagged(db, i), ReleaseOf(db, i));
  }

  /** One book after the release of a BUY: RESERVED goes down by what the order still held. */
  lemma ReleaseBuyBook(db: Db, i: nat, left: Dec, b: Book)
    requires i < |db.orders| && RefsOk(db.orders, db.execs) && BookOk(db, b)
    requires var o := db.orders[i];
      && o.terms.side == BUY && !o.terms.simulated && !o.released
      && (b == ReservedCash(o.terms.userId, o.terms.currency) ==> left == Left(db.orders, db.execs, i))
    ensures var flagged := Flagged(db, i);
            var txn := Record(ReleaseInput(i, db.orders[i].terms, left), Nothing);
            && (left == 0 ==> BookOk(flagged, b))
            && (!b.ReservedCash? ==> BookOk(flagged, b))
            && (b.ReservedCash? && b != ReservedCash(db.orders[i].terms.userId, db.orders[i].terms.currency) ==> BookOk(flagged, b))
            && BookOk(flagged.(log := db.log + [txn]), b)
  {
    var terms := db.orders[i].terms;
    var flagged := Flagged(db, i);
    var txn := Record(ReleaseInput(i, terms, left), Nothing);
    OrderRowChanges(db, i, db.orders[i].(released := true), b);
    assert Expected(flagged.(log := db.log + [txn]), b) == Expected(flagged, b);
    if ViewOf(b).Just? {
      TotalAppend(db.log, txn, ViewOf(b).value);
      MoveDelta(UserAccount(terms.userId, terms.currency, RESERVED),
                UserAccount(terms.userId, terms.currency, AVAILABLE), left, ViewOf(b).value);
    }
  }

  lemma HeldSharesCover(db: Db, i: nat, b: Book)
    requires OrdersFit(db) && ExecsOk(db) && BookOk(db, b) && i < |db.orders|
    requires var o := db.orders[i];
      !o.terms.simulated && !o.released && o.terms.side == SELL && b == ReservedShares(o.terms.userId, o.terms.instrumentId)
    ensures Actual(db, b) >= db.orders[i].terms.quantity - ExecSum(db.orders, db.execs, Traded(i))
  {
    ZeroSum(IntentTerms(db.intents, b));
    var held := OrderTerms(db.orders, db.execs, b);
    forall j | 0 <= j < |held| ensures held[j] >= 0 {
      assert OrderFits(db.orders, db.execs, j);
    }
    AddAtLeast(held, i);
    SoldSharesNonNegative(db, b);
  }

  /** The clamp of an unreserve never bites: the books hold at least the unfilled shares. */
  lemma ReservedSharesCover(db: Db, i: nat)
    requires Core(db) && i < |db.orders|
    requires !db.orders[i].terms.simulated && !db.orders[i].released && db.orders[i].terms.side == SELL
    ensures var terms := db.orders[i].terms;
            PositionOf(db, terms.userId, terms.instrumentId).reserved >=
            terms.quantity - ExecSum(db.orders, db.execs, Traded(i))
  {
    var b := ReservedShares(db.orders[i].terms.userId, db.orders[i].terms.instrumentId);
    assert BookOk(db, b);
    HeldSharesCover(db, i, b);
  }

  lemma SoldSharesNonNegative(db: Db, b: Book)
    requires ExecsOk(db) && (b.ReservedShares? || b.PendingShares?)
    ensures ExecSum(db.orders, db.execs, For(b)) >= 0
  {
    var sold := ExecTerms(db.orders, db.execs, For(b));
    forall k | 0 <= k < |sold| ensures sold[k] >= 0 {
      assert ExecOk(db.log, db.orders, k, db.execs[k]);
    }
    AddNonNegative(sold);
  }

  /** Taking shares off a position's reserve when it holds them: only that column moves. */
  lemma UnreserveExact(db: Db, terms: Terms, qty: Dec)
    requires PositionsOk(db) && 0 <= qty <= PositionOf(db, terms.userId, terms.instrumentId).reserved
    ensures var after := UnreserveShares(db, terms, qty);
            && after == db.(positions := after.positions)
            && PositionsOk(after)
            && forall u, i :: PositionOf(after, u, i) ==
                 (var p := PositionOf(db, u, i);
                  if u == terms.userId && i == terms.instrumentId then p.(reserved := p.reserved - qty) else p)
  {
    var after := UnreserveShares(db, terms, qty);
    forall u, i
      ensures PositionOf(after, u, i) ==
        (var p := PositionOf(db, u, i);
         if u == terms.userId && i == terms.instrumentId then p.(reserved := p.reserved - qty) else p)
    {
      assert PositionOk(db, u, i);
    }
    forall u, i ensures PositionOk(after, u, i) {
      assert PositionOk(db, u, i);
    }
  }

  /** One book after the unfilled shares of a SELL are handed back. */
  lemma ReleaseSellBook(db: Db, i: nat, b: Book)
    requires i < |db.orders| && RefsOk(db.orders, db.execs) && BookOk(db, b) && PositionsOk(db)
    requires db.orders[i].terms.side == SELL && !db.orders[i].terms.simulated && !db.orders[i].released
    requires var terms := db.orders[i].terms;
             var unfilled := terms.quantity - ExecSum(db.orders, db.execs, Traded(i));
             0 <= unfilled <= PositionOf(db, terms.userId, terms.instrumentId).reserved
    ensures var terms := db.orders[i].terms;
            BookOk(UnreserveShares(Flagged(db, i), terms, terms.quantity - ExecSum(db.orders, db.execs, Traded(i))), b)
  {
    var terms := db.orders[i].terms;
    var unfilled := terms.quantity - ExecSum(db.orders, db.execs, Traded(i));
    var flagged := Flagged(db, i);
    OrderRowChanges(db, i, db.orders[i].(released := true), b);
    forall u, ins ensures PositionOk(flagged, u, ins) { assert PositionOk(db, u, ins); }
    UnreserveExact(flagged, terms, unfilled);
    var after := UnreserveShares(flagged, terms, unfilled);
    assert Expected(after, b) == Expected(flagged, b);
  }

  /** Releasing a SELL hands back exactly its unfilled shares. */
  lemma ReleaseSellResult(db: Db, i: nat, unfilled: Dec)
    requires i < |db.orders| && !db.orders[i].terms.simulated && db.orders[i].terms.side == SELL
    requires unfilled == db.orders[i].terms.quantity - db.orders[i].filled
    ensures ReleaseRemaining(db, i) == Ok(UnreserveShares(Flagged(db, i), db.orders[i].terms, unfilled))
  {
  }

  lemma ReleaseSellTables(db: Db, i: nat, unfilled: Dec)
    requires PositionsOk(db) && i < |db.orders|
    requires 0 <= unfilled <= PositionOf(db, db.orders[i].terms.userId, db.orders[i].terms.instrumentId).reserved
    ensures var after := UnreserveShares(Flagged(db, i), db.orders[i].terms, unfilled);
            after == Flagged(db, i).(positions := after.positions) && PositionsOk(after)
  {
    var flagged := Flagged(db, i);
    forall u, ins ensures PositionOk(flagged, u, ins) { assert PositionOk(db, u, ins); }
    UnreserveExact(flagged, db.orders[i].terms, unfilled);
  }

  lemma ReleaseSellBooks(db: Db, i: nat, unfilled: Dec)
    requires BooksOk(db) && PositionsOk(db) && RefsOk(db.orders, db.execs) && i < |db.orders|
    requires db.orders[i].terms.side == SELL && !db.orders[i].terms.simulated && !db.orders[i].released
    requires unfilled == db.orders[i].terms.quantity - ExecSum(db.orders, db.execs, Traded(i))
    requires 0 <= unfilled <= PositionOf(db, db.orders[i].terms.userId, db.orders[i].terms.instrumentId).reserved
    ensures BooksOk(UnreserveShares(Flagged(db, i), db.orders[i].terms, unfilled))
  {
    forall b | Kept(b) ensures BookOk(UnreserveShares(Flagged(db, i), db.orders[i].terms, unfilled), b) {
      assert BookOk(db, b);
      ReleaseSellBook(db, i, b);
    }
  }

  lemma ReleaseSell(db: Db, i: nat)
    requires Releasable(db, i) && db.orders[i].terms.side == SELL
    ensures ReleaseRemaining(db, i).Ok?
    ensures var after := ReleaseRemaining(db, i).value;
            after == Flagged(db, i).(positions := after.positions) && BooksOk(after) && PositionsOk(after)
  {
    var unfilled := db.orders[i].terms.quantity - db.orders[i].filled;
    RemainderIsHeld(db, i);
    ReservedSharesCover(db, i);
    CoreRefs(db);
    assert OrderFits(db.orders, db.execs, i);
    ReleaseSellResult(db, i, unfilled);
    ReleaseSellTables(db, i, unfilled);
    ReleaseSellBooks(db, i, unfilled);
  }

  function AfterReleaseBuy(db: Db, i: nat): Db
    requires i < |db.orders|
  {
    if Remainder(db, i) > 0 then Flagged(db, i).(log := db.log + [Record(ReleaseOf(db, i), Nothing)])
    else Flagged(db, i)
  }

  /** `releaseRemaining` on a purchase, case by case. */
  lemma ReleaseBuyCases(db: Db, i: nat)
    requires i < |db.orders| && !db.orders[i].terms.simulated && db.orders[i].terms.side == BUY
    requires db.orders[i].reserveTxn.Just?
    ensures ReleaseRemaining(db, i).Ok? <==> Remainder(db, i) <= 0 || PostTxn(Flagged(db, i), ReleaseOf(db, i)).Ok?
    ensures ReleaseRemaining(db, i).Ok? ==>
      ReleaseRemaining(db, i).value ==
        if Remainder(db, i) <= 0 then Flagged(db, i) else PostTxn(Flagged(db, i), ReleaseOf(db, i)).value.0
  {
  }

  /** The release of a purchase, when accepted, posts what `consumedReserve` leaves; in a
      currency without decimals it is always accepted. */
  lemma ReleaseBuy(db: Db, i: nat)
    requires Releasable(db, i) && db.orders[i].terms.side == BUY
    ensures db.orders[i].terms.currency in ZERO_DECIMAL ==> ReleaseRemaining(db, i).Ok?
    ensures ReleaseRemaining(db, i).Ok? ==>
      ReleaseRemaining(db, i) == Ok(AfterReleaseBuy(db, i)) && WellFormed(AfterReleaseBuy(db, i).log)
  {
    assert OrderFits(db.orders, db.execs, i);
    ReleaseBuyCases(db, i);
    if Remainder(db, i) > 0 {
      ReleaseOutcome(db, i);
      if db.orders[i].terms.currency in ZERO_DECIMAL { ReleasePosts(db, i); }
    }
  }

  lemma ReleaseBuyBooks(db: Db, i: nat)
    requires Releasable(db, i) && db.orders[i].terms.side == BUY
    ensures BooksOk(AfterReleaseBuy(db, i))
  {
    CoreRefs(db);
    RemainderIsHeld(db, i);
    assert OrderFits(db.orders, db.execs, i);
    forall b | Kept(b) ensures BookOk(AfterReleaseBuy(db, i), b) {
      assert BookOk(db, b);
      ReleaseBuyBook(db, i, Remainder(db, i), b);
    }
  }

  /** Flagging an order released keeps every key accounted for, with one RELEASE more. */
  lemma ReleaseKeys(db: Db, i: nat, log: Log)
    requires KeysOk(db) && i < |db.orders|
    requires log == db.log || exists t :: log == db.log + [t] && t.key == Key.Release(i)
    ensures KeysOk(Flagged(db, i).(log := log))
  {
  }

  /** The rows a release leaves: the order flagged, the log perhaps longer, shares handed back. */
  lemma ReleaseRows(db: Db, i: nat, after: Db)
    requires ExecsOk(db) && OrdersFit(db) && i < |db.orders|
    requires after == Flagged(db, i).(log := after.log, positions := after.positions)
    requires |db.log| <= |after.log| && forall t :: 0 <= t < |db.log| ==> after.log[t] == db.log[t]
    ensures ExecsOk(after) && OrdersFit(after)
  {
    CoreRefs(db);
    ExecsCarryOver(db, after);
    OrdersCarryOver(db, after);
  }

  lemma FlaggedPositions(db: Db, i: nat, log: Log)
    requires PositionsOk(db) && i < |db.orders|
    ensures PositionsOk(Flagged(db, i).(log := log))
  {
    var after := Flagged(db, i).(log := log);
    forall u, ins ensures PositionOk(after, u, ins) { assert PositionOk(db, u, ins); }
  }

  lemma AfterReleaseShape(db: Db, i: nat)
    requires i < |db.orders|
    ensures var after := AfterReleaseBuy(db, i);
            && after == Flagged(db, i).(log := after.log)
            && (after.log == db.log || exists t :: after.log == db.log + [t] && t.key == Key.Release(i))
            && |db.log| <= |after.log| && forall t :: 0 <= t < |db.log| ==> after.log[t] == db.log[t]
  {
  }

  lemma ReleaseBuyKeeps(db: Db, i: nat)
    requires Releasable(db, i) && db.orders[i].terms.side == BUY && ReleaseRemaining(db, i).Ok?
    ensures Core(AfterReleaseBuy(db, i))
  {
    var after := AfterReleaseBuy(db, i);
    ReleaseBuy(db, i);
    ReleaseBuyBooks(db, i);
    AfterReleaseShape(db, i);
    ReleaseKeys(db, i, after.log);
    ReleaseRows(db, i, after);
    FlaggedPositions(db, i, after.log);
  }

  lemma ReleaseSellKeeps(db: Db, i: nat)
    requires Releasable(db, i) && db.orders[i].terms.side == SELL
    ensures ReleaseRemaining(db, i).Ok? && Core(ReleaseRemaining(db, i).value)
  {
    ReleaseSell(db, i);
    var after := ReleaseRemaining(db, i).value;
    ReleaseKeys(db, i, after.log);
    ReleaseRows(db, i, after);
  }

  /** `releaseRemaining` on an order not yet released: when accepted it keeps the core of the
      invariant and changes no other row; it is never refused on a sale, nor in a currency
      without decimals. */
  lemma ReleaseKeeps(db: Db, i: nat)
    requires Releasable(db, i)
    ensures ExactRelease(db.orders[i].terms) ==> ReleaseRemaining(db, i).Ok?
    ensures ReleaseRemaining(db, i).Ok? ==>
      var after := ReleaseRemaining(db, i).value;
      && Core(after)
      && after.orders == db.orders[i := db.orders[i].(released := true)]
      && after.execs == db.execs && after.intents == db.intents
  {
    if db.orders[i].terms.side == BUY {
      ReleaseBuy(db, i);
      if ReleaseRemaining(db, i).Ok? { ReleaseBuyKeeps(db, i); }
    } else {
      ReleaseSell(db, i);
      ReleaseSellKeeps(db, i);
    }
  }
}
