/** What every balance and every position counter ought to be, as sums over the order,
    execution and intent tables, and how those sums move when one row changes. */
module BrokerageBooks {
  import opened Decimals
  import opened LedgerModel
  import opened OrderState
  import opened BrokerageModel
  import Fees

  /** The counters kept redundantly: four ledger totals and two position columns. */
  datatype Book =
    | ReservedCash(userId: string, currency: string)
    | SettlingCash(userId: string, currency: string)
    | WithdrawableCash(userId: string, currency: string)
    | MirrorCash(currency: string)
    | PendingShares(userId: string, instrumentId: string)
    | ReservedShares(userId: string, instrumentId: string)

  function ViewOf(b: Book): Maybe<View> {
    match b
    case ReservedCash(u, c) => Just(Of(UserAccount(u, c, RESERVED)))
    case SettlingCash(u, c) => Just(Of(UserAccount(u, c, Kind.SETTLING)))
    case WithdrawableCash(u, c) => Just(Of(UserAccount(u, c, WITHDRAWABLE)))
    case MirrorCash(c) => Just(Mirror(c))
    case _ => Nothing
  }

  /** What the database says. */
  function Actual(db: Db, b: Book): Dec {
    match b
    case PendingShares(u, i) => PositionOf(db, u, i).pending
    case ReservedShares(u, i) => PositionOf(db, u, i).reserved
    case _ => Total(db.log, ViewOf(b).value)
  }

  // ------------------------------------------------------------------ terms

  /** What is added up over the executions: a book's share, or a figure of one order. */
  datatype Tally = For(book: Book) | Spent(order: nat) | Traded(order: nat) | FilledOf(order: nat)

  predicate Undelivered(e: Exec) {
    e.state == Unsettled || e.state == Settling
  }

  function BookTerm(terms: Terms, e: Exec, b: Book): Dec {
    var t := e.trade;
    match b
    case SettlingCash(u, c) =>
      if terms.side == SELL && terms.userId == u && terms.currency == c && Undelivered(e) then t.net else 0
    case MirrorCash(c) =>
      if terms.currency != c || e.state == Failed then 0
      else if terms.side == BUY then -BuyDebit(terms, t, c) else t.net
    case PendingShares(u, i) =>
      if terms.side == BUY && terms.userId == u && terms.instrumentId == i && Undelivered(e) then t.quantity else 0
    case ReservedShares(u, i) =>
      if terms.side == SELL && terms.userId == u && terms.instrumentId == i && Undelivered(e) then t.quantity else 0
    case _ => 0
  }

  function ExecTerm(orders: seq<Order>, e: Exec, tally: Tally): Dec {
    if e.trade.order >= |orders| then 0
    else
      var terms := orders[e.trade.order].terms;
      match tally
      case For(b) => BookTerm(terms, e, b)
      case Spent(i) => if e.trade.order == i then BuyDebit(terms, e.trade, terms.currency) else 0
      case Traded(i) => if e.trade.order == i then e.trade.quantity else 0
      case FilledOf(i) => if e.trade.order == i && e.state != Failed then e.trade.quantity else 0
  }

  function ExecTerms(orders: seq<Order>, execs: seq<Exec>, tally: Tally): seq<Dec> {
    seq(|execs|, k requires 0 <= k < |execs| => ExecTerm(orders, execs[k], tally))
  }

  function ExecSum(orders: seq<Order>, execs: seq<Exec>, tally: Tally): Dec {
    Fees.Add(ExecTerms(orders, execs, tally))
  }

  /** What an order not yet released still holds back: cash of a BUY, shares of a SELL. */
  function OrderTerm(orders: seq<Order>, execs: seq<Exec>, i: nat, b: Book): Dec
    requires i < |orders|
  {
    var terms := orders[i].terms;
    if terms.simulated || orders[i].released then 0
    else match b
      case ReservedCash(u, c) =>
        if terms.side == BUY && terms.userId == u && terms.currency == c
        then terms.maxAmount - ExecSum(orders, execs, Spent(i)) else 0
      case ReservedShares(u, ins) =>
        if terms.side == SELL && terms.userId == u && terms.instrumentId == ins
        then terms.quantity - ExecSum(orders, execs, Traded(i)) else 0
      case _ => 0
  }

  function OrderTerms(orders: seq<Order>, execs: seq<Exec>, b: Book): seq<Dec> {
    seq(|orders|, i requires 0 <= i < |orders| => OrderTerm(orders, execs, i, b))
  }

  function OrderSum(orders: seq<Order>, execs: seq<Exec>, b: Book): Dec {
    Fees.Add(OrderTerms(orders, execs, b))
  }

  function IntentTerm(i: Intent, b: Book): Dec {
    match b
    case WithdrawableCash(u, c) =>
      if i.direction == OUT && i.state == IntentState.Pending && i.userId == u && i.currency == c then i.amount else 0
    case MirrorCash(c) =>
      if i.currency != c then 0
      else if i.direction == IN then (if i.state == Paid then i.amount else 0)
      else if i.state == Paid || i.state == IntentState.Pending then -i.amount else 0
    case _ => 0
  }

  function IntentTerms(intents: seq<Intent>, b: Book): seq<Dec> {
    seq(|intents|, k requires 0 <= k < |intents| => IntentTerm(intents[k], b))
  }

  function IntentSum(intents: seq<Intent>, b: Book): Dec {
    Fees.Add(IntentTerms(intents, b))
  }

  /** What the tables say it ought to be. */
  function Expected(db: Db, b: Book): Dec {
    OrderSum(db.orders, db.execs, b) + ExecSum(db.orders, db.execs, For(b)) + IntentSum(db.intents, b)
  }

  // ------------------------------------------------------------------- sums

  lemma AddAppend(xs: seq<Dec>, x: Dec)
    ensures Fees.Add(xs + [x]) == Fees.Add(xs) + x
  {
    assert (xs + [x])[..|xs|] == xs;
  }

  lemma {:induction false} AddUpdate(xs: seq<Dec>, k: nat, x: Dec)
    requires k < |xs|
    ensures Fees.Add(xs[k := x]) == Fees.Add(xs) - xs[k] + x
  {
    var n := |xs| - 1;
    if k < n {
      AddUpdate(xs[..n], k, x);
      assert xs[k := x][..n] == xs[..n][k := x];
    } else {
      assert xs[k := x][..n] == xs[..n];
    }
  }

  lemma {:induction false} AddAtLeast(xs: seq<Dec>, k: nat)
    requires k < |xs| && forall j :: 0 <= j < |xs| ==> xs[j] >= 0
    ensures Fees.Add(xs) >= xs[k]
  {
    var n := |xs| - 1;
    AddNonNegative(xs[..n]);
    if k < n { AddAtLeast(xs[..n], k); }
  }

  lemma {:induction false} AddNonNegative(xs: seq<Dec>)
    requires forall j :: 0 <= j < |xs| ==> xs[j] >= 0
    ensures Fees.Add(xs) >= 0
  {
    if xs != [] { AddNonNegative(xs[..|xs| - 1]); }
  }

  /** Executions refer to existing orders. */
  predicate RefsOk(orders: seq<Order>, execs: seq<Exec>) {
    forall k :: 0 <= k < |execs| ==> execs[k].trade.order < |orders|
  }

  /** The fixed terms of the orders are kept; new orders may be added. */
  predicate SameTerms(before: seq<Order>, after: seq<Order>) {
    |before| <= |after| && forall i :: 0 <= i < |before| ==> after[i].terms == before[i].terms
  }

  lemma ExecSumFrame(before: seq<Order>, after: seq<Order>, execs: seq<Exec>, tally: Tally)
    requires RefsOk(before, execs) && SameTerms(before, after)
    ensures ExecSum(after, execs, tally) == ExecSum(before, execs, tally)
  {
    assert ExecTerms(after, execs, tally) == ExecTerms(before, execs, tally);
  }

  lemma ExecSumAppend(orders: seq<Order>, execs: seq<Exec>, e: Exec, tally: Tally)
    ensures ExecSum(orders, execs + [e], tally) == ExecSum(orders, execs, tally) + ExecTerm(orders, e, tally)
  {
    assert ExecTerms(orders, execs + [e], tally) == ExecTerms(orders, execs, tally) + [ExecTerm(orders, e, tally)];
    AddAppend(ExecTerms(orders, execs, tally), ExecTerm(orders, e, tally));
  }

  lemma ExecSumUpdate(orders: seq<Order>, execs: seq<Exec>, k: nat, e: Exec, tally: Tally)
    requires k < |execs|
    ensures ExecSum(orders, execs[k := e], tally) ==
            ExecSum(orders, execs, tally) - ExecTerm(orders, execs[k], tally) + ExecTerm(orders, e, tally)
  {
    assert ExecTerms(orders, execs[k := e], tally) == ExecTerms(orders, execs, tally)[k := ExecTerm(orders, e, tally)];
    AddUpdate(ExecTerms(orders, execs, tally), k, ExecTerm(orders, e, tally));
  }

  /** Order sums when only one order's term can differ. */
  lemma OrderSumUpdate(before: seq<Order>, execs: seq<Exec>, after: seq<Order>, execs': seq<Exec>, i: nat, b: Book)
    requires |before| == |after| && i < |before|
    requires forall j :: 0 <= j < |before| && j != i ==> OrderTerm(after, execs', j, b) == OrderTerm(before, execs, j, b)
    ensures OrderSum(after, execs', b) ==
            OrderSum(before, execs, b) - OrderTerm(before, execs, i, b) + OrderTerm(after, execs', i, b)
  {
    assert OrderTerms(after, execs', b) == OrderTerms(before, execs, b)[i := OrderTerm(after, execs', i, b)];
    AddUpdate(OrderTerms(before, execs, b), i, OrderTerm(after, execs', i, b));
  }

  lemma IntentSumAppend(intents: seq<Intent>, i: Intent, b: Book)
    ensures IntentSum(intents + [i], b) == IntentSum(intents, b) + IntentTerm(i, b)
  {
    assert IntentTerms(intents + [i], b) == IntentTerms(intents, b) + [IntentTerm(i, b)];
    AddAppend(IntentTerms(intents, b), IntentTerm(i, b));
  }

  lemma IntentSumUpdate(intents: seq<Intent>, k: nat, i: Intent, b: Book)
    requires k < |intents|
    ensures IntentSum(intents[k := i], b) == IntentSum(intents, b) - IntentTerm(intents[k], b) + IntentTerm(i, b)
  {
    assert IntentTerms(intents[k := i], b) == IntentTerms(intents, b)[k := IntentTerm(i, b)];
    AddUpdate(IntentTerms(intents, b), k, IntentTerm(i, b));
  }

  // ---------------------------------------------------------- row by row

  /** One order row changes, its terms kept and no execution with it. */
  lemma OrderRowChanges(db: Db, i: nat, o: Order, b: Book)
    requires i < |db.orders| && o.terms == db.orders[i].terms && RefsOk(db.orders, db.execs)
    ensures var after := db.orders[i := o];
            Expected(db.(orders := after), b) ==
            Expected(db, b) - OrderTerm(db.orders, db.execs, i, b) + OrderTerm(after, db.execs, i, b)
  {
    var after := db.orders[i := o];
    ExecSumFrame(db.orders, after, db.execs, For(b));
    forall j | 0 <= j < |after| && j != i ensures OrderTerm(after, db.execs, j, b) == OrderTerm(db.orders, db.execs, j, b) {
      ExecSumFrame(db.orders, after, db.execs, Spent(j));
      ExecSumFrame(db.orders, after, db.execs, Traded(j));
    }
    OrderSumUpdate(db.orders, db.execs, after, db.execs, i, b);
  }

  /** Status, counters, batch: the columns no sum looks at. */
  lemma IdleOrderColumns(db: Db, i: nat, o: Order, b: Book)
    requires i < |db.orders| && o.terms == db.orders[i].terms && o.released == db.orders[i].released
    requires RefsOk(db.orders, db.execs)
    ensures Expected(db.(orders := db.orders[i := o]), b) == Expected(db, b)
    ensures forall t :: ExecSum(db.orders[i := o], db.execs, t) == ExecSum(db.orders, db.execs, t)
  {
    var after := db.orders[i := o];
    forall t ensures ExecSum(after, db.execs, t) == ExecSum(db.orders, db.execs, t) {
      ExecSumFrame(db.orders, after, db.execs, t);
    }
    OrderRowChanges(db, i, o, b);
  }

  /** A new order, without any execution yet. */
  lemma OrderAdded(db: Db, o: Order, b: Book)
    requires RefsOk(db.orders, db.execs)
    ensures var after := db.orders + [o];
            Expected(db.(orders := after), b) == Expected(db, b) + OrderTerm(after, db.execs, |db.orders|, b)
  {
    var after := db.orders + [o];
    ExecSumFrame(db.orders, after, db.execs, For(b));
    forall j | 0 <= j < |db.orders| ensures OrderTerm(after, db.execs, j, b) == OrderTerm(db.orders, db.execs, j, b) {
      ExecSumFrame(db.orders, after, db.execs, Spent(j));
      ExecSumFrame(db.orders, after, db.execs, Traded(j));
    }
    assert OrderTerms(after, db.execs, b) == OrderTerms(db.orders, db.execs, b) + [OrderTerm(after, db.execs, |db.orders|, b)];
    AddAppend(OrderTerms(db.orders, db.execs, b), OrderTerm(after, db.execs, |db.orders|, b));
  }

  /** Nothing was ever executed on an order that has just been created. */
  lemma {:induction false} NoExecsYet(orders: seq<Order>, execs: seq<Exec>, i: nat)
    requires forall k :: 0 <= k < |execs| ==> execs[k].trade.order < i
    ensures ExecSum(orders, execs, Spent(i)) == ExecSum(orders, execs, Traded(i)) == ExecSum(orders, execs, FilledOf(i)) == 0
  {
    if execs != [] {
      var n := |execs| - 1;
      NoExecsYet(orders, execs[..n], i);
      assert execs[..n] + [execs[n]] == execs;
      ExecSumAppend(orders, execs[..n], execs[n], Spent(i));
      ExecSumAppend(orders, execs[..n], execs[n], Traded(i));
      ExecSumAppend(orders, execs[..n], execs[n], FilledOf(i));
    }
  }

  /** A new execution: it moves its own book terms and its order's remainder. */
  lemma ExecAdded(db: Db, e: Exec, b: Book)
    requires e.trade.order < |db.orders|
    ensures var execs := db.execs + [e]; var i := e.trade.order;
            Expected(db.(execs := execs), b) ==
            Expected(db, b) + ExecTerm(db.orders, e, For(b))
            - OrderTerm(db.orders, db.execs, i, b) + OrderTerm(db.orders, execs, i, b)
  {
    var execs := db.execs + [e];
    ExecSumAppend(db.orders, db.execs, e, For(b));
    forall j | 0 <= j < |db.orders| && j != e.trade.order
      ensures OrderTerm(db.orders, execs, j, b) == OrderTerm(db.orders, db.execs, j, b)
    {
      ExecSumAppend(db.orders, db.execs, e, Spent(j));
      ExecSumAppend(db.orders, db.execs, e, Traded(j));
    }
    OrderSumUpdate(db.orders, db.execs, db.orders, execs, e.trade.order, b);
  }

  /** An execution changes state or links; its trade is kept. */
  lemma ExecRowChanges(db: Db, k: nat, e: Exec, b: Book)
    requires k < |db.execs| && e.trade == db.execs[k].trade
    ensures Expected(db.(execs := db.execs[k := e]), b) ==
            Expected(db, b) - ExecTerm(db.orders, db.execs[k], For(b)) + ExecTerm(db.orders, e, For(b))
    ensures forall i :: ExecSum(db.orders, db.execs[k := e], Spent(i)) == ExecSum(db.orders, db.execs, Spent(i))
    ensures forall i :: ExecSum(db.orders, db.execs[k := e], Traded(i)) == ExecSum(db.orders, db.execs, Traded(i))
  {
    var execs := db.execs[k := e];
    ExecSumUpdate(db.orders, db.execs, k, e, For(b));
    forall i ensures ExecSum(db.orders, execs, Spent(i)) == ExecSum(db.orders, db.execs, Spent(i)) {
      ExecSumUpdate(db.orders, db.execs, k, e, Spent(i));
    }
    forall i ensures ExecSum(db.orders, execs, Traded(i)) == ExecSum(db.orders, db.execs, Traded(i)) {
      ExecSumUpdate(db.orders, db.execs, k, e, Traded(i));
    }
    assert OrderTerms(db.orders, execs, b) == OrderTerms(db.orders, db.execs, b);
  }

  // -------------------------------------------------------- ledger movements

  /** The views the books look at: user accounts, and the mirror. */
  predicate UserView(v: View) {
    v.Of? ==> v.account.owner == USER
  }

  lemma MoveDelta(from: Account, to: Account, amount: Dec, v: View)
    ensures Delta(Move(from, to, amount), v) ==
            (if Covers(v, from) then -amount else 0) + (if Covers(v, to) then amount else 0)
  {
    var es := Move(from, to, amount);
    assert es[1..] == [Entry(to, amount)];
    assert Delta([Entry(to, amount)], v) == if Covers(v, to) then amount else 0;
  }

  lemma OptionalDelta(a: Account, amount: Dec, v: View)
    ensures Delta(Optional(a, amount), v) == if Covers(v, a) then amount else 0
  {
    if amount != 0 { assert Optional(a, amount)[1..] == []; }
  }

  /** A fill moves a client's money only out of RESERVED, or into SETTLING. */
  lemma FillDelta(terms: Terms, t: Trade, v: View)
    requires terms.partnerId.Just? && UserView(v)
    ensures Delta(FillEntries(terms, t), v) ==
      if terms.side == BUY then
        (if Covers(v, UserAccount(terms.userId, terms.currency, RESERVED)) then -BuyDebit(terms, t, terms.currency) else 0)
      else
        (if Covers(v, UserAccount(terms.userId, terms.currency, Kind.SETTLING)) then t.net else 0)
  {
    var c := terms.currency;
    var clearing := SdbClearing(terms.partnerId.value, c);
    if terms.side == SELL {
      MoveDelta(clearing, UserAccount(terms.userId, c, Kind.SETTLING), t.net, v);
    } else {
      var share := Fees.Prorated(terms.commission, t.quantity, terms.quantity, c);
      var base := [Entry(UserAccount(terms.userId, c, RESERVED), -BuyDebit(terms, t, c)), Entry(clearing, t.gross)];
      var fees := [Optional(FeeAccount("COURTAGE_SDB", c), t.courtage), Optional(FeeAccount("TAXE", c), t.taxes),
                   Optional(FeeAccount("COMMISSION_ALKE", c), share)];
      assert base[1..] == [Entry(clearing, t.gross)] && base[1..][1..] == [];
      DeltaConcat(base, fees[0], v);
      DeltaConcat(base + fees[0], fees[1], v);
      DeltaConcat(base + fees[0] + fees[1], fees[2], v);
      OptionalDelta(FeeAccount("COURTAGE_SDB", c), t.courtage, v);
      OptionalDelta(FeeAccount("TAXE", c), t.taxes, v);
      OptionalDelta(FeeAccount("COMMISSION_ALKE", c), share, v);
    }
  }
}
