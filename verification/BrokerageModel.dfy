/** Orders, executions, positions and payment intents on top of the ledger, and every
    service call that moves them, as functions on the database value. A call either
    returns the new database or a fault, in which case its transaction left no trace.

    Sources: `src/modules/brokerage/orders.service.ts`, `order-ledger.service.ts`,
    `batches.service.ts`, `settlement.service.ts`, `src/modules/payments/payments.service.ts`. */
module BrokerageModel {
  import opened Decimals
  import opened LedgerModel
  import opened OrderState
  import Fees

  datatype Fault =
    | Missing | NotOwner | NotAllowed | InvalidQuantity | InvalidAmount | InsufficientShares
    | NoPartner | OverReserve | AlreadySettled | WrongDirection | LedgerRefused(why: Refusal)

  datatype Result<+T> = Ok(value: T) | Err(fault: Fault) {
    predicate IsFailure() { Err? }
    function PropagateFailure<U>(): Result<U>
      requires Err?
    { Err(fault) }
    function Extract(): T
      requires Ok?
    { value }
  }

  // ------------------------------------------------------------------- rows

  datatype Side = BUY | SELL

  /** What placement fixes once and for all. */
  datatype Terms = Terms(userId: string, instrumentId: string, partnerId: Maybe<string>, side: Side,
                         currency: string, quantity: Dec, maxAmount: Dec, commission: Dec,
                         simulated: bool, sessions: nat)

  /** `released` is a history variable: releaseRemaining has been run on the order. No
      operation reads it. */
  datatype Order = Order(terms: Terms, status: OrderStatus, filled: Dec, avg: Maybe<Dec>,
                         reserveTxn: Maybe<nat>, batch: Maybe<nat>, transmittedAt: Maybe<int>, released: bool)

  /** Execution references: `sdb_ref:executed_at`, `orderId:executed_at` or `manual:approvalId`. */
  datatype ExecRef = SdbRef(sdbRef: string, at: int) | OrderRef(order: nat, at: int) | Manual(approval: nat)

  datatype Trade = Trade(order: nat, ref: ExecRef, quantity: Dec, price: Dec, gross: Dec,
                         courtage: Dec, taxes: Dec, net: Dec, executedAt: int, settlementDay: Maybe<int>)

  datatype Delivery = Unsettled | Settling | Settled | Failed

  datatype Exec = Exec(trade: Trade, state: Delivery, fillTxn: Maybe<nat>, settlementTxn: Maybe<nat>)

  datatype Position = Position(quantity: Dec, pending: Dec, reserved: Dec, avgCost: Dec)

  datatype Direction = IN | OUT
  datatype IntentState = Created | Pending | Paid | FailedIntent | Expired | Cancelled
  datatype Intent = Intent(userId: string, direction: Direction, provider: string, currency: string,
                           amount: Dec, state: IntentState, txn: Maybe<nat>)

  datatype Db = Db(log: Log, orders: seq<Order>, execs: seq<Exec>,
                   positions: map<(string, string), Position>, intents: seq<Intent>)

  // --------------------------------------------------------------- accounts

  function UserAccount(userId: string, currency: string, kind: Kind): Account {
    Account(USER, userId, currency, kind)
  }

  function SdbClearing(partnerId: string, currency: string): Account {
    Account(SDB, partnerId, currency, CLEARING)
  }

  function FeeAccount(code: string, currency: string): Account {
    Account(FEE, code, currency, AVAILABLE)
  }

  function ProviderClearing(provider: string, currency: string): Account {
    Account(PROVIDER, provider, currency, CLEARING)
  }

  /** Two entries: debit one account, credit the other. */
  function Move(from: Account, to: Account, amount: Dec): seq<Entry> {
    [Entry(from, -amount), Entry(to, amount)]
  }

  ghost function PostTxn(db: Db, input: PostInput): Result<(Db, nat)> {
    match Outcome(db.log, input)
    case Posted(id) => Ok((db.(log := Post(db.log, input)), id))
    case Existing(id) => Ok((db, id))
    case Refused(why) => Err(LedgerRefused(why))
  }

  // ----------------------------------------------------------- order ledger

  /** `buyDebit`: gross, courtage, taxes and the prorated commission. */
  function BuyDebit(terms: Terms, t: Trade, currency: string): Dec {
    t.gross + t.courtage + t.taxes + Fees.Prorated(terms.commission, t.quantity, terms.quantity, currency)
  }

  function ReserveInput(order: nat, terms: Terms): PostInput {
    PostInput(RESERVE, Key.Reserve(order), terms.currency,
              Move(UserAccount(terms.userId, terms.currency, AVAILABLE),
                   UserAccount(terms.userId, terms.currency, RESERVED), terms.maxAmount), Nothing)
  }

  ghost function ReserveCash(db: Db, order: nat): Result<Db>
    requires order < |db.orders|
  {
    var (posted, id) :- PostTxn(db, ReserveInput(order, db.orders[order].terms));
    Ok(posted.(orders := posted.orders[order := posted.orders[order].(reserveTxn := Just(id))]))
  }

  function PositionOf(db: Db, userId: string, instrumentId: string): Position {
    if (userId, instrumentId) in db.positions then db.positions[(userId, instrumentId)] else Position(0, 0, 0, 0)
  }

  /** An UPDATE of a position row; a missing row matches nothing. */
  function UpdatePosition(db: Db, terms: Terms, p: Position): Db {
    if (terms.userId, terms.instrumentId) in db.positions
    then db.(positions := db.positions[(terms.userId, terms.instrumentId) := p]) else db
  }

  function Clamp(x: Dec): Dec {
    if x > 0 then x else 0
  }

  function ReserveShares(db: Db, terms: Terms): Result<Db> {
    var p := PositionOf(db, terms.userId, terms.instrumentId);
    if (terms.userId, terms.instrumentId) in db.positions && p.quantity - p.reserved >= terms.quantity
    then Ok(UpdatePosition(db, terms, p.(reserved := p.reserved + terms.quantity)))
    else Err(InsufficientShares)
  }

  function UnreserveShares(db: Db, terms: Terms, qty: Dec): Db {
    var p := PositionOf(db, terms.userId, terms.instrumentId);
    if qty <= 0 then db else UpdatePosition(db, terms, p.(reserved := Clamp(p.reserved - qty)))
  }

  predicate Consumes(e: Exec, order: nat) {
    e.trade.order == order && e.fillTxn.Just? && e.state != Failed
  }

  /** `consumedReserve`: note the default currency, XAF, whatever the order's own. */
  function ConsumedReserve(terms: Terms, execs: seq<Exec>, order: nat): Dec {
    if execs == [] then 0
    else
      var last := execs[|execs| - 1];
      ConsumedReserve(terms, execs[..|execs| - 1], order) +
      (if Consumes(last, order) then BuyDebit(terms, last.trade, "XAF") else 0)
  }

  function ReleaseInput(order: nat, terms: Terms, remaining: Dec): PostInput {
    PostInput(RELEASE, Key.Release(order), terms.currency,
              Move(UserAccount(terms.userId, terms.currency, RESERVED),
                   UserAccount(terms.userId, terms.currency, AVAILABLE), remaining), Nothing)
  }

  /** `releaseRemaining`: what is left of a BUY reserve, or the unfilled SELL shares. */
  ghost function ReleaseRemaining(db: Db, order: nat): Result<Db>
    requires order < |db.orders|
  {
    var o := db.orders[order];
    if o.terms.simulated then Ok(db)
    else
      var db := db.(orders := db.orders[order := o.(released := true)]);
      if o.terms.side == SELL then Ok(UnreserveShares(db, o.terms, o.terms.quantity - o.filled))
      else
        var remaining := o.terms.maxAmount - ConsumedReserve(o.terms, db.execs, order);
        if o.reserveTxn.Nothing? || remaining <= 0 then Ok(db)
        else
          var (posted, _) :- PostTxn(db, ReleaseInput(order, o.terms, remaining));
          Ok(posted)
  }

  function Optional(account: Account, amount: Dec): seq<Entry> {
    if amount == 0 then [] else [Entry(account, amount)]
  }

  function FillEntries(terms: Terms, t: Trade): seq<Entry>
    requires terms.partnerId.Just?
  {
    var clearing := SdbClearing(terms.partnerId.value, terms.currency);
    if terms.side == BUY then
      [Entry(UserAccount(terms.userId, terms.currency, RESERVED), -BuyDebit(terms, t, terms.currency)),
       Entry(clearing, t.gross)]
      + Optional(FeeAccount("COURTAGE_SDB", terms.currency), t.courtage)
      + Optional(FeeAccount("TAXE", terms.currency), t.taxes)
      + Optional(FeeAccount("COMMISSION_ALKE", terms.currency),
                 Fees.Prorated(terms.commission, t.quantity, terms.quantity, terms.currency))
    else Move(clearing, UserAccount(terms.userId, terms.currency, Kind.SETTLING), t.net)
  }

  function FillInput(exec: nat, terms: Terms, t: Trade): PostInput
    requires terms.partnerId.Just?
  {
    PostInput(FILL, Key.Fill(exec), terms.currency, FillEntries(terms, t), Nothing)
  }

  /** `postFill`: refused when a BUY execution costs more than what is left of the reserve. */
  ghost function PostFill(db: Db, exec: nat): Result<Db>
    requires exec < |db.execs| && db.execs[exec].trade.order < |db.orders|
    requires db.orders[db.execs[exec].trade.order].terms.partnerId.Just?
  {
    var e := db.execs[exec];
    var o := db.orders[e.trade.order];
    var debit := BuyDebit(o.terms, e.trade, o.terms.currency);
    var before := ConsumedReserve(o.terms, db.execs, e.trade.order) - (if e.fillTxn.Just? then debit else 0);
    if o.terms.side == BUY && before + debit > o.terms.maxAmount then Err(OverReserve)
    else
      var (posted, id) :- PostTxn(db, FillInput(exec, o.terms, e.trade));
      Ok(posted.(execs := posted.execs[exec := e.(fillTxn := Just(id))]))
  }

  /** `addPendingShares`: executed, not yet delivered, at a weighted average cost. */
  function AddPendingShares(db: Db, terms: Terms, qty: Dec, price: Dec): Db {
    var row := (terms.userId, terms.instrumentId);
    if row !in db.positions then db.(positions := db.positions[row := Position(0, qty, 0, price)])
    else
      var p := db.positions[row];
      var held := p.quantity + p.pending;
      var avg := if held >= 0 && qty >= 0 then WeightedAvgCost(held, p.avgCost, qty, price) else p.avgCost;
      db.(positions := db.positions[row := p.(pending := p.pending + qty, avgCost := avg)])
  }

  function SettleBuyShares(db: Db, terms: Terms, qty: Dec): Db {
    var p := PositionOf(db, terms.userId, terms.instrumentId);
    UpdatePosition(db, terms, p.(pending := Clamp(p.pending - qty), quantity := p.quantity + qty))
  }

  function SettleSellShares(db: Db, terms: Terms, qty: Dec): Db {
    var p := PositionOf(db, terms.userId, terms.instrumentId);
    UpdatePosition(db, terms, p.(reserved := Clamp(p.reserved - qty), quantity := Clamp(p.quantity - qty)))
  }

  function DropPendingShares(db: Db, terms: Terms, qty: Dec): Db {
    var p := PositionOf(db, terms.userId, terms.instrumentId);
    UpdatePosition(db, terms, p.(pending := Clamp(p.pending - qty)))
  }

  // ----------------------------------------------------------------- orders

  datatype Draft = Draft(userId: string, instrumentId: string, partnerId: Maybe<string>, side: Side,
                         currency: string, quantity: Dec, price: Dec, fees: seq<Fees.FeeLine>,
                         simulated: bool, sessions: nat)

  /** `quote`: the estimated total, rounded to the currency. */
  function EstimatedTotal(d: Draft): Dec {
    RoundRatio(d.quantity * d.price, ONE, d.currency)
  }

  /** Cash reserved for a BUY (total and fees); for a SELL the estimated gross. */
  function MaxAmount(d: Draft): Dec {
    if d.side == BUY then EstimatedTotal(d) + Fees.FeeTotal(d.fees) else EstimatedTotal(d)
  }

  function DraftTerms(d: Draft): Terms {
    Terms(d.userId, d.instrumentId, if d.simulated then Nothing else d.partnerId, d.side, d.currency, d.quantity,
          MaxAmount(d), Fees.Pick(d.fees, Fees.COMMISSION_ALKE), d.simulated, d.sessions)
  }

  /** A new order: a paper order is executed on the spot, a real one is PENDING. */
  function NewOrder(d: Draft): Order {
    if d.simulated then Order(DraftTerms(d), EXECUTED, d.quantity, Just(d.price), Nothing, Nothing, Nothing, false)
    else Order(DraftTerms(d), PENDING, 0, Nothing, Nothing, Nothing, Nothing, false)
  }

  ghost function PlaceOrder(db: Db, d: Draft): Result<Db> {
    if d.quantity <= 0 then Err(InvalidQuantity)
    else if !d.simulated && d.partnerId.Nothing? then Err(NoPartner)
    else
      var db' := db.(orders := db.orders + [NewOrder(d)]);
      if d.simulated then Ok(db')
      else if d.side == BUY then ReserveCash(db', |db.orders|)
      else ReserveShares(db', DraftTerms(d))
  }

  function SetStatus(db: Db, order: nat, status: OrderStatus): Db
    requires order < |db.orders|
  {
    db.(orders := db.orders[order := db.orders[order].(status := status)])
  }

  /** A guarded move to a final status, and the release that goes with it. */
  ghost function Close(db: Db, order: nat, status: OrderStatus): Result<Db>
    requires order < |db.orders|
  {
    ReleaseRemaining(SetStatus(db, order, status), order)
  }

  ghost function CancelOrder(db: Db, userId: string, order: nat): Result<Db> {
    if order >= |db.orders| || db.orders[order].terms.userId != userId then Err(Missing)
    else if db.orders[order].status != PENDING then Err(NotAllowed)
    else Close(db, order, CANCELLED)
  }

  // ---------------------------------------------------------------- batches

  /** `buildBatch` on one PENDING order of a client without an open securities account. */
  ghost function RejectUnopened(db: Db, order: nat): Result<Db> {
    if order >= |db.orders| then Err(Missing)
    else if db.orders[order].status != PENDING || db.orders[order].terms.simulated then Err(NotAllowed)
    else Close(db, order, REJECTED)
  }

  /** `buildBatch` on one PENDING order that goes into the file. */
  function Transmit(db: Db, order: nat, batch: nat, now: int): Result<Db> {
    if order >= |db.orders| then Err(Missing)
    else if db.orders[order].status != PENDING || db.orders[order].terms.simulated then Err(NotAllowed)
    else Ok(db.(orders := db.orders[order :=
        db.orders[order].(status := TRANSMITTED, batch := Just(batch), transmittedAt := Just(now))]))
  }

  /** One ACK line against the status read with the file; a line that no longer applies is skipped. */
  ghost function AckLine(db: Db, order: nat, accepted: bool, seen: OrderStatus): Result<Db> {
    if order >= |db.orders| then Err(Missing)
    else if accepted then
      if seen == TRANSMITTED then Ok(SetStatus(db, order, ACKNOWLEDGED)) else Ok(db)
    else if (seen == TRANSMITTED || seen == ACKNOWLEDGED) && db.orders[order].status == seen
    then Close(db, order, REJECTED) else Ok(db)
  }

  /** Position of the execution carrying a reference. */
  function FindExec(execs: seq<Exec>, ref: ExecRef): Maybe<nat> {
    if execs == [] then Nothing
    else if execs[|execs| - 1].trade.ref == ref then Just(|execs| - 1)
    else FindExec(execs[..|execs| - 1], ref)
  }

  /** The Execution row, its FILL and its pending shares. */
  ghost function RecordExecution(db: Db, t: Trade): Result<Db>
    requires t.order < |db.orders| && db.orders[t.order].terms.partnerId.Just?
  {
    var terms := db.orders[t.order].terms;
    var created := db.(execs := db.execs + [Exec(t, Unsettled, Nothing, Nothing)]);
    if terms.simulated then Ok(created)
    else
      var filled :- PostFill(created, |db.execs|);
      Ok(if terms.side == BUY then AddPendingShares(filled, terms, t.quantity, t.price) else filled)
  }

  function SetFill(db: Db, order: nat, fill: FillResult, status: OrderStatus): Db
    requires order < |db.orders|
  {
    db.(orders := db.orders[order :=
        db.orders[order].(filled := fill.filled, avg := Just(fill.avg), status := status)])
  }

  /** `applyExecution`: idempotent on the reference; refuses closed orders and over-fills. */
  ghost function ApplyExecution(db: Db, t: Trade): Result<Db> {
    if FindExec(db.execs, t.ref).Just? then Ok(db)
    else if t.order >= |db.orders| then Err(Missing)
    else
      var o := db.orders[t.order];
      if !OpenAtSdb(o.status) then Err(NotAllowed)
      else if o.terms.partnerId.Nothing? then Err(NoPartner)
      else
        var fill := if o.filled < 0 then Nothing
                    else ApplyFill(FillState(o.terms.quantity, o.filled, o.avg), t.quantity, t.price);
        if fill.Nothing? then Err(InvalidQuantity)
        else if !CanTransition(o.status, fill.value.status) then Err(NotAllowed)
        else
          var recorded :- RecordExecution(db, t);
          var updated := SetFill(recorded, t.order, fill.value, fill.value.status);
          if fill.value.status == EXECUTED then ReleaseRemaining(updated, t.order) else Ok(updated)
  }

  /** `expireStale` on one order whose allowed sessions are over. */
  ghost function ExpireOrder(db: Db, order: nat): Result<Db> {
    if order >= |db.orders| then Err(Missing)
    else if !OpenAtSdb(db.orders[order].status) || db.orders[order].terms.simulated then Err(NotAllowed)
    else Close(db, order, EXPIRED)
  }

  /** `applyReview`: a back-office correction, through the state machine. */
  ghost function Review(db: Db, order: nat, target: OrderStatus, approval: nat, qty: Dec, price: Dec, now: int): Result<Db> {
    if order >= |db.orders| then Err(Missing)
    else
      var o := db.orders[order];
      if !CanTransition(o.status, target) then Err(NotAllowed)
      else if target == EXECUTED || target == PARTIALLY_EXECUTED then
        ApplyExecution(db, ManualTrade(order, o.terms, approval, qty, price, now))
      else if IsFinal(target) then Close(db, order, target)
      else if target == TRANSMITTED then
        Ok(db.(orders := db.orders[order := o.(status := TRANSMITTED, transmittedAt := Just(now))]))
      else Ok(SetStatus(db, order, target))
  }

  /** The line a manual execution builds: no fees, net equal to the rounded gross. */
  function ManualTrade(order: nat, terms: Terms, approval: nat, qty: Dec, price: Dec, now: int): Trade {
    var gross := RoundRatio(qty * price, ONE, terms.currency);
    Trade(order, Manual(approval), qty, price, gross, 0, 0, gross, now, Nothing)
  }

  // ------------------------------------------------------------- settlement

  function SettlementInput(exec: nat, terms: Terms, t: Trade): PostInput {
    PostInput(SETTLEMENT, Key.Settlement(exec), terms.currency,
              Move(UserAccount(terms.userId, terms.currency, Kind.SETTLING),
                   UserAccount(terms.userId, terms.currency, AVAILABLE), t.net), Nothing)
  }

  function MarkExec(db: Db, exec: nat, state: Delivery, txn: Maybe<nat>): Db
    requires exec < |db.execs|
  {
    db.(execs := db.execs[exec := db.execs[exec].(state := state, settlementTxn := txn)])
  }

  /** `settleDue` on one due execution. */
  ghost function Settle(db: Db, exec: nat): Result<Db> {
    if exec >= |db.execs| || db.execs[exec].trade.order >= |db.orders| then Err(Missing)
    else
      var e := db.execs[exec];
      var terms := db.orders[e.trade.order].terms;
      if e.state != Unsettled && e.state != Settling then Ok(db)
      else if terms.simulated then Ok(MarkExec(db, exec, Settled, Nothing))
      else if terms.side == BUY then
        Ok(MarkExec(SettleBuyShares(db, terms, e.trade.quantity), exec, Settled, Nothing))
      else
        var (posted, id) :- PostTxn(db, SettlementInput(exec, terms, e.trade));
        Ok(MarkExec(SettleSellShares(posted, terms, e.trade.quantity), exec, Settled, Just(id)))
  }

  function FailReleaseInput(exec: nat, terms: Terms, t: Trade): PostInput {
    PostInput(RELEASE, Key.FailRelease(exec), terms.currency,
              Move(UserAccount(terms.userId, terms.currency, RESERVED),
                   UserAccount(terms.userId, terms.currency, AVAILABLE), BuyDebit(terms, t, terms.currency)), Nothing)
  }

  /** `reverseFill`: the REVERSAL, and for a BUY the restored reserve back to AVAILABLE. */
  ghost function ReverseFill(db: Db, exec: nat): Result<Db>
    requires exec < |db.execs| && db.execs[exec].trade.order < |db.orders|
  {
    var e := db.execs[exec];
    var terms := db.orders[e.trade.order].terms;
    if e.fillTxn.Nothing? then Ok(db)
    else
      var outcome := ReverseOutcome(db.log, e.fillTxn.value);
      if outcome.Refused? then Err(LedgerRefused(outcome.why))
      else
        var reversed := db.(log := Reverse(db.log, e.fillTxn.value));
        if terms.side == SELL then Ok(reversed)
        else
          var (posted, _) :- PostTxn(reversed, FailReleaseInput(exec, terms, e.trade));
          Ok(posted)
  }

  /** Quantity and cost of the executions of an order that still stand. */
  function StandingQuantity(execs: seq<Exec>, order: nat): Dec {
    if execs == [] then 0
    else
      var last := execs[|execs| - 1];
      StandingQuantity(execs[..|execs| - 1], order) +
      (if last.trade.order == order && last.state != Failed then last.trade.quantity else 0)
  }

  function StandingCost(execs: seq<Exec>, order: nat): int {
    if execs == [] then 0
    else
      var last := execs[|execs| - 1];
      StandingCost(execs[..|execs| - 1], order) +
      (if last.trade.order == order && last.state != Failed then last.trade.quantity * last.trade.price else 0)
  }

  function Rewound(db: Db, order: nat): Order
    requires order < |db.orders|
  {
    var filled := StandingQuantity(db.execs, order);
    var avg := if filled <= 0 then Nothing else Just(RoundDiv(StandingCost(db.execs, order), filled));
    db.orders[order].(filled := filled, avg := avg, status := ADJUSTED)
  }

  /** `failSettlement`: undo the fill, rewind the order counters and the position. The
      order becomes ADJUSTED whatever its status, and nothing else is released. */
  ghost function FailSettlement(db: Db, exec: nat): Result<Db> {
    if exec >= |db.execs| || db.execs[exec].trade.order >= |db.orders| then Err(Missing)
    else
      var e := db.execs[exec];
      var order := e.trade.order;
      var terms := db.orders[order].terms;
      if e.state == Settled then Err(AlreadySettled)
      else if e.state == Failed then Ok(db)
      else
        var reversed :- ReverseFill(db, exec);
        var failed := MarkExec(reversed, exec, Failed, Nothing);
        var rewound := failed.(orders := failed.orders[order := Rewound(failed, order)]);
        if terms.simulated then Ok(rewound)
        else if terms.side == BUY then Ok(DropPendingShares(rewound, terms, e.trade.quantity))
        else Ok(UnreserveShares(rewound, terms, e.trade.quantity))
  }

  // --------------------------------------------------------------- payments

  function ValidAmount(amount: Dec, currency: string): bool {
    amount > 0 && IsRounded(amount, currency)
  }

  function SetIntent(db: Db, id: nat, i: Intent): Db
    requires id < |db.intents|
  {
    db.(intents := db.intents[id := i])
  }

  datatype ProviderAnswer = AnswerPaid | AnswerFailed | AnswerPending | NoAnswer

  function DepositInput(id: nat, i: Intent): PostInput {
    PostInput(DEPOSIT, Key.Deposit(id), i.currency,
              [Entry(UserAccount(i.userId, i.currency, AVAILABLE), i.amount),
               Entry(ProviderClearing(i.provider, i.currency), -i.amount)], Nothing)
  }

  /** `creditDeposit`: the ledger first, then the intent. */
  ghost function CreditDeposit(db: Db, id: nat): Result<Db>
    requires id < |db.intents|
  {
    var i := db.intents[id];
    var (posted, txn) :- PostTxn(db, DepositInput(id, i));
    Ok(SetIntent(posted, id, i.(state := Paid, txn := Just(txn))))
  }

  /** `confirmDeposit`: the provider's status is read again; only PAID credits. */
  ghost function ConfirmDeposit(db: Db, id: nat, answer: ProviderAnswer): Result<Db> {
    if id >= |db.intents| then Err(Missing)
    else
      var i := db.intents[id];
      if i.direction != IN then Err(WrongDirection)
      else if i.state == Paid || i.state == FailedIntent || i.state == Cancelled then Ok(db)
      else match answer
        case AnswerPaid => CreditDeposit(db, id)
        case AnswerFailed => Ok(SetIntent(db, id, i.(state := FailedIntent)))
        case _ => Ok(db)
  }

  /** `createDeposit`: the intent, then the collection request and its immediate answer.
      `second` is what the provider says when its first answer was already PAID. */
  ghost function CreateDeposit(db: Db, userId: string, provider: string, currency: string, amount: Dec,
                               answer: ProviderAnswer, second: ProviderAnswer): Result<Db> {
    var currency := Upper(currency);
    if !ValidAmount(amount, currency) then Err(InvalidAmount)
    else
      var state := if answer == AnswerFailed then FailedIntent else IntentState.Pending;
      var db' := db.(intents := db.intents + [Intent(userId, IN, provider, currency, amount, state, Nothing)]);
      if answer == AnswerPaid then
        var confirmed := ConfirmDeposit(db', |db.intents|, second);
        if confirmed.Ok? then confirmed else Ok(db')
      else Ok(db')
  }

  /** `expireStaleIntents` on one stale deposit, after the last status query. */
  ghost function ExpireIntent(db: Db, id: nat, answer: ProviderAnswer): Result<Db> {
    if id >= |db.intents| then Err(Missing)
    else if db.intents[id].direction != IN || (db.intents[id].state != Created && db.intents[id].state != IntentState.Pending)
    then Err(NotAllowed)
    else
      var asked := if db.intents[id].state == IntentState.Pending then ConfirmDeposit(db, id, answer) else Ok(db);
      var db' := if asked.Ok? then asked.value else db;
      if id < |db'.intents| && (db'.intents[id].state == Created || db'.intents[id].state == IntentState.Pending)
      then Ok(SetIntent(db', id, db'.intents[id].(state := Expired))) else Ok(db')
  }

  function WithdrawReserveInput(id: nat, i: Intent): PostInput {
    PostInput(RESERVE, Key.WithdrawReserve(id), i.currency,
              Move(UserAccount(i.userId, i.currency, AVAILABLE),
                   UserAccount(i.userId, i.currency, WITHDRAWABLE), i.amount), Nothing)
  }

  /** `requestWithdrawal`: when the ledger refuses the reserve the intent stays, FAILED. */
  ghost function RequestWithdrawal(db: Db, userId: string, provider: string, currency: string, amount: Dec): Result<Db> {
    var currency := Upper(currency);
    if !ValidAmount(amount, currency) then Err(InvalidAmount)
    else
      var id := |db.intents|;
      var i := Intent(userId, OUT, provider, currency, amount, Created, Nothing);
      var created := db.(intents := db.intents + [i]);
      match PostTxn(created, WithdrawReserveInput(id, i))
      case Err(_) => Ok(SetIntent(created, id, i.(state := FailedIntent)))
      case Ok(p) => Ok(SetIntent(p.0, id, i.(state := IntentState.Pending)))
  }

  function WithdrawInput(id: nat, i: Intent): PostInput {
    PostInput(WITHDRAWAL, Key.Withdraw(id), i.currency,
              Move(UserAccount(i.userId, i.currency, WITHDRAWABLE), ProviderClearing(i.provider, i.currency), i.amount),
              Nothing)
  }

  function WithdrawReleaseInput(id: nat, i: Intent): PostInput {
    PostInput(RELEASE, Key.WithdrawRelease(id), i.currency,
              Move(UserAccount(i.userId, i.currency, WITHDRAWABLE),
                   UserAccount(i.userId, i.currency, AVAILABLE), i.amount), Nothing)
  }

  ghost function MarkWithdrawalPaid(db: Db, id: nat): Result<Db> {
    if id >= |db.intents| then Err(Missing)
    else
      var i := db.intents[id];
      if i.direction != OUT then Err(WrongDirection)
      else if i.state == Paid then Ok(db)
      else if i.state != IntentState.Pending then Err(NotAllowed)
      else
        var (posted, txn) :- PostTxn(db, WithdrawInput(id, i));
        Ok(SetIntent(posted, id, i.(state := Paid, txn := Just(txn))))
  }

  ghost function FailWithdrawal(db: Db, id: nat): Result<Db> {
    if id >= |db.intents| then Err(Missing)
    else
      var i := db.intents[id];
      if i.direction != OUT then Err(WrongDirection)
      else if i.state == FailedIntent || i.state == Cancelled then Ok(db)
      else if i.state != IntentState.Pending then Err(NotAllowed)
      else
        var (posted, _) :- PostTxn(db, WithdrawReleaseInput(id, i));
        Ok(SetIntent(posted, id, i.(state := FailedIntent)))
  }

  /** `forceComplete`: credits a deposit, or pays a pending withdrawal, without the provider. */
  ghost function ForceComplete(db: Db, id: nat): Result<Db> {
    if id >= |db.intents| then Err(Missing)
    else
      var i := db.intents[id];
      if i.state == Paid then Ok(db)
      else if i.state == Cancelled then Err(NotAllowed)
      else if i.direction == IN then CreditDeposit(db, id)
      else if i.state != IntentState.Pending then Err(NotAllowed)
      else MarkWithdrawalPaid(db, id)
  }

  // ------------------------------------------------------------------- runs

  datatype Command =
    | Place(draft: Draft)
    | Cancel(userId: string, order: nat)
    | Reject(order: nat)
    | Send(order: nat, batch: nat, now: int)
    | Ack(order: nat, accepted: bool)
    | Execute(trade: Trade)
    | Expire(order: nat)
    | Correct(order: nat, target: OrderStatus, approval: nat, qty: Dec, price: Dec, now: int)
    | SettleExec(exec: nat)
    | FailDelivery(exec: nat)
    | RequestDeposit(userId: string, provider: string, currency: string, amount: Dec,
                     answer: ProviderAnswer, second: ProviderAnswer)
    | Confirm(intent: nat, answer: ProviderAnswer)
    | ExpireDeposit(intent: nat, answer: ProviderAnswer)
    | Withdraw(userId: string, provider: string, currency: string, amount: Dec)
    | PayOut(intent: nat)
    | RefuseOut(intent: nat)
    | Force(intent: nat)

  /** One atomic service call, or one line of a file. */
  ghost function Apply(db: Db, c: Command): Result<Db> {
    match c
    case Place(draft) => PlaceOrder(db, draft)
    case Cancel(userId, order) => CancelOrder(db, userId, order)
    case Reject(order) => RejectUnopened(db, order)
    case Send(order, batch, now) => Transmit(db, order, batch, now)
    case Ack(order, accepted) =>
      if order < |db.orders| then AckLine(db, order, accepted, db.orders[order].status) else Err(Missing)
    case Execute(trade) => ApplyExecution(db, trade)
    case Expire(order) => ExpireOrder(db, order)
    case Correct(order, target, approval, qty, price, now) => Review(db, order, target, approval, qty, price, now)
    case SettleExec(exec) => Settle(db, exec)
    case FailDelivery(exec) => FailSettlement(db, exec)
    case RequestDeposit(u, p, c, a, answer, second) => CreateDeposit(db, u, p, c, a, answer, second)
    case Confirm(intent, answer) => ConfirmDeposit(db, intent, answer)
    case ExpireDeposit(intent, answer) => ExpireIntent(db, intent, answer)
    case Withdraw(u, p, c, a) => RequestWithdrawal(db, u, p, c, a)
    case PayOut(intent) => MarkWithdrawalPaid(db, intent)
    case RefuseOut(intent) => FailWithdrawal(db, intent)
    case Force(intent) => ForceComplete(db, intent)
  }

  /** A fault leaves the database as it was. */
  ghost function Next(db: Db, c: Command): Db {
    if Apply(db, c).Ok? then Apply(db, c).value else db
  }

  ghost function RunAll(db: Db, commands: seq<Command>): Db
    decreases |commands|
  {
    if commands == [] then db else RunAll(Next(db, commands[0]), commands[1..])
  }
}
