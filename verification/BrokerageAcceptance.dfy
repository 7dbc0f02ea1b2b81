/** Which calls are accepted: exact conditions, in terms of what a caller can look up first. */
module BrokerageAcceptance {
  import opened Decimals
  import opened LedgerModel
  import opened OrderState
  import opened BrokerageModel
  import opened BrokerageBooks
  import opened BrokerageInvariant
  import opened BrokerageSteps
  import opened BrokerageFills
  import opened BrokerageTheorems
  import Fees

  // ------------------------------------------------------------- placement

  /** Fee lines and price as the program computes them: the reserve is rounded. */
  predicate RoundedReserve(d: Draft) {
    GoodDraft(d) && CurrencyCode(d.currency) && IsRounded(MaxAmount(d), d.currency)
  }

  lemma MoveFundedIff(log: Log, typ: TxnType, key: Key, c: string, from: Account, to: Account, amount: Dec)
    requires NonNegative(log) && from != to && amount >= 0 && from.owner == USER
    ensures Funded(log, PostInput(typ, key, c, Move(from, to, amount), Nothing)) <==> Balance(log, from) >= amount
  {
    var input := PostInput(typ, key, c, Move(from, to, amount), Nothing);
    MoveDelta(from, to, amount, Of(from));
    if Balance(log, from) >= amount {
      MoveFunded(log, typ, key, c, from, to, amount);
    } else {
      assert input.entries[0].account == from;
      assert Guarded(input, from) && !Affordable(log, input.entries, from);
    }
  }

  lemma ReservePostsIff(db: Db, created: Db, order: nat, terms: Terms)
    requires WellFormed(db.log) && Find(db.log, Key.Reserve(order)) == Nothing && created.log == db.log
    requires ReserveRounded(terms) && terms.maxAmount >= 0
    ensures PostTxn(created, ReserveInput(order, terms)).Ok? <==>
            Balance(db.log, UserAccount(terms.userId, terms.currency, AVAILABLE)) >= terms.maxAmount
  {
    var input := ReserveInput(order, terms);
    var from, to := UserAccount(terms.userId, terms.currency, AVAILABLE), UserAccount(terms.userId, terms.currency, RESERVED);
    MoveNormalises(RESERVE, input.key, terms.currency, from, to, terms.maxAmount);
    MoveFundedIff(db.log, RESERVE, input.key, terms.currency, from, to, terms.maxAmount);
    PostFacts(created, input);
  }

  /** A purchase is accepted exactly when its quantity is positive, a partner exists and
      AVAILABLE covers the total with its fees. */
  lemma PurchaseAcceptedIff(db: Db, d: Draft)
    requires Inv(db) && RoundedReserve(d) && !d.simulated && d.side == BUY
    ensures PlaceOrder(db, d).Ok? <==>
      && d.quantity > 0 && d.partnerId.Just?
      && Balance(db.log, UserAccount(d.userId, d.currency, AVAILABLE)) >= MaxAmount(d)
  {
    if d.quantity > 0 && d.partnerId.Just? {
      MaxAmountNonNegative(d);
      FreshKey(db, Key.Reserve(|db.orders|));
      ReservePostsIff(db, db.(orders := db.orders + [NewOrder(d)]), |db.orders|, DraftTerms(d));
    }
  }

  /** A sale exactly when the client holds that many settled shares no other sale reserves. */
  lemma SaleAcceptedIff(db: Db, d: Draft)
    requires Inv(db) && !d.simulated && d.side == SELL
    ensures PlaceOrder(db, d).Ok? <==>
      && d.quantity > 0 && d.partnerId.Just?
      && var p := PositionOf(db, d.userId, d.instrumentId); p.quantity - p.reserved >= d.quantity
  {
  }

  // ------------------------------------------------------------- executions

  /** Amounts as the SDB's files are expected to hold them: rounded in the order's currency,
      proceeds not negative. */
  predicate RoundedAmounts(terms: Terms, t: Trade) {
    var c := terms.currency;
    && CurrencyCode(c)
    && IsRounded(t.gross, c) && IsRounded(t.courtage, c) && IsRounded(t.taxes, c) && IsRounded(t.net, c)
    && (terms.side == SELL ==> t.net >= 0)
  }

  predicate Fine(e: Entry, c: string) {
    IsRounded(e.amount, c) && e.account.currency == c
  }

  predicate AllFine(entries: seq<Entry>, c: string) {
    forall i :: 0 <= i < |entries| ==> Fine(entries[i], c)
  }

  lemma OptionalFine(a: Account, amount: Dec, c: string)
    requires a.currency == c && IsRounded(amount, c)
    ensures AllFine(Optional(a, amount), c) && Sum(Optional(a, amount)) == amount
  {
    if amount != 0 { assert Optional(a, amount)[1..] == []; }
  }

  lemma ShareRounded(commission: Dec, qty: Dec, quantity: Dec, c: string)
    ensures IsRounded(Fees.Prorated(commission, qty, quantity, c), c)
  {
    var u := Unit(c);
    RoundedIsMultiple(Fees.Prorated(commission, qty, quantity, c), c);
    if commission != 0 && quantity > 0 { Fees.MultipleOf(RoundDiv(commission * qty, quantity * u), u); }
  }

  lemma MultiplesSum(a: Dec, b: Dec, u: nat)
    requires (u == 10000 || u == 100) && a % u == 0 && b % u == 0
    ensures (a + b) % u == 0
  {
  }

  lemma SumRounded(a: Dec, b: Dec, c: string)
    requires IsRounded(a, c) && IsRounded(b, c)
    ensures IsRounded(a + b, c)
  {
    RoundedIsMultiple(a, c);
    RoundedIsMultiple(b, c);
    MultiplesSum(a, b, Unit(c));
    RoundedIsMultiple(a + b, c);
  }

  lemma DebitRounded(terms: Terms, t: Trade)
    requires RoundedAmounts(terms, t)
    ensures IsRounded(BuyDebit(terms, t, terms.currency), terms.currency)
    ensures IsRounded(-BuyDebit(terms, t, terms.currency), terms.currency)
  {
    var c := terms.currency;
    ShareRounded(terms.commission, t.quantity, terms.quantity, c);
    SumRounded(t.gross, t.courtage, c);
    SumRounded(t.gross + t.courtage, t.taxes, c);
    SumRounded(t.gross + t.courtage + t.taxes, Fees.Prorated(terms.commission, t.quantity, terms.quantity, c), c);
    RoundedNegated(BuyDebit(terms, t, c), c);
  }

  lemma FiveParts(a: Entry, b: Entry, x: seq<Entry>, y: seq<Entry>, z: seq<Entry>, c: string)
    requires Fine(a, c) && Fine(b, c) && AllFine(x, c) && AllFine(y, c) && AllFine(z, c)
    ensures AllFine([a, b] + x + y + z, c)
    ensures Sum([a, b] + x + y + z) == a.amount + b.amount + Sum(x) + Sum(y) + Sum(z)
  {
    assert [a, b][1..] == [b] && [b][1..] == [];
    SumConcat([a, b], x);
    SumConcat([a, b] + x, y);
    SumConcat([a, b] + x + y, z);
  }

  /** What a purchase takes from the reserve is exactly what clearing, fees and commission get. */
  lemma PurchaseSums(terms: Terms, t: Trade)
    requires terms.partnerId.Just? && terms.side == BUY && RoundedAmounts(terms, t)
    ensures AllFine(FillEntries(terms, t), terms.currency) && Sum(FillEntries(terms, t)) == 0
  {
    var c := terms.currency;
    var share := Fees.Prorated(terms.commission, t.quantity, terms.quantity, c);
    ShareRounded(terms.commission, t.quantity, terms.quantity, c);
    DebitRounded(terms, t);
    OptionalFine(FeeAccount("COURTAGE_SDB", c), t.courtage, c);
    OptionalFine(FeeAccount("TAXE", c), t.taxes, c);
    OptionalFine(FeeAccount("COMMISSION_ALKE", c), share, c);
    FiveParts(Entry(UserAccount(terms.userId, c, RESERVED), -BuyDebit(terms, t, c)),
              Entry(SdbClearing(terms.partnerId.value, c), t.gross),
              Optional(FeeAccount("COURTAGE_SDB", c), t.courtage), Optional(FeeAccount("TAXE", c), t.taxes),
              Optional(FeeAccount("COMMISSION_ALKE", c), share), c);
  }

  lemma PurchaseBalanced(exec: nat, terms: Terms, t: Trade)
    requires terms.partnerId.Just? && terms.side == BUY && RoundedAmounts(terms, t)
    ensures Normalise(FillInput(exec, terms, t)) == Nothing
  {
    PurchaseSums(terms, t);
    FineEntries(FillEntries(terms, t), terms.currency);
  }

  lemma FineEntries(entries: seq<Entry>, c: string)
    requires AllFine(entries, c)
    ensures EntryFault(entries, c) == Nothing
  {
    EntriesFine(entries, c);
    forall i | 0 <= i < |entries| ensures IsRounded(entries[i].amount, c) && entries[i].account.currency == c {
      assert Fine(entries[i], c);
    }
  }

  lemma PurchaseFunded(log: Log, exec: nat, terms: Terms, t: Trade)
    requires NonNegative(log) && terms.partnerId.Just? && terms.side == BUY
    requires Balance(log, UserAccount(terms.userId, terms.currency, RESERVED)) >= BuyDebit(terms, t, terms.currency)
    ensures Funded(log, FillInput(exec, terms, t))
  {
    var input := FillInput(exec, terms, t);
    forall a | Guarded(input, a) ensures Affordable(log, input.entries, a) { FillDelta(terms, t, Of(a)); }
  }

  /** The FILL of an order that can be filled is accepted by the ledger. */
  lemma FillPosts(db: Db, t: Trade)
    requires Fillable(db, t) && db.orders[t.order].terms.partnerId.Just? && RoundedAmounts(db.orders[t.order].terms, t)
    requires ExactRelease(db.orders[t.order].terms)
    requires var terms := db.orders[t.order].terms;
      terms.side == BUY ==> BuyDebit(terms, t, terms.currency) <= Left(db.orders, db.execs, t.order)
    ensures PostTxn(db, FillInput(|db.execs|, db.orders[t.order].terms, t)).Ok?
  {
    var terms := db.orders[t.order].terms;
    FreshKey(db, Key.Fill(|db.execs|));
    if terms.side == BUY {
      ReservedCovers(db, t.order);
      PurchaseBalanced(|db.execs|, terms, t);
      PurchaseFunded(db.log, |db.execs|, terms, t);
    } else {
      SaleTaken(db.log, |db.execs|, terms, t);
    }
    PostFacts(db, FillInput(|db.execs|, terms, t));
  }

  lemma SaleTaken(log: Log, exec: nat, terms: Terms, t: Trade)
    requires NonNegative(log) && terms.partnerId.Just? && terms.side == SELL && RoundedAmounts(terms, t)
    ensures Normalise(FillInput(exec, terms, t)) == Nothing && Funded(log, FillInput(exec, terms, t))
  {
    var from, to := SdbClearing(terms.partnerId.value, terms.currency), UserAccount(terms.userId, terms.currency, Kind.SETTLING);
    MoveNormalises(FILL, Key.Fill(exec), terms.currency, from, to, t.net);
    MoveFunded(log, FILL, Key.Fill(exec), terms.currency, from, to, t.net);
  }

  lemma PostIgnoresExecs(db: Db, execs: seq<Exec>, input: PostInput)
    ensures PostTxn(db, input).Ok? <==> PostTxn(db.(execs := execs), input).Ok?
  {
  }

  /** `postFill` on a new execution, spelled out. */
  lemma RecordAcceptedIff(db: Db, t: Trade, consumed: Dec)
    requires t.order < |db.orders| && db.orders[t.order].terms.partnerId.Just? && !db.orders[t.order].terms.simulated
    requires consumed == ConsumedReserve(db.orders[t.order].terms, db.execs + [Exec(t, Unsettled, Nothing, Nothing)], t.order)
    requires var terms := db.orders[t.order].terms;
      terms.side == BUY ==> consumed + BuyDebit(terms, t, terms.currency) <= terms.maxAmount ==>
        PostTxn(db, FillInput(|db.execs|, terms, t)).Ok?
    requires var terms := db.orders[t.order].terms; terms.side == SELL ==> PostTxn(db, FillInput(|db.execs|, terms, t)).Ok?
    ensures var terms := db.orders[t.order].terms;
      RecordExecution(db, t).Ok? <==>
        (terms.side == BUY ==> consumed + BuyDebit(terms, t, terms.currency) <= terms.maxAmount)
  {
    PostIgnoresExecs(db, db.execs + [Exec(t, Unsettled, Nothing, Nothing)], FillInput(|db.execs|, db.orders[t.order].terms, t));
  }

  /** An execution that can be filled is recorded exactly when what is left of the reserve
      covers it. */
  lemma FillableRecordedIff(db: Db, t: Trade)
    requires Fillable(db, t) && db.orders[t.order].terms.partnerId.Just? && RoundedAmounts(db.orders[t.order].terms, t)
    requires ExactRelease(db.orders[t.order].terms)
    ensures var terms := db.orders[t.order].terms;
      RecordExecution(db, t).Ok? <==>
        (terms.side == BUY ==> BuyDebit(terms, t, terms.currency) <= Left(db.orders, db.execs, t.order))
  {
    var terms := db.orders[t.order].terms;
    ReserveCheck(db, t);
    if terms.side == SELL || BuyDebit(terms, t, terms.currency) <= Left(db.orders, db.execs, t.order) { FillPosts(db, t); }
    RecordAcceptedIff(db, t, ConsumedReserve(terms, db.execs, t.order));
  }

  /** The line an order takes: positive, no over-fill. */
  predicate WithinOrder(o: Order, t: Trade) {
    0 < t.quantity <= o.terms.quantity - o.filled
  }

  lemma FillOfIff(o: Order, t: Trade)
    requires o.filled >= 0 && OpenAtSdb(o.status)
    ensures FillOf(o, t).Just? <==> WithinOrder(o, t)
    ensures FillOf(o, t).Just? ==> CanTransition(o.status, FillOf(o, t).value.status)
  {
  }

  lemma ApplyNeedsRecord(db: Db, t: Trade)
    requires t.order < |db.orders| && OpenAtSdb(db.orders[t.order].status) && FindExec(db.execs, t.ref) == Nothing
    requires db.orders[t.order].terms.partnerId.Just? && db.orders[t.order].filled >= 0
    ensures ApplyExecution(db, t).Ok? ==> FillOf(db.orders[t.order], t).Just? && RecordExecution(db, t).Ok?
  {
  }

  lemma FilledCloses(db: Db, t: Trade)
    requires Fillable(db, t) && db.orders[t.order].terms.partnerId.Just? && db.orders[t.order].filled >= 0
    requires OpenAtSdb(db.orders[t.order].status) && FillOf(db.orders[t.order], t).Just? && RecordExecution(db, t).Ok?
    requires ExactRelease(db.orders[t.order].terms)
    ensures ApplyExecution(db, t).Ok?
  {
    FillOfIff(db.orders[t.order], t);
    RecordResult(db, t);
    FilledIsReleasable(db, t);
    if FillOf(db.orders[t.order], t).value.status == EXECUTED { ReleaseKeeps(AfterFill(db, t), t.order); }
    ApplyResult(db, t);
  }

  /** A new execution line with rounded amounts, on a sale or in a currency without decimals, is
      accepted exactly when its order is open at the SDB, its quantity is positive and does not
      over-fill, and, for a purchase, what `consumedReserve` leaves of the reserve covers it. */
  lemma ExecutionAcceptedIff(db: Db, t: Trade)
    requires Inv(db) && FindExec(db.execs, t.ref) == Nothing
    requires t.order < |db.orders| && RoundedAmounts(db.orders[t.order].terms, t)
    requires ExactRelease(db.orders[t.order].terms)
    ensures var o := db.orders[t.order];
      ApplyExecution(db, t).Ok? <==>
        && OpenAtSdb(o.status) && WithinOrder(o, t)
        && (o.terms.side == BUY ==>
              BuyDebit(o.terms, t, o.terms.currency) <= o.terms.maxAmount - ConsumedReserve(o.terms, db.execs, t.order))
  {
    var o := db.orders[t.order];
    if OpenAtSdb(o.status) {
      OpenIsFillable(db, t);
      if o.terms.side == BUY { OpenConsumption(db, t.order); }
      FillOfIff(o, t);
      ApplyNeedsRecord(db, t);
      if FillOf(o, t).Just? {
        FillableRecordedIff(db, t);
        if RecordExecution(db, t).Ok? { FilledCloses(db, t); }
      }
    }
  }

  // --------------------------------------------------------------- payments

  /** A withdrawal waits for its payout exactly when AVAILABLE covered it; otherwise it FAILED. */
  lemma WithdrawalPendingIff(db: Db, userId: string, provider: string, currency: string, amount: Dec)
    requires Inv(db) && ValidAmount(amount, Upper(currency)) && Upper(currency) != "" && IsUpper(Upper(currency))
    ensures RequestWithdrawal(db, userId, provider, currency, amount).Ok?
    ensures var after := RequestWithdrawal(db, userId, provider, currency, amount).value;
            && |after.intents| == |db.intents| + 1
            && after.intents[|db.intents|].state ==
                 if Balance(db.log, UserAccount(userId, Upper(currency), AVAILABLE)) >= amount then IntentState.Pending
                 else FailedIntent
  {
    var c := Upper(currency);
    var id := |db.intents|;
    var i := Intent(userId, OUT, provider, c, amount, Created, Nothing);
    var created := db.(intents := db.intents + [i]);
    var input := WithdrawReserveInput(id, i);
    var from, to := UserAccount(userId, c, AVAILABLE), UserAccount(userId, c, WITHDRAWABLE);
    FreshKey(db, input.key);
    MoveNormalises(RESERVE, input.key, c, from, to, amount);
    MoveFundedIff(db.log, RESERVE, input.key, c, from, to, amount);
    PostFacts(created, input);
  }

  /** Only a PAID answer on an open deposit posts anything. */
  lemma OnlyPaidCredits(db: Db, id: nat, answer: ProviderAnswer)
    requires ConfirmDeposit(db, id, answer).Ok? && ConfirmDeposit(db, id, answer).value.log != db.log
    ensures answer == AnswerPaid && id < |db.intents| && db.intents[id].direction == IN
    ensures db.intents[id].state !in {Paid, FailedIntent, Cancelled}
    ensures ConfirmDeposit(db, id, answer).value.log == db.log + [Record(DepositInput(id, db.intents[id]), Nothing)]
  {
  }
}
