/** Every service call keeps the invariant: deposits and withdrawals. */
module BrokeragePayments {
  import opened Decimals
  import opened LedgerModel
  import opened OrderState
  import opened BrokerageModel
  import opened BrokerageBooks
  import opened BrokerageInvariant
  import Fees

  /** A payment touches the ledger and the intents only. */
  predicate PaymentOnly(db: Db, after: Db) {
    && after == db.(log := after.log, intents := after.intents)
    && |db.log| <= |after.log| && forall t :: 0 <= t < |db.log| ==> after.log[t] == db.log[t]
  }

  lemma PaymentRows(db: Db, after: Db)
    requires ExecsOk(db) && OrdersFit(db) && PositionsOk(db) && PaymentOnly(db, after)
    ensures ExecsOk(after) && OrdersFit(after) && PositionsOk(after)
  {
    CoreRefs(db);
    ExecsCarryOver(db, after);
    OrdersCarryOver(db, after);
    forall u, i ensures PositionOk(after, u, i) { assert PositionOk(db, u, i); }
  }

  lemma PaymentStatuses(db: Db, after: Db)
    requires StatusesOk(db) && PaymentOnly(db, after)
    ensures StatusesOk(after)
  {
    forall i | 0 <= i < |after.orders|
      ensures StatusOk(after.orders[i]) && (!IsFinal(after.orders[i].status) ==> Clean(after.execs, i))
    {
      assert StatusOk(db.orders[i]);
    }
  }

  /** One book when an intent changes and the ledger moved by the difference of its terms. */
  lemma IntentBook(db: Db, id: nat, i: Intent, log: Log, b: Book)
    requires id < |db.intents| && BookOk(db, b)
    requires ViewOf(b).Just? ==>
      Total(log, ViewOf(b).value) == Total(db.log, ViewOf(b).value) + IntentTerm(i, b) - IntentTerm(db.intents[id], b)
    ensures BookOk(db.(log := log, intents := db.intents[id := i]), b)
  {
    IntentSumUpdate(db.intents, id, i, b);
  }

  lemma NewIntentBook(db: Db, i: Intent, b: Book)
    requires BookOk(db, b) && IntentTerm(i, b) == 0
    ensures BookOk(db.(intents := db.intents + [i]), b)
  {
    IntentSumAppend(db.intents, i, b);
  }

  lemma QuietIntentBooks(db: Db, id: nat, i: Intent)
    requires BooksOk(db) && id < |db.intents|
    requires i == db.intents[id].(state := i.state) && i.direction == IN && db.intents[id].state != Paid && i.state != Paid
    ensures BooksOk(SetIntent(db, id, i))
  {
    forall b | Kept(b) ensures BookOk(SetIntent(db, id, i), b) {
      assert BookOk(db, b);
      IntentBook(db, id, i, db.log, b);
    }
  }

  /** An intent that neither was nor becomes money: only its row changes. */
  lemma QuietIntentKeeps(db: Db, id: nat, i: Intent)
    requires Inv(db) && id < |db.intents|
    requires i == db.intents[id].(state := i.state) && i.direction == IN && db.intents[id].state != Paid && i.state != Paid
    ensures Inv(SetIntent(db, id, i))
  {
    var after := SetIntent(db, id, i);
    PaymentRows(db, after);
    PaymentStatuses(db, after);
    KeysCarryOver(db, after);
    QuietIntentBooks(db, id, i);
  }

  /** A new intent that is not money yet. */
  lemma NewIntentKeeps(db: Db, i: Intent)
    requires Inv(db) && (i.direction == IN || i.state == Created) && i.state != Paid
    ensures Inv(db.(intents := db.intents + [i]))
  {
    var after := db.(intents := db.intents + [i]);
    PaymentRows(db, after);
    PaymentStatuses(db, after);
    KeysCarryOver(db, after);
    forall b | Kept(b) ensures BookOk(after, b) {
      assert BookOk(db, b);
      NewIntentBook(db, i, b);
    }
  }

  /** The keys after one payment post and the intent that accounts for it. */
  lemma PaymentKeys(db: Db, id: nat, i: Intent, txn: Txn)
    requires KeysOk(db) && id < |db.intents| && i.direction == db.intents[id].direction
    requires db.intents[id].state != Paid && (i.direction == OUT ==> db.intents[id].state != FailedIntent)
    requires KeyOk(db.(intents := db.intents[id := i]), txn.key)
    ensures KeysOk(db.(log := db.log + [txn], intents := db.intents[id := i]))
  {
    var after := db.(log := db.log + [txn], intents := db.intents[id := i]);
    forall t | 0 <= t < |after.log| ensures KeyOk(after, after.log[t].key) {
      if t < |db.log| { assert KeyOk(db, db.log[t].key); }
    }
  }

  /** A payment post under a fresh key, with its intent, keeps the invariant when each book
      moves by the difference of the intent's terms. */
  lemma PaymentKeeps(db: Db, id: nat, i: Intent, input: PostInput)
    requires Inv(db) && id < |db.intents| && i.direction == db.intents[id].direction
    requires db.intents[id].state != Paid && (i.direction == OUT ==> db.intents[id].state != FailedIntent)
    requires Ordinary(input) && Find(db.log, input.key) == Nothing && PostTxn(db, input).Ok?
    requires KeyOk(db.(intents := db.intents[id := i]), input.key)
    requires forall b :: ViewOf(b).Just? ==>
      Delta(input.entries, ViewOf(b).value) == IntentTerm(i, b) - IntentTerm(db.intents[id], b)
    ensures PostTxn(db, input).value == (db.(log := db.log + [Record(input, Nothing)]), |db.log|)
    ensures Inv(db.(log := db.log + [Record(input, Nothing)], intents := db.intents[id := i]))
  {
    var txn := Record(input, Nothing);
    var after := db.(log := db.log + [txn], intents := db.intents[id := i]);
    PostFacts(db, input);
    PaymentKeys(db, id, i, txn);
    PaymentRows(db, after);
    PaymentStatuses(db, after);
    forall b | Kept(b) ensures BookOk(after, b) {
      assert BookOk(db, b);
      if ViewOf(b).Just? { TotalAppend(db.log, txn, ViewOf(b).value); }
      IntentBook(db, id, i, after.log, b);
    }
  }

  // --------------------------------------------------------------- deposits

  lemma DepositDelta(id: nat, i: Intent, v: View)
    requires UserView(v)
    ensures Delta(DepositInput(id, i).entries, v) ==
      if Covers(v, UserAccount(i.userId, i.currency, AVAILABLE)) then i.amount else 0
  {
    var es := DepositInput(id, i).entries;
    var provider := Entry(ProviderClearing(i.provider, i.currency), -i.amount);
    assert es[1..] == [provider];
    assert Delta([provider], v) == 0;
  }

  lemma CreditKeeps(db: Db, id: nat)
    requires Inv(db) && id < |db.intents| && db.intents[id].direction == IN && db.intents[id].state != Paid
    requires CreditDeposit(db, id).Ok?
    ensures Inv(CreditDeposit(db, id).value)
  {
    var i := db.intents[id];
    var input := DepositInput(id, i);
    FreshKey(db, input.key);
    var paid := i.(state := Paid, txn := Just(|db.log|));
    forall b | ViewOf(b).Just?
      ensures Delta(input.entries, ViewOf(b).value) == IntentTerm(paid, b) - IntentTerm(i, b)
    {
      DepositDelta(id, i, ViewOf(b).value);
    }
    PaymentKeeps(db, id, paid, input);
  }

  lemma ConfirmKeeps(db: Db, id: nat, answer: ProviderAnswer)
    requires Inv(db) && ConfirmDeposit(db, id, answer).Ok?
    ensures Inv(ConfirmDeposit(db, id, answer).value)
  {
    var i := db.intents[id];
    if i.state == Paid || i.state == FailedIntent || i.state == Cancelled {
    } else if answer == AnswerPaid {
      CreditKeeps(db, id);
    } else if answer == AnswerFailed {
      QuietIntentKeeps(db, id, i.(state := FailedIntent));
    }
  }

  lemma CreateKeeps(db: Db, u: string, p: string, c: string, a: Dec, answer: ProviderAnswer, second: ProviderAnswer)
    requires Inv(db) && CreateDeposit(db, u, p, c, a, answer, second).Ok?
    ensures Inv(CreateDeposit(db, u, p, c, a, answer, second).value)
  {
    var state := if answer == AnswerFailed then FailedIntent else IntentState.Pending;
    var i := Intent(u, IN, p, Upper(c), a, state, Nothing);
    NewIntentKeeps(db, i);
    var created := db.(intents := db.intents + [i]);
    if answer == AnswerPaid && ConfirmDeposit(created, |db.intents|, second).Ok? {
      ConfirmKeeps(created, |db.intents|, second);
    }
  }

  lemma ExpireIntentKeeps(db: Db, id: nat, answer: ProviderAnswer)
    requires Inv(db) && ExpireIntent(db, id, answer).Ok?
    ensures Inv(ExpireIntent(db, id, answer).value)
  {
    var pending := db.intents[id].state == IntentState.Pending;
    var asked := if pending then ConfirmDeposit(db, id, answer) else Ok(db);
    if pending && asked.Ok? { ConfirmKeeps(db, id, answer); }
    var db' := if asked.Ok? then asked.value else db;
    if id < |db'.intents| && (db'.intents[id].state == Created || db'.intents[id].state == IntentState.Pending) {
      assert db'.intents[id].direction == IN;
      QuietIntentKeeps(db', id, db'.intents[id].(state := Expired));
    }
  }

  // ------------------------------------------------------------ withdrawals

  /** A withdrawal waits with an amount the ledger took. */
  predicate WaitingSound(i: Intent) {
    i.direction == OUT && i.state == IntentState.Pending ==>
      i.amount > 0 && IsRounded(i.amount, i.currency) && CurrencyCode(i.currency)
  }

  predicate PendingSound(intents: seq<Intent>) {
    forall n :: 0 <= n < |intents| ==> WaitingSound(intents[n])
  }

  lemma RefusedWithdrawalKeeps(db: Db, i: Intent)
    requires Inv(db) && i.direction == OUT && i.state == FailedIntent
    ensures Inv(db.(intents := db.intents + [i]))
  {
    var after := db.(intents := db.intents + [i]);
    PaymentRows(db, after);
    PaymentStatuses(db, after);
    KeysCarryOver(db, after);
    forall b | Kept(b) ensures BookOk(after, b) {
      assert BookOk(db, b);
      NewIntentBook(db, i, b);
    }
  }

  lemma RequestKeeps(db: Db, u: string, p: string, c: string, a: Dec)
    requires Inv(db) && RequestWithdrawal(db, u, p, c, a).Ok?
    ensures Inv(RequestWithdrawal(db, u, p, c, a).value)
  {
    var id := |db.intents|;
    var i := Intent(u, OUT, p, Upper(c), a, Created, Nothing);
    var created := db.(intents := db.intents + [i]);
    var input := WithdrawReserveInput(id, i);
    NewIntentKeeps(db, i);
    FreshKey(db, input.key);
    if PostTxn(created, input).Ok? {
      var pending := i.(state := IntentState.Pending);
      forall b | ViewOf(b).Just?
        ensures Delta(input.entries, ViewOf(b).value) == IntentTerm(pending, b) - IntentTerm(i, b)
      {
        MoveDelta(UserAccount(u, i.currency, AVAILABLE), UserAccount(u, i.currency, WITHDRAWABLE), a, ViewOf(b).value);
      }
      PaymentKeeps(created, id, pending, input);
    } else {
      RefusedWithdrawalKeeps(db, i.(state := FailedIntent));
      assert (db.intents + [i])[id := i.(state := FailedIntent)] == db.intents + [i.(state := FailedIntent)];
    }
  }

  lemma PayOutKeeps(db: Db, id: nat)
    requires Inv(db) && MarkWithdrawalPaid(db, id).Ok?
    ensures Inv(MarkWithdrawalPaid(db, id).value)
  {
    var i := db.intents[id];
    if i.state == IntentState.Pending {
      var input := WithdrawInput(id, i);
      FreshKey(db, input.key);
      var paid := i.(state := Paid, txn := Just(|db.log|));
      forall b | ViewOf(b).Just?
        ensures Delta(input.entries, ViewOf(b).value) == IntentTerm(paid, b) - IntentTerm(i, b)
      {
        MoveDelta(UserAccount(i.userId, i.currency, WITHDRAWABLE), ProviderClearing(i.provider, i.currency), i.amount, ViewOf(b).value);
      }
      PaymentKeeps(db, id, paid, input);
    }
  }

  lemma RefuseOutKeeps(db: Db, id: nat)
    requires Inv(db) && FailWithdrawal(db, id).Ok?
    ensures Inv(FailWithdrawal(db, id).value)
  {
    var i := db.intents[id];
    if i.state == IntentState.Pending {
      var input := WithdrawReleaseInput(id, i);
      FreshKey(db, input.key);
      var failed := i.(state := FailedIntent);
      forall b | ViewOf(b).Just?
        ensures Delta(input.entries, ViewOf(b).value) == IntentTerm(failed, b) - IntentTerm(i, b)
      {
        MoveDelta(UserAccount(i.userId, i.currency, WITHDRAWABLE), UserAccount(i.userId, i.currency, AVAILABLE), i.amount, ViewOf(b).value);
      }
      PaymentKeeps(db, id, failed, input);
    }
  }

  lemma ForceKeeps(db: Db, id: nat)
    requires Inv(db) && ForceComplete(db, id).Ok?
    ensures Inv(ForceComplete(db, id).value)
  {
    var i := db.intents[id];
    if i.state != Paid {
      if i.direction == IN { CreditKeeps(db, id); } else { PayOutKeeps(db, id); }
    }
  }
}
