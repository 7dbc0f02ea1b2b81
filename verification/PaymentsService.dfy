/** The payment service (`src/modules/payments/payments.service.ts`): each call posts to the
    ledger first, then updates its intent; every method is proved against the function of
    `BrokerageModel` that says what it computes. */
module PaymentsService {
  import opened Decimals
  import opened LedgerModel
  import opened BrokerageModel
  import opened BrokerageInvariant
  import opened BrokeragePayments
  import opened BrokerageService

  predicate OpenIntent(i: Intent) {
    i.direction == IN && (i.state == Created || i.state == IntentState.Pending)
  }

  /** The database after a sweep of stale deposits, and its two counters. */
  datatype SweepRun = SweepRun(db: Db, expired: nat, settled: nat)

  ghost function SweepStep(run: SweepRun, id: nat, answer: ProviderAnswer): SweepRun {
    match ExpireIntent(run.db, id, answer)
    case Err(_) => run
    case Ok(db) =>
      if id < |db.intents| && db.intents[id].state == Expired then SweepRun(db, run.expired + 1, run.settled)
      else SweepRun(db, run.expired, run.settled + 1)
  }

  ghost function Sweep(db: Db, ids: seq<nat>, answers: seq<ProviderAnswer>): SweepRun
    requires |ids| == |answers|
  {
    if ids == [] then SweepRun(db, 0, 0)
    else
      var n := |ids| - 1;
      SweepStep(Sweep(db, ids[..n], answers[..n]), ids[n], answers[n])
  }

  /** Only its own row changes when an open deposit is swept, and it is open no more. */
  lemma ExpireIntentCloses(db: Db, id: nat, answer: ProviderAnswer)
    requires id < |db.intents| && OpenIntent(db.intents[id])
    ensures ExpireIntent(db, id, answer).Ok?
    ensures var after := ExpireIntent(db, id, answer).value;
            && |after.intents| == |db.intents|
            && after.intents[id] == db.intents[id].(state := after.intents[id].state, txn := after.intents[id].txn)
            && after.intents[id].state in {Paid, FailedIntent, Expired}
            && forall j :: 0 <= j < |db.intents| && j != id ==> after.intents[j] == db.intents[j]
  {
  }

  /** What a sweep has done to the intents so far. */
  predicate Swept(db: Db, ids: seq<nat>, after: Db) {
    && |after.intents| == |db.intents|
    && (forall i :: 0 <= i < |db.intents| && i !in ids ==> after.intents[i] == db.intents[i])
    && (forall i :: 0 <= i < |db.intents| && i in ids ==> after.intents[i].state in {Paid, FailedIntent, Expired})
  }

  lemma SweepNext(db: Db, ids: seq<nat>, run: SweepRun, id: nat, answer: ProviderAnswer)
    requires Swept(db, ids, run.db) && id !in ids && id < |db.intents| && OpenIntent(db.intents[id])
    ensures var next := SweepStep(run, id, answer);
            Swept(db, ids + [id], next.db) && next.expired + next.settled == run.expired + run.settled + 1
  {
    ExpireIntentCloses(run.db, id, answer);
    assert forall i :: i in ids + [id] <==> i in ids || i == id;
  }

  /** A sweep closes every open deposit it was given and counts each of them once, as expired
      or as settled. */
  lemma {:induction false} SweepClosesAll(db: Db, ids: seq<nat>, answers: seq<ProviderAnswer>)
    requires |ids| == |answers|
    requires forall j :: 0 <= j < |ids| ==> ids[j] < |db.intents| && OpenIntent(db.intents[ids[j]])
    requires forall a, b :: 0 <= a < b < |ids| ==> ids[a] != ids[b]
    ensures var run := Sweep(db, ids, answers);
            Swept(db, ids, run.db) && run.expired + run.settled == |ids|
  {
    if ids != [] {
      var n := |ids| - 1;
      SweepClosesAll(db, ids[..n], answers[..n]);
      assert ids[..n] + [ids[n]] == ids && ids[n] !in ids[..n];
      SweepNext(db, ids[..n], Sweep(db, ids[..n], answers[..n]), ids[n], answers[n]);
    }
  }

  /** A sweep keeps the invariant, whatever it was given. */
  lemma {:induction false} SweepKeeps(db: Db, ids: seq<nat>, answers: seq<ProviderAnswer>)
    requires |ids| == |answers| && Inv(db)
    ensures Inv(Sweep(db, ids, answers).db)
  {
    if ids != [] {
      var n := |ids| - 1;
      SweepKeeps(db, ids[..n], answers[..n]);
      var run := Sweep(db, ids[..n], answers[..n]);
      if ExpireIntent(run.db, ids[n], answers[n]).Ok? { ExpireIntentKeeps(run.db, ids[n], answers[n]); }
    }
  }

  class Payments {
    const store: Brokerage

    ghost predicate Valid()
      reads store, store.ledger
    {
      store.Valid()
    }

    constructor (store: Brokerage)
      requires store.Valid()
      ensures Valid() && this.store == store
    {
      this.store := store;
    }

    method SetIntent(id: nat, i: Intent)
      requires Valid() && id < |store.intents|
      modifies store`intents
      ensures Valid() && store.State() == BrokerageModel.SetIntent(old(store.State()), id, i)
    {
      store.intents := store.intents[id := i];
    }

    /** `creditDeposit`. */
    method CreditDeposit(id: nat) returns (fault: Maybe<Fault>)
      requires Valid() && id < |store.intents|
      modifies store`intents, store.ledger
      ensures Valid()
      ensures Commits(old(store.State()), BrokerageModel.CreditDeposit(old(store.State()), id), store.State(), fault)
    {
      var i := store.intents[id];
      var posted := store.PostTxn(DepositInput(id, i));
      if posted.Err? {
        return Just(posted.fault);
      }
      SetIntent(id, i.(state := Paid, txn := Just(posted.value)));
      return Nothing;
    }

    /** `confirmDeposit`, with the answer of the status query. */
    method ConfirmDeposit(id: nat, answer: ProviderAnswer) returns (fault: Maybe<Fault>)
      requires Valid()
      modifies store`intents, store.ledger
      ensures Valid()
      ensures Commits(old(store.State()), BrokerageModel.ConfirmDeposit(old(store.State()), id, answer), store.State(), fault)
    {
      if id >= |store.intents| {
        return Just(Missing);
      }
      var i := store.intents[id];
      if i.direction != IN {
        return Just(WrongDirection);
      }
      if i.state == Paid || i.state == FailedIntent || i.state == Cancelled {
        return Nothing;
      }
      match answer {
        case AnswerPaid => fault := CreditDeposit(id);
        case AnswerFailed =>
          SetIntent(id, i.(state := FailedIntent));
          fault := Nothing;
        case _ => fault := Nothing;
      }
    }

    /** `createDeposit`, with the answers of the collection request and of the status query. */
    method CreateDeposit(userId: string, provider: string, currencyText: string, amount: Dec,
                         answer: ProviderAnswer, second: ProviderAnswer)
      returns (fault: Maybe<Fault>)
      requires Valid()
      modifies store`intents, store.ledger
      ensures Valid()
      ensures Commits(old(store.State()),
                      BrokerageModel.CreateDeposit(old(store.State()), userId, provider, currencyText, amount, answer, second),
                      store.State(), fault)
    {
      var currency := Upper(currencyText);
      if !ValidAmount(amount, currency) {
        return Just(InvalidAmount);
      }
      var id := |store.intents|;
      store.intents := store.intents + [Intent(userId, IN, provider, currency, amount, Created, Nothing)];
      var state := if answer == AnswerFailed then FailedIntent else IntentState.Pending;
      store.intents := store.intents[id := store.intents[id].(state := state)];
      assert store.intents == old(store.intents) + [Intent(userId, IN, provider, currency, amount, state, Nothing)];
      if answer == AnswerPaid {
        var ignored := ConfirmDeposit(id, second);
      }
      return Nothing;
    }

    /** One stale deposit: a last status query when it was sent, then EXPIRED if still open. */
    method ExpireIntent(id: nat, answer: ProviderAnswer) returns (fault: Maybe<Fault>, expired: bool)
      requires Valid()
      modifies store`intents, store.ledger
      ensures Valid()
      ensures Commits(old(store.State()), BrokerageModel.ExpireIntent(old(store.State()), id, answer), store.State(), fault)
      ensures expired <==> fault.Nothing? && id < |store.intents| && store.intents[id].state == Expired
    {
      if id >= |store.intents| {
        return Just(Missing), false;
      }
      var i := store.intents[id];
      if i.direction != IN || (i.state != Created && i.state != IntentState.Pending) {
        return Just(NotAllowed), false;
      }
      if i.state == IntentState.Pending {
        var ignored := ConfirmDeposit(id, answer);
      }
      var current := store.intents[id];
      if current.state != Created && current.state != IntentState.Pending {
        return Nothing, false;
      }
      SetIntent(id, current.(state := Expired));
      return Nothing, true;
    }

    /** `expireStaleIntents`, over the rows the query returned. */
    method ExpireStaleIntents(ids: seq<nat>, answers: seq<ProviderAnswer>) returns (expired: nat, settled: nat)
      requires Valid() && |ids| == |answers|
      modifies store`intents, store.ledger
      ensures Valid()
      ensures Sweep(old(store.State()), ids, answers) == SweepRun(store.State(), expired, settled)
    {
      ghost var start := store.State();
      expired, settled := 0, 0;
      for j := 0 to |ids|
        invariant Valid() && Sweep(start, ids[..j], answers[..j]) == SweepRun(store.State(), expired, settled)
      {
        assert ids[..j + 1][..j] == ids[..j] && answers[..j + 1][..j] == answers[..j];
        var fault, done := ExpireIntent(ids[j], answers[j]);
        if fault.Nothing? {
          expired, settled := expired + (if done then 1 else 0), settled + (if done then 0 else 1);
        }
      }
      assert ids[..|ids|] == ids && answers[..|ids|] == answers;
    }

    /** `requestWithdrawal`: a refused reserve leaves the intent behind, FAILED. */
    method RequestWithdrawal(userId: string, provider: string, currencyText: string, amount: Dec)
      returns (fault: Maybe<Fault>)
      requires Valid()
      modifies store`intents, store.ledger
      ensures Valid()
      ensures Commits(old(store.State()),
                      BrokerageModel.RequestWithdrawal(old(store.State()), userId, provider, currencyText, amount),
                      store.State(), fault)
    {
      var currency := Upper(currencyText);
      if !ValidAmount(amount, currency) {
        return Just(InvalidAmount);
      }
      var id := |store.intents|;
      var i := Intent(userId, OUT, provider, currency, amount, Created, Nothing);
      store.intents := store.intents + [i];
      var posted := store.PostTxn(WithdrawReserveInput(id, i));
      SetIntent(id, i.(state := if posted.Err? then FailedIntent else IntentState.Pending));
      return Nothing;
    }

    /** `markWithdrawalPaid`. */
    method MarkWithdrawalPaid(id: nat) returns (fault: Maybe<Fault>)
      requires Valid()
      modifies store`intents, store.ledger
      ensures Valid()
      ensures Commits(old(store.State()), BrokerageModel.MarkWithdrawalPaid(old(store.State()), id), store.State(), fault)
    {
      if id >= |store.intents| {
        return Just(Missing);
      }
      var i := store.intents[id];
      if i.direction != OUT {
        return Just(WrongDirection);
      }
      if i.state == Paid {
        return Nothing;
      }
      if i.state != IntentState.Pending {
        return Just(NotAllowed);
      }
      var posted := store.PostTxn(WithdrawInput(id, i));
      if posted.Err? {
        return Just(posted.fault);
      }
      SetIntent(id, i.(state := Paid, txn := Just(posted.value)));
      return Nothing;
    }

    /** `failWithdrawal`. */
    method FailWithdrawal(id: nat) returns (fault: Maybe<Fault>)
      requires Valid()
      modifies store`intents, store.ledger
      ensures Valid()
      ensures Commits(old(store.State()), BrokerageModel.FailWithdrawal(old(store.State()), id), store.State(), fault)
    {
      if id >= |store.intents| {
        return Just(Missing);
      }
      var i := store.intents[id];
      if i.direction != OUT {
        return Just(WrongDirection);
      }
      if i.state == FailedIntent || i.state == Cancelled {
        return Nothing;
      }
      if i.state != IntentState.Pending {
        return Just(NotAllowed);
      }
      var posted := store.PostTxn(WithdrawReleaseInput(id, i));
      if posted.Err? {
        return Just(posted.fault);
      }
      SetIntent(id, i.(state := FailedIntent));
      return Nothing;
    }

    /** `forceComplete`. */
    method ForceComplete(id: nat) returns (fault: Maybe<Fault>)
      requires Valid()
      modifies store`intents, store.ledger
      ensures Valid()
      ensures Commits(old(store.State()), BrokerageModel.ForceComplete(old(store.State()), id), store.State(), fault)
    {
      if id >= |store.intents| {
        return Just(Missing);
      }
      var i := store.intents[id];
      if i.state == Paid {
        return Nothing;
      }
      if i.state == Cancelled {
        return Just(NotAllowed);
      }
      if i.direction == IN {
        fault := CreditDeposit(id);
      } else if i.state != IntentState.Pending {
        fault := Just(NotAllowed);
      } else {
        fault := MarkWithdrawalPaid(id);
      }
    }
  }
}
