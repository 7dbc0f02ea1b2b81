/** Payment intents over whole runs of atomic calls: the ledger only grows, withdrawals wait with
    amounts the ledger took, and a deposit is PAID exactly when its DEPOSIT is in the ledger. */
module BrokerageIntents {
  import opened Decimals
  import opened LedgerModel
  import opened OrderState
  import opened BrokerageModel
  import opened BrokerageInvariant
  import opened BrokeragePayments
  import opened BrokerageTheorems
  import opened BrokerageRuns

  // ------------------------------------------------------------ the log grows

  lemma GrowsTransitive(a: Log, b: Log, c: Log)
    requires Grows(a, b) && Grows(b, c)
    ensures Grows(a, c)
  {
  }

  lemma PostGrows(db: Db, input: PostInput)
    ensures PostTxn(db, input).Ok? ==>
      Grows(db.log, PostTxn(db, input).value.0.log) && PostTxn(db, input).value.0 == db.(log := PostTxn(db, input).value.0.log)
  {
  }

  lemma ReleaseGrows(db: Db, i: nat)
    requires i < |db.orders|
    ensures ReleaseRemaining(db, i).Ok? ==>
      Grows(db.log, ReleaseRemaining(db, i).value.log) && ReleaseRemaining(db, i).value.intents == db.intents
  {
    var o := db.orders[i];
    if o.terms.side == BUY { PostGrows(Flagged(db, i), ReleaseOf(db, i)); }
  }

  lemma PlaceGrows(db: Db, d: Draft)
    ensures PlaceOrder(db, d).Ok? ==>
      Grows(db.log, PlaceOrder(db, d).value.log) && PlaceOrder(db, d).value.intents == db.intents
  {
    PostGrows(db.(orders := db.orders + [NewOrder(d)]), ReserveInput(|db.orders|, DraftTerms(d)));
  }

  lemma CloseGrows(db: Db, i: nat, status: OrderStatus)
    requires i < |db.orders|
    ensures Close(db, i, status).Ok? ==>
      Grows(db.log, Close(db, i, status).value.log) && Close(db, i, status).value.intents == db.intents
  {
    ReleaseGrows(SetStatus(db, i, status), i);
  }

  lemma RecordGrows(db: Db, t: Trade)
    requires t.order < |db.orders| && db.orders[t.order].terms.partnerId.Just?
    ensures RecordExecution(db, t).Ok? ==>
      var after := RecordExecution(db, t).value;
      Grows(db.log, after.log) && after.intents == db.intents && after.orders == db.orders
  {
    var created := db.(execs := db.execs + [Exec(t, Unsettled, Nothing, Nothing)]);
    PostGrows(created, FillInput(|db.execs|, db.orders[t.order].terms, t));
  }

  lemma ExecuteGrows(db: Db, t: Trade)
    ensures ApplyExecution(db, t).Ok? ==>
      Grows(db.log, ApplyExecution(db, t).value.log) && ApplyExecution(db, t).value.intents == db.intents
  {
    if ApplyExecution(db, t).Ok? && FindExec(db.execs, t.ref).Nothing? {
      var o := db.orders[t.order];
      var fill := ApplyFill(FillState(o.terms.quantity, o.filled, o.avg), t.quantity, t.price).value;
      RecordGrows(db, t);
      var updated := SetFill(RecordExecution(db, t).value, t.order, fill, fill.status);
      if fill.status == EXECUTED { ReleaseGrows(updated, t.order); }
    }
  }

  lemma SettleGrows(db: Db, k: nat)
    ensures Settle(db, k).Ok? ==> Grows(db.log, Settle(db, k).value.log) && Settle(db, k).value.intents == db.intents
  {
    if k < |db.execs| && db.execs[k].trade.order < |db.orders| {
      PostGrows(db, SettlementInput(k, db.orders[db.execs[k].trade.order].terms, db.execs[k].trade));
    }
  }

  lemma ReverseGrows(log: Log, id: nat)
    ensures Grows(log, Reverse(log, id))
  {
  }

  lemma ReverseFillGrows(db: Db, k: nat)
    requires k < |db.execs| && db.execs[k].trade.order < |db.orders|
    ensures ReverseFill(db, k).Ok? ==>
      Grows(db.log, ReverseFill(db, k).value.log) && ReverseFill(db, k).value == db.(log := ReverseFill(db, k).value.log)
  {
    var e := db.execs[k];
    if e.fillTxn.Just? {
      var reversed := db.(log := Reverse(db.log, e.fillTxn.value));
      ReverseGrows(db.log, e.fillTxn.value);
      PostGrows(reversed, FailReleaseInput(k, db.orders[e.trade.order].terms, e.trade));
    }
  }

  lemma FailGrows(db: Db, k: nat)
    ensures FailSettlement(db, k).Ok? ==>
      Grows(db.log, FailSettlement(db, k).value.log) && FailSettlement(db, k).value.intents == db.intents
  {
    if k < |db.execs| && db.execs[k].trade.order < |db.orders| { ReverseFillGrows(db, k); }
  }

  // ------------------------------------------------------------- intent rows

  /** A deposit counts as PAID only with its DEPOSIT in the ledger. */
  predicate Backed(log: Log, n: nat, i: Intent) {
    i.direction == IN && i.state == Paid ==> Find(log, Key.Deposit(n)).Just?
  }

  /** What one call does to row n of the intents, or adds there. */
  predicate IntentRowOk(db: Db, after: Db, n: nat) {
    && |db.intents| <= |after.intents|
    && (n < |db.intents| ==>
          var i, i' := db.intents[n], after.intents[n];
          && i' == i.(state := i'.state, txn := i'.txn)
          && (i' == i || (i.direction == OUT ==> i'.state != IntentState.Pending))
          && (i' == i || Backed(after.log, n, i')))
    && (|db.intents| <= n < |after.intents| ==> WaitingSound(after.intents[n]) && Backed(after.log, n, after.intents[n]))
  }

  ghost predicate CallOk(db: Db, after: Db) {
    Grows(db.log, after.log) && forall n: nat :: IntentRowOk(db, after, n)
  }

  lemma SameIntents(db: Db, after: Db)
    requires Grows(db.log, after.log) && after.intents == db.intents
    ensures CallOk(db, after)
  {
  }

  lemma CreditCall(db: Db, id: nat)
    requires id < |db.intents| && db.intents[id].direction == IN
    ensures CreditDeposit(db, id).Ok? ==> CallOk(db, CreditDeposit(db, id).value)
  {
    var input := DepositInput(id, db.intents[id]);
    PostGrows(db, input);
    PostedIsFound(db, input);
  }

  lemma PostedIsFound(db: Db, input: PostInput)
    ensures PostTxn(db, input).Ok? ==> Find(PostTxn(db, input).value.0.log, input.key).Just?
  {
    FindAppend(db.log, Record(input, Nothing), input.key);
  }

  lemma ConfirmCall(db: Db, id: nat, answer: ProviderAnswer)
    ensures ConfirmDeposit(db, id, answer).Ok? ==> CallOk(db, ConfirmDeposit(db, id, answer).value)
  {
    if id < |db.intents| && db.intents[id].direction == IN { CreditCall(db, id); }
  }

  /** A new deposit, then whatever its own confirmation does. */
  lemma AddedCall(db: Db, i: Intent, after: Db)
    requires i.direction == IN && i.state != Paid && CallOk(db.(intents := db.intents + [i]), after)
    ensures CallOk(db, after)
  {
    var created := db.(intents := db.intents + [i]);
    forall n: nat ensures IntentRowOk(db, after, n) {
      assert IntentRowOk(created, after, n);
    }
  }

  lemma CreateCall(db: Db, c: Command)
    requires c.RequestDeposit? && Apply(db, c).Ok?
    ensures CallOk(db, Apply(db, c).value)
  {
    var i := Intent(c.userId, IN, c.provider, Upper(c.currency), c.amount,
                    if c.answer == AnswerFailed then FailedIntent else IntentState.Pending, Nothing);
    var created := db.(intents := db.intents + [i]);
    ConfirmCall(created, |db.intents|, c.second);
    AddedCall(db, i, Apply(db, c).value);
  }

  lemma ExpireCall(db: Db, id: nat, answer: ProviderAnswer)
    ensures ExpireIntent(db, id, answer).Ok? ==> CallOk(db, ExpireIntent(db, id, answer).value)
  {
    if id < |db.intents| && db.intents[id].direction == IN {
      ConfirmCall(db, id, answer);
      var asked := if db.intents[id].state == IntentState.Pending then ConfirmDeposit(db, id, answer) else Ok(db);
      var db' := if asked.Ok? then asked.value else db;
      assert IntentRowOk(db, db', id);
      if ExpireIntent(db, id, answer).Ok? { ExpiredCall(db, db', ExpireIntent(db, id, answer).value, id); }
    }
  }

  lemma ExpiredCall(db: Db, asked: Db, after: Db, id: nat)
    requires CallOk(db, asked) && id < |db.intents| && db.intents[id].direction == IN
    requires id < |asked.intents|
    requires after == asked || after == SetIntent(asked, id, asked.intents[id].(state := Expired))
    ensures CallOk(db, after)
  {
    forall n: nat ensures IntentRowOk(db, after, n) {
      assert IntentRowOk(db, asked, n);
    }
  }

  lemma WithdrawCall(db: Db, c: Command)
    requires c.Withdraw? && Apply(db, c).Ok?
    ensures CallOk(db, Apply(db, c).value)
  {
    var i := Intent(c.userId, OUT, c.provider, Upper(c.currency), c.amount, Created, Nothing);
    var created := db.(intents := db.intents + [i]);
    var input := WithdrawReserveInput(|db.intents|, i);
    PostGrows(created, input);
    WithdrawTaken(created, input);
  }

  /** A refused reserve leaves nothing waiting; an accepted one is in a currency code. */
  lemma WithdrawTaken(db: Db, input: PostInput)
    ensures PostTxn(db, input).Ok? ==> CurrencyCode(input.currency)
  {
  }

  lemma PayOutCall(db: Db, id: nat)
    ensures MarkWithdrawalPaid(db, id).Ok? ==> CallOk(db, MarkWithdrawalPaid(db, id).value)
  {
    if id < |db.intents| { PostGrows(db, WithdrawInput(id, db.intents[id])); }
  }

  lemma RefuseCall(db: Db, id: nat)
    ensures FailWithdrawal(db, id).Ok? ==> CallOk(db, FailWithdrawal(db, id).value)
  {
    if id < |db.intents| { PostGrows(db, WithdrawReleaseInput(id, db.intents[id])); }
  }

  lemma ForceCall(db: Db, id: nat)
    ensures ForceComplete(db, id).Ok? ==> CallOk(db, ForceComplete(db, id).value)
  {
    if id < |db.intents| {
      PayOutCall(db, id);
      if db.intents[id].direction == IN { CreditCall(db, id); }
    }
  }

  lemma AckGrows(db: Db, i: nat, accepted: bool, seen: OrderStatus)
    ensures AckLine(db, i, accepted, seen).Ok? ==>
      Grows(db.log, AckLine(db, i, accepted, seen).value.log) && AckLine(db, i, accepted, seen).value.intents == db.intents
  {
    if i < |db.orders| { CloseGrows(db, i, REJECTED); }
  }

  lemma ReviewGrows(db: Db, c: Command)
    requires c.Correct? && Apply(db, c).Ok?
    ensures Grows(db.log, Apply(db, c).value.log) && Apply(db, c).value.intents == db.intents
  {
    ReviewCases(db, c.order, c.target, c.approval, c.qty, c.price, c.now);
    if c.target == EXECUTED || c.target == PARTIALLY_EXECUTED {
      ExecuteGrows(db, ManualTrade(c.order, db.orders[c.order].terms, c.approval, c.qty, c.price, c.now));
    } else if IsFinal(c.target) {
      CloseGrows(db, c.order, c.target);
    }
  }

  lemma OrderCall(db: Db, c: Command)
    requires Apply(db, c).Ok?
    requires c.Place? || c.Cancel? || c.Reject? || c.Send? || c.Ack? || c.Execute? || c.Expire? || c.Correct?
             || c.SettleExec? || c.FailDelivery?
    ensures Grows(db.log, Apply(db, c).value.log) && Apply(db, c).value.intents == db.intents
  {
    match c {
      case Place(draft) => PlaceGrows(db, draft);
      case Cancel(userId, order) => CloseGrows(db, order, CANCELLED);
      case Reject(order) => CloseGrows(db, order, REJECTED);
      case Send(order, batch, now) =>
      case Ack(order, accepted) => AckGrows(db, order, accepted, db.orders[order].status);
      case Execute(trade) => ExecuteGrows(db, trade);
      case Expire(order) => CloseGrows(db, order, EXPIRED);
      case Correct(order, target, approval, qty, price, now) => ReviewGrows(db, c);
      case SettleExec(exec) => SettleGrows(db, exec);
      case FailDelivery(exec) => FailGrows(db, exec);
    }
  }

  /** Every call only adds to the ledger, moves intents forward, and marks a deposit PAID only
      with its DEPOSIT in the ledger. */
  lemma NextCall(db: Db, c: Command)
    ensures CallOk(db, Next(db, c))
  {
    if Apply(db, c).Ok? {
      match c {
        case RequestDeposit(u, p, cur, a, answer, second) => CreateCall(db, c);
        case Confirm(intent, answer) => ConfirmCall(db, intent, answer);
        case ExpireDeposit(intent, answer) => ExpireCall(db, intent, answer);
        case Withdraw(u, p, cur, a) => WithdrawCall(db, c);
        case PayOut(intent) => PayOutCall(db, intent);
        case RefuseOut(intent) => RefuseCall(db, intent);
        case Force(intent) => ForceCall(db, intent);
        case _ =>
          OrderCall(db, c);
          SameIntents(db, Next(db, c));
      }
    }
  }

  // --------------------------------------------------------------------- runs

  predicate IntentsSound(db: Db) {
    forall n :: 0 <= n < |db.intents| ==> WaitingSound(db.intents[n]) && Backed(db.log, n, db.intents[n])
  }

  lemma FoundStays(before: Log, after: Log, key: Key)
    requires Grows(before, after) && Find(before, key).Just?
    ensures Find(after, key).Just?
  {
    FindIsKey(before, key);
    FindIsKey(after, key);
    assert after[Find(before, key).value].key == key;
  }

  lemma CallKeepsIntents(db: Db, after: Db)
    requires IntentsSound(db) && CallOk(db, after)
    ensures IntentsSound(after)
  {
    forall n | 0 <= n < |after.intents|
      ensures WaitingSound(after.intents[n]) && Backed(after.log, n, after.intents[n])
    {
      assert IntentRowOk(db, after, n);
      if n < |db.intents| && Find(db.log, Key.Deposit(n)).Just? { FoundStays(db.log, after.log, Key.Deposit(n)); }
    }
  }

  /** Over any run of the brokerage and payments calls the ledger only grows: no transaction is
      changed but for its status, which goes from POSTED to REVERSED. */
  lemma {:induction false} RunGrows(db: Db, commands: seq<Command>)
    ensures Grows(db.log, RunAll(db, commands).log)
    decreases |commands|
  {
    if commands != [] {
      NextCall(db, commands[0]);
      RunGrows(Next(db, commands[0]), commands[1..]);
      GrowsTransitive(db.log, Next(db, commands[0]).log, RunAll(db, commands).log);
    }
  }

  lemma {:induction false} RunKeepsIntents(db: Db, commands: seq<Command>)
    requires IntentsSound(db)
    ensures IntentsSound(RunAll(db, commands))
    decreases |commands|
  {
    if commands != [] {
      NextCall(db, commands[0]);
      CallKeepsIntents(db, Next(db, commands[0]));
      RunKeepsIntents(Next(db, commands[0]), commands[1..]);
    }
  }

  /** With atomic calls a deposit is PAID if and only if its DEPOSIT is in the ledger, after any
      run: neither a credited deposit that is not PAID nor a PAID one that was not credited. */
  lemma DepositPaidIff(start: Db, commands: seq<Command>, n: nat)
    requires Initial(start) && GoodRun(commands)
    ensures var db := RunAll(start, commands);
      && (Find(db.log, Key.Deposit(n)).Just? ==> n < |db.intents| && db.intents[n].direction == IN)
      && (n < |db.intents| && db.intents[n].direction == IN ==>
            (db.intents[n].state == Paid <==> Find(db.log, Key.Deposit(n)).Just?))
  {
    InitialInv(start);
    RunKeeps(start, commands);
    RunKeepsIntents(start, commands);
    CreditedIsPaid(RunAll(start, commands), n);
  }

  /** After any run every pending withdrawal waits with an amount the ledger took: what payouts
      and reconciliation rely on. */
  lemma PendingSoundOverRuns(start: Db, commands: seq<Command>)
    requires Initial(start) && GoodRun(commands)
    ensures Inv(RunAll(start, commands)) && PendingSound(RunAll(start, commands).intents)
  {
    InitialInv(start);
    RunKeeps(start, commands);
    RunKeepsIntents(start, commands);
  }

  lemma CreditedIsPaid(db: Db, n: nat)
    requires KeysOk(db)
    ensures Find(db.log, Key.Deposit(n)).Just? ==>
      n < |db.intents| && db.intents[n].direction == IN && db.intents[n].state == Paid
  {
    FindIsKey(db.log, Key.Deposit(n));
    if Find(db.log, Key.Deposit(n)).Just? { assert KeyOk(db, db.log[Find(db.log, Key.Deposit(n)).value].key); }
  }
}
