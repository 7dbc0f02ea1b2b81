/** Requests served one after the other by the two stateful services: what the methods leave in
    the tables is a run of the model, so what is proved of runs holds of the services. */
module BrokerageRequests {
  import opened Decimals
  import opened LedgerModel
  import opened OrderState
  import opened BrokerageModel
  import opened BrokerageInvariant
  import opened BrokerageService
  import opened PaymentsService
  import opened BrokerageTheorems
  import opened BrokerageRuns

  lemma CommitsIsNext(before: Db, c: Command, after: Db, fault: Maybe<Fault>)
    requires Commits(before, Apply(before, c), after, fault)
    ensures after == Next(before, c) && (fault == Nothing <==> Apply(before, c).Ok?)
  {
  }

  predicate OrderRequest(c: Command) {
    c.Place? || c.Cancel? || c.Reject? || c.Send? || c.Ack? || c.Execute? || c.Expire? || c.Correct?
    || c.SettleExec? || c.FailDelivery?
  }

  method ServeOrder(brokerage: Brokerage, c: Command) returns (fault: Maybe<Fault>)
    requires brokerage.Valid() && OrderRequest(c)
    modifies brokerage, brokerage.ledger
    ensures brokerage.Valid()
    ensures Commits(old(brokerage.State()), Apply(old(brokerage.State()), c), brokerage.State(), fault)
  {
    match c {
      case Place(draft) => fault := brokerage.PlaceOrder(draft);
      case Cancel(userId, order) => fault := brokerage.Cancel(userId, order);
      case Reject(order) => fault := brokerage.RejectUnopened(order);
      case Send(order, batch, now) => fault := brokerage.Transmit(order, batch, now);
      case Ack(order, accepted) =>
        if order >= |brokerage.orders| {
          return Just(Missing);
        }
        fault := brokerage.ApplyAck(order, accepted, brokerage.orders[order].status);
      case Execute(trade) => fault := brokerage.ApplyExecution(trade);
      case Expire(order) => fault := brokerage.ExpireOrder(order);
      case Correct(order, target, approval, qty, price, now) =>
        fault := brokerage.Review(order, target, approval, qty, price, now);
      case SettleExec(exec) => fault := brokerage.Settle(exec);
      case FailDelivery(exec) => fault := brokerage.FailSettlement(exec);
    }
  }

  method ServePayment(payments: Payments, c: Command) returns (fault: Maybe<Fault>)
    requires payments.Valid() && !OrderRequest(c)
    modifies payments.store`intents, payments.store.ledger
    ensures payments.Valid()
    ensures Commits(old(payments.store.State()), Apply(old(payments.store.State()), c), payments.store.State(), fault)
  {
    match c {
      case RequestDeposit(userId, provider, currency, amount, answer, second) =>
        fault := payments.CreateDeposit(userId, provider, currency, amount, answer, second);
      case Confirm(intent, answer) => fault := payments.ConfirmDeposit(intent, answer);
      case ExpireDeposit(intent, answer) =>
        var expired;
        fault, expired := payments.ExpireIntent(intent, answer);
      case Withdraw(userId, provider, currency, amount) =>
        fault := payments.RequestWithdrawal(userId, provider, currency, amount);
      case PayOut(intent) => fault := payments.MarkWithdrawalPaid(intent);
      case RefuseOut(intent) => fault := payments.FailWithdrawal(intent);
      case Force(intent) => fault := payments.ForceComplete(intent);
    }
  }

  lemma RunPrefix(db: Db, commands: seq<Command>, j: nat)
    requires j < |commands|
    ensures RunAll(db, commands[..j + 1]) == Next(RunAll(db, commands[..j]), commands[j])
    decreases j
  {
    if j > 0 {
      var after := Next(db, commands[0]);
      RunPrefix(after, commands[1..], j - 1);
      assert commands[..j + 1][1..] == commands[1..][..j] && commands[..j][1..] == commands[1..][..j - 1];
    }
  }

  /** Whatever requests come in, the tables end where the run of the model ends, faults leaving
      no trace, and the whole-state invariant holds. */
  method Serve(brokerage: Brokerage, payments: Payments, commands: seq<Command>)
    requires brokerage.Valid() && payments.store == brokerage
    modifies brokerage, brokerage.ledger
    ensures brokerage.Valid()
    ensures brokerage.State() == RunAll(old(brokerage.State()), commands)
    ensures old(Inv(brokerage.State())) && GoodRun(commands) ==> Inv(brokerage.State())
  {
    ghost var start := brokerage.State();
    for j := 0 to |commands|
      invariant brokerage.Valid() && brokerage.State() == RunAll(start, commands[..j])
    {
      RunPrefix(start, commands, j);
      ghost var before := brokerage.State();
      var fault;
      if OrderRequest(commands[j]) {
        fault := ServeOrder(brokerage, commands[j]);
      } else {
        fault := ServePayment(payments, commands[j]);
      }
      CommitsIsNext(before, commands[j], brokerage.State(), fault);
    }
    assert commands[..|commands|] == commands;
    ServedIsSound(start, commands);
  }

  lemma ServedIsSound(db: Db, commands: seq<Command>)
    ensures Inv(db) && GoodRun(commands) ==> Inv(RunAll(db, commands))
  {
    if Inv(db) && GoodRun(commands) { RunKeeps(db, commands); }
  }
}
