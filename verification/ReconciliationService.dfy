/** The reconciliation service (`src/modules/reconciliation/reconciliation.service.ts`): the
    loop over the lines of a statement, filing each under matched, paid or items. */
module ReconciliationService {
  import opened Decimals
  import opened BrokerageModel
  import opened BrokerageService
  import opened PaymentsService
  import opened ReconciliationModel
  import Csv

  /** The three lists of a run, in line order. */
  function MatchedIn(results: seq<LineResult>): seq<nat> {
    if results == [] then []
    else MatchedIn(results[..|results| - 1]) +
         (if results[|results| - 1].Matched? then [results[|results| - 1].intent] else [])
  }

  function PaidIn(results: seq<LineResult>): seq<nat> {
    if results == [] then []
    else PaidIn(results[..|results| - 1]) +
         (if results[|results| - 1].PaidOut? then [results[|results| - 1].intent] else [])
  }

  function ItemsIn(results: seq<LineResult>): seq<nat> {
    if results == [] then []
    else ItemsIn(results[..|results| - 1]) +
         (if results[|results| - 1].OpenedItem? then [results[|results| - 1].item] else [])
  }

  /** Every line is in exactly one of the three lists. */
  lemma {:induction false} ListsCount(results: seq<LineResult>)
    ensures |MatchedIn(results)| + |PaidIn(results)| + |ItemsIn(results)| == |results|
  {
    if results != [] { ListsCount(results[..|results| - 1]); }
  }

  lemma ListsAppend(results: seq<LineResult>, r: LineResult)
    ensures MatchedIn(results + [r]) == MatchedIn(results) + (if r.Matched? then [r.intent] else [])
    ensures PaidIn(results + [r]) == PaidIn(results) + (if r.PaidOut? then [r.intent] else [])
    ensures ItemsIn(results + [r]) == ItemsIn(results) + (if r.OpenedItem? then [r.item] else [])
  {
    assert (results + [r])[..|results|] == results;
  }

  class Reconciliation {
    const payments: Payments
    /** The reference columns of the intents, row by row. */
    var names: seq<Names>
    var items: seq<Item>

    ghost predicate Valid()
      reads this, payments.store, payments.store.ledger
    {
      payments.Valid() && |names| == |payments.store.intents|
    }

    ghost function State(): Desk
      reads this, payments.store, payments.store.ledger
    {
      Desk(payments.store.State(), names, items)
    }

    constructor (payments: Payments, names: seq<Names>)
      requires payments.Valid() && |names| == |payments.store.intents|
      ensures Valid() && this.payments == payments && this.names == names && items == []
    {
      this.payments, this.names, items := payments, names, [];
    }

    /** `findIntent`: the latest intent that answers to the reference. */
    method FindIntent(line: Line) returns (found: Maybe<nat>)
      requires Valid()
      ensures found == ReconciliationModel.FindIntent(State(), line)
    {
      var intents := payments.store.intents;
      var n: nat := |intents|;
      while n > 0
        invariant n <= |intents| && ReconciliationModel.FindIntent(State(), line) == Latest(State(), line, n)
      {
        n := n - 1;
        if Csv.Trim(line.reference) != "" && intents[n].direction == line.direction &&
           intents[n].currency == line.currency && Named(names[n], Csv.Trim(line.reference)) {
          return Just(n);
        }
      }
      return Nothing;
    }

    method LookUpItem(line: Line) returns (found: Maybe<nat>)
      ensures found == FindItem(items, line, |items|)
    {
      var n: nat := |items|;
      while n > 0
        invariant n <= |items| && FindItem(items, line, |items|) == FindItem(items, line, n)
      {
        n := n - 1;
        if ItemFor(items[n], line) {
          return Just(n);
        }
      }
      return Nothing;
    }

    /** `openItem`. */
    method OpenItem(line: Line, reason: Reason) returns (id: nat)
      modifies this`items
      ensures (items, id) == ReconciliationModel.OpenItem(old(items), line, reason)
    {
      var found := LookUpItem(line);
      FindItemBounded(items, line, |items|);
      if found.Just? {
        id := found.value;
        if items[id].state == Open && items[id].reason != reason {
          items := items[id := items[id].(reason := reason)];
        }
        return;
      }
      id := |items|;
      items := items + [NewItem(line, reason)];
    }

    /** `closeMatchedItem`. */
    method CloseMatchedItem(line: Line)
      modifies this`items
      ensures items == CloseItem(old(items), line)
    {
      items := CloseItem(items, line);
    }

    /** A line that confirms a payout. */
    method ConfirmPayOut(line: Line, n: nat) returns (result: LineResult)
      requires Valid() && n < |names|
      modifies this, payments.store`intents, payments.store.ledger
      ensures Valid()
      ensures (State(), result) == ReconciliationModel.PayOut(old(State()), line, n)
    {
      var fault := payments.MarkWithdrawalPaid(n);
      if fault.Just? {
        var id := OpenItem(line, Reason.Refused);
        return OpenedItem(id);
      }
      names := names[n := names[n].(providerRef := Just(line.reference))];
      return PaidOut(n);
    }

    /** A line that matches nothing it should. */
    method Report(line: Line, reason: Reason) returns (result: LineResult)
      requires Valid()
      modifies this`items
      ensures Valid()
      ensures (State(), result) == Mismatch(old(State()), line, reason)
    {
      var id := OpenItem(line, reason);
      return OpenedItem(id);
    }

    /** One line of the statement. */
    method ProcessLine(line: Line) returns (result: LineResult)
      requires Valid()
      modifies this, payments.store`intents, payments.store.ledger
      ensures Valid()
      ensures (State(), result) == Step(old(State()), line)
    {
      var found := FindIntent(line);
      if found.Nothing? {
        result := Report(line, UnknownReference);
        return;
      }
      var n := found.value;
      LatestMatches(State(), line, |payments.store.intents|);
      var i := payments.store.intents[n];
      if i.amount != LineAmount(line) {
        result := Report(line, AmountDiffers(LineAmount(line), i.amount));
      } else if line.direction == IN && i.state != Paid {
        result := Report(line, StateIs(i.state));
      } else if line.direction == OUT && i.state == IntentState.Pending {
        result := ConfirmPayOut(line, n);
      } else if i.state == Paid {
        CloseMatchedItem(line);
        result := Matched(n);
      } else {
        result := Report(line, StateIs(i.state));
      }
    }

    /** `runDaily`: every line ends up in exactly one of the three lists. */
    method RunDaily(lines: seq<Line>) returns (matched: seq<nat>, withdrawalsPaid: seq<nat>, itemIds: seq<nat>)
      requires Valid()
      modifies this, payments.store`intents, payments.store.ledger
      ensures Valid()
      ensures var (after, results) := Run(old(State()), lines);
              State() == after && matched == MatchedIn(results) && withdrawalsPaid == PaidIn(results)
              && itemIds == ItemsIn(results)
      ensures |matched| + |withdrawalsPaid| + |itemIds| == |lines|
    {
      ghost var start := State();
      ghost var results: seq<LineResult> := [];
      matched, withdrawalsPaid, itemIds := [], [], [];
      for j := 0 to |lines|
        invariant Valid() && Run(start, lines[..j]) == (State(), results)
        invariant matched == MatchedIn(results) && withdrawalsPaid == PaidIn(results) && itemIds == ItemsIn(results)
      {
        assert lines[..j + 1][..j] == lines[..j];
        var result := ProcessLine(lines[j]);
        ListsAppend(results, result);
        match result {
          case Matched(n) => matched := matched + [n];
          case PaidOut(n) => withdrawalsPaid := withdrawalsPaid + [n];
          case OpenedItem(i) => itemIds := itemIds + [i];
        }
        results := results + [result];
      }
      assert lines[..|lines|] == lines;
      ListsCount(results);
    }
  }
}
