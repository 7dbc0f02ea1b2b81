/** The brokerage as the stateful services: tables updated in place, each database
    transaction committed as a whole or put back, every method proved against the function
    of `BrokerageModel`, `BrokerageFiles` or `BrokerageJobs` that says what it computes. */
module BrokerageService {
  import opened Decimals
  import opened LedgerModel
  import opened OrderState
  import opened BrokerageModel
  import opened LedgerService
  import opened BrokerageJobs
  import Files = BrokerageFiles
  import Fees
  import TradingDays

  /** Inside a transaction: what was computed, or the fault that will roll it back. */
  ghost predicate Reaches(r: Result<Db>, after: Db, fault: Maybe<Fault>) {
    match r
    case Ok(db) => after == db && fault == Nothing
    case Err(f) => fault == Just(f)
  }

  /** A whole transaction: committed, or without a trace. */
  ghost predicate Commits(before: Db, r: Result<Db>, after: Db, fault: Maybe<Fault>) {
    Reaches(r, after, fault) && (r.Err? ==> after == before)
  }

  /** What the database puts back when a transaction aborts. */
  datatype Tables = Tables(ledger: Savepoint, orders: seq<Order>, execs: seq<Exec>,
                           positions: map<(string, string), Position>, intents: seq<Intent>)

  class Brokerage {
    const ledger: Ledger
    var orders: seq<Order>
    var execs: seq<Exec>
    /** Position rows, unique per (user, instrument). */
    var positions: map<(string, string), Position>
    var intents: seq<Intent>
    var batches: nat

    ghost predicate Valid()
      reads this, ledger
    {
      ledger.Valid()
    }

    ghost function State(): Db
      reads this, ledger
    {
      Db(ledger.log, orders, execs, positions, intents)
    }

    constructor (holdings: map<(string, string), Position>)
      ensures Valid() && fresh(ledger)
      ensures State() == Db([], [], [], holdings, [])
    {
      ledger := new Ledger();
      orders, execs, positions, intents, batches := [], [], holdings, [], 0;
    }

    method Begin() returns (t: Tables)
      requires Valid()
      ensures Indexed(t.ledger.log, t.ledger.byKey, t.ledger.accountIds)
      ensures Db(t.ledger.log, t.orders, t.execs, t.positions, t.intents) == State()
    {
      var s := ledger.Save();
      t := Tables(s, orders, execs, positions, intents);
    }

    method Abort(t: Tables)
      requires Indexed(t.ledger.log, t.ledger.byKey, t.ledger.accountIds)
      modifies this`orders, this`execs, this`positions, this`intents, ledger
      ensures Valid() && State() == Db(t.ledger.log, t.orders, t.execs, t.positions, t.intents)
    {
      ledger.Rollback(t.ledger);
      orders, execs, positions, intents := t.orders, t.execs, t.positions, t.intents;
    }

    // ------------------------------------------------------------ primitives

    method PostTxn(input: PostInput) returns (r: Result<nat>)
      requires Valid()
      modifies ledger
      ensures Valid()
      ensures match BrokerageModel.PostTxn(old(State()), input)
              case Ok(p) => r == Ok(p.1) && State() == p.0
              case Err(f) => r == Err(f) && State() == old(State())
    {
      var outcome := ledger.Post(input);
      match outcome {
        case Posted(id) => r := Ok(id);
        case Existing(id) => r := Ok(id);
        case Refused(why) => r := Err(LedgerRefused(why));
      }
    }

    /** `reserveCash`. */
    method ReserveCash(order: nat) returns (fault: Maybe<Fault>)
      requires Valid() && order < |orders|
      modifies this`orders, ledger
      ensures Valid()
      ensures Reaches(BrokerageModel.ReserveCash(old(State()), order), State(), fault)
    {
      var posted := PostTxn(ReserveInput(order, orders[order].terms));
      if posted.Err? {
        return Just(posted.fault);
      }
      orders := orders[order := orders[order].(reserveTxn := Just(posted.value))];
      return Nothing;
    }

    /** A SQL UPDATE of one position row: no effect when there is none. */
    method StorePosition(terms: Terms, p: Position)
      modifies this`positions
      ensures State() == UpdatePosition(old(State()), terms, p)
    {
      if (terms.userId, terms.instrumentId) in positions {
        positions := positions[(terms.userId, terms.instrumentId) := p];
      }
    }

    method LoadPosition(terms: Terms) returns (p: Position)
      ensures p == PositionOf(State(), terms.userId, terms.instrumentId)
    {
      p := if (terms.userId, terms.instrumentId) in positions then positions[(terms.userId, terms.instrumentId)]
           else Position(0, 0, 0, 0);
    }

    /** `reserveShares`. */
    method ReserveShares(terms: Terms) returns (fault: Maybe<Fault>)
      modifies this`positions
      ensures Reaches(BrokerageModel.ReserveShares(old(State()), terms), State(), fault)
    {
      var p := LoadPosition(terms);
      if (terms.userId, terms.instrumentId) in positions && p.quantity - p.reserved >= terms.quantity {
        StorePosition(terms, p.(reserved := p.reserved + terms.quantity));
        return Nothing;
      }
      return Just(InsufficientShares);
    }

    /** `unreserveShares`. */
    method UnreserveShares(terms: Terms, qty: Dec)
      modifies this`positions
      ensures State() == BrokerageModel.UnreserveShares(old(State()), terms, qty)
    {
      if qty <= 0 {
        return;
      }
      var p := LoadPosition(terms);
      StorePosition(terms, p.(reserved := Clamp(p.reserved - qty)));
    }

    /** `consumedReserve`: the sum over the order's executions. */
    method ConsumedReserve(order: nat) returns (total: Dec)
      requires order < |orders|
      ensures total == BrokerageModel.ConsumedReserve(orders[order].terms, execs, order)
    {
      total := 0;
      for k := 0 to |execs|
        invariant total == BrokerageModel.ConsumedReserve(orders[order].terms, execs[..k], order)
      {
        if Consumes(execs[k], order) {
          total := total + BuyDebit(orders[order].terms, execs[k].trade, "XAF");
        }
        assert execs[..k + 1][..k] == execs[..k];
      }
      assert execs[..|execs|] == execs;
    }

    /** `releaseRemaining`. */
    method ReleaseRemaining(order: nat) returns (fault: Maybe<Fault>)
      requires Valid() && order < |orders|
      modifies this`orders, this`positions, ledger
      ensures Valid()
      ensures Reaches(BrokerageModel.ReleaseRemaining(old(State()), order), State(), fault)
    {
      var o := orders[order];
      if o.terms.simulated {
        return Nothing;
      }
      orders := orders[order := o.(released := true)];
      fault := ReleaseFlagged(order);
      ReleaseUnfolds(old(State()), order);
    }

    method ReleaseFlagged(order: nat) returns (fault: Maybe<Fault>)
      requires Valid() && order < |orders|
      modifies this`positions, ledger
      ensures Valid()
      ensures Reaches(ReleasedFlagged(old(State()), order), State(), fault)
    {
      var o := orders[order];
      if o.terms.side == SELL {
        UnreserveShares(o.terms, o.terms.quantity - o.filled);
        return Nothing;
      }
      var remaining := Remaining(order);
      fault := ReleaseCash(order, remaining);
    }

    method Remaining(order: nat) returns (remaining: Dec)
      requires order < |orders|
      ensures remaining == Remainder(orders[order], execs, order)
    {
      if orders[order].reserveTxn.Nothing? {
        return 0;
      }
      var consumed := ConsumedReserve(order);
      return orders[order].terms.maxAmount - consumed;
    }

    method ReleaseCash(order: nat, remaining: Dec) returns (fault: Maybe<Fault>)
      requires Valid() && order < |orders|
      modifies ledger
      ensures Valid()
      ensures Reaches(ReleasedCash(old(State()), order, remaining), State(), fault)
    {
      if remaining <= 0 {
        return Nothing;
      }
      var posted := PostTxn(ReleaseInput(order, orders[order].terms, remaining));
      return if posted.Err? then Just(posted.fault) else Nothing;
    }

    /** `postFill`. */
    method PostFill(exec: nat) returns (fault: Maybe<Fault>)
      requires Valid() && exec < |execs| && execs[exec].trade.order < |orders|
      requires orders[execs[exec].trade.order].terms.partnerId.Just?
      modifies this`execs, ledger
      ensures Valid()
      ensures Reaches(BrokerageModel.PostFill(old(State()), exec), State(), fault)
    {
      var e := execs[exec];
      var terms := orders[e.trade.order].terms;
      if terms.side == BUY {
        var debit := BuyDebit(terms, e.trade, terms.currency);
        var consumed := ConsumedReserve(e.trade.order);
        var before := consumed - (if e.fillTxn.Just? then debit else 0);
        if before + debit > terms.maxAmount {
          return Just(OverReserve);
        }
      }
      var posted := PostTxn(FillInput(exec, terms, e.trade));
      if posted.Err? {
        return Just(posted.fault);
      }
      execs := execs[exec := e.(fillTxn := Just(posted.value))];
      return Nothing;
    }

    /** `addPendingShares`. */
    method AddPendingShares(terms: Terms, qty: Dec, price: Dec)
      modifies this`positions
      ensures State() == BrokerageModel.AddPendingShares(old(State()), terms, qty, price)
    {
      var row := (terms.userId, terms.instrumentId);
      if row !in positions {
        positions := positions[row := Position(0, qty, 0, price)];
      } else {
        var p := positions[row];
        var held := p.quantity + p.pending;
        var avg := if held >= 0 && qty >= 0 then WeightedAvgCost(held, p.avgCost, qty, price) else p.avgCost;
        positions := positions[row := p.(pending := p.pending + qty, avgCost := avg)];
      }
    }

    // ---------------------------------------------------------------- orders

    /** `placeOrder`. */
    method PlaceOrder(d: Draft) returns (fault: Maybe<Fault>)
      requires Valid()
      modifies this`orders, this`execs, this`positions, this`intents, ledger
      ensures Valid()
      ensures Commits(old(State()), BrokerageModel.PlaceOrder(old(State()), d), State(), fault)
    {
      if d.quantity <= 0 {
        return Just(InvalidQuantity);
      }
      if !d.simulated && d.partnerId.Nothing? {
        return Just(NoPartner);
      }
      var t := Begin();
      orders := orders + [NewOrder(d)];
      if d.simulated {
        return Nothing;
      }
      if d.side == BUY {
        fault := ReserveCash(|orders| - 1);
      } else {
        fault := ReserveShares(DraftTerms(d));
      }
      if fault.Just? {
        Abort(t);
      }
    }

    /** A guarded status change and its release, in one transaction. */
    method Close(order: nat, status: OrderStatus) returns (fault: Maybe<Fault>)
      requires Valid() && order < |orders|
      modifies this`orders, this`execs, this`positions, this`intents, ledger
      ensures Valid()
      ensures Commits(old(State()), BrokerageModel.Close(old(State()), order, status), State(), fault)
    {
      var t := Begin();
      orders := orders[order := orders[order].(status := status)];
      fault := ReleaseRemaining(order);
      if fault.Just? {
        Abort(t);
      }
    }

    /** `cancel`. */
    method Cancel(userId: string, order: nat) returns (fault: Maybe<Fault>)
      requires Valid()
      modifies this`orders, this`execs, this`positions, this`intents, ledger
      ensures Valid()
      ensures Commits(old(State()), CancelOrder(old(State()), userId, order), State(), fault)
    {
      if order >= |orders| || orders[order].terms.userId != userId {
        return Just(Missing);
      }
      if orders[order].status != PENDING {
        return Just(NotAllowed);
      }
      fault := Close(order, CANCELLED);
    }

    // --------------------------------------------------------------- batches

    method Query(partner: string, accounts: set<string>) returns (rejected: seq<nat>, lines: seq<nat>)
      ensures rejected == PendingIds(orders, partner, accounts, false)
      ensures lines == PendingIds(orders, partner, accounts, true)
    {
      rejected, lines := [], [];
      for i := 0 to |orders|
        invariant rejected == PendingIds(orders[..i], partner, accounts, false)
        invariant lines == PendingIds(orders[..i], partner, accounts, true)
      {
        if PendingFor(orders[i], partner) {
          if orders[i].terms.userId in accounts {
            lines := lines + [i];
          } else {
            rejected := rejected + [i];
          }
        }
        assert orders[..i + 1][..i] == orders[..i];
      }
      assert orders[..|orders|] == orders;
    }

    /** `buildBatch`. */
    method BuildBatch(partner: string, accounts: set<string>, now: int) returns (fault: Maybe<Fault>)
      requires Valid()
      modifies this, ledger
      ensures Valid()
      ensures var run := BrokerageJobs.BuildBatch(old(State()), partner, accounts, old(batches), now);
              State() == run.db && fault == run.fault
    {
      var rejected, lines := Query(partner, accounts);
      fault := RejectAll(rejected);
      if fault.Just? {
        return;
      }
      if lines == [] {
        return Just(NotAllowed);
      }
      fault := TransmitAll(lines, batches, now);
      if fault.Nothing? {
        batches := batches + 1;
      }
    }

    /** One transaction per order. */
    method RejectAll(ids: seq<nat>) returns (fault: Maybe<Fault>)
      requires Valid()
      modifies this`orders, this`execs, this`positions, this`intents, ledger
      ensures Valid()
      ensures Ran(Job(old(State()), Rejections(ids)), State(), fault)
    {
      ghost var start := State();
      for j := 0 to |ids|
        invariant Valid() && Job(start, Rejections(ids[..j])) == JobRun(State(), j, Nothing)
      {
        PrefixJob(start, Rejections(ids), j);
        assert Rejections(ids)[..j] == Rejections(ids[..j]) && Rejections(ids)[..j + 1] == Rejections(ids[..j + 1]);
        fault := RejectUnopened(ids[j]);
        if fault.Just? {
          JobStops(start, Rejections(ids), j, fault);
          return;
        }
      }
      assert ids[..|ids|] == ids;
      return Nothing;
    }

    /** One transaction for them all. */
    method TransmitAll(ids: seq<nat>, batch: nat, now: int) returns (fault: Maybe<Fault>)
      requires Valid()
      modifies this`orders, this`execs, this`positions, this`intents, ledger
      ensures Valid()
      ensures fault == Job(old(State()), Transmissions(ids, batch, now)).fault
      ensures State() == if fault.Just? then old(State()) else Job(old(State()), Transmissions(ids, batch, now)).db
    {
      var t := Begin();
      ghost var start := State();
      for j := 0 to |ids|
        invariant Valid() && Job(start, Transmissions(ids[..j], batch, now)) == JobRun(State(), j, Nothing)
      {
        ghost var all := Transmissions(ids, batch, now);
        PrefixJob(start, all, j);
        assert all[..j] == Transmissions(ids[..j], batch, now) && all[..j + 1] == Transmissions(ids[..j + 1], batch, now);
        fault := Transmit(ids[j], batch, now);
        if fault.Just? {
          JobStops(start, all, j, fault);
          Abort(t);
          return;
        }
      }
      assert ids[..|ids|] == ids;
      return Nothing;
    }

    method RejectUnopened(order: nat) returns (fault: Maybe<Fault>)
      requires Valid()
      modifies this`orders, this`execs, this`positions, this`intents, ledger
      ensures Valid()
      ensures Commits(old(State()), Apply(old(State()), Reject(order)), State(), fault)
    {
      if order >= |orders| {
        return Just(Missing);
      }
      if orders[order].status != PENDING || orders[order].terms.simulated {
        return Just(NotAllowed);
      }
      fault := Close(order, REJECTED);
    }

    method Transmit(order: nat, batch: nat, now: int) returns (fault: Maybe<Fault>)
      requires Valid()
      modifies this`orders
      ensures Valid()
      ensures Commits(old(State()), Apply(old(State()), Send(order, batch, now)), State(), fault)
    {
      if order >= |orders| {
        return Just(Missing);
      }
      if orders[order].status != PENDING || orders[order].terms.simulated {
        return Just(NotAllowed);
      }
      orders := orders[order :=
        orders[order].(status := TRANSMITTED, batch := Just(batch), transmittedAt := Just(now))];
      return Nothing;
    }

    // ------------------------------------------------------------------- ack

    method ApplyAck(order: nat, accepted: bool, seen: OrderStatus) returns (fault: Maybe<Fault>)
      requires Valid()
      modifies this`orders, this`execs, this`positions, this`intents, ledger
      ensures Valid()
      ensures Commits(old(State()), AckLine(old(State()), order, accepted, seen), State(), fault)
    {
      if order >= |orders| {
        return Just(Missing);
      }
      if accepted {
        if seen == TRANSMITTED {
          orders := orders[order := orders[order].(status := ACKNOWLEDGED)];
        }
        return Nothing;
      }
      if (seen == TRANSMITTED || seen == ACKNOWLEDGED) && orders[order].status == seen {
        fault := Close(order, REJECTED);
        return;
      }
      return Nothing;
    }

    /** `processAck`: every line is judged against the orders as read before the first one. */
    method ProcessAck(batch: nat, lines: seq<Files.AckLine>)
      returns (accepted: seq<nat>, rejected: seq<nat>, ignored: seq<nat>, fault: Maybe<Fault>)
      requires Valid()
      modifies this`orders, this`execs, this`positions, this`intents, ledger
      ensures Valid()
      ensures Files.AckFile(old(State()), batch, lines) == Files.AckRun(State(), accepted, rejected, ignored, fault)
    {
      ghost var start := State();
      var snapshot := orders;
      accepted, rejected, ignored, fault := [], [], [], Nothing;
      for j := 0 to |lines|
        invariant Valid()
        invariant Files.AckFile(start, batch, lines[..j]) == Files.AckRun(State(), accepted, rejected, ignored, fault)
      {
        assert lines[..j + 1][..j] == lines[..j];
        var line := lines[j];
        if fault.Just? {
          continue;
        }
        if line.order >= |snapshot| || snapshot[line.order].batch != Just(batch) {
          ignored := ignored + [line.order];
          continue;
        }
        var seen := snapshot[line.order].status;
        if line.accepted {
          if seen == TRANSMITTED {
            fault := ApplyAck(line.order, true, seen);
            accepted := if fault.Nothing? then accepted + [line.order] else accepted;
          }
        } else if seen == TRANSMITTED || seen == ACKNOWLEDGED {
          fault := ApplyAck(line.order, false, seen);
          rejected := if fault.Nothing? then rejected + [line.order] else rejected;
        }
      }
      assert lines[..|lines|] == lines;
    }

    // ------------------------------------------------------------------- exe

    method FindExecution(ref: ExecRef) returns (found: Maybe<nat>)
      ensures found == FindExec(execs, ref)
    {
      assert execs[..|execs|] == execs;
      for k := 0 to |execs|
        invariant FindExec(execs, ref) == FindExec(execs[..|execs| - k], ref)
      {
        var n := |execs| - k;
        if execs[n - 1].trade.ref == ref {
          return Just(n - 1);
        }
        assert execs[..n][..n - 1] == execs[..n - 1];
      }
      return Nothing;
    }

    /** The Execution row, its FILL and its pending shares, inside the transaction. */
    method RecordExecution(t: Trade) returns (fault: Maybe<Fault>)
      requires Valid() && t.order < |orders| && orders[t.order].terms.partnerId.Just?
      modifies this`execs, this`positions, ledger
      ensures Valid()
      ensures Reaches(BrokerageModel.RecordExecution(old(State()), t), State(), fault)
    {
      var terms := orders[t.order].terms;
      execs := execs + [Exec(t, Unsettled, Nothing, Nothing)];
      if terms.simulated {
        return Nothing;
      }
      fault := PostFill(|execs| - 1);
      if fault.Nothing? && terms.side == BUY {
        AddPendingShares(terms, t.quantity, t.price);
      }
    }

    /** `applyExecution`. */
    method ApplyExecution(t: Trade) returns (fault: Maybe<Fault>)
      requires Valid()
      modifies this`orders, this`execs, this`positions, this`intents, ledger
      ensures Valid()
      ensures Commits(old(State()), BrokerageModel.ApplyExecution(old(State()), t), State(), fault)
    {
      var known := FindExecution(t.ref);
      if known.Just? {
        return Nothing;
      }
      if t.order >= |orders| {
        return Just(Missing);
      }
      var o := orders[t.order];
      if !OpenAtSdb(o.status) {
        return Just(NotAllowed);
      }
      if o.terms.partnerId.Nothing? {
        return Just(NoPartner);
      }
      var fill := if o.filled < 0 then Nothing
                  else ApplyFill(FillState(o.terms.quantity, o.filled, o.avg), t.quantity, t.price);
      if fill.Nothing? {
        return Just(InvalidQuantity);
      }
      if !CanTransition(o.status, fill.value.status) {
        return Just(NotAllowed);
      }
      var tables := Begin();
      fault := RecordExecution(t);
      if fault.Nothing? {
        orders := orders[t.order :=
          orders[t.order].(filled := fill.value.filled, avg := Just(fill.value.avg), status := fill.value.status)];
        if fill.value.status == EXECUTED {
          fault := ReleaseRemaining(t.order);
        }
      }
      if fault.Just? {
        Abort(tables);
      }
    }

    /** `processExecutions`. */
    method ProcessExecutions(batch: nat, lines: seq<Files.ExeLine>)
      returns (executions: seq<nat>, unfilled: seq<nat>, ignored: seq<nat>, duplicates: seq<nat>, fault: Maybe<Fault>)
      requires Valid()
      modifies this`orders, this`execs, this`positions, this`intents, ledger
      ensures Valid()
      ensures Files.ExeFile(old(State()), batch, lines) ==
              Files.ExeRun(State(), executions, unfilled, ignored, duplicates, fault)
    {
      ghost var blank := Files.ExeRun(State(), [], [], [], [], Nothing);
      executions, unfilled, ignored, duplicates, fault := [], [], [], [], Nothing;
      for j := 0 to |lines|
        invariant Valid()
        invariant Files.ExeFrom(blank, batch, lines[..j]) ==
                  Files.ExeRun(State(), executions, unfilled, ignored, duplicates, fault)
      {
        assert lines[..j + 1][..j] == lines[..j];
        var order := Files.OrderOf(lines[j]);
        if fault.Just? {
          continue;
        }
        if order >= |orders| || orders[order].batch != Just(batch) {
          ignored := ignored + [order];
          continue;
        }
        match lines[j] {
          case Unfilled(_) =>
            unfilled := unfilled + [order];
          case Fill(t) =>
            var known := FindExecution(t.ref);
            if known.Just? {
              duplicates := duplicates + [known.value];
            } else {
              var id := |execs|;
              fault := ApplyExecution(t);
              executions := if fault.Nothing? then executions + [id] else executions;
            }
        }
      }
      assert lines[..|lines|] == lines;
    }

    // ---------------------------------------------------------------- expiry

    method ExpireOrder(order: nat) returns (fault: Maybe<Fault>)
      requires Valid()
      modifies this`orders, this`execs, this`positions, this`intents, ledger
      ensures Valid()
      ensures Commits(old(State()), Apply(old(State()), Expire(order)), State(), fault)
    {
      if order >= |orders| {
        return Just(Missing);
      }
      if !OpenAtSdb(orders[order].status) || orders[order].terms.simulated {
        return Just(NotAllowed);
      }
      fault := Close(order, EXPIRED);
    }

    method FindStale(markets: Listing, now: int) returns (ids: seq<nat>)
      ensures ids == StaleIds(orders, markets, now)
    {
      ids := [];
      for i := 0 to |orders|
        invariant ids == StaleIds(orders[..i], markets, now)
      {
        if Stale(orders[i], markets, now) {
          ids := ids + [i];
        }
        assert orders[..i + 1][..i] == orders[..i];
      }
      assert orders[..|orders|] == orders;
    }

    /** `expireStale`. */
    method ExpireStale(markets: Listing, now: int) returns (expired: seq<nat>, fault: Maybe<Fault>)
      requires Valid()
      modifies this`orders, this`execs, this`positions, this`intents, ledger
      ensures Valid()
      ensures Ran(Job(old(State()), Expiries(StaleIds(old(orders), markets, now))), State(), fault)
      ensures fault.Nothing? ==> expired == StaleIds(old(orders), markets, now)
    {
      ghost var start := State();
      var ids := FindStale(markets, now);
      expired := [];
      for j := 0 to |ids|
        invariant Valid() && Job(start, Expiries(ids[..j])) == JobRun(State(), j, Nothing)
        invariant expired == ids[..j]
      {
        PrefixJob(start, Expiries(ids), j);
        assert Expiries(ids)[..j] == Expiries(ids[..j]) && Expiries(ids)[..j + 1] == Expiries(ids[..j + 1]);
        fault := ExpireOrder(ids[j]);
        if fault.Just? {
          JobStops(start, Expiries(ids), j, fault);
          return;
        }
        expired := expired + [ids[j]];
        OneMore(ids, j);
      }
      assert ids[..|ids|] == ids;
      fault := Nothing;
    }

    // ---------------------------------------------------------------- review

    /** `applyReview`. */
    method Review(order: nat, target: OrderStatus, approval: nat, qty: Dec, price: Dec, now: int)
      returns (fault: Maybe<Fault>)
      requires Valid()
      modifies this`orders, this`execs, this`positions, this`intents, ledger
      ensures Valid()
      ensures Commits(old(State()), BrokerageModel.Review(old(State()), order, target, approval, qty, price, now), State(), fault)
    {
      if order >= |orders| {
        return Just(Missing);
      }
      var o := orders[order];
      if !CanTransition(o.status, target) {
        return Just(NotAllowed);
      }
      if target == EXECUTED || target == PARTIALLY_EXECUTED {
        fault := ApplyExecution(ManualTrade(order, o.terms, approval, qty, price, now));
      } else if IsFinal(target) {
        fault := Close(order, target);
      } else if target == TRANSMITTED {
        orders := orders[order := o.(status := TRANSMITTED, transmittedAt := Just(now))];
        fault := Nothing;
      } else {
        orders := orders[order := o.(status := target)];
        fault := Nothing;
      }
    }

    // ------------------------------------------------------------ settlement

    method SettleBuyShares(terms: Terms, qty: Dec)
      modifies this`positions
      ensures State() == BrokerageModel.SettleBuyShares(old(State()), terms, qty)
    {
      var p := LoadPosition(terms);
      StorePosition(terms, p.(pending := Clamp(p.pending - qty), quantity := p.quantity + qty));
    }

    method SettleSellShares(terms: Terms, qty: Dec)
      modifies this`positions
      ensures State() == BrokerageModel.SettleSellShares(old(State()), terms, qty)
    {
      var p := LoadPosition(terms);
      StorePosition(terms, p.(reserved := Clamp(p.reserved - qty), quantity := Clamp(p.quantity - qty)));
    }

    method DropPendingShares(terms: Terms, qty: Dec)
      modifies this`positions
      ensures State() == BrokerageModel.DropPendingShares(old(State()), terms, qty)
    {
      var p := LoadPosition(terms);
      StorePosition(terms, p.(pending := Clamp(p.pending - qty)));
    }

    /** `settleDue` on one execution. */
    method Settle(exec: nat) returns (fault: Maybe<Fault>)
      requires Valid()
      modifies this`orders, this`execs, this`positions, this`intents, ledger
      ensures Valid()
      ensures Commits(old(State()), Apply(old(State()), SettleExec(exec)), State(), fault)
    {
      if exec >= |execs| || execs[exec].trade.order >= |orders| {
        return Just(Missing);
      }
      var e := execs[exec];
      var terms := orders[e.trade.order].terms;
      if e.state != Unsettled && e.state != Settling {
        return Nothing;
      }
      var tables := Begin();
      var txn: Maybe<nat> := Nothing;
      if !terms.simulated {
        if terms.side == BUY {
          SettleBuyShares(terms, e.trade.quantity);
        } else {
          var posted := PostTxn(SettlementInput(exec, terms, e.trade));
          if posted.Err? {
            Abort(tables);
            return Just(posted.fault);
          }
          txn := Just(posted.value);
          SettleSellShares(terms, e.trade.quantity);
        }
      }
      execs := execs[exec := execs[exec].(state := Settled, settlementTxn := txn)];
      return Nothing;
    }

    method FindDue(day: int) returns (ids: seq<nat>)
      ensures ids == DueIds(execs, day)
    {
      ids := [];
      for k := 0 to |execs|
        invariant ids == DueIds(execs[..k], day)
      {
        if Due(execs[k], day) {
          ids := ids + [k];
        }
        assert execs[..k + 1][..k] == execs[..k];
      }
      assert execs[..|execs|] == execs;
    }

    /** `settleDue`. */
    method SettleDue(day: int) returns (settled: seq<nat>, fault: Maybe<Fault>)
      requires Valid()
      modifies this`orders, this`execs, this`positions, this`intents, ledger
      ensures Valid()
      ensures Ran(Job(old(State()), Settlements(DueIds(old(execs), day))), State(), fault)
      ensures fault.Nothing? ==> settled == DueIds(old(execs), day)
    {
      ghost var start := State();
      var ids := FindDue(day);
      settled := [];
      for j := 0 to |ids|
        invariant Valid() && Job(start, Settlements(ids[..j])) == JobRun(State(), j, Nothing)
        invariant settled == ids[..j]
      {
        PrefixJob(start, Settlements(ids), j);
        assert Settlements(ids)[..j] == Settlements(ids[..j]) && Settlements(ids)[..j + 1] == Settlements(ids[..j + 1]);
        fault := Settle(ids[j]);
        if fault.Just? {
          JobStops(start, Settlements(ids), j, fault);
          return;
        }
        settled := settled + [ids[j]];
        OneMore(ids, j);
      }
      assert ids[..|ids|] == ids;
      fault := Nothing;
    }

    /** `reverseFill`. */
    method ReverseFill(exec: nat) returns (fault: Maybe<Fault>)
      requires Valid() && exec < |execs| && execs[exec].trade.order < |orders|
      modifies ledger
      ensures Valid()
      ensures Reaches(BrokerageModel.ReverseFill(old(State()), exec), State(), fault)
    {
      var e := execs[exec];
      var terms := orders[e.trade.order].terms;
      if e.fillTxn.Nothing? {
        return Nothing;
      }
      var reversed := ledger.Reverse(e.fillTxn.value);
      if reversed.Refused? {
        return Just(LedgerRefused(reversed.why));
      }
      if terms.side == SELL {
        return Nothing;
      }
      var posted := PostTxn(FailReleaseInput(exec, terms, e.trade));
      return if posted.Err? then Just(posted.fault) else Nothing;
    }

    /** What stands of an order: quantity, and cost in units of 10^-8. */
    method Standing(order: nat) returns (filled: Dec, cost: int)
      ensures filled == StandingQuantity(execs, order) && cost == StandingCost(execs, order)
    {
      filled, cost := 0, 0;
      for k := 0 to |execs|
        invariant filled == StandingQuantity(execs[..k], order) && cost == StandingCost(execs[..k], order)
      {
        if execs[k].trade.order == order && execs[k].state != Failed {
          filled := filled + execs[k].trade.quantity;
          cost := cost + execs[k].trade.quantity * execs[k].trade.price;
        }
        assert execs[..k + 1][..k] == execs[..k];
      }
      assert execs[..|execs|] == execs;
    }

    /** `failSettlement`. */
    method FailSettlement(exec: nat) returns (fault: Maybe<Fault>)
      requires Valid()
      modifies this`orders, this`execs, this`positions, this`intents, ledger
      ensures Valid()
      ensures Commits(old(State()), BrokerageModel.FailSettlement(old(State()), exec), State(), fault)
    {
      if exec >= |execs| || execs[exec].trade.order >= |orders| {
        return Just(Missing);
      }
      var e := execs[exec];
      var order := e.trade.order;
      var terms := orders[order].terms;
      if e.state == Settled {
        return Just(AlreadySettled);
      }
      if e.state == Failed {
        return Nothing;
      }
      var tables := Begin();
      fault := ReverseFill(exec);
      if fault.Just? {
        Abort(tables);
        return;
      }
      execs := execs[exec := execs[exec].(state := Failed, settlementTxn := Nothing)];
      var filled, cost := Standing(order);
      var avg := if filled <= 0 then Nothing else Just(RoundDiv(cost, filled));
      orders := orders[order := orders[order].(filled := filled, avg := avg, status := ADJUSTED)];
      if !terms.simulated {
        if terms.side == BUY {
          DropPendingShares(terms, e.trade.quantity);
        } else {
          UnreserveShares(terms, e.trade.quantity);
        }
      }
    }
  }

  /** The cash half of a release. */
  ghost function ReleasedCash(db: Db, order: nat, remaining: Dec): Result<Db>
    requires order < |db.orders|
  {
    if remaining <= 0 then Ok(db)
    else
      var (posted, _) :- BrokerageModel.PostTxn(db, ReleaseInput(order, db.orders[order].terms, remaining));
      Ok(posted)
  }

  /** A release once its order is flagged. */
  ghost function ReleasedFlagged(db: Db, order: nat): Result<Db>
    requires order < |db.orders|
  {
    var o := db.orders[order];
    if o.terms.side == SELL then Ok(BrokerageModel.UnreserveShares(db, o.terms, o.terms.quantity - o.filled))
    else ReleasedCash(db, order, Remainder(o, db.execs, order))
  }

  /** What is left of a BUY reserve; nothing when there is none. */
  function Remainder(o: Order, execs: seq<Exec>, order: nat): Dec {
    if o.reserveTxn.Nothing? then 0 else o.terms.maxAmount - BrokerageModel.ConsumedReserve(o.terms, execs, order)
  }

  lemma ReleaseUnfolds(db: Db, order: nat)
    requires order < |db.orders| && !db.orders[order].terms.simulated
    ensures BrokerageModel.ReleaseRemaining(db, order) ==
            ReleasedFlagged(db.(orders := db.orders[order := db.orders[order].(released := true)]), order)
  {
  }

  lemma OneMore(ids: seq<nat>, j: nat)
    requires j < |ids|
    ensures ids[..j + 1] == ids[..j] + [ids[j]]
  {
  }

  /** How a job leaves the tables. */
  ghost predicate Ran(run: JobRun, after: Db, fault: Maybe<Fault>) {
    run.db == after && run.fault == fault
  }

  lemma PrefixJob(db: Db, commands: seq<Command>, j: nat)
    requires j < |commands|
    ensures Job(db, commands[..j + 1]) == JobStep(Job(db, commands[..j]), commands[j])
  {
    assert commands[..j + 1][..j] == commands[..j];
  }

  /** A job that stopped at command j. */
  lemma {:induction false} JobStops(db: Db, commands: seq<Command>, j: nat, fault: Maybe<Fault>)
    requires j < |commands| && fault.Just? && Job(db, commands[..j + 1]).fault == fault
    ensures Job(db, commands) == Job(db, commands[..j + 1])
  {
    if j + 1 < |commands| {
      var n := |commands| - 1;
      assert commands[..n][..j + 1] == commands[..j + 1];
      JobStops(db, commands[..n], j, fault);
    } else {
      assert commands[..j + 1] == commands;
    }
  }
}
