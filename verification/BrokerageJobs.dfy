/** The jobs that walk over many rows: building a batch (`batches.service.ts`), expiring
    stale orders, settling due executions (`settlement.service.ts`). Each commits row by row
    and stops at the first fault. */
module BrokerageJobs {
  import opened Decimals
  import opened LedgerModel
  import opened OrderState
  import opened BrokerageModel
  import opened BrokerageBooks
  import opened BrokerageInvariant
  import opened BrokerageSteps
  import opened BrokerageDelivery
  import opened BrokerageTheorems
  import opened BrokerageLifecycle
  import opened BrokerageRuns
  import TradingDays

  /** Rows done so far; a fault stops the job, what was done stays. */
  datatype JobRun = JobRun(db: Db, done: nat, fault: Maybe<Fault>)

  ghost function JobStep(run: JobRun, c: Command): JobRun {
    if run.fault.Just? then run
    else match Apply(run.db, c)
      case Ok(db) => JobRun(db, run.done + 1, Nothing)
      case Err(f) => run.(fault := Just(f))
  }

  ghost function Job(db: Db, commands: seq<Command>): JobRun {
    if commands == [] then JobRun(db, 0, Nothing)
    else JobStep(Job(db, commands[..|commands| - 1]), commands[|commands| - 1])
  }

  lemma {:induction false} JobKeeps(db: Db, commands: seq<Command>)
    requires Inv(db) && GoodRun(commands)
    ensures Inv(Job(db, commands).db)
  {
    if commands != [] {
      var n := |commands| - 1;
      JobKeeps(db, commands[..n]);
      NextKeeps(Job(db, commands[..n]).db, commands[n]);
    }
  }

  // ----------------------------------------------------------------- queries

  /** PENDING orders routed to a partner, oldest first. */
  predicate PendingFor(o: Order, partner: string) {
    o.status == PENDING && !o.terms.simulated && o.terms.partnerId == Just(partner)
  }

  /** Of those, the ones whose client has, or lacks, an open account there. */
  function PendingIds(orders: seq<Order>, partner: string, accounts: set<string>, hasAccount: bool): seq<nat> {
    if orders == [] then []
    else
      var n := |orders| - 1;
      PendingIds(orders[..n], partner, accounts, hasAccount) +
      (if PendingFor(orders[n], partner) && (orders[n].terms.userId in accounts) == hasAccount then [n] else [])
  }

  /** The market each instrument is listed on. */
  type Listing = string -> TradingDays.Market

  predicate Stale(o: Order, markets: Listing, now: int) {
    && OpenAtSdb(o.status) && !o.terms.simulated && o.transmittedAt.Just?
    && TradingDays.IsExpired(markets(o.terms.instrumentId), o.transmittedAt.value, o.terms.sessions, now)
  }

  function StaleIds(orders: seq<Order>, markets: Listing, now: int): seq<nat> {
    if orders == [] then []
    else
      var n := |orders| - 1;
      StaleIds(orders[..n], markets, now) + (if Stale(orders[n], markets, now) then [n] else [])
  }

  /** Not delivered, and its settlement day has come; without one, three days after execution. */
  predicate Due(e: Exec, day: int) {
    && Undelivered(e)
    && if e.trade.settlementDay.Just? then e.trade.settlementDay.value <= day
       else e.trade.executedAt <= (day - 3) * TradingDays.MINUTES_PER_DAY
  }

  function DueIds(execs: seq<Exec>, day: int): seq<nat> {
    if execs == [] then []
    else
      var n := |execs| - 1;
      DueIds(execs[..n], day) + (if Due(execs[n], day) then [n] else [])
  }

  function Rejections(ids: seq<nat>): seq<Command> {
    seq(|ids|, j requires 0 <= j < |ids| => Reject(ids[j]))
  }

  function Expiries(ids: seq<nat>): seq<Command> {
    seq(|ids|, j requires 0 <= j < |ids| => Expire(ids[j]))
  }

  function Settlements(ids: seq<nat>): seq<Command> {
    seq(|ids|, j requires 0 <= j < |ids| => SettleExec(ids[j]))
  }

  function Transmissions(ids: seq<nat>, batch: nat, now: int): seq<Command> {
    seq(|ids|, j requires 0 <= j < |ids| => Send(ids[j], batch, now))
  }

  /** Every id of a query is a row that matches it, once. */
  predicate Distinct(ids: seq<nat>) {
    forall a, b :: 0 <= a < b < |ids| ==> ids[a] < ids[b]
  }

  lemma OneMoreId(ids: seq<nat>, n: nat, take: bool)
    requires Distinct(ids) && forall j :: 0 <= j < |ids| ==> ids[j] < n
    ensures var more := ids + (if take then [n] else []);
            && Distinct(more) && (forall j :: 0 <= j < |more| ==> more[j] < n + 1)
            && forall i :: i in more <==> i in ids || (take && i == n)
  {
  }

  lemma {:induction false} PendingIdsMatch(orders: seq<Order>, partner: string, accounts: set<string>, hasAccount: bool)
    ensures var ids := PendingIds(orders, partner, accounts, hasAccount);
            && Distinct(ids)
            && (forall j :: 0 <= j < |ids| ==> ids[j] < |orders|)
            && (forall i :: i in ids <==> 0 <= i < |orders| && PendingFor(orders[i], partner) &&
                                          (orders[i].terms.userId in accounts) == hasAccount)
  {
    if orders != [] {
      var n := |orders| - 1;
      PendingIdsMatch(orders[..n], partner, accounts, hasAccount);
      OneMoreId(PendingIds(orders[..n], partner, accounts, hasAccount), n,
                PendingFor(orders[n], partner) && (orders[n].terms.userId in accounts) == hasAccount);
    }
  }

  lemma {:induction false} StaleIdsMatch(orders: seq<Order>, markets: Listing, now: int)
    ensures var ids := StaleIds(orders, markets, now);
            && Distinct(ids)
            && (forall j :: 0 <= j < |ids| ==> ids[j] < |orders|)
            && (forall i :: i in ids <==> 0 <= i < |orders| && Stale(orders[i], markets, now))
  {
    if orders != [] {
      var n := |orders| - 1;
      StaleIdsMatch(orders[..n], markets, now);
      OneMoreId(StaleIds(orders[..n], markets, now), n, Stale(orders[n], markets, now));
    }
  }

  lemma {:induction false} DueIdsMatch(execs: seq<Exec>, day: int)
    ensures var ids := DueIds(execs, day);
            && Distinct(ids)
            && (forall j :: 0 <= j < |ids| ==> ids[j] < |execs|)
            && (forall k :: k in ids <==> 0 <= k < |execs| && Due(execs[k], day))
  {
    if execs != [] {
      var n := |execs| - 1;
      DueIdsMatch(execs[..n], day);
      OneMoreId(DueIds(execs[..n], day), n, Due(execs[n], day));
    }
  }

  // -------------------------------------------------------- closing many rows

  /** The rows named are closed and released, the others untouched. */
  predicate ClosedRows(db: Db, ids: seq<nat>, status: OrderStatus, after: Db) {
    && |after.orders| == |db.orders|
    && forall i :: 0 <= i < |db.orders| ==>
         after.orders[i] == if i in ids then db.orders[i].(status := status, released := true) else db.orders[i]
  }

  lemma CloseOne(db: Db, ids: seq<nat>, i: nat, before: Db, status: OrderStatus)
    requires Inv(before) && before.execs == db.execs && ClosedRows(db, ids, status, before)
    requires i < |db.orders| && i !in ids && !IsFinal(db.orders[i].status) && IsFinal(status) && status != EXECUTED
    ensures ExactRelease(db.orders[i].terms) ==> Close(before, i, status).Ok?
    ensures Close(before, i, status).Ok? ==>
      var after := Close(before, i, status).value;
      Inv(after) && after.execs == db.execs && ClosedRows(db, ids + [i], status, after)
  {
    CloseKeeps(before, i, status);
    if Close(before, i, status).Ok? { ClosedOneMore(db, ids, i, before, status, Close(before, i, status).value); }
  }

  lemma ClosedOneMore(db: Db, ids: seq<nat>, i: nat, before: Db, status: OrderStatus, after: Db)
    requires ClosedRows(db, ids, status, before) && i < |db.orders| && i !in ids
    requires after.orders == before.orders[i := before.orders[i].(status := status, released := true)]
    ensures ClosedRows(db, ids + [i], status, after)
  {
    assert forall j :: j in ids + [i] <==> j in ids || j == i;
  }

  lemma DistinctPrefix(ids: seq<nat>)
    requires Distinct(ids) && ids != []
    ensures var n := |ids| - 1; Distinct(ids[..n]) && ids[n] !in ids[..n] && ids[..n] + [ids[n]] == ids
  {
  }

  lemma JobAppend(db: Db, commands: seq<Command>, c: Command)
    ensures Job(db, commands + [c]) == JobStep(Job(db, commands), c)
  {
    assert (commands + [c])[..|commands|] == commands;
  }

  /** Rows closed one by one; only a purchase in a currency with decimals can stop the job. */
  ghost predicate ClosedBy(db: Db, ids: seq<nat>, status: OrderStatus, run: JobRun) {
    && Inv(run.db)
    && (run.fault == Nothing ==> run.db.execs == db.execs && ClosedRows(db, ids, status, run.db))
    && (AllExact(db, ids) ==> run.fault == Nothing)
  }

  predicate AllExact(db: Db, ids: seq<nat>) {
    forall j :: 0 <= j < |ids| ==> ids[j] < |db.orders| && ExactRelease(db.orders[ids[j]].terms)
  }

  /** What one more closing does to a job. */
  ghost predicate ClosingStep(run: JobRun, i: nat, status: OrderStatus, next: JobRun)
    requires run.fault == Nothing ==> i < |run.db.orders|
  {
    if run.fault.Just? then next == run
    else
      && (next.fault == Nothing <==> Close(run.db, i, status).Ok?)
      && next.db == if Close(run.db, i, status).Ok? then Close(run.db, i, status).value else run.db
  }

  lemma CloseNext(db: Db, ids: seq<nat>, i: nat, status: OrderStatus, run: JobRun, next: JobRun)
    requires ClosedBy(db, ids, status, run)
    requires i < |db.orders| && i !in ids && !IsFinal(db.orders[i].status) && IsFinal(status) && status != EXECUTED
    requires ClosingStep(run, i, status, next)
    ensures ClosedBy(db, ids + [i], status, next)
  {
    ExactPrefix(db, ids, i);
    if run.fault == Nothing { CloseOne(db, ids, i, run.db, status); }
  }

  lemma ExactPrefix(db: Db, ids: seq<nat>, i: nat)
    ensures AllExact(db, ids + [i]) ==> AllExact(db, ids) && i < |db.orders| && ExactRelease(db.orders[i].terms)
  {
    var all := ids + [i];
    assert all[|ids|] == i && forall j :: 0 <= j < |ids| ==> all[j] == ids[j];
  }

  predicate AllOpenAtSdb(db: Db, ids: seq<nat>) {
    forall j :: 0 <= j < |ids| ==>
      ids[j] < |db.orders| && OpenAtSdb(db.orders[ids[j]].status) && !db.orders[ids[j]].terms.simulated
  }

  predicate AllPending(db: Db, ids: seq<nat>) {
    forall j :: 0 <= j < |ids| ==>
      ids[j] < |db.orders| && db.orders[ids[j]].status == PENDING && !db.orders[ids[j]].terms.simulated
  }

  lemma ExpireNext(db: Db, ids: seq<nat>, i: nat, run: JobRun)
    requires run == Job(db, Expiries(ids))
    requires run.fault == Nothing ==> i < |run.db.orders| && OpenAtSdb(run.db.orders[i].status) && !run.db.orders[i].terms.simulated
    ensures ClosingStep(run, i, EXPIRED, Job(db, Expiries(ids + [i])))
  {
    assert Expiries(ids + [i]) == Expiries(ids) + [Expire(i)];
    JobAppend(db, Expiries(ids), Expire(i));
  }

  lemma {:induction false} ExpireAll(db: Db, ids: seq<nat>)
    requires Inv(db) && Distinct(ids) && AllOpenAtSdb(db, ids)
    ensures ClosedBy(db, ids, EXPIRED, Job(db, Expiries(ids)))
  {
    if ids != [] {
      var n := |ids| - 1;
      DistinctPrefix(ids);
      ExpireAll(db, ids[..n]);
      var run := Job(db, Expiries(ids[..n]));
      ExpireNext(db, ids[..n], ids[n], run);
      CloseNext(db, ids[..n], ids[n], EXPIRED, run, Job(db, Expiries(ids)));
    }
  }

  lemma RejectNext(db: Db, ids: seq<nat>, i: nat, run: JobRun)
    requires run == Job(db, Rejections(ids))
    requires run.fault == Nothing ==> i < |run.db.orders| && run.db.orders[i].status == PENDING && !run.db.orders[i].terms.simulated
    ensures ClosingStep(run, i, REJECTED, Job(db, Rejections(ids + [i])))
  {
    assert Rejections(ids + [i]) == Rejections(ids) + [Reject(i)];
    JobAppend(db, Rejections(ids), Reject(i));
  }

  lemma {:induction false} RejectAll(db: Db, ids: seq<nat>)
    requires Inv(db) && Distinct(ids) && AllPending(db, ids)
    ensures ClosedBy(db, ids, REJECTED, Job(db, Rejections(ids)))
  {
    if ids != [] {
      var n := |ids| - 1;
      DistinctPrefix(ids);
      RejectAll(db, ids[..n]);
      var run := Job(db, Rejections(ids[..n]));
      RejectNext(db, ids[..n], ids[n], run);
      CloseNext(db, ids[..n], ids[n], REJECTED, run, Job(db, Rejections(ids)));
    }
  }

  /** `expireStale` closes exactly the stale orders and hands their reserves back; it is never
      refused on sales, nor in currencies without decimals. */
  lemma ExpireStaleCompletes(db: Db, markets: Listing, now: int)
    requires Inv(db)
    ensures var run := Job(db, Expiries(StaleIds(db.orders, markets, now)));
            && Inv(run.db)
            && ((forall i :: 0 <= i < |db.orders| && Stale(db.orders[i], markets, now) ==> ExactRelease(db.orders[i].terms))
                  ==> run.fault == Nothing)
            && (run.fault == Nothing ==> |run.db.orders| == |db.orders|)
            && (run.fault == Nothing ==> forall i :: 0 <= i < |db.orders| ==>
                  run.db.orders[i] == if Stale(db.orders[i], markets, now)
                                      then db.orders[i].(status := EXPIRED, released := true) else db.orders[i])
  {
    StaleIdsMatch(db.orders, markets, now);
    var ids := StaleIds(db.orders, markets, now);
    forall j | 0 <= j < |ids| ensures Stale(db.orders[ids[j]], markets, now) { assert ids[j] in ids; }
    ExpireAll(db, ids);
  }

  // ------------------------------------------------------------- transmission

  function SentRow(o: Order, batch: nat, now: int): Order {
    o.(status := TRANSMITTED, batch := Just(batch), transmittedAt := Just(now))
  }

  predicate SentRows(db: Db, ids: seq<nat>, batch: nat, now: int, after: Db) {
    && after == db.(orders := after.orders) && |after.orders| == |db.orders|
    && forall i :: 0 <= i < |db.orders| ==>
         after.orders[i] == if i in ids then SentRow(db.orders[i], batch, now) else db.orders[i]
  }

  lemma SendOne(db: Db, ids: seq<nat>, i: nat, batch: nat, now: int, before: Db)
    requires SentRows(db, ids, batch, now, before) && i < |db.orders| && i !in ids
    requires db.orders[i].status == PENDING && !db.orders[i].terms.simulated
    ensures Transmit(before, i, batch, now).Ok? && SentRows(db, ids + [i], batch, now, Transmit(before, i, batch, now).value)
  {
    assert before.orders[i] == db.orders[i];
    assert forall j :: j in ids + [i] <==> j in ids || j == i;
  }

  lemma SendNext(db: Db, ids: seq<nat>, i: nat, batch: nat, now: int, run: JobRun)
    requires run == Job(db, Transmissions(ids, batch, now)) && run.fault == Nothing && Transmit(run.db, i, batch, now).Ok?
    ensures Job(db, Transmissions(ids + [i], batch, now)) == JobRun(Transmit(run.db, i, batch, now).value, run.done + 1, Nothing)
  {
    assert Transmissions(ids + [i], batch, now) == Transmissions(ids, batch, now) + [Send(i, batch, now)];
    JobAppend(db, Transmissions(ids, batch, now), Send(i, batch, now));
  }

  lemma {:induction false} SendAll(db: Db, ids: seq<nat>, batch: nat, now: int)
    requires Distinct(ids) && AllPending(db, ids)
    ensures var run := Job(db, Transmissions(ids, batch, now));
            run.fault == Nothing && SentRows(db, ids, batch, now, run.db)
  {
    if ids != [] {
      var n := |ids| - 1;
      DistinctPrefix(ids);
      SendAll(db, ids[..n], batch, now);
      var run := Job(db, Transmissions(ids[..n], batch, now));
      SendOne(db, ids[..n], ids[n], batch, now, run.db);
      SendNext(db, ids[..n], ids[n], batch, now, run);
    }
  }

  /** `buildBatch`: clients without an open account are rejected one by one; then, when any
      order is left, all of them are sent in one transaction. */
  ghost function BuildBatch(db: Db, partner: string, accounts: set<string>, batch: nat, now: int): JobRun {
    var run := Job(db, Rejections(PendingIds(db.orders, partner, accounts, false)));
    var lines := PendingIds(db.orders, partner, accounts, true);
    if run.fault.Just? then run
    else if lines == [] then run.(fault := Just(NotAllowed))
    else
      var sent := Job(run.db, Transmissions(lines, batch, now));
      if sent.fault.Just? then run.(fault := sent.fault) else sent
  }

  /** Where `buildBatch` leaves an order. */
  function BatchedRow(o: Order, partner: string, accounts: set<string>, batch: nat, now: int): Order {
    if !PendingFor(o, partner) then o
    else if o.terms.userId in accounts then SentRow(o, batch, now)
    else o.(status := REJECTED, released := true)
  }

  /** `buildBatch` is refused midway only by the release of a purchase in a currency with
      decimals. Otherwise no order is PENDING for the partner afterwards: each has been
      rejected, its reserve handed back, or is TRANSMITTED in the batch; no other order has
      moved; and it only fails when there was nothing to send. */
  lemma BuildBatchSplits(db: Db, partner: string, accounts: set<string>, batch: nat, now: int)
    requires Inv(db)
    ensures var rejections := Job(db, Rejections(PendingIds(db.orders, partner, accounts, false)));
            var run := BuildBatch(db, partner, accounts, batch, now);
            && Inv(run.db)
            && (ExactRejections(db, partner, accounts) ==> rejections.fault == Nothing)
            && (rejections.fault == Nothing ==>
                  && |run.db.orders| == |db.orders|
                  && (run.fault == Nothing <==>
                        exists i :: 0 <= i < |db.orders| && PendingFor(db.orders[i], partner) && db.orders[i].terms.userId in accounts)
                  && forall i :: 0 <= i < |db.orders| ==>
                       run.db.orders[i] == BatchedRow(db.orders[i], partner, accounts, batch, now))
  {
    BuildBatchRejects(db, partner, accounts);
    var rejected := Job(db, Rejections(PendingIds(db.orders, partner, accounts, false)));
    if rejected.fault == Nothing {
      BuildBatchSends(db, partner, accounts, batch, now, rejected.db);
      BuildBatchRows(db, partner, accounts, batch, now, rejected.db,
                     Job(rejected.db, Transmissions(PendingIds(db.orders, partner, accounts, true), batch, now)).db);
    }
  }

  /** The orders to reject release exactly. */
  predicate ExactRejections(db: Db, partner: string, accounts: set<string>) {
    forall i :: 0 <= i < |db.orders| && PendingFor(db.orders[i], partner) && db.orders[i].terms.userId !in accounts ==>
      ExactRelease(db.orders[i].terms)
  }

  lemma BuildBatchRows(db: Db, partner: string, accounts: set<string>, batch: nat, now: int, rejected: Db, sent: Db)
    requires RejectedRows(db, partner, accounts, rejected)
    requires SentRows(rejected, PendingIds(db.orders, partner, accounts, true), batch, now, sent)
    ensures var lines := PendingIds(db.orders, partner, accounts, true);
            && |sent.orders| == |db.orders| == |rejected.orders|
            && (lines != [] <==>
                  exists i :: 0 <= i < |db.orders| && PendingFor(db.orders[i], partner) && db.orders[i].terms.userId in accounts)
            && (forall i :: 0 <= i < |db.orders| ==>
                  sent.orders[i] == BatchedRow(db.orders[i], partner, accounts, batch, now))
            && (lines == [] ==> forall i :: 0 <= i < |db.orders| ==>
                  rejected.orders[i] == BatchedRow(db.orders[i], partner, accounts, batch, now))
  {
    var lines := PendingIds(db.orders, partner, accounts, true);
    PendingIdsMatch(db.orders, partner, accounts, true);
    if lines != [] { assert lines[0] in lines; }
  }

  predicate RejectedRows(db: Db, partner: string, accounts: set<string>, after: Db) {
    && |after.orders| == |db.orders|
    && forall i :: 0 <= i < |db.orders| ==>
         after.orders[i] == if PendingFor(db.orders[i], partner) && db.orders[i].terms.userId !in accounts
                            then db.orders[i].(status := REJECTED, released := true) else db.orders[i]
  }

  lemma BuildBatchRejects(db: Db, partner: string, accounts: set<string>)
    requires Inv(db)
    ensures var run := Job(db, Rejections(PendingIds(db.orders, partner, accounts, false)));
            && Inv(run.db)
            && (ExactRejections(db, partner, accounts) ==> run.fault == Nothing)
            && (run.fault == Nothing ==> RejectedRows(db, partner, accounts, run.db))
  {
    var ids := PendingIds(db.orders, partner, accounts, false);
    PendingIdsMatch(db.orders, partner, accounts, false);
    forall j | 0 <= j < |ids|
      ensures PendingFor(db.orders[ids[j]], partner) && db.orders[ids[j]].terms.userId !in accounts
    {
      assert ids[j] in ids;
    }
    RejectAll(db, ids);
  }

  lemma BuildBatchSends(db: Db, partner: string, accounts: set<string>, batch: nat, now: int, rejected: Db)
    requires Inv(rejected) && RejectedRows(db, partner, accounts, rejected)
    ensures var ids := PendingIds(db.orders, partner, accounts, true);
            var sent := Job(rejected, Transmissions(ids, batch, now));
            sent.fault == Nothing && Inv(sent.db) && SentRows(rejected, ids, batch, now, sent.db)
  {
    var ids := PendingIds(db.orders, partner, accounts, true);
    PendingIdsMatch(db.orders, partner, accounts, true);
    forall j | 0 <= j < |ids| ensures rejected.orders[ids[j]] == db.orders[ids[j]] && PendingFor(db.orders[ids[j]], partner) {
      assert ids[j] in ids;
    }
    SendAll(rejected, ids, batch, now);
    SendsAreGood(ids, batch, now);
    JobKeeps(rejected, Transmissions(ids, batch, now));
  }

  lemma SendsAreGood(ids: seq<nat>, batch: nat, now: int)
    ensures GoodRun(Transmissions(ids, batch, now))
  {
  }

  // --------------------------------------------------------------- settlement

  predicate SettledRows(db: Db, ids: seq<nat>, after: Db) {
    && after.orders == db.orders && |after.execs| == |db.execs|
    && forall k :: 0 <= k < |db.execs| ==>
         if k in ids then after.execs[k] == SettledRow(db, k, after.execs[k].settlementTxn)
         else after.execs[k] == db.execs[k]
  }

  lemma SettleOne(db: Db, ids: seq<nat>, k: nat, before: Db)
    requires Inv(before) && SettledRows(db, ids, before)
    requires k < |db.execs| && k !in ids && Undelivered(db.execs[k]) && NetsNonNegative(db)
    ensures Settle(before, k).Ok? && Inv(Settle(before, k).value) && SettledRows(db, ids + [k], Settle(before, k).value)
  {
    CoreRefs(before);
    SettledNets(db, ids, before);
    SettlementNeverRefused(before, k);
    SettleKeeps(before, k);
    SettledTables(before, k, Settle(before, k).value);
    SettledOneMore(db, ids, k, before, Settle(before, k).value);
  }

  lemma SettledNets(db: Db, ids: seq<nat>, after: Db)
    requires SettledRows(db, ids, after) && NetsNonNegative(db)
    ensures NetsNonNegative(after)
  {
    forall j | 0 <= j < |after.execs| ensures after.execs[j].trade == db.execs[j].trade {}
  }

  lemma SettledOneMore(db: Db, ids: seq<nat>, k: nat, before: Db, after: Db)
    requires SettledRows(db, ids, before) && k < |db.execs| && k !in ids && after.orders == before.orders
    requires |after.execs| == |before.execs| && after.execs == before.execs[k := after.execs[k]]
    requires after.execs[k] == SettledRow(before, k, after.execs[k].settlementTxn)
    ensures SettledRows(db, ids + [k], after)
  {
    assert forall j :: j in ids + [k] <==> j in ids || j == k;
  }

  lemma SettledTables(db: Db, k: nat, after: Db)
    requires Core(db) && Awaited(db, k) && Settle(db, k) == Ok(after)
    ensures after.orders == db.orders && |after.execs| == |db.execs| && after.execs == db.execs[k := SettledRow(db, k, after.execs[k].settlementTxn)]
  {
    if TermsOf(db, k).side == SELL { SettleSellKeeps(db, k); } else { SettleBuyKeeps(db, k); }
  }

  predicate AllUndelivered(db: Db, ids: seq<nat>) {
    forall j :: 0 <= j < |ids| ==> ids[j] < |db.execs| && Undelivered(db.execs[ids[j]])
  }

  ghost predicate SettledBy(db: Db, ids: seq<nat>, run: JobRun) {
    run.fault == Nothing && Inv(run.db) && SettledRows(db, ids, run.db)
  }

  lemma SettleNext(db: Db, ids: seq<nat>, k: nat, run: JobRun)
    requires run == Job(db, Settlements(ids)) && run.fault == Nothing && Settle(run.db, k).Ok?
    ensures Job(db, Settlements(ids + [k])) == JobRun(Settle(run.db, k).value, run.done + 1, Nothing)
  {
    assert Settlements(ids + [k]) == Settlements(ids) + [SettleExec(k)];
    JobAppend(db, Settlements(ids), SettleExec(k));
  }

  lemma {:induction false} SettleAll(db: Db, ids: seq<nat>)
    requires Inv(db) && NetsNonNegative(db) && Distinct(ids) && AllUndelivered(db, ids)
    ensures SettledBy(db, ids, Job(db, Settlements(ids)))
  {
    if ids != [] {
      var n := |ids| - 1;
      DistinctPrefix(ids);
      SettleAll(db, ids[..n]);
      var run := Job(db, Settlements(ids[..n]));
      SettleOne(db, ids[..n], ids[n], run.db);
      SettleNext(db, ids[..n], ids[n], run);
    }
  }

  /** `settleDue` delivers exactly the executions that are due and, proceeds not being
      negative, is never refused. */
  lemma SettleDueCompletes(db: Db, day: int)
    requires Inv(db) && NetsNonNegative(db)
    ensures var run := Job(db, Settlements(DueIds(db.execs, day)));
            && run.fault == Nothing && Inv(run.db) && run.db.orders == db.orders && |run.db.execs| == |db.execs|
            && forall k :: 0 <= k < |db.execs| ==>
                 if Due(db.execs[k], day) then run.db.execs[k] == SettledRow(db, k, run.db.execs[k].settlementTxn)
                 else run.db.execs[k] == db.execs[k]
  {
    DueIdsMatch(db.execs, day);
    var ids := DueIds(db.execs, day);
    forall j | 0 <= j < |ids| ensures Due(db.execs[ids[j]], day) { assert ids[j] in ids; }
    SettleAll(db, ids);
  }
}
