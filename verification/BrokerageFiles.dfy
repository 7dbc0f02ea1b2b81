/** The SDB's files, line by line (`src/modules/brokerage/batches.service.ts`): ACK files
    against the orders read with them, EXE files with their duplicates. */
module BrokerageFiles {
  import opened Decimals
  import opened LedgerModel
  import opened OrderState
  import opened BrokerageModel
  import opened BrokerageBooks
  import opened BrokerageInvariant
  import opened BrokerageSteps
  import opened BrokerageDelivery
  import opened BrokerageTheorems
  import opened BrokerageLifecycle
  import opened BrokerageFills
  import opened BrokerageRuns

  predicate InBatch(orders: seq<Order>, order: nat, batch: nat) {
    order < |orders| && orders[order].batch == Just(batch)
  }

  // --------------------------------------------------------------------- ack

  datatype AckLine = AckLine(order: nat, accepted: bool)

  /** The database and the summary; a fault stops the file, what was done stays. */
  datatype AckRun = AckRun(db: Db, accepted: seq<nat>, rejected: seq<nat>, ignored: seq<nat>, fault: Maybe<Fault>)

  /** One line, against the orders as they were read before the first line. */
  ghost function AckStep(run: AckRun, snapshot: seq<Order>, batch: nat, line: AckLine): AckRun {
    if run.fault.Just? then run
    else if !InBatch(snapshot, line.order, batch) then run.(ignored := run.ignored + [line.order])
    else
      var seen := snapshot[line.order].status;
      if line.accepted then
        if seen != TRANSMITTED then run
        else match BrokerageModel.AckLine(run.db, line.order, true, seen)
          case Err(f) => run.(fault := Just(f))
          case Ok(db) => run.(db := db, accepted := run.accepted + [line.order])
      else if seen != TRANSMITTED && seen != ACKNOWLEDGED then run
      else match BrokerageModel.AckLine(run.db, line.order, false, seen)
        case Err(f) => run.(fault := Just(f))
        case Ok(db) => run.(db := db, rejected := run.rejected + [line.order])
  }

  /** `processAck`. */
  ghost function AckFile(db: Db, batch: nat, lines: seq<AckLine>): AckRun {
    if lines == [] then AckRun(db, [], [], [], Nothing)
    else AckStep(AckFile(db, batch, lines[..|lines| - 1]), db.orders, batch, lines[|lines| - 1])
  }

  /** What a file does to the row of one order of its batch. */
  function AckedRow(o: Order, lines: seq<AckLine>, i: nat): Order {
    if lines == [] then o
    else
      var row := AckedRow(o, lines[..|lines| - 1], i);
      var line := lines[|lines| - 1];
      if line.order != i then row
      else if line.accepted then if o.status == TRANSMITTED then row.(status := ACKNOWLEDGED) else row
      else if (o.status == TRANSMITTED || o.status == ACKNOWLEDGED) && row.status == o.status
      then row.(status := REJECTED, released := true) else row
  }

  lemma {:induction false} AckedRowShape(o: Order, lines: seq<AckLine>, i: nat)
    ensures var row := AckedRow(o, lines, i);
            && row == o.(status := row.status, released := row.released)
            && (row.status == o.status ==> row == o)
            && (row != o ==> o.status in {TRANSMITTED, ACKNOWLEDGED})
  {
    if lines != [] { AckedRowShape(o, lines[..|lines| - 1], i); }
  }

  /** The rows after a file: each order of the batch moved by its own lines, the others kept. */
  predicate AckedRows(db: Db, batch: nat, lines: seq<AckLine>, after: Db) {
    && |after.orders| == |db.orders|
    && forall i :: 0 <= i < |db.orders| ==>
         after.orders[i] == if InBatch(db.orders, i, batch) then AckedRow(db.orders[i], lines, i) else db.orders[i]
  }

  lemma ResetStatus(db: Db, i: nat, status: OrderStatus)
    requires Core(db) && i < |db.orders|
    ensures Core(SetStatus(db, i, status))
  {
    IdleRowKeeps(db, i, db.orders[i].(status := status));
  }

  lemma CloseUnreleased(db: Db, i: nat, status: OrderStatus)
    requires Releasable(db, i)
    ensures ExactRelease(db.orders[i].terms) ==> Close(db, i, status).Ok?
    ensures Close(db, i, status).Ok? ==>
      var after := Close(db, i, status).value;
      && Core(after) && after.execs == db.execs && after.intents == db.intents
      && after.orders == db.orders[i := db.orders[i].(status := status, released := true)]
  {
    ResetStatus(db, i, status);
    ReleaseKeeps(SetStatus(db, i, status), i);
  }

  /** A row of the batch that the file has not moved yet can still be released. */
  lemma UnmovedIsReleasable(start: Db, db: Db, i: nat)
    requires Inv(start) && Core(db) && i < |db.orders| && |db.orders| == |start.orders|
    requires db.orders[i] == start.orders[i] && db.execs == start.execs
    requires start.orders[i].status in {TRANSMITTED, ACKNOWLEDGED}
    ensures Releasable(db, i)
  {
    assert StatusOk(start.orders[i]);
  }

  /** The tables after the lines that were processed. */
  ghost predicate AckDone(db: Db, batch: nat, lines: seq<AckLine>, after: Db) {
    Core(after) && after.execs == db.execs && after.intents == db.intents && AckedRows(db, batch, lines, after)
  }

  lemma AckStepRows(db: Db, run: AckRun, batch: nat, lines: seq<AckLine>, line: AckLine)
    requires Inv(db) && AckDone(db, batch, lines, run.db) && run.fault == Nothing
    ensures var next := AckStep(run, db.orders, batch, line);
            && (next.fault.Nothing? ==> AckDone(db, batch, lines + [line], next.db))
            && (next.fault.Just? ==> next == run.(fault := next.fault))
            && (InBatch(db.orders, line.order, batch) && ExactRelease(db.orders[line.order].terms) ==> next.fault.Nothing?)
  {
    assert (lines + [line])[..|lines|] == lines;
    if InBatch(db.orders, line.order, batch) {
      var i := line.order;
      var o := db.orders[i];
      AckedRowShape(o, lines, i);
      if line.accepted && o.status == TRANSMITTED {
        ResetStatus(run.db, i, ACKNOWLEDGED);
      } else if !line.accepted && o.status in {TRANSMITTED, ACKNOWLEDGED} && run.db.orders[i].status == o.status {
        UnmovedIsReleasable(db, run.db, i);
        CloseUnreleased(run.db, i, REJECTED);
      }
    }
  }

  /** How many lines a file got through: all of them, unless a release was refused. */
  ghost function Processed(db: Db, batch: nat, lines: seq<AckLine>): (n: nat)
    ensures n <= |lines|
  {
    if lines == [] then 0
    else if AckFile(db, batch, lines).fault.Nothing? then |lines|
    else Processed(db, batch, lines[..|lines| - 1])
  }

  /** The file as far as it was processed. */
  ghost function Read(db: Db, batch: nat, lines: seq<AckLine>): seq<AckLine> {
    lines[..Processed(db, batch, lines)]
  }

  /** A file up to its last line, and that line. */
  lemma AckFileNext(db: Db, batch: nat, lines: seq<AckLine>)
    requires lines != []
    ensures var n := |lines| - 1;
            var run := AckFile(db, batch, lines[..n]);
            && lines[..n] + [lines[n]] == lines
            && AckFile(db, batch, lines) == AckStep(run, db.orders, batch, lines[n])
            && (run.fault.Nothing? ==> Read(db, batch, lines[..n]) == lines[..n])
            && (AckFile(db, batch, lines).fault.Nothing? ==> Read(db, batch, lines) == lines)
            && (AckFile(db, batch, lines).fault.Just? ==> Read(db, batch, lines) == Read(db, batch, lines[..n]))
  {
    var n := |lines| - 1;
    var m := Processed(db, batch, lines[..n]);
    assert lines[..n][..m] == lines[..m];
  }

  /** `processAck` moves each order by its own lines only, as far as it is processed. */
  lemma {:induction false} AckFileRows(db: Db, batch: nat, lines: seq<AckLine>)
    requires Inv(db)
    ensures AckDone(db, batch, Read(db, batch, lines), AckFile(db, batch, lines).db)
  {
    if lines != [] {
      var n := |lines| - 1;
      AckFileRows(db, batch, lines[..n]);
      AckFileNext(db, batch, lines);
      var run := AckFile(db, batch, lines[..n]);
      if run.fault.Nothing? { AckStepRows(db, run, batch, lines[..n], lines[n]); }
    }
  }

  /** Only a purchase in a currency with decimals can stop a file: else it is processed whole. */
  lemma {:induction false} AckFileCompletes(db: Db, batch: nat, lines: seq<AckLine>)
    requires Inv(db)
    requires forall i :: 0 <= i < |db.orders| && InBatch(db.orders, i, batch) ==> ExactRelease(db.orders[i].terms)
    ensures AckFile(db, batch, lines).fault == Nothing && Read(db, batch, lines) == lines
  {
    if lines != [] {
      var n := |lines| - 1;
      AckFileCompletes(db, batch, lines[..n]);
      AckFileRows(db, batch, lines[..n]);
      AckFileNext(db, batch, lines);
      AckStepRows(db, AckFile(db, batch, lines[..n]), batch, lines[..n], lines[n]);
    }
  }

  /** The first line for an order is REJECTED and a later one ACCEPTED. */
  predicate RejectedThenAccepted(lines: seq<AckLine>, i: nat) {
    exists a, b :: 0 <= a < b < |lines| && lines[a] == AckLine(i, false) && lines[b] == AckLine(i, true) &&
                   FirstFor(lines, i, a)
  }

  predicate FirstFor(lines: seq<AckLine>, i: nat, a: nat)
    requires a < |lines|
  {
    forall j :: 0 <= j < a ==> lines[j].order != i
  }

  /** The first line for an order is REJECTED. */
  predicate RejectedFirst(lines: seq<AckLine>, i: nat) {
    exists a :: 0 <= a < |lines| && lines[a] == AckLine(i, false) && FirstFor(lines, i, a)
  }

  predicate Accepts(lines: seq<AckLine>, i: nat) {
    AckLine(i, true) in lines
  }

  predicate Rejects(lines: seq<AckLine>, i: nat) {
    AckLine(i, false) in lines
  }

  lemma FirstForExtends(lines: seq<AckLine>, line: AckLine, i: nat, a: nat)
    requires a < |lines|
    ensures FirstFor(lines + [line], i, a) <==> FirstFor(lines, i, a)
  {
    var all := lines + [line];
    assert all[..a] == lines[..a] && forall j :: 0 <= j < a ==> all[j] == lines[j];
  }

  /** A line is the first for its order when none before names it. */
  lemma FirstOfAll(lines: seq<AckLine>, line: AckLine, i: nat)
    ensures FirstFor(lines + [line], i, |lines|) <==> !Accepts(lines, i) && !Rejects(lines, i)
  {
    var all := lines + [line];
    assert forall j :: 0 <= j < |lines| ==> all[j] == lines[j];
    if !FirstFor(all, i, |lines|) {
      var j :| 0 <= j < |lines| && all[j].order == i;
      assert lines[j] == AckLine(i, lines[j].accepted);
    }
  }

  lemma RejectedFirstLast(lines: seq<AckLine>, line: AckLine, i: nat)
    ensures RejectedFirst(lines + [line], i) <==>
      RejectedFirst(lines, i) || (!Accepts(lines, i) && !Rejects(lines, i) && line == AckLine(i, false))
  {
    var all, n := lines + [line], |lines|;
    assert all[n] == line;
    FirstOfAll(lines, line, i);
    if RejectedFirst(lines, i) {
      var a :| 0 <= a < n && lines[a] == AckLine(i, false) && FirstFor(lines, i, a);
      FirstForExtends(lines, line, i, a);
      assert all[a] == AckLine(i, false);
    }
    if RejectedFirst(all, i) {
      var a :| 0 <= a < |all| && all[a] == AckLine(i, false) && FirstFor(all, i, a);
      if a < n {
        FirstForExtends(lines, line, i, a);
        assert lines[a] == all[a];
      }
    }
  }

  /** Where a transmitted order ends after a file: acknowledged as soon as one line accepts
      it, else rejected; its reserve released exactly when its first line rejects it. */
  lemma {:induction false} TransmittedEnds(o: Order, lines: seq<AckLine>, i: nat)
    requires o.status == TRANSMITTED && !o.released
    ensures var row := AckedRow(o, lines, i);
            && row.status == (if Accepts(lines, i) then ACKNOWLEDGED
                              else if Rejects(lines, i) then REJECTED else TRANSMITTED)
            && (row.released <==> RejectedFirst(lines, i))
  {
    if lines != [] {
      var n := |lines| - 1;
      TransmittedEnds(o, lines[..n], i);
      assert lines[..n] + [lines[n]] == lines;
      RejectedFirstLast(lines[..n], lines[n], i);
    }
  }

  lemma {:induction false} AcknowledgedEnds(o: Order, lines: seq<AckLine>, i: nat)
    requires o.status == ACKNOWLEDGED
    ensures AckedRow(o, lines, i) == if Rejects(lines, i) then o.(status := REJECTED, released := true) else o
  {
    if lines != [] {
      var n := |lines| - 1;
      AcknowledgedEnds(o, lines[..n], i);
      assert lines[..n] + [lines[n]] == lines;
    }
  }

  lemma RejectedThenAcceptedSplits(lines: seq<AckLine>, i: nat)
    ensures RejectedThenAccepted(lines, i) <==> RejectedFirst(lines, i) && Accepts(lines, i)
  {
    if RejectedFirst(lines, i) && Accepts(lines, i) {
      var a :| 0 <= a < |lines| && lines[a] == AckLine(i, false) && FirstFor(lines, i, a);
      var b :| 0 <= b < |lines| && lines[b] == AckLine(i, true);
      assert a < b;
    }
  }

  /** A file reopens an order when it is read as TRANSMITTED, rejected first, accepted later. */
  predicate Reopens(db: Db, batch: nat, lines: seq<AckLine>, i: nat) {
    InBatch(db.orders, i, batch) && db.orders[i].status == TRANSMITTED && RejectedThenAccepted(lines, i)
  }

  lemma AckedRowSound(o: Order, lines: seq<AckLine>, i: nat)
    requires StatusOk(o) && o.terms.quantity > 0
    ensures var row := AckedRow(o, lines, i);
            var reopened := o.status == TRANSMITTED && RejectedThenAccepted(lines, i);
            && (StatusOk(row) <==> !reopened)
            && (!IsFinal(row.status) ==> !IsFinal(o.status))
            && (reopened ==> row.status == ACKNOWLEDGED && row.released)
  {
    AckedRowShape(o, lines, i);
    if o.status == TRANSMITTED {
      TransmittedEnds(o, lines, i);
      RejectedThenAcceptedSplits(lines, i);
    } else if o.status == ACKNOWLEDGED {
      AcknowledgedEnds(o, lines, i);
    }
  }

  /** An ACK file keeps the invariant if and only if it reopens no order; an order it reopens
      is ACKNOWLEDGED again although its reserve was handed back. */
  lemma AckFileKeepsIff(db: Db, batch: nat, lines: seq<AckLine>)
    requires Inv(db)
    ensures var read := Read(db, batch, lines);
      var after := AckFile(db, batch, lines).db;
      && (Inv(after) <==> forall i :: 0 <= i < |db.orders| ==> !Reopens(db, batch, read, i))
      && forall i :: 0 <= i < |db.orders| && Reopens(db, batch, read, i) ==>
           i < |after.orders| && after.orders[i].status == ACKNOWLEDGED && after.orders[i].released
  {
    AckFileRows(db, batch, lines);
    var read := Read(db, batch, lines);
    var after := AckFile(db, batch, lines).db;
    forall i | 0 <= i < |db.orders|
      ensures StatusOk(after.orders[i]) <==> !Reopens(db, batch, read, i)
      ensures !IsFinal(after.orders[i].status) ==> Clean(after.execs, i)
      ensures Reopens(db, batch, read, i) ==> after.orders[i].status == ACKNOWLEDGED && after.orders[i].released
    {
      assert StatusOk(db.orders[i]);
      assert OrderFits(db.orders, db.execs, i);
      if InBatch(db.orders, i, batch) { AckedRowSound(db.orders[i], read, i); }
    }
  }

  /** In particular a file with at most one line per order keeps it. */
  lemma OneLinePerOrderKeeps(db: Db, batch: nat, lines: seq<AckLine>)
    requires Inv(db)
    requires forall a, b :: 0 <= a < b < |lines| ==> lines[a].order != lines[b].order
    ensures Inv(AckFile(db, batch, lines).db)
  {
    AckFileKeepsIff(db, batch, lines);
    var read := Read(db, batch, lines);
    assert forall j :: 0 <= j < |read| ==> read[j] == lines[j];
  }

  // ----------------------------------------------------------- the ack summary

  /** The lists name the orders of the batch whose line met a status it may change. */
  ghost predicate Listed(orders: seq<Order>, batch: nat, lines: seq<AckLine>, run: AckRun) {
    && (forall i: nat :: i in run.accepted <==>
          InBatch(orders, i, batch) && orders[i].status == TRANSMITTED && Accepts(lines, i))
    && (forall i: nat :: i in run.rejected <==>
          InBatch(orders, i, batch) && orders[i].status in {TRANSMITTED, ACKNOWLEDGED} && Rejects(lines, i))
  }

  lemma ListedStep(orders: seq<Order>, batch: nat, lines: seq<AckLine>, line: AckLine, run: AckRun)
    requires Listed(orders, batch, lines, run) && run.fault.Nothing?
    requires AckStep(run, orders, batch, line).fault.Nothing?
    ensures Listed(orders, batch, lines + [line], AckStep(run, orders, batch, line))
  {
  }

  lemma {:induction false} AckFileLists(db: Db, batch: nat, lines: seq<AckLine>)
    requires Inv(db)
    ensures Listed(db.orders, batch, Read(db, batch, lines), AckFile(db, batch, lines))
  {
    if lines != [] {
      var n := |lines| - 1;
      AckFileLists(db, batch, lines[..n]);
      AckFileRows(db, batch, lines[..n]);
      AckFileNext(db, batch, lines);
      var run := AckFile(db, batch, lines[..n]);
      if run.fault.Nothing? {
        AckStepRows(db, run, batch, lines[..n], lines[n]);
        if AckFile(db, batch, lines).fault.Nothing? { ListedStep(db.orders, batch, lines[..n], lines[n], run); }
      }
    }
  }

  /** An order read as TRANSMITTED that the file both accepts and rejects. */
  predicate Contradicts(db: Db, batch: nat, lines: seq<AckLine>, i: nat) {
    InBatch(db.orders, i, batch) && db.orders[i].status == TRANSMITTED && Accepts(lines, i) && Rejects(lines, i)
  }

  /** What the summary says is what the table holds. */
  predicate SummaryTrue(run: AckRun) {
    && (forall i :: i in run.accepted ==> i < |run.db.orders| && run.db.orders[i].status == ACKNOWLEDGED)
    && (forall i :: i in run.rejected ==> i < |run.db.orders| && run.db.orders[i].status == REJECTED)
  }

  lemma RowsMatchLists(db: Db, batch: nat, lines: seq<AckLine>, run: AckRun, i: nat)
    requires Inv(db) && AckedRows(db, batch, lines, run.db) && Listed(db.orders, batch, lines, run)
    ensures i in run.accepted ==> i < |run.db.orders| && run.db.orders[i].status == ACKNOWLEDGED
    ensures i in run.rejected ==>
      i < |run.db.orders| && (run.db.orders[i].status == REJECTED <==> !Contradicts(db, batch, lines, i))
    ensures Contradicts(db, batch, lines, i) ==> i in run.rejected
  {
    if InBatch(db.orders, i, batch) {
      assert StatusOk(db.orders[i]);
      if db.orders[i].status == TRANSMITTED { TransmittedEnds(db.orders[i], lines, i); }
      if db.orders[i].status == ACKNOWLEDGED { AcknowledgedEnds(db.orders[i], lines, i); }
    }
  }

  /** The summary of an ACK file is true of the table it leaves, every accepted order
      ACKNOWLEDGED and every rejected one REJECTED, if and only if no order of the batch read
      as TRANSMITTED has both an ACCEPTED and a REJECTED line. */
  lemma AckSummaryTrueIff(db: Db, batch: nat, lines: seq<AckLine>)
    requires Inv(db)
    ensures SummaryTrue(AckFile(db, batch, lines)) <==>
      forall i: nat :: !Contradicts(db, batch, Read(db, batch, lines), i)
  {
    AckFileRows(db, batch, lines);
    AckFileLists(db, batch, lines);
    var run, read := AckFile(db, batch, lines), Read(db, batch, lines);
    forall i: nat
      ensures i in run.accepted ==> i < |run.db.orders| && run.db.orders[i].status == ACKNOWLEDGED
      ensures i in run.rejected ==>
        i < |run.db.orders| && (run.db.orders[i].status == REJECTED <==> !Contradicts(db, batch, read, i))
      ensures Contradicts(db, batch, read, i) ==> i in run.rejected
    {
      RowsMatchLists(db, batch, read, run, i);
    }
  }

  /** A REJECTED line that comes after an ACCEPTED one changes nothing, yet the summary lists
      the order as rejected. */
  lemma LateRejectionIsReportedOnly(db: Db, batch: nat, i: nat)
    requires Inv(db) && InBatch(db.orders, i, batch) && db.orders[i].status == TRANSMITTED
    ensures var run := AckFile(db, batch, [AckLine(i, true), AckLine(i, false)]);
            && run.accepted == [i] && run.rejected == [i] && run.fault == Nothing
            && run.db == SetStatus(db, i, ACKNOWLEDGED)
  {
    var lines := [AckLine(i, true), AckLine(i, false)];
    assert lines[..1] == [AckLine(i, true)] && lines[..1][..0] == [];
    assert AckFile(db, batch, []) == AckRun(db, [], [], [], Nothing);
    assert AckFile(db, batch, lines[..1]) == AckRun(SetStatus(db, i, ACKNOWLEDGED), [i], [], [], Nothing);
  }

  /** An ACCEPTED line that comes after a REJECTED one reopens the order: ACKNOWLEDGED, its
      reserve handed back, and in both lists. */
  lemma LateAcceptanceReopens(db: Db, batch: nat, i: nat)
    requires Inv(db) && InBatch(db.orders, i, batch) && db.orders[i].status == TRANSMITTED
    requires ExactRelease(db.orders[i].terms)
    ensures var run := AckFile(db, batch, [AckLine(i, false), AckLine(i, true)]);
            && run.accepted == [i] && run.rejected == [i] && run.fault == Nothing && !Inv(run.db)
            && i < |run.db.orders| && run.db.orders[i].status == ACKNOWLEDGED && run.db.orders[i].released
  {
    var lines := [AckLine(i, false), AckLine(i, true)];
    assert lines[..1] == [AckLine(i, false)] && lines[..1][..0] == [];
    assert AckFile(db, batch, []) == AckRun(db, [], [], [], Nothing);
    CloseKeeps(db, i, REJECTED);
    var closed := Close(db, i, REJECTED).value;
    assert AckFile(db, batch, lines[..1]) == AckRun(closed, [], [i], [], Nothing);
    assert AckFile(db, batch, lines) == AckRun(SetStatus(closed, i, ACKNOWLEDGED), [i], [i], [], Nothing);
    assert !StatusOk(SetStatus(closed, i, ACKNOWLEDGED).orders[i]);
  }

  // --------------------------------------------------------------------- exe

  datatype ExeLine = Unfilled(order: nat) | Fill(trade: Trade)

  function OrderOf(line: ExeLine): nat {
    match line
    case Unfilled(order) => order
    case Fill(trade) => trade.order
  }

  datatype ExeRun = ExeRun(db: Db, executions: seq<nat>, unfilled: seq<nat>, ignored: seq<nat>,
                           duplicates: seq<nat>, fault: Maybe<Fault>)

  ghost function ExeStep(run: ExeRun, batch: nat, line: ExeLine): ExeRun {
    if run.fault.Just? then run
    else if !InBatch(run.db.orders, OrderOf(line), batch) then run.(ignored := run.ignored + [OrderOf(line)])
    else match line
      case Unfilled(order) => run.(unfilled := run.unfilled + [order])
      case Fill(t) =>
        var known := FindExec(run.db.execs, t.ref);
        if known.Just? then run.(duplicates := run.duplicates + [known.value])
        else match ApplyExecution(run.db, t)
          case Err(f) => run.(fault := Just(f))
          case Ok(db) => run.(db := db, executions := run.executions + [|run.db.execs|])
  }

  ghost function ExeFrom(run: ExeRun, batch: nat, lines: seq<ExeLine>): ExeRun {
    if lines == [] then run
    else ExeStep(ExeFrom(run, batch, lines[..|lines| - 1]), batch, lines[|lines| - 1])
  }

  /** `processExecutions`: the file stops at the first line that is refused. */
  ghost function ExeFile(db: Db, batch: nat, lines: seq<ExeLine>): ExeRun {
    ExeFrom(ExeRun(db, [], [], [], [], Nothing), batch, lines)
  }

  lemma {:induction false} ExeSplits(run: ExeRun, batch: nat, xs: seq<ExeLine>, ys: seq<ExeLine>)
    ensures ExeFrom(run, batch, xs + ys) == ExeFrom(ExeFrom(run, batch, xs), batch, ys)
    decreases |ys|
  {
    if ys == [] {
      assert xs + ys == xs;
    } else {
      var n := |ys| - 1;
      ExeSplits(run, batch, xs, ys[..n]);
      assert (xs + ys)[..|xs + ys| - 1] == xs + ys[..n];
    }
  }

  /** A faulted run goes no further. */
  lemma {:induction false} FaultStops(run: ExeRun, batch: nat, lines: seq<ExeLine>)
    requires run.fault.Just?
    ensures ExeFrom(run, batch, lines) == run
  {
    if lines != [] { FaultStops(run, batch, lines[..|lines| - 1]); }
  }

  /** A file keeps the invariant, whatever it contains. */
  lemma {:induction false} ExeFileKeeps(db: Db, batch: nat, lines: seq<ExeLine>)
    requires Inv(db)
    ensures Inv(ExeFile(db, batch, lines).db)
  {
    if lines != [] {
      var n := |lines| - 1;
      ExeFileKeeps(db, batch, lines[..n]);
      var run := ExeFile(db, batch, lines[..n]);
      if run.fault.Nothing? && lines[n].Fill? && ApplyExecution(run.db, lines[n].trade).Ok? {
        ExecuteKeeps(run.db, lines[n].trade);
      }
    }
  }

  /** The execution a line reports is already in the table. */
  predicate Known(execs: seq<Exec>, line: ExeLine) {
    line.Fill? ==> exists k :: 0 <= k < |execs| && execs[k].trade.ref == line.trade.ref
  }

  /** A line with nothing left to do: known, or about an order of another batch. */
  predicate NothingToDo(db: Db, batch: nat, line: ExeLine) {
    Known(db.execs, line) || !InBatch(db.orders, OrderOf(line), batch)
  }

  /** Executions are never removed and keep their references. */
  predicate KeepsRefs(before: seq<Exec>, after: seq<Exec>) {
    |before| <= |after| && forall k :: 0 <= k < |before| ==> after[k].trade == before[k].trade
  }

  lemma RowKeepsRef(db: Db, c: Command, after: Db, k: nat)
    requires ExecRowOk(db, c, after, k) && k < |db.execs|
    ensures after.execs[k].trade == db.execs[k].trade
  {
  }

  lemma NextKeepsRefs(db: Db, c: Command)
    requires Inv(db) && GoodCommand(c)
    ensures KeepsRefs(db.execs, Next(db, c).execs)
  {
    RowStep(db, c, 0);
    forall k | 0 <= k < |db.execs| ensures Next(db, c).execs[k].trade == db.execs[k].trade {
      RowStep(db, c, k);
      RowKeepsRef(db, c, Next(db, c), k);
    }
  }

  lemma KeepsRefsTransitive(a: seq<Exec>, b: seq<Exec>, c: seq<Exec>)
    requires KeepsRefs(a, b) && KeepsRefs(b, c)
    ensures KeepsRefs(a, c)
  {
  }

  lemma {:induction false} RunKeepsRefs(db: Db, commands: seq<Command>)
    requires Inv(db) && GoodRun(commands)
    ensures KeepsRefs(db.execs, RunAll(db, commands).execs)
    decreases |commands|
  {
    if commands != [] {
      NextKeepsRefs(db, commands[0]);
      NextKeeps(db, commands[0]);
      RunKeepsRefs(Next(db, commands[0]), commands[1..]);
      KeepsRefsTransitive(db.execs, Next(db, commands[0]).execs, RunAll(db, commands).execs);
    }
  }

  /** Only the transmission of a batch puts orders in it. */
  lemma {:induction false} RunKeepsBatches(db: Db, commands: seq<Command>, batch: nat, i: nat)
    requires Inv(db) && GoodRun(commands)
    requires forall j :: 0 <= j < |commands| && commands[j].Send? ==> commands[j].batch != batch
    ensures InBatch(RunAll(db, commands).orders, i, batch) ==> InBatch(db.orders, i, batch)
    decreases |commands|
  {
    if commands != [] {
      RowStep(db, commands[0], i);
      NextKeeps(db, commands[0]);
      RunKeepsBatches(Next(db, commands[0]), commands[1..], batch, i);
    }
  }

  lemma KnownStays(before: seq<Exec>, after: seq<Exec>, line: ExeLine)
    requires KeepsRefs(before, after) && Known(before, line)
    ensures Known(after, line)
  {
    if line.Fill? {
      var k :| 0 <= k < |before| && before[k].trade.ref == line.trade.ref;
      assert after[k].trade.ref == line.trade.ref;
    }
  }

  /** What one line adds to the table: nothing, or the execution it reports. */
  lemma ExeStepExecs(run: ExeRun, batch: nat, line: ExeLine)
    requires Inv(run.db)
    ensures var next := ExeStep(run, batch, line);
            KeepsRefs(run.db.execs, next.db.execs) &&
            (next.fault.Nothing? && InBatch(run.db.orders, OrderOf(line), batch) ==> Known(next.db.execs, line))
  {
    if run.fault.Nothing? && line.Fill? && InBatch(run.db.orders, OrderOf(line), batch) {
      FindExecIsRef(run.db.execs, line.trade.ref);
      if FindExec(run.db.execs, line.trade.ref).Nothing? && ApplyExecution(run.db, line.trade).Ok? {
        ApplyRows(run.db, line.trade);
        assert ApplyExecution(run.db, line.trade).value.execs[|run.db.execs|].trade == line.trade;
      }
    }
  }

  /** Executing keeps every order in its batch. */
  lemma ExeStepBatches(run: ExeRun, batch: nat, line: ExeLine, i: nat)
    requires Inv(run.db)
    ensures InBatch(ExeStep(run, batch, line).db.orders, i, batch) == InBatch(run.db.orders, i, batch)
  {
    if run.fault.Nothing? && line.Fill? && InBatch(run.db.orders, OrderOf(line), batch) {
      if FindExec(run.db.execs, line.trade.ref).Nothing? && ApplyExecution(run.db, line.trade).Ok? {
        ApplyRows(run.db, line.trade);
      }
    }
  }

  /** The executions hold what every line reports on an order of the batch. */
  predicate AllKnown(orders: seq<Order>, batch: nat, lines: seq<ExeLine>, execs: seq<Exec>) {
    forall j :: 0 <= j < |lines| && InBatch(orders, OrderOf(lines[j]), batch) ==> Known(execs, lines[j])
  }

  lemma AllKnownNext(orders: seq<Order>, batch: nat, lines: seq<ExeLine>, before: seq<Exec>, after: seq<Exec>)
    requires lines != [] && AllKnown(orders, batch, lines[..|lines| - 1], before) && KeepsRefs(before, after)
    requires var last := lines[|lines| - 1]; InBatch(orders, OrderOf(last), batch) ==> Known(after, last)
    ensures AllKnown(orders, batch, lines, after)
  {
    var n := |lines| - 1;
    forall j | 0 <= j < n && InBatch(orders, OrderOf(lines[j]), batch) ensures Known(after, lines[j]) {
      assert lines[..n][j] == lines[j];
      KnownStays(before, after, lines[j]);
    }
  }

  /** After a file that ran to its end, every line of the batch's orders is known. */
  lemma {:induction false} ProcessedIsKnown(db: Db, batch: nat, lines: seq<ExeLine>)
    requires Inv(db) && ExeFile(db, batch, lines).fault == Nothing
    ensures AllKnown(db.orders, batch, lines, ExeFile(db, batch, lines).db.execs)
  {
    if lines != [] {
      var n := |lines| - 1;
      LastIsKnown(db, batch, lines);
      ProcessedIsKnown(db, batch, lines[..n]);
      AllKnownNext(db.orders, batch, lines, ExeFile(db, batch, lines[..n]).db.execs, ExeFile(db, batch, lines).db.execs);
    }
  }

  /** The last line of a file that ran to its end, and the executions before it. */
  lemma LastIsKnown(db: Db, batch: nat, lines: seq<ExeLine>)
    requires Inv(db) && lines != [] && ExeFile(db, batch, lines).fault == Nothing
    ensures var n := |lines| - 1;
            var run, after := ExeFile(db, batch, lines[..n]), ExeFile(db, batch, lines);
            && run.fault == Nothing && KeepsRefs(run.db.execs, after.db.execs)
            && (InBatch(db.orders, OrderOf(lines[n]), batch) ==> Known(after.db.execs, lines[n]))
  {
    var n := |lines| - 1;
    ExeFileKeeps(db, batch, lines[..n]);
    ExeStepExecs(ExeFile(db, batch, lines[..n]), batch, lines[n]);
    FileKeepsBatches(db, batch, lines[..n], OrderOf(lines[n]));
  }

  lemma {:induction false} FileKeepsBatches(db: Db, batch: nat, lines: seq<ExeLine>, i: nat)
    requires Inv(db)
    ensures InBatch(ExeFile(db, batch, lines).db.orders, i, batch) == InBatch(db.orders, i, batch)
  {
    if lines != [] {
      var n := |lines| - 1;
      FileKeepsBatches(db, batch, lines[..n], i);
      ExeFileKeeps(db, batch, lines[..n]);
      ExeStepBatches(ExeFile(db, batch, lines[..n]), batch, lines[n], i);
    }
  }

  /** Executions reported by lines that are known already. */
  function Duplicates(db: Db, batch: nat, lines: seq<ExeLine>): seq<nat> {
    if lines == [] then []
    else
      var line := lines[|lines| - 1];
      Duplicates(db, batch, lines[..|lines| - 1]) +
      (if line.Fill? && InBatch(db.orders, OrderOf(line), batch) && FindExec(db.execs, line.trade.ref).Just?
       then [FindExec(db.execs, line.trade.ref).value] else [])
  }

  /** Replaying such lines, in any state, changes nothing and reports only duplicates. */
  lemma {:induction false} ReplayChangesNothing(db: Db, batch: nat, lines: seq<ExeLine>)
    requires forall j :: 0 <= j < |lines| ==> NothingToDo(db, batch, lines[j])
    ensures var run := ExeFile(db, batch, lines);
            && run.db == db && run.executions == [] && run.fault == Nothing
            && run.duplicates == Duplicates(db, batch, lines)
  {
    if lines != [] {
      var n := |lines| - 1;
      ReplayChangesNothing(db, batch, lines[..n]);
      assert NothingToDo(db, batch, lines[n]);
      if lines[n].Fill? { FindExecIsRef(db.execs, lines[n].trade.ref); }
    }
  }

  /** A file processed once, then replayed after any later calls, in whole or in part and in
      any order: nothing changes. */
  lemma ReplayAfterRun(db: Db, batch: nat, lines: seq<ExeLine>, commands: seq<Command>, again: seq<ExeLine>)
    requires Inv(db) && GoodRun(commands) && ExeFile(db, batch, lines).fault == Nothing
    requires forall j :: 0 <= j < |again| ==>
      exists l :: 0 <= l < |lines| && lines[l] == again[j] && InBatch(db.orders, OrderOf(lines[l]), batch)
    ensures var later := RunAll(ExeFile(db, batch, lines).db, commands);
            var run := ExeFile(later, batch, again);
            run.db == later && run.executions == [] && run.fault == Nothing
  {
    var done := ExeFile(db, batch, lines).db;
    var later := RunAll(done, commands);
    ExeFileKeeps(db, batch, lines);
    RunKeepsRefs(done, commands);
    ProcessedIsKnown(db, batch, lines);
    forall j | 0 <= j < |again| ensures NothingToDo(later, batch, again[j]) {
      var l :| 0 <= l < |lines| && lines[l] == again[j] && InBatch(db.orders, OrderOf(lines[l]), batch);
      assert Known(done.execs, lines[l]);
      KnownStays(done.execs, later.execs, lines[l]);
    }
    ReplayChangesNothing(later, batch, again);
  }

  /** What two runs from the same database agree on, their summaries apart. */
  predicate Agree(x: ExeRun, y: ExeRun) {
    && x.db == y.db && x.fault == y.fault
    && x.executions == y.executions
  }

  lemma {:induction false} SameFrom(x: ExeRun, y: ExeRun, batch: nat, lines: seq<ExeLine>)
    requires Agree(x, y)
    ensures Agree(ExeFrom(x, batch, lines), ExeFrom(y, batch, lines))
  {
    if lines != [] { SameFrom(x, y, batch, lines[..|lines| - 1]); }
  }

  /** Lines a file got through, after any later calls. */
  lemma PassedNeedsNothing(db: Db, batch: nat, lines: seq<ExeLine>, commands: seq<Command>, j: nat)
    requires Inv(db) && GoodRun(commands) && ExeFile(db, batch, lines).fault == Nothing && j < |lines|
    requires forall n :: 0 <= n < |commands| && commands[n].Send? ==> commands[n].batch != batch
    ensures NothingToDo(RunAll(ExeFile(db, batch, lines).db, commands), batch, lines[j])
  {
    var done := ExeFile(db, batch, lines).db;
    ExeFileKeeps(db, batch, lines);
    if InBatch(db.orders, OrderOf(lines[j]), batch) {
      ProcessedIsKnown(db, batch, lines);
      RunKeepsRefs(done, commands);
      KnownStays(done.execs, RunAll(done, commands).execs, lines[j]);
    } else {
      FileKeepsBatches(db, batch, lines, OrderOf(lines[j]));
      RunKeepsBatches(done, commands, batch, OrderOf(lines[j]));
    }
  }

  lemma SkipsPassed(db: Db, batch: nat, lines: seq<ExeLine>, k: nat)
    requires k <= |lines| && forall j :: 0 <= j < k ==> NothingToDo(db, batch, lines[..k][j])
    ensures Agree(ExeFile(db, batch, lines), ExeFile(db, batch, lines[k..]))
  {
    ReplayChangesNothing(db, batch, lines[..k]);
    var blank := ExeRun(db, [], [], [], [], Nothing);
    ExeSplits(blank, batch, lines[..k], lines[k..]);
    assert lines[..k] + lines[k..] == lines;
    SameFrom(ExeFrom(blank, batch, lines[..k]), blank, batch, lines[k..]);
  }

  /** A file that stopped at line k and is processed again, whatever happened in between,
      does exactly what its lines from k on would do alone. Batch ids are not used twice. */
  lemma ResumesAtFaultyLine(db: Db, batch: nat, lines: seq<ExeLine>, k: nat, commands: seq<Command>)
    requires Inv(db) && GoodRun(commands) && k <= |lines|
    requires ExeFile(db, batch, lines[..k]).fault == Nothing
    requires k < |lines| ==> ExeFile(db, batch, lines[..k + 1]).fault.Just?
    requires forall j :: 0 <= j < |commands| && commands[j].Send? ==> commands[j].batch != batch
    ensures ExeFile(db, batch, lines).db == ExeFile(db, batch, lines[..k]).db
    ensures var later := RunAll(ExeFile(db, batch, lines).db, commands);
            Agree(ExeFile(later, batch, lines), ExeFile(later, batch, lines[k..]))
  {
    StopsAt(db, batch, lines, k);
    var later := RunAll(ExeFile(db, batch, lines).db, commands);
    forall j | 0 <= j < k ensures NothingToDo(later, batch, lines[..k][j]) {
      PassedNeedsNothing(db, batch, lines[..k], commands, j);
    }
    SkipsPassed(later, batch, lines, k);
  }

  lemma StopsAt(db: Db, batch: nat, lines: seq<ExeLine>, k: nat)
    requires k <= |lines| && ExeFile(db, batch, lines[..k]).fault == Nothing
    requires k < |lines| ==> ExeFile(db, batch, lines[..k + 1]).fault.Just?
    ensures ExeFile(db, batch, lines).db == ExeFile(db, batch, lines[..k]).db
  {
    if k < |lines| {
      var blank := ExeRun(db, [], [], [], [], Nothing);
      assert lines[..k + 1][..k] == lines[..k];
      ExeSplits(blank, batch, lines[..k + 1], lines[k + 1..]);
      assert lines[..k + 1] + lines[k + 1..] == lines;
      FaultStops(ExeFrom(blank, batch, lines[..k + 1]), batch, lines[k + 1..]);
    } else {
      assert lines[..k] == lines;
    }
  }
}
