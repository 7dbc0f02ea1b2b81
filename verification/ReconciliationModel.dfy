/** The daily reconciliation of the SDB's cash statement with the payment intents
    (`src/modules/reconciliation/reconciliation.service.ts`), as functions on the tables. */
module ReconciliationModel {
  import opened Decimals
  import opened LedgerModel
  import opened BrokerageModel
  import opened BrokerageBooks
  import opened BrokerageInvariant
  import opened BrokeragePayments
  import Csv

  /** A line as it is read, with the currency of the partner's market. */
  datatype Line = Line(reference: string, direction: Direction, amount: Dec, currency: string)

  /** The texts an intent is found by. */
  datatype Names = Names(id: string, providerRef: Maybe<string>)

  datatype ItemState = Open | Investigating | Resolved | WrittenOff
  datatype Reason = UnknownReference | AmountDiffers(stated: Dec, expected: Dec) | StateIs(state: IntentState) | Refused | Rematched
  datatype Item = Item(direction: Direction, reference: string, amount: Dec, state: ItemState, reason: Reason)

  datatype Desk = Desk(db: Db, names: seq<Names>, items: seq<Item>)

  datatype LineResult = Matched(intent: nat) | PaidOut(intent: nat) | OpenedItem(item: nat)

  predicate Named(n: Names, ref: string) {
    n.id == ref || n.providerRef == Just(ref)
  }

  predicate Matches(desk: Desk, n: nat, line: Line) {
    && n < |desk.db.intents| && n < |desk.names| && Csv.Trim(line.reference) != ""
    && desk.db.intents[n].direction == line.direction && desk.db.intents[n].currency == line.currency
    && Named(desk.names[n], Csv.Trim(line.reference))
  }

  /** The latest of the first n intents that matches. */
  function Latest(desk: Desk, line: Line, n: nat): Maybe<nat> {
    if n == 0 then Nothing else if Matches(desk, n - 1, line) then Just(n - 1) else Latest(desk, line, n - 1)
  }

  /** `findIntent`. */
  function FindIntent(desk: Desk, line: Line): Maybe<nat> {
    Latest(desk, line, |desk.db.intents|)
  }

  /** Items are unique per direction and reference. */
  predicate ItemFor(i: Item, line: Line) {
    i.direction == line.direction && i.reference == Csv.Trim(line.reference)
  }

  function FindItem(items: seq<Item>, line: Line, n: nat): Maybe<nat>
    requires n <= |items|
  {
    if n == 0 then Nothing else if ItemFor(items[n - 1], line) then Just(n - 1) else FindItem(items, line, n - 1)
  }

  function LineAmount(line: Line): Dec {
    RoundMoney(if line.amount < 0 then -line.amount else line.amount, line.currency)
  }

  function NewItem(line: Line, reason: Reason): Item {
    Item(line.direction, Csv.Trim(line.reference), if line.direction == OUT then -LineAmount(line) else LineAmount(line), Open, reason)
  }

  /** `openItem`: the existing item, its reason refreshed while it is OPEN, or a new one. */
  function OpenItem(items: seq<Item>, line: Line, reason: Reason): (r: (seq<Item>, nat))
    ensures r.1 < |r.0|
  {
    match FindItem(items, line, |items|)
    case Just(i) => FindItemBounded(items, line, |items|);
      (if items[i].state == Open && items[i].reason != reason then items[i := items[i].(reason := reason)] else items, i)
    case Nothing => (items + [NewItem(line, reason)], |items|)
  }

  lemma {:induction false} FindItemBounded(items: seq<Item>, line: Line, n: nat)
    requires n <= |items|
    ensures FindItem(items, line, n).Just? ==> FindItem(items, line, n).value < n && ItemFor(items[FindItem(items, line, n).value], line)
    ensures FindItem(items, line, n).Nothing? ==> forall i :: 0 <= i < n ==> !ItemFor(items[i], line)
  {
    if n > 0 { FindItemBounded(items, line, n - 1); }
  }

  /** `closeMatchedItem`. */
  function CloseItem(items: seq<Item>, line: Line): seq<Item> {
    seq(|items|, i requires 0 <= i < |items| =>
      if ItemFor(items[i], line) && (items[i].state == Open || items[i].state == Investigating)
      then items[i].(state := Resolved, reason := Rematched) else items[i])
  }

  function Mismatch(desk: Desk, line: Line, reason: Reason): (Desk, LineResult) {
    var (items, id) := OpenItem(desk.items, line, reason);
    (desk.(items := items), OpenedItem(id))
  }

  function Match(desk: Desk, line: Line, n: nat): (Desk, LineResult) {
    (desk.(items := CloseItem(desk.items, line)), Matched(n))
  }

  /** The payout a line confirms: the ledger and the intent, and the line's reference on it. */
  ghost function PayOut(desk: Desk, line: Line, n: nat): (Desk, LineResult)
    requires n < |desk.names|
  {
    match MarkWithdrawalPaid(desk.db, n)
    case Ok(db) => (desk.(db := db, names := desk.names[n := desk.names[n].(providerRef := Just(line.reference))]), PaidOut(n))
    case Err(_) => Mismatch(desk, line, Reason.Refused)
  }

  lemma {:induction false} LatestMatches(desk: Desk, line: Line, n: nat)
    ensures Latest(desk, line, n).Just? ==> Latest(desk, line, n).value < n && Matches(desk, Latest(desk, line, n).value, line)
    ensures Latest(desk, line, n).Nothing? ==> forall m :: 0 <= m < n ==> !Matches(desk, m, line)
  {
    if n > 0 { LatestMatches(desk, line, n - 1); }
  }

  /** One line of `runDaily`. */
  ghost function Step(desk: Desk, line: Line): (Desk, LineResult) {
    match FindIntent(desk, line)
    case Nothing => Mismatch(desk, line, UnknownReference)
    case Just(n) =>
      LatestMatches(desk, line, |desk.db.intents|);
      var i := desk.db.intents[n];
      if i.amount != LineAmount(line) then Mismatch(desk, line, AmountDiffers(LineAmount(line), i.amount))
      else if line.direction == IN then
        if i.state == Paid then Match(desk, line, n) else Mismatch(desk, line, StateIs(i.state))
      else if i.state == IntentState.Pending then PayOut(desk, line, n)
      else if i.state == Paid then Match(desk, line, n)
      else Mismatch(desk, line, StateIs(i.state))
  }

  /** `runDaily`: the desk and one result per line. */
  ghost function Run(desk: Desk, lines: seq<Line>): (r: (Desk, seq<LineResult>))
    ensures |r.1| == |lines|
  {
    if lines == [] then (desk, [])
    else
      var (before, results) := Run(desk, lines[..|lines| - 1]);
      var (after, result) := Step(before, lines[|lines| - 1]);
      (after, results + [result])
  }

  // -------------------------------------------------------- what a line leaves

  lemma WithdrawableCovers(db: Db, n: nat)
    requires Inv(db) && PendingSound(db.intents) && n < |db.intents|
    requires db.intents[n].direction == OUT && db.intents[n].state == IntentState.Pending
    ensures Balance(db.log, UserAccount(db.intents[n].userId, db.intents[n].currency, WITHDRAWABLE)) >= db.intents[n].amount
  {
    var b := WithdrawableCash(db.intents[n].userId, db.intents[n].currency);
    assert BookOk(db, b);
    ZeroSum(OrderTerms(db.orders, db.execs, b));
    ZeroSum(ExecTerms(db.orders, db.execs, For(b)));
    var waiting := IntentTerms(db.intents, b);
    forall k | 0 <= k < |waiting| ensures waiting[k] >= 0 { assert WaitingSound(db.intents[k]); }
    AddAtLeast(waiting, n);
  }

  lemma PayoutPosts(db: Db, n: nat)
    requires Inv(db) && PendingSound(db.intents) && n < |db.intents|
    requires db.intents[n].direction == OUT && db.intents[n].state == IntentState.Pending
    ensures PostTxn(db, WithdrawInput(n, db.intents[n])).Ok?
  {
    var i := db.intents[n];
    var input := WithdrawInput(n, i);
    var from := UserAccount(i.userId, i.currency, WITHDRAWABLE);
    var to := ProviderClearing(i.provider, i.currency);
    assert WaitingSound(i);
    FreshKey(db, input.key);
    WithdrawableCovers(db, n);
    MoveNormalises(WITHDRAWAL, input.key, i.currency, from, to, i.amount);
    MoveFunded(db.log, WITHDRAWAL, input.key, i.currency, from, to, i.amount);
    PostFacts(db, input);
  }

  /** The payout of a pending withdrawal is never refused, and makes it PAID. */
  lemma PayoutNeverRefused(db: Db, n: nat)
    requires Inv(db) && PendingSound(db.intents) && n < |db.intents|
    requires db.intents[n].direction == OUT && db.intents[n].state == IntentState.Pending
    ensures MarkWithdrawalPaid(db, n).Ok? && Inv(MarkWithdrawalPaid(db, n).value)
    ensures var after := MarkWithdrawalPaid(db, n).value.intents;
            after == db.intents[n := db.intents[n].(state := Paid, txn := Just(|db.log|))]
  {
    PayoutPosts(db, n);
    PayOutKeeps(db, n);
    var input := WithdrawInput(n, db.intents[n]);
    FreshKey(db, input.key);
    PostFacts(db, input);
  }

  // ------------------------------------------------------- desks over time

  /** A reference never matches two intents. */
  predicate Unambiguous(desk: Desk) {
    && |desk.names| == |desk.db.intents|
    && forall m, n :: 0 <= m < |desk.names| && 0 <= n < |desk.names| && m != n ==> Apart(desk, m, n)
  }

  /** Of two intents of the same direction and currency, no text names both. */
  predicate Apart(desk: Desk, m: nat, n: nat)
    requires m < |desk.names| && n < |desk.names| && |desk.names| == |desk.db.intents|
  {
    desk.db.intents[m].direction == desk.db.intents[n].direction && desk.db.intents[m].currency == desk.db.intents[n].currency ==>
      var a, b := desk.names[m], desk.names[n];
      a.id != b.id && b.providerRef != Just(a.id) && a.providerRef != Just(b.id) && (a.providerRef.Just? ==> a.providerRef != b.providerRef)
  }

  /** What reconciliation may have done to one intent: nothing, or its payout under a
      reference it already answered to. */
  predicate LaterIntent(i: Intent, a: Names, j: Intent, b: Names) {
    || (j == i && b == a)
    || (i.direction == OUT && i.state == IntentState.Pending && j == i.(state := Paid, txn := j.txn)
        && b.id == a.id && b.providerRef.Just? && Named(a, b.providerRef.value))
  }

  /** Items keep their direction and reference. */
  predicate LaterItems(before: seq<Item>, after: seq<Item>) {
    && |before| <= |after|
    && forall i :: 0 <= i < |before| ==>
         after[i].direction == before[i].direction && after[i].reference == before[i].reference
  }

  predicate LaterAt(d: Desk, f: Desk, n: nat)
    requires n < |d.names| && n < |f.names| && n < |d.db.intents| && n < |f.db.intents|
  {
    LaterIntent(d.db.intents[n], d.names[n], f.db.intents[n], f.names[n])
  }

  predicate Later(d: Desk, f: Desk) {
    && |d.names| == |d.db.intents| == |f.names| == |f.db.intents| && LaterItems(d.items, f.items)
    && forall n :: 0 <= n < |d.names| ==> LaterAt(d, f, n)
  }

  ghost predicate Ready(desk: Desk) {
    Inv(desk.db) && PendingSound(desk.db.intents) && Unambiguous(desk)
  }

  /** References come trimmed out of the parser. */
  predicate TrimmedLine(line: Line) {
    Csv.Trim(line.reference) == line.reference
  }

  lemma OpenItemKeeps(items: seq<Item>, line: Line, reason: Reason)
    ensures var (after, id) := OpenItem(items, line, reason);
            id < |after| && LaterItems(items, after) && ItemFor(after[id], line)
            && (|after| == |items| <==> exists i :: 0 <= i < |items| && ItemFor(items[i], line))
  {
    FindItemBounded(items, line, |items|);
  }

  lemma PaidApart(desk: Desk, line: Line, n: nat, db: Db, m: nat, k: nat)
    requires Unambiguous(desk) && Matches(desk, n, line) && TrimmedLine(line)
    requires n < |db.intents| && db.intents == desk.db.intents[n := db.intents[n]]
    requires db.intents[n].direction == desk.db.intents[n].direction && db.intents[n].currency == desk.db.intents[n].currency
    requires m < |desk.names| && k < |desk.names| && m != k
    ensures |db.intents| == |desk.names|
    ensures Apart(desk.(db := db, names := desk.names[n := desk.names[n].(providerRef := Just(line.reference))]), m, k)
  {
    assert Apart(desk, m, k) && Apart(desk, k, m);
  }

  /** A payout leaves the desk ready, and one step later. */
  lemma PayOutLater(desk: Desk, line: Line, n: nat)
    requires Ready(desk) && Matches(desk, n, line) && TrimmedLine(line)
    requires desk.db.intents[n].direction == OUT && desk.db.intents[n].state == IntentState.Pending
    ensures var (after, result) := PayOut(desk, line, n);
            result == PaidOut(n) && Ready(after) && Later(desk, after) && after.items == desk.items
            && after.db.intents[n].state == Paid && Matches(after, n, line)
  {
    PayoutNeverRefused(desk.db, n);
    var db := MarkWithdrawalPaid(desk.db, n).value;
    var after := PayOut(desk, line, n).0;
    forall k | 0 <= k < |db.intents| ensures WaitingSound(db.intents[k]) { assert WaitingSound(desk.db.intents[k]); }
    forall m, k | 0 <= m < |after.names| && 0 <= k < |after.names| && m != k ensures Apart(after, m, k) {
      PaidApart(desk, line, n, db, m, k);
    }
    forall k | 0 <= k < |desk.names| ensures LaterAt(desk, after, k) {}
  }

  lemma ItemsOnly(desk: Desk, items: seq<Item>)
    requires Ready(desk) && LaterItems(desk.items, items)
    ensures Ready(desk.(items := items)) && Later(desk, desk.(items := items))
  {
    var after := desk.(items := items);
    forall m, k | 0 <= m < |after.names| && 0 <= k < |after.names| && m != k ensures Apart(after, m, k) {
      assert Apart(desk, m, k);
    }
    forall k | 0 <= k < |desk.names| ensures LaterAt(desk, after, k) {}
  }

  /** Which kind of line it is. */
  predicate Pays(desk: Desk, line: Line) {
    var n := FindIntent(desk, line);
    n.Just? && n.value < |desk.db.intents| &&
    var i := desk.db.intents[n.value];
    i.amount == LineAmount(line) && line.direction == OUT && i.state == IntentState.Pending
  }

  predicate AlreadyPaid(desk: Desk, line: Line) {
    var n := FindIntent(desk, line);
    n.Just? && n.value < |desk.db.intents| &&
    desk.db.intents[n.value].amount == LineAmount(line) && desk.db.intents[n.value].state == Paid
  }

  /** A line pays, matches, or opens an item. */
  lemma StepCases(desk: Desk, line: Line)
    requires |desk.names| == |desk.db.intents|
    ensures FindIntent(desk, line).Just? ==> Matches(desk, FindIntent(desk, line).value, line)
    ensures Pays(desk, line) ==> Step(desk, line) == PayOut(desk, line, FindIntent(desk, line).value)
    ensures AlreadyPaid(desk, line) ==> Step(desk, line) == Match(desk, line, FindIntent(desk, line).value)
    ensures !Pays(desk, line) && !AlreadyPaid(desk, line) ==> exists reason :: Step(desk, line) == Mismatch(desk, line, reason)
  {
    LatestMatches(desk, line, |desk.db.intents|);
    if !Pays(desk, line) && !AlreadyPaid(desk, line) {
      var found := FindIntent(desk, line);
      var reason := if found.Nothing? then UnknownReference
                    else if desk.db.intents[found.value].amount != LineAmount(line)
                    then AmountDiffers(LineAmount(line), desk.db.intents[found.value].amount)
                    else StateIs(desk.db.intents[found.value].state);
      assert Step(desk, line) == Mismatch(desk, line, reason);
    }
  }

  lemma StepLater(desk: Desk, line: Line)
    requires Ready(desk) && TrimmedLine(line)
    ensures Ready(Step(desk, line).0) && Later(desk, Step(desk, line).0)
  {
    StepCases(desk, line);
    if Pays(desk, line) {
      PayOutLater(desk, line, FindIntent(desk, line).value);
    } else if AlreadyPaid(desk, line) {
      ItemsOnly(desk, CloseItem(desk.items, line));
    } else {
      var reason :| Step(desk, line) == Mismatch(desk, line, reason);
      OpenItemKeeps(desk.items, line, reason);
      ItemsOnly(desk, OpenItem(desk.items, line, reason).0);
    }
  }

  lemma LaterTransitive(a: Desk, b: Desk, c: Desk)
    requires Later(a, b) && Later(b, c)
    ensures Later(a, c)
  {
    forall n | 0 <= n < |a.names| ensures LaterAt(a, c, n) { assert LaterAt(a, b, n) && LaterAt(b, c, n); }
  }

  lemma {:induction false} RunLater(desk: Desk, lines: seq<Line>)
    requires Ready(desk) && AllTrimmed(lines)
    ensures Ready(Run(desk, lines).0) && Later(desk, Run(desk, lines).0)
  {
    if lines == [] {
      ItemsOnly(desk, desk.items);
    } else {
      var n := |lines| - 1;
      RunLater(desk, lines[..n]);
      StepLater(Run(desk, lines[..n]).0, lines[n]);
      LaterTransitive(desk, Run(desk, lines[..n]).0, Run(desk, lines).0);
    }
  }

  // ------------------------------------------------------------- the rerun

  /** An intent that matches later matched before, and one that stopped matching was paid out. */
  lemma MatchesBefore(d: Desk, f: Desk, line: Line, n: nat)
    requires Later(d, f) && Matches(f, n, line)
    ensures Matches(d, n, line)
  {
    assert LaterAt(d, f, n);
  }

  lemma OnlyOneMatches(desk: Desk, line: Line, m: nat, n: nat)
    requires Unambiguous(desk) && Matches(desk, m, line) && Matches(desk, n, line)
    ensures m == n
  {
    assert m != n ==> Apart(desk, m, n);
  }

  /** On an unambiguous desk, finding is matching. */
  lemma FoundIff(desk: Desk, line: Line, n: nat)
    requires Unambiguous(desk)
    ensures FindIntent(desk, line) == Just(n) <==> Matches(desk, n, line)
  {
    LatestMatches(desk, line, |desk.db.intents|);
    if Matches(desk, n, line) && FindIntent(desk, line).Just? {
      OnlyOneMatches(desk, line, n, FindIntent(desk, line).value);
    }
  }

  function Again(r: LineResult): LineResult {
    match r
    case PaidOut(n) => Matched(n)
    case _ => r
  }

  /** The same books but for items already there. */
  predicate SameButItems(f: Desk, g: Desk) {
    g.db == f.db && g.names == f.names && |g.items| == |f.items| && LaterItems(f.items, g.items)
  }

  lemma ItemFound(items: seq<Item>, line: Line, i: nat)
    requires i < |items| && ItemFor(items[i], line)
    requires forall a, b :: 0 <= a < |items| && 0 <= b < |items| && ItemFor(items[a], line) && ItemFor(items[b], line) ==> a == b
    ensures FindItem(items, line, |items|) == Just(i)
  {
    FindItemBounded(items, line, |items|);
  }

  /** One item per direction and reference. */
  predicate UniqueItems(items: seq<Item>) {
    forall a, b :: 0 <= a < |items| && 0 <= b < |items| && a != b ==>
      !(items[a].direction == items[b].direction && items[a].reference == items[b].reference)
  }

  lemma StepKeepsUnique(desk: Desk, line: Line)
    requires |desk.names| == |desk.db.intents| && UniqueItems(desk.items)
    ensures UniqueItems(Step(desk, line).0.items)
  {
    StepCases(desk, line);
    if !Pays(desk, line) && !AlreadyPaid(desk, line) {
      var reason :| Step(desk, line) == Mismatch(desk, line, reason);
      OpenKeepsUnique(desk.items, line, reason);
    } else if Pays(desk, line) {
      OpenKeepsUnique(desk.items, line, Reason.Refused);
    }
  }

  lemma OpenKeepsUnique(items: seq<Item>, line: Line, reason: Reason)
    requires UniqueItems(items)
    ensures UniqueItems(OpenItem(items, line, reason).0)
  {
    FindItemBounded(items, line, |items|);
  }

  /** What an intent found or missed at the time says about it later. */
  lemma FoundLater(d: Desk, f: Desk, line: Line)
    requires Unambiguous(d) && Unambiguous(f) && Later(d, f)
    ensures FindIntent(f, line).Just? ==> FindIntent(f, line) == FindIntent(d, line)
    ensures FindIntent(d, line).Just? && AlreadyPaid(d, line) ==> AlreadyPaid(f, line) && FindIntent(f, line) == FindIntent(d, line)
  {
    LatestMatches(f, line, |f.db.intents|);
    LatestMatches(d, line, |d.db.intents|);
    if FindIntent(f, line).Just? {
      var n := FindIntent(f, line).value;
      MatchesBefore(d, f, line, n);
      FoundIff(d, line, n);
    }
    if AlreadyPaid(d, line) {
      var n := FindIntent(d, line).value;
      assert LaterAt(d, f, n);
      FoundIff(f, line, n);
    }
  }

  /** A line that opened an item opens it again. */
  lemma MismatchAgain(d: Desk, f: Desk, line: Line)
    requires Unambiguous(d) && Unambiguous(f) && Later(d, f)
    requires !Pays(d, line) && !AlreadyPaid(d, line)
    ensures !Pays(f, line) && !AlreadyPaid(f, line)
  {
    FoundLater(d, f, line);
    LatestMatches(f, line, |f.db.intents|);
    LatestMatches(d, line, |d.db.intents|);
    if FindIntent(f, line).Just? {
      var n := FindIntent(f, line).value;
      assert LaterAt(d, f, n);
    }
  }

  lemma MatchedAgain(d: Desk, f: Desk, line: Line)
    requires Ready(d) && Ready(f) && TrimmedLine(line) && Later(Step(d, line).0, f) && AlreadyPaid(d, line)
    ensures SameButItems(f, Step(f, line).0) && Step(f, line).1 == Step(d, line).1
  {
    StepCases(d, line);
    StepCases(f, line);
    StepLater(d, line);
    LaterTransitive(d, Step(d, line).0, f);
    FoundLater(d, f, line);
  }

  lemma PaidAgain(d: Desk, f: Desk, line: Line)
    requires Ready(d) && Ready(f) && TrimmedLine(line) && Later(Step(d, line).0, f) && Pays(d, line)
    ensures SameButItems(f, Step(f, line).0) && Step(f, line).1 == Again(Step(d, line).1)
  {
    var after := Step(d, line).0;
    StepCases(d, line);
    StepCases(f, line);
    var n := FindIntent(d, line).value;
    PayOutLater(d, line, n);
    FoundIff(after, line, n);
    FoundLater(after, f, line);
  }

  lemma ItemAgain(items: seq<Item>, later: seq<Item>, line: Line, first: Reason, again: Reason)
    requires LaterItems(OpenItem(items, line, first).0, later) && UniqueItems(later)
    ensures var (after, id) := OpenItem(later, line, again);
            id == OpenItem(items, line, first).1 && |after| == |later| && LaterItems(later, after)
  {
    OpenItemKeeps(items, line, first);
    var id := OpenItem(items, line, first).1;
    ItemFound(later, line, id);
    OpenItemKeeps(later, line, again);
  }

  lemma OpenedAgain(d: Desk, f: Desk, line: Line)
    requires Ready(d) && Ready(f) && TrimmedLine(line) && Later(Step(d, line).0, f) && UniqueItems(f.items)
    requires !Pays(d, line) && !AlreadyPaid(d, line)
    ensures SameButItems(f, Step(f, line).0) && Step(f, line).1 == Step(d, line).1
  {
    StepCases(d, line);
    StepLater(d, line);
    LaterTransitive(d, Step(d, line).0, f);
    MismatchAgain(d, f, line);
    StepCases(f, line);
    var first :| Step(d, line) == Mismatch(d, line, first);
    var again :| Step(f, line) == Mismatch(f, line, again);
    ItemAgain(d.items, f.items, line, first, again);
  }

  /** A line processed at d is processed again at a later f: it writes nothing but item states,
      and has the same result, a payout having become a match. */
  lemma StepAgain(d: Desk, f: Desk, line: Line)
    requires Ready(d) && Ready(f) && TrimmedLine(line) && Later(Step(d, line).0, f) && UniqueItems(f.items)
    ensures SameButItems(f, Step(f, line).0) && Step(f, line).1 == Again(Step(d, line).1)
  {
    if Pays(d, line) {
      PaidAgain(d, f, line);
    } else if AlreadyPaid(d, line) {
      MatchedAgain(d, f, line);
      AgainOfMatch(d, line);
    } else {
      OpenedAgain(d, f, line);
      AgainOfItem(d, line);
    }
  }

  lemma AgainOfMatch(d: Desk, line: Line)
    requires |d.names| == |d.db.intents| && AlreadyPaid(d, line)
    ensures Again(Step(d, line).1) == Step(d, line).1
  {
    StepCases(d, line);
  }

  lemma AgainOfItem(d: Desk, line: Line)
    requires |d.names| == |d.db.intents| && !Pays(d, line) && !AlreadyPaid(d, line)
    ensures Again(Step(d, line).1) == Step(d, line).1
  {
    StepCases(d, line);
  }

  lemma SameStillLater(d: Desk, f: Desk, g: Desk)
    requires Later(d, f) && SameButItems(f, g) && Ready(f) && UniqueItems(f.items)
    ensures Later(d, g) && Ready(g) && UniqueItems(g.items)
  {
    ItemsOnly(f, g.items);
    LaterTransitive(d, f, g);
  }

  lemma {:induction false} RunUnique(desk: Desk, lines: seq<Line>)
    requires Ready(desk) && UniqueItems(desk.items) && AllTrimmed(lines)
    ensures UniqueItems(Run(desk, lines).0.items)
  {
    if lines != [] {
      var n := |lines| - 1;
      RunUnique(desk, lines[..n]);
      RunLater(desk, lines[..n]);
      UniqueNext(desk, lines);
    }
  }

  lemma UniqueNext(desk: Desk, lines: seq<Line>)
    requires lines != []
    requires var d := Run(desk, lines[..|lines| - 1]).0; |d.names| == |d.db.intents| && UniqueItems(d.items)
    ensures UniqueItems(Run(desk, lines).0.items)
  {
    RunSnoc(desk, lines);
    StepKeepsUnique(Run(desk, lines[..|lines| - 1]).0, lines[|lines| - 1]);
  }

  function AllAgain(results: seq<LineResult>): seq<LineResult> {
    seq(|results|, j requires 0 <= j < |results| => Again(results[j]))
  }

  lemma ReplayNext(d: Desk, f: Desk, g: Desk, line: Line)
    requires Ready(d) && Ready(f) && TrimmedLine(line) && UniqueItems(f.items)
    requires Later(Step(d, line).0, f) && SameButItems(f, g)
    ensures SameButItems(f, Step(g, line).0) && Step(g, line).1 == Again(Step(d, line).1)
  {
    SameStillLater(Step(d, line).0, f, g);
    StepAgain(d, g, line);
  }

  /** A statement processed at desk, replayed at a later one. */
  lemma {:induction false} ReplayLater(desk: Desk, f: Desk, lines: seq<Line>)
    requires Ready(desk) && Ready(f) && UniqueItems(f.items) && AllTrimmed(lines)
    requires Later(Run(desk, lines).0, f)
    ensures SameButItems(f, Run(f, lines).0) && Run(f, lines).1 == AllAgain(Run(desk, lines).1)
  {
    if lines != [] {
      var n := |lines| - 1;
      var d := Run(desk, lines[..n]).0;
      RunLater(desk, lines[..n]);
      RunSnoc(desk, lines);
      RunSnoc(f, lines);
      StepLater(d, lines[n]);
      LaterTransitive(d, Step(d, lines[n]).0, f);
      ReplayLater(desk, f, lines[..n]);
      ReplayNext(d, f, Run(f, lines[..n]).0, lines[n]);
      assert AllAgain(Run(desk, lines).1) == AllAgain(Run(desk, lines[..n]).1) + [Again(Step(d, lines[n]).1)];
    }
  }

  /** The same statement again, even after other statements: no ledger transaction, no change to
      any intent, no new item; every line has the result it had, a payout having become a match. */
  lemma RerunPostsNothing(desk: Desk, lines: seq<Line>, others: seq<Line>)
    requires Ready(desk) && UniqueItems(desk.items)
    requires AllTrimmed(lines) && AllTrimmed(others)
    ensures var first := Run(desk, lines);
            var f := Run(first.0, others).0;
            var again := Run(f, lines);
            again.0.db == f.db && |again.0.items| == |f.items| && again.1 == AllAgain(first.1)
  {
    RunLater(desk, lines);
    RunUnique(desk, lines);
    RunLater(Run(desk, lines).0, others);
    RunUnique(Run(desk, lines).0, others);
    ReplayLater(desk, Run(Run(desk, lines).0, others).0, lines);
  }

  // --------------------------------------------------------- paid at most once

  /** A line that pays finds its withdrawal waiting and leaves it PAID. */
  lemma StepPays(desk: Desk, line: Line)
    requires Ready(desk) && TrimmedLine(line) && Step(desk, line).1.PaidOut?
    ensures var n := Step(desk, line).1.intent;
            && n < |desk.db.intents| && desk.db.intents[n].state == IntentState.Pending
            && n < |Step(desk, line).0.db.intents| && Step(desk, line).0.db.intents[n].state == Paid
  {
    StepCases(desk, line);
    PayOutLater(desk, line, FindIntent(desk, line).value);
  }

  /** PAID intents stay PAID, and what waits later waited before. */
  lemma PaidStays(d: Desk, f: Desk, n: nat)
    requires Later(d, f) && n < |d.db.intents|
    ensures n < |f.db.intents| && (d.db.intents[n].state == Paid ==> f.db.intents[n].state == Paid)
    ensures f.db.intents[n].state == IntentState.Pending ==> d.db.intents[n].state == IntentState.Pending
  {
    assert LaterAt(d, f, n);
  }

  /** The run of a statement, last line apart. */
  lemma RunSnoc(desk: Desk, lines: seq<Line>)
    requires lines != []
    ensures var m := |lines| - 1;
            var before := Run(desk, lines[..m]);
            var last := Step(before.0, lines[m]);
            Run(desk, lines) == (last.0, before.1 + [last.1])
  {
  }

  predicate AllTrimmed(lines: seq<Line>) {
    forall j :: 0 <= j < |lines| ==> TrimmedLine(lines[j])
  }

  /** Every payout of a run has left its intent PAID. */
  predicate PayoutsPaid(results: seq<LineResult>, after: Desk) {
    forall j :: 0 <= j < |results| && results[j].PaidOut? ==>
      results[j].intent < |after.db.intents| && after.db.intents[results[j].intent].state == Paid
  }

  predicate PayoutsApart(results: seq<LineResult>) {
    forall i, j :: (0 <= i < j < |results| && results[i].PaidOut? && results[j].PaidOut?) ==>
      results[i].intent != results[j].intent
  }

  lemma PayoutsNext(results: seq<LineResult>, before: Desk, line: Line)
    requires Ready(before) && TrimmedLine(line) && PayoutsPaid(results, before) && PayoutsApart(results)
    ensures var (after, result) := Step(before, line);
            PayoutsPaid(results + [result], after) && PayoutsApart(results + [result])
  {
    var (after, result) := Step(before, line);
    StepLater(before, line);
    if result.PaidOut? { StepPays(before, line); }
    forall j | 0 <= j < |results| && results[j].PaidOut?
      ensures results[j].intent < |after.db.intents| && after.db.intents[results[j].intent].state == Paid
    {
      PaidStays(before, after, results[j].intent);
    }
  }

  lemma {:induction false} PayoutsHold(desk: Desk, lines: seq<Line>)
    requires Ready(desk) && AllTrimmed(lines)
    ensures PayoutsPaid(Run(desk, lines).1, Run(desk, lines).0) && PayoutsApart(Run(desk, lines).1)
  {
    if lines != [] {
      var m := |lines| - 1;
      PayoutsHold(desk, lines[..m]);
      RunLater(desk, lines[..m]);
      PayoutsNext(Run(desk, lines[..m]).1, Run(desk, lines[..m]).0, lines[m]);
      RunSnoc(desk, lines);
    }
  }

  /** Over any list of statements each withdrawal is paid at most once: no intent appears twice
      among the payouts, each of them ends PAID, and the ledger holds at most one transaction
      under its WITHDRAWAL key. */
  lemma PaidAtMostOnce(desk: Desk, lines: seq<Line>)
    requires Ready(desk) && AllTrimmed(lines)
    ensures PayoutsApart(Run(desk, lines).1) && PayoutsPaid(Run(desk, lines).1, Run(desk, lines).0)
    ensures UniqueKeys(Run(desk, lines).0.db.log)
  {
    PayoutsHold(desk, lines);
    RunLater(desk, lines);
  }
}
