/** Standalone posts running at the same time (`post`/`postIn` of
    `src/modules/ledger/ledger.service.ts`), split into the steps the database interleaves:
    key look-up, row locks in ascending id, second look-up, one balance read per guarded
    account, insert under the unique key, commit. Reads see what is committed. */
module ConcurrentLedger {
  import opened Decimals
  import opened LedgerModel
  import opened LedgerService

  /** Where a caller is. `seen` is the length of the log at its second look-up; a finished
      call remembers the length `at` of the log its result speaks about. */
  datatype Pc =
    | Start
    | Locking(next: nat)
    | Checking(seen: nat, next: nat)
    | Inserted(seen: nat)
    | Violated
    | Done(result: PostResult, at: nat)
    | Stopped

  /** `began` is the length of the log when the call started. */
  datatype Caller = Caller(input: PostInput, pc: Pc, began: nat)

  /** `locks` maps a row id, and `pending` an inserted but uncommitted key, to the caller that
      holds it. `order` lists the callers as they committed. */
  datatype World = World(log: Log, rows: map<Account, nat>, locks: map<nat, nat>, pending: map<Key, nat>,
                         callers: seq<Caller>, order: seq<nat>)

  // ------------------------------------------------------------- lock order

  function InsertSorted(ids: seq<nat>, id: nat): seq<nat> {
    if ids == [] then [id]
    else if id == ids[0] then ids
    else if id < ids[0] then [id] + ids
    else [ids[0]] + InsertSorted(ids[1..], id)
  }

  /** The row ids of the accounts touched, once each, ascending. */
  function LockIds(rows: map<Account, nat>, entries: seq<Entry>): seq<nat>
    requires Rows(entries, rows)
  {
    if entries == [] then [] else InsertSorted(LockIds(rows, entries[1..]), rows[entries[0].account])
  }

  predicate Ascending(ids: seq<nat>) {
    forall i, j :: 0 <= i < j < |ids| ==> ids[i] < ids[j]
  }

  lemma {:induction false} InsertKeepsOrder(ids: seq<nat>, id: nat)
    requires Ascending(ids)
    ensures Ascending(InsertSorted(ids, id))
    ensures forall x :: x in InsertSorted(ids, id) <==> x in ids || x == id
  {
    if ids != [] && id > ids[0] {
      InsertKeepsOrder(ids[1..], id);
      var rest := InsertSorted(ids[1..], id);
      forall x ensures x in [ids[0]] + rest <==> x in ids || x == id {
        assert x in ids <==> x == ids[0] || x in ids[1..];
      }
      forall j | 0 <= j < |rest| ensures ids[0] < rest[j] { assert rest[j] in rest; }
    }
  }

  lemma {:induction false} LockIdsSorted(rows: map<Account, nat>, entries: seq<Entry>)
    requires Rows(entries, rows)
    ensures Ascending(LockIds(rows, entries))
    ensures forall x :: x in LockIds(rows, entries) <==> exists i :: 0 <= i < |entries| && rows[entries[i].account] == x
  {
    if entries != [] {
      LockIdsSorted(rows, entries[1..]);
      InsertKeepsOrder(LockIds(rows, entries[1..]), rows[entries[0].account]);
      forall x ensures x in LockIds(rows, entries) <==> exists i :: 0 <= i < |entries| && rows[entries[i].account] == x {
        if x in LockIds(rows, entries[1..]) {
          var i :| 0 <= i < |entries[1..]| && rows[entries[1..][i].account] == x;
          assert rows[entries[i + 1].account] == x;
        }
        if i :| 0 <= i < |entries| && rows[entries[i].account] == x && i > 0 {
          assert entries[1..][i - 1] == entries[i];
        }
      }
    }
  }

  function IdsOf(w: World, c: nat): seq<nat>
    requires c < |w.callers| && Rows(w.callers[c].input.entries, w.rows)
  {
    LockIds(w.rows, w.callers[c].input.entries)
  }

  // ------------------------------------------------------------------ steps

  function Moved(w: World, c: nat, pc: Pc): World
    requires c < |w.callers|
  {
    w.(callers := w.callers[c := w.callers[c].(pc := pc)])
  }

  /** The end of a database transaction: its locks and its uncommitted insert are gone. */
  function Ended(w: World, c: nat, pc: Pc): World
    requires c < |w.callers|
  {
    Moved(w, c, pc).(locks := map id | id in w.locks && w.locks[id] != c :: w.locks[id],
                     pending := map key | key in w.pending && w.pending[key] != c :: w.pending[key])
  }

  ghost predicate Known(w: World) {
    forall c :: 0 <= c < |w.callers| ==> Rows(w.callers[c].input.entries, w.rows)
  }

  ghost function Begin(w: World, c: nat): World
    requires c < |w.callers|
  {
    var found := Find(w.log, w.callers[c].input.key);
    var begun := w.(callers := w.callers[c := w.callers[c].(began := |w.log|)]);
    if found.Just? then Moved(begun, c, Done(Existing(found.value), |w.log|)) else Moved(begun, c, Locking(0))
  }

  /** The next row lock, in ascending id; after the last one, the second look-up. */
  ghost function Lock(w: World, c: nat, k: nat): World
    requires c < |w.callers| && Rows(w.callers[c].input.entries, w.rows)
  {
    var ids := IdsOf(w, c);
    var found := Find(w.log, w.callers[c].input.key);
    if k < |ids| then
      if ids[k] in w.locks then w else Moved(w, c, Locking(k + 1)).(locks := w.locks[ids[k] := c])
    else if found.Just? then Ended(w, c, Done(Existing(found.value), |w.log|))
    else Moved(w, c, Checking(|w.log|, 0))
  }

  /** The next guarded balance; after the last one, the insert, which the unique key may
      refuse or hold up. */
  ghost function Check(w: World, c: nat, seen: nat, j: nat): World
    requires c < |w.callers|
  {
    var input := w.callers[c].input;
    var guarded := Ledger.GuardList(input);
    if j < |guarded| then
      if !Passed(w.log, input, guarded[j]) then Ended(w, c, Done(Refused(Insufficient), seen))
      else Moved(w, c, Checking(seen, j + 1))
    else if Find(w.log, input.key).Just? then Ended(w, c, Violated)
    else if input.key in w.pending then w
    else Moved(w, c, Inserted(seen)).(pending := w.pending[input.key := c])
  }

  ghost function CommitOf(w: World, c: nat): World
    requires c < |w.callers|
  {
    Ended(w.(log := w.log + [Record(w.callers[c].input, Nothing)], order := w.order + [c]), c,
          Done(Posted(|w.log|), |w.log|))
  }

  /** After a unique violation the key is read again. */
  ghost function Reread(w: World, c: nat): World
    requires c < |w.callers|
  {
    var found := Find(w.log, w.callers[c].input.key);
    if found.Just? then Moved(w, c, Done(Existing(found.value), |w.log|)) else Moved(w, c, Start)
  }

  /** One step of caller c; a blocked caller stays where it is. */
  ghost function Advance(w: World, c: nat): World
    requires c < |w.callers| && Rows(w.callers[c].input.entries, w.rows)
  {
    match w.callers[c].pc
    case Start => Begin(w, c)
    case Locking(k) => Lock(w, c, k)
    case Checking(seen, j) => Check(w, c, seen, j)
    case Inserted(_) => CommitOf(w, c)
    case Violated => Reread(w, c)
    case _ => w
  }

  predicate Passed(log: Log, input: PostInput, a: Account) {
    Touches(input.entries, a) ==> Affordable(log, input.entries, a)
  }

  /** A caller may stop anywhere; its transaction is rolled back. */
  function Stop(w: World, c: nat): World
    requires c < |w.callers|
  {
    if w.callers[c].pc.Done? then w else Ended(w, c, Stopped)
  }

  datatype Action = Go(caller: nat) | Kill(caller: nat)

  ghost function Act(w: World, a: Action): World
    requires Known(w)
  {
    if a.caller >= |w.callers| then w else if a.Go? then Advance(w, a.caller) else Stop(w, a.caller)
  }

  // -------------------------------------------------------------- invariant

  predicate HoldsExactly(w: World, c: nat, ids: seq<nat>) {
    && (forall id :: id in w.locks && w.locks[id] == c ==> id in ids)
    && (forall id :: id in ids ==> id in w.locks && w.locks[id] == c)
  }

  predicate InsertedNothing(w: World, c: nat) {
    forall key :: key in w.pending ==> w.pending[key] != c
  }

  /** No transaction committed since `seen` touches an account of `entries`. */
  predicate Frozen(log: Log, seen: nat, entries: seq<Entry>) {
    forall t :: seen <= t < |log| ==> Apart(log[t].entries, entries)
  }

  predicate Apart(xs: seq<Entry>, ys: seq<Entry>) {
    forall i, j :: 0 <= i < |xs| && 0 <= j < |ys| ==> xs[i].account != ys[j].account
  }

  predicate AllPassed(log: Log, input: PostInput, n: nat) {
    forall j :: 0 <= j < n && j < |Ledger.GuardList(input)| ==> Passed(log, input, Ledger.GuardList(input)[j])
  }

  /** The result is the one an atomic post would have given on the first `at` transactions. */
  ghost predicate Answers(log: Log, input: PostInput, result: PostResult, began: nat, at: nat) {
    && began <= at <= |log| && Outcome(log[..at], input) == result
    && (result.Posted? ==> at < |log| && log[at] == Record(input, Nothing))
  }

  ghost predicate CallerOk(w: World, c: nat)
    requires c < |w.callers| && Rows(w.callers[c].input.entries, w.rows)
  {
    var caller := w.callers[c];
    var input := caller.input;
    && caller.began <= |w.log| && Ordinary(input) && Normalise(input) == Nothing
    && match caller.pc
       case Locking(k) => k <= |IdsOf(w, c)| && HoldsExactly(w, c, IdsOf(w, c)[..k]) && InsertedNothing(w, c)
       case Checking(seen, j) =>
         && HoldsExactly(w, c, IdsOf(w, c)) && InsertedNothing(w, c)
         && caller.began <= seen <= |w.log| && Find(w.log[..seen], input.key) == Nothing
         && Frozen(w.log, seen, input.entries) && AllPassed(w.log, input, j)
       case Inserted(seen) =>
         && HoldsExactly(w, c, IdsOf(w, c))
         && input.key in w.pending && w.pending[input.key] == c
         && (forall key :: key in w.pending && w.pending[key] == c ==> key == input.key)
         && Find(w.log, input.key) == Nothing && Funded(w.log, input)
       case Done(result, at) =>
         HoldsExactly(w, c, []) && InsertedNothing(w, c) && Answers(w.log, input, result, caller.began, at)
       case _ => HoldsExactly(w, c, []) && InsertedNothing(w, c)
  }

  /** The log after `base` is what the callers committed, in the order they did. */
  predicate InOrder(w: World, base: nat) {
    && base + |w.order| == |w.log|
    && forall n :: 0 <= n < |w.order| ==> w.order[n] < |w.callers| && w.callers[w.order[n]].pc == Done(Posted(base + n), base + n)
  }

  ghost predicate Sane(w: World) {
    && Known(w) && WellFormed(w.log) && UniqueIds(w.rows)
    && (forall c :: 0 <= c < |w.callers| ==> CallerOk(w, c))
    && (forall id :: id in w.locks ==> w.locks[id] < |w.callers|)
    && (forall key :: key in w.pending ==> w.pending[key] < |w.callers| && w.callers[w.pending[key]].pc.Inserted?
                                           && w.callers[w.pending[key]].input.key == key)
  }

  // ------------------------------------------------------- how a step carries over

  /** What another caller's step leaves as it was for caller d. */
  ghost predicate Untouched(w: World, w': World, d: nat) {
    && d < |w.callers| && |w'.callers| == |w.callers| && w'.rows == w.rows && w'.callers[d] == w.callers[d]
    && (forall id :: (id in w.locks && w.locks[id] == d) <==> (id in w'.locks && w'.locks[id] == d))
    && (forall key :: (key in w.pending && w.pending[key] == d) <==> (key in w'.pending && w'.pending[key] == d))
  }

  lemma EndedUntouched(w: World, c: nat, pc: Pc, d: nat)
    requires c < |w.callers| && d < |w.callers| && d != c
    ensures Untouched(w, Ended(w, c, pc), d)
  {
  }

  /** Same log: the invariant of a caller that did not move is kept. */
  lemma OtherKeeps(w: World, w': World, d: nat)
    requires Untouched(w, w', d) && w'.log == w.log
    requires Rows(w.callers[d].input.entries, w.rows) && CallerOk(w, d)
    ensures CallerOk(w', d)
  {
  }

  lemma ApartBalance(log: Log, t: Txn, entries: seq<Entry>, a: Account)
    requires Apart(t.entries, entries) && Touches(entries, a)
    ensures Balance(log + [t], a) == Balance(log, a)
  {
    TotalAppend(log, t, Of(a));
    var j :| 0 <= j < |entries| && entries[j].account == a;
    UntouchedDelta(t.entries, a);
  }

  lemma {:induction false} FrozenBalance(log: Log, seen: nat, entries: seq<Entry>, a: Account)
    requires seen <= |log| && Frozen(log, seen, entries) && Touches(entries, a)
    ensures Balance(log, a) == Balance(log[..seen], a)
  {
    if seen < |log| {
      var n := |log| - 1;
      assert log[..n] + [log[n]] == log && log[..n][..seen] == log[..seen];
      FrozenBalance(log[..n], seen, entries, a);
      ApartBalance(log[..n], log[n], entries, a);
    } else {
      assert log[..seen] == log;
    }
  }

  lemma PassedStays(log: Log, t: Txn, input: PostInput, a: Account)
    requires Apart(t.entries, input.entries) && Passed(log, input, a)
    ensures Passed(log + [t], input, a)
  {
    if Touches(input.entries, a) { ApartBalance(log, t, input.entries, a); }
  }

  lemma FundedStays(log: Log, t: Txn, input: PostInput)
    requires Apart(t.entries, input.entries) && Funded(log, input)
    ensures Funded(log + [t], input)
  {
    forall a | Guarded(input, a) ensures Affordable(log + [t], input.entries, a) {
      ApartBalance(log, t, input.entries, a);
    }
  }

  lemma AnswersStay(log: Log, t: Txn, input: PostInput, result: PostResult, began: nat, at: nat)
    requires Answers(log, input, result, began, at)
    ensures Answers(log + [t], input, result, began, at)
  {
    assert (log + [t])[..at] == log[..at];
  }

  /** Two callers that both hold all their rows touch different accounts. */
  lemma LockedApart(w: World, c: nat, d: nat)
    requires c < |w.callers| && d < |w.callers| && c != d
    requires Rows(w.callers[c].input.entries, w.rows) && Rows(w.callers[d].input.entries, w.rows)
    requires HoldsExactly(w, c, IdsOf(w, c)) && HoldsExactly(w, d, IdsOf(w, d))
    ensures Apart(w.callers[c].input.entries, w.callers[d].input.entries)
  {
    var xs, ys := w.callers[c].input.entries, w.callers[d].input.entries;
    LockIdsSorted(w.rows, xs);
    LockIdsSorted(w.rows, ys);
    forall i, j | 0 <= i < |xs| && 0 <= j < |ys| ensures xs[i].account != ys[j].account {
      assert w.rows[xs[i].account] in IdsOf(w, c) && w.rows[ys[j].account] in IdsOf(w, d);
    }
  }

  lemma CommitKeepsChecking(w: World, c: nat, d: nat)
    requires c < |w.callers| && d < |w.callers| && d != c && w.callers[c].pc.Inserted? && w.callers[d].pc.Checking?
    requires Rows(w.callers[c].input.entries, w.rows) && Rows(w.callers[d].input.entries, w.rows)
    requires CallerOk(w, c) && CallerOk(w, d)
    ensures CallerOk(CommitOf(w, c), d)
  {
    var w' := CommitOf(w, c);
    var t := Record(w.callers[c].input, Nothing);
    var input := w.callers[d].input;
    var seen, j := w.callers[d].pc.seen, w.callers[d].pc.next;
    LockedApart(w, c, d);
    assert w'.log[..seen] == w.log[..seen];
    forall n | 0 <= n < j && n < |Ledger.GuardList(input)| ensures Passed(w'.log, input, Ledger.GuardList(input)[n]) {
      PassedStays(w.log, t, input, Ledger.GuardList(input)[n]);
    }
    EndedUntouched(w.(log := w'.log, order := w'.order), c, w'.callers[c].pc, d);
    assert IdsOf(w', d) == IdsOf(w, d);
  }

  lemma CommitKeepsInserted(w: World, c: nat, d: nat)
    requires c < |w.callers| && d < |w.callers| && d != c && w.callers[c].pc.Inserted? && w.callers[d].pc.Inserted?
    requires Rows(w.callers[c].input.entries, w.rows) && Rows(w.callers[d].input.entries, w.rows)
    requires CallerOk(w, c) && CallerOk(w, d)
    ensures CallerOk(CommitOf(w, c), d)
  {
    var w' := CommitOf(w, c);
    var t := Record(w.callers[c].input, Nothing);
    LockedApart(w, c, d);
    FundedStays(w.log, t, w.callers[d].input);
    FindAppend(w.log, t, w.callers[d].input.key);
    EndedUntouched(w.(log := w'.log, order := w'.order), c, w'.callers[c].pc, d);
    assert IdsOf(w', d) == IdsOf(w, d);
  }

  lemma CommitKeepsRest(w: World, c: nat, d: nat)
    requires c < |w.callers| && d < |w.callers| && d != c && w.callers[c].pc.Inserted?
    requires !w.callers[d].pc.Inserted? && !w.callers[d].pc.Checking?
    requires Rows(w.callers[c].input.entries, w.rows) && Rows(w.callers[d].input.entries, w.rows)
    requires CallerOk(w, c) && CallerOk(w, d)
    ensures CallerOk(CommitOf(w, c), d)
  {
    var w' := CommitOf(w, c);
    var other := w.callers[d];
    EndedUntouched(w.(log := w'.log, order := w'.order), c, w'.callers[c].pc, d);
    if other.pc.Done? {
      AnswersStay(w.log, Record(w.callers[c].input, Nothing), other.input, other.pc.result, other.began, other.pc.at);
    }
    assert IdsOf(w', d) == IdsOf(w, d);
  }

  /** A commit keeps the invariant of every other caller. */
  lemma CommitKeepsOther(w: World, c: nat, d: nat)
    requires c < |w.callers| && d < |w.callers| && d != c && w.callers[c].pc.Inserted?
    requires Rows(w.callers[c].input.entries, w.rows) && Rows(w.callers[d].input.entries, w.rows)
    requires CallerOk(w, c) && CallerOk(w, d)
    ensures CallerOk(CommitOf(w, c), d)
  {
    match w.callers[d].pc {
      case Checking(_, _) => CommitKeepsChecking(w, c, d);
      case Inserted(_) => CommitKeepsInserted(w, c, d);
      case _ => CommitKeepsRest(w, c, d);
    }
  }

  // --------------------------------------------------------------- own steps

  lemma GuardListed(input: PostInput)
    ensures forall a :: Guarded(input, a) ==> a in Ledger.GuardList(input)
    ensures forall a :: a in Ledger.GuardList(input) && Touches(input.entries, a) ==> Guarded(input, a)
  {
  }

  /** The refusal is the one an atomic post would have given at the second look-up. */
  lemma RefusalAnswers(w: World, c: nat)
    requires c < |w.callers| && Rows(w.callers[c].input.entries, w.rows) && CallerOk(w, c)
    requires w.callers[c].pc.Checking?
    requires var input := w.callers[c].input;
      var j := w.callers[c].pc.next;
      j < |Ledger.GuardList(input)| && !Passed(w.log, input, Ledger.GuardList(input)[j])
    ensures var input := w.callers[c].input;
            Answers(w.log, input, Refused(Insufficient), w.callers[c].began, w.callers[c].pc.seen)
  {
    var input := w.callers[c].input;
    var seen := w.callers[c].pc.seen;
    var a := Ledger.GuardList(input)[w.callers[c].pc.next];
    GuardListed(input);
    assert a in Ledger.GuardList(input);
    FrozenBalance(w.log, seen, input.entries, a);
    assert Guarded(input, a) && !Affordable(w.log[..seen], input.entries, a);
  }

  lemma AllPassedFunded(log: Log, input: PostInput)
    requires AllPassed(log, input, |Ledger.GuardList(input)|)
    ensures Funded(log, input)
  {
    GuardListed(input);
    forall a | Guarded(input, a) ensures Affordable(log, input.entries, a) {
      assert a in Ledger.GuardList(input);
      var j :| 0 <= j < |Ledger.GuardList(input)| && Ledger.GuardList(input)[j] == a;
      assert Passed(log, input, Ledger.GuardList(input)[j]);
    }
  }

  lemma FoundAnswers(log: Log, input: PostInput, began: nat)
    requires Normalise(input) == Nothing && Find(log, input.key).Just? && began <= |log|
    ensures Answers(log, input, Existing(Find(log, input.key).value), began, |log|)
  {
    assert log[..|log|] == log;
  }

  lemma BeginKeeps(w: World, c: nat)
    requires c < |w.callers| && Rows(w.callers[c].input.entries, w.rows) && CallerOk(w, c) && w.callers[c].pc.Start?
    ensures CallerOk(Begin(w, c), c)
  {
    if Find(w.log, w.callers[c].input.key).Just? { FoundAnswers(w.log, w.callers[c].input, |w.log|); }
  }

  lemma LockKeeps(w: World, c: nat)
    requires c < |w.callers| && Rows(w.callers[c].input.entries, w.rows) && CallerOk(w, c) && w.callers[c].pc.Locking?
    ensures CallerOk(Lock(w, c, w.callers[c].pc.next), c)
  {
    var ids := IdsOf(w, c);
    var k := w.callers[c].pc.next;
    if k < |ids| {
      assert ids[..k + 1] == ids[..k] + [ids[k]];
    } else {
      assert ids[..k] == ids && w.log[..|w.log|] == w.log;
      if Find(w.log, w.callers[c].input.key).Just? { FoundAnswers(w.log, w.callers[c].input, w.callers[c].began); }
    }
  }

  lemma CheckOneKeeps(w: World, c: nat)
    requires c < |w.callers| && Rows(w.callers[c].input.entries, w.rows) && CallerOk(w, c) && w.callers[c].pc.Checking?
    requires w.callers[c].pc.next < |Ledger.GuardList(w.callers[c].input)|
    ensures CallerOk(Check(w, c, w.callers[c].pc.seen, w.callers[c].pc.next), c)
  {
    var input := w.callers[c].input;
    if !Passed(w.log, input, Ledger.GuardList(input)[w.callers[c].pc.next]) { RefusalAnswers(w, c); }
  }

  lemma InsertKeeps(w: World, c: nat)
    requires c < |w.callers| && Rows(w.callers[c].input.entries, w.rows) && CallerOk(w, c) && w.callers[c].pc.Checking?
    requires w.callers[c].pc.next >= |Ledger.GuardList(w.callers[c].input)|
    ensures CallerOk(Check(w, c, w.callers[c].pc.seen, w.callers[c].pc.next), c)
  {
    AllPassedFunded(w.log, w.callers[c].input);
  }

  lemma CheckKeeps(w: World, c: nat)
    requires c < |w.callers| && Rows(w.callers[c].input.entries, w.rows) && CallerOk(w, c) && w.callers[c].pc.Checking?
    ensures CallerOk(Check(w, c, w.callers[c].pc.seen, w.callers[c].pc.next), c)
  {
    if w.callers[c].pc.next < |Ledger.GuardList(w.callers[c].input)| { CheckOneKeeps(w, c); } else { InsertKeeps(w, c); }
  }

  lemma RereadKeeps(w: World, c: nat)
    requires c < |w.callers| && Rows(w.callers[c].input.entries, w.rows) && CallerOk(w, c) && w.callers[c].pc.Violated?
    ensures CallerOk(Reread(w, c), c)
  {
    if Find(w.log, w.callers[c].input.key).Just? { FoundAnswers(w.log, w.callers[c].input, w.callers[c].began); }
  }

  lemma CommitAnswers(w: World, c: nat)
    requires c < |w.callers| && Rows(w.callers[c].input.entries, w.rows) && CallerOk(w, c) && w.callers[c].pc.Inserted?
    requires WellFormed(w.log)
    ensures CallerOk(CommitOf(w, c), c) && WellFormed(CommitOf(w, c).log)
    ensures CommitOf(w, c).log == Post(w.log, w.callers[c].input)
  {
    PostKeepsWellFormed(w.log, w.callers[c].input);
    assert CommitOf(w, c).log[..|w.log|] == w.log;
  }

  /** What is common to every step of c: the others, and what c was asked to post, stay. */
  ghost predicate StepOf(w: World, w': World, c: nat)
    requires c < |w.callers|
  {
    && |w'.callers| == |w.callers| && w'.rows == w.rows && w'.callers[c].input == w.callers[c].input
    && (forall d :: 0 <= d < |w.callers| && d != c ==> Untouched(w, w', d))
    && (forall id :: id in w'.locks ==> w'.locks[id] == c || (id in w.locks && w'.locks[id] == w.locks[id]))
    && (forall key :: key in w'.pending ==>
          (w'.pending[key] == c && w'.callers[c].pc.Inserted? && key == w.callers[c].input.key)
          || (key in w.pending && w'.pending[key] == w.pending[key] != c))
  }

  lemma EndedStep(w: World, c: nat, pc: Pc)
    requires c < |w.callers|
    ensures StepOf(w, Ended(w, c, pc), c)
  {
    forall d | 0 <= d < |w.callers| && d != c ensures Untouched(w, Ended(w, c, pc), d) { EndedUntouched(w, c, pc, d); }
  }

  lemma MovedStep(w: World, c: nat, caller: Caller)
    requires c < |w.callers| && InsertedNothing(w, c) && caller.input == w.callers[c].input
    ensures StepOf(w, w.(callers := w.callers[c := caller]), c)
  {
    var w' := w.(callers := w.callers[c := caller]);
    forall d | 0 <= d < |w.callers| && d != c ensures Untouched(w, w', d) {}
  }

  lemma LockStep(w: World, c: nat, pc: Pc, id: nat)
    requires c < |w.callers| && InsertedNothing(w, c) && id !in w.locks
    ensures StepOf(w, Moved(w, c, pc).(locks := w.locks[id := c]), c)
  {
    var w' := Moved(w, c, pc).(locks := w.locks[id := c]);
    forall d | 0 <= d < |w.callers| && d != c ensures Untouched(w, w', d) {}
  }

  lemma InsertStep(w: World, c: nat, seen: nat)
    requires c < |w.callers| && InsertedNothing(w, c) && w.callers[c].input.key !in w.pending
    ensures StepOf(w, Moved(w, c, Inserted(seen)).(pending := w.pending[w.callers[c].input.key := c]), c)
  {
    var w' := Moved(w, c, Inserted(seen)).(pending := w.pending[w.callers[c].input.key := c]);
    forall d | 0 <= d < |w.callers| && d != c ensures Untouched(w, w', d) {}
  }

  lemma BlockedStep(w: World, c: nat)
    requires c < |w.callers| && (InsertedNothing(w, c) || w.callers[c].pc.Inserted?)
    requires forall key :: key in w.pending && w.pending[key] == c ==> key == w.callers[c].input.key
    ensures StepOf(w, w, c)
  {
    forall d | 0 <= d < |w.callers| && d != c ensures Untouched(w, w, d) {}
  }

  lemma LockIsStep(w: World, c: nat)
    requires c < |w.callers| && Rows(w.callers[c].input.entries, w.rows) && CallerOk(w, c) && w.callers[c].pc.Locking?
    ensures StepOf(w, Lock(w, c, w.callers[c].pc.next), c)
  {
    var ids := IdsOf(w, c);
    var k := w.callers[c].pc.next;
    var found := Find(w.log, w.callers[c].input.key);
    if k < |ids| {
      if ids[k] in w.locks { BlockedStep(w, c); } else { LockStep(w, c, Locking(k + 1), ids[k]); }
    } else if found.Just? {
      EndedStep(w, c, Done(Existing(found.value), |w.log|));
    } else {
      MovedStep(w, c, w.callers[c].(pc := Checking(|w.log|, 0)));
    }
  }

  lemma CheckIsStep(w: World, c: nat)
    requires c < |w.callers| && Rows(w.callers[c].input.entries, w.rows) && CallerOk(w, c) && w.callers[c].pc.Checking?
    ensures StepOf(w, Check(w, c, w.callers[c].pc.seen, w.callers[c].pc.next), c)
  {
    var input := w.callers[c].input;
    var seen, j := w.callers[c].pc.seen, w.callers[c].pc.next;
    if j < |Ledger.GuardList(input)| {
      if !Passed(w.log, input, Ledger.GuardList(input)[j]) { EndedStep(w, c, Done(Refused(Insufficient), seen)); }
      else { MovedStep(w, c, w.callers[c].(pc := Checking(seen, j + 1))); }
    } else if Find(w.log, input.key).Just? {
      EndedStep(w, c, Violated);
    } else if input.key in w.pending {
      BlockedStep(w, c);
    } else {
      InsertStep(w, c, seen);
    }
  }

  lemma BeginIsStep(w: World, c: nat)
    requires c < |w.callers| && InsertedNothing(w, c)
    ensures StepOf(w, Begin(w, c), c)
  {
    MovedStep(w, c, Begin(w, c).callers[c]);
  }

  lemma RereadIsStep(w: World, c: nat)
    requires c < |w.callers| && InsertedNothing(w, c)
    ensures StepOf(w, Reread(w, c), c)
  {
    MovedStep(w, c, Reread(w, c).callers[c]);
  }

  lemma LockWritesNothing(w: World, c: nat, k: nat)
    requires c < |w.callers| && Rows(w.callers[c].input.entries, w.rows)
    ensures Lock(w, c, k).log == w.log && Lock(w, c, k).order == w.order
  {
  }

  lemma CheckWritesNothing(w: World, c: nat, seen: nat, j: nat)
    requires c < |w.callers|
    ensures Check(w, c, seen, j).log == w.log && Check(w, c, seen, j).order == w.order
  {
  }

  /** Every step of c that is no commit keeps c's own invariant and leaves the others alone. */
  lemma OwnStep(w: World, c: nat)
    requires c < |w.callers| && Rows(w.callers[c].input.entries, w.rows) && CallerOk(w, c) && !w.callers[c].pc.Inserted?
    ensures StepOf(w, Advance(w, c), c) && CallerOk(Advance(w, c), c)
    ensures Advance(w, c).log == w.log && Advance(w, c).order == w.order
  {
    match w.callers[c].pc {
      case Start => BeginKeeps(w, c); BeginIsStep(w, c);
      case Locking(k) => LockKeeps(w, c); LockIsStep(w, c); LockWritesNothing(w, c, k);
      case Checking(seen, j) => CheckKeeps(w, c); CheckIsStep(w, c); CheckWritesNothing(w, c, seen, j);
      case Violated => RereadKeeps(w, c); RereadIsStep(w, c);
      case _ => BlockedStep(w, c);
    }
  }

  lemma CommitIsStep(w: World, c: nat)
    requires c < |w.callers|
    ensures StepOf(w, CommitOf(w, c), c)
  {
    EndedStep(w.(log := CommitOf(w, c).log, order := CommitOf(w, c).order), c, CommitOf(w, c).callers[c].pc);
    forall d | 0 <= d < |w.callers| && d != c ensures Untouched(w, CommitOf(w, c), d) {
      EndedUntouched(w.(log := CommitOf(w, c).log, order := CommitOf(w, c).order), c, CommitOf(w, c).callers[c].pc, d);
    }
  }

  lemma CommitKeeps(w: World, c: nat)
    requires Sane(w) && c < |w.callers| && w.callers[c].pc.Inserted?
    ensures Sane(Advance(w, c))
  {
    var w' := CommitOf(w, c);
    assert CallerOk(w, c);
    CommitIsStep(w, c);
    CommitAnswers(w, c);
    forall d | 0 <= d < |w'.callers| ensures Rows(w'.callers[d].input.entries, w'.rows) && CallerOk(w', d) {
      if d != c {
        assert CallerOk(w, d) && Untouched(w, w', d);
        CommitKeepsOther(w, c, d);
      }
    }
  }

  /** A step that leaves the log alone keeps the whole invariant when it keeps c's. */
  lemma StepKeeps(w: World, w': World, c: nat)
    requires Sane(w) && c < |w.callers| && StepOf(w, w', c) && w'.log == w.log
    requires Rows(w'.callers[c].input.entries, w'.rows) && CallerOk(w', c)
    ensures Sane(w')
  {
    forall d | 0 <= d < |w'.callers| ensures Rows(w'.callers[d].input.entries, w'.rows) && CallerOk(w', d) {
      if d != c {
        assert CallerOk(w, d);
        OtherKeeps(w, w', d);
      }
    }
    forall key | key in w'.pending
      ensures w'.pending[key] < |w'.callers| && w'.callers[w'.pending[key]].pc.Inserted?
              && w'.callers[w'.pending[key]].input.key == key
    {
      if w'.pending[key] != c { assert Untouched(w, w', w'.pending[key]); }
    }
  }

  lemma StopKeeps(w: World, c: nat)
    requires Sane(w) && c < |w.callers|
    ensures Sane(Stop(w, c))
  {
    assert CallerOk(w, c);
    if !w.callers[c].pc.Done? {
      EndedStep(w, c, Stopped);
      StepKeeps(w, Stop(w, c), c);
    }
  }

  lemma ActKeeps(w: World, a: Action)
    requires Sane(w)
    ensures Sane(Act(w, a))
  {
    if a.caller < |w.callers| {
      assert CallerOk(w, a.caller);
      if a.Kill? {
        StopKeeps(w, a.caller);
      } else if w.callers[a.caller].pc.Inserted? {
        CommitKeeps(w, a.caller);
      } else {
        OwnStep(w, a.caller);
        StepKeeps(w, Advance(w, a.caller), a.caller);
      }
    }
  }

  // ------------------------------------------------------------------- runs

  ghost function Interleave(w: World, actions: seq<Action>): World
    requires Sane(w)
    decreases |actions|
  {
    if actions == [] then w
    else
      ActKeeps(w, actions[0]);
      Interleave(Act(w, actions[0]), actions[1..])
  }

  /** Callers about to post, over accounts that exist, on a ledger at rest. */
  ghost predicate Initial(w: World) {
    && Known(w) && WellFormed(w.log) && UniqueIds(w.rows) && w.locks == map[] && w.pending == map[] && w.order == []
    && forall c :: 0 <= c < |w.callers| ==>
         w.callers[c].pc == Start && w.callers[c].began <= |w.log| &&
         Ordinary(w.callers[c].input) && Normalise(w.callers[c].input) == Nothing
  }

  lemma InitialSane(w: World)
    requires Initial(w)
    ensures Sane(w)
  {
  }

  /** The posts committed, one after the other, each at once. */
  ghost function Serial(w: World, log: Log, order: seq<nat>): Log
    requires forall n :: 0 <= n < |order| ==> order[n] < |w.callers|
  {
    if order == [] then log
    else Post(Serial(w, log, order[..|order| - 1]), w.callers[order[|order| - 1]].input)
  }

  predicate SameInputs(w: World, w': World) {
    |w'.callers| == |w.callers| && forall c :: 0 <= c < |w.callers| ==> w'.callers[c].input == w.callers[c].input
  }

  lemma {:induction false} SerialFrame(w: World, w': World, log: Log, order: seq<nat>)
    requires SameInputs(w, w') && forall n :: 0 <= n < |order| ==> order[n] < |w.callers|
    ensures Serial(w', log, order) == Serial(w, log, order)
  {
    if order != [] { SerialFrame(w, w', log, order[..|order| - 1]); }
  }

  /** The log so far is a serial history from `start`. */
  ghost predicate Serialised(w: World, start: Log) {
    InOrder(w, |start|) && w.log == Serial(w, start, w.order)
  }

  lemma DoneStays(w: World, a: Action)
    requires Sane(w)
    ensures SameInputs(w, Act(w, a))
    ensures forall c :: 0 <= c < |w.callers| && w.callers[c].pc.Done? ==> Act(w, a).callers[c] == w.callers[c]
  {
    if a.caller < |w.callers| {
      var c := a.caller;
      assert CallerOk(w, c);
      if w.callers[c].pc.Done? {
        assert Act(w, a) == w;
      } else {
        ActIsStep(w, a);
        forall d | 0 <= d < |w.callers| && d != c ensures Act(w, a).callers[d] == w.callers[d] {
          assert Untouched(w, Act(w, a), d);
        }
      }
    }
  }

  lemma ActIsStep(w: World, a: Action)
    requires Sane(w) && a.caller < |w.callers| && !w.callers[a.caller].pc.Done?
    ensures StepOf(w, Act(w, a), a.caller)
  {
    assert CallerOk(w, a.caller);
    if a.Kill? { EndedStep(w, a.caller, Stopped); }
    else if w.callers[a.caller].pc.Inserted? { CommitIsStep(w, a.caller); }
    else { OwnStep(w, a.caller); }
  }

  /** Only a commit writes. */
  lemma OnlyCommitsWrite(w: World, a: Action)
    requires Sane(w)
    ensures if a.Go? && a.caller < |w.callers| && w.callers[a.caller].pc.Inserted? then Act(w, a) == CommitOf(w, a.caller)
            else Act(w, a).log == w.log && Act(w, a).order == w.order
  {
    if a.Go? && a.caller < |w.callers| && !w.callers[a.caller].pc.Inserted? {
      assert CallerOk(w, a.caller);
      OwnStep(w, a.caller);
    }
  }

  lemma CommitInOrder(w: World, c: nat, base: nat)
    requires c < |w.callers| && w.callers[c].pc.Inserted? && InOrder(w, base)
    ensures InOrder(CommitOf(w, c), base)
  {
  }

  lemma CommitSerialises(w: World, c: nat, start: Log)
    requires c < |w.callers| && Rows(w.callers[c].input.entries, w.rows) && CallerOk(w, c) && w.callers[c].pc.Inserted?
    requires WellFormed(w.log) && Serialised(w, start) && SameInputs(w, CommitOf(w, c))
    ensures Serialised(CommitOf(w, c), start)
  {
    var w' := CommitOf(w, c);
    CommitAnswers(w, c);
    CommitInOrder(w, c, |start|);
    SerialFrame(w, w', start, w.order);
    assert w'.order == w.order + [c] && w'.order[..|w.order|] == w.order;
  }

  lemma ActSerialises(w: World, a: Action, start: Log)
    requires Sane(w) && Serialised(w, start)
    ensures Serialised(Act(w, a), start)
  {
    DoneStays(w, a);
    OnlyCommitsWrite(w, a);
    if a.Go? && a.caller < |w.callers| && w.callers[a.caller].pc.Inserted? {
      assert CallerOk(w, a.caller);
      CommitSerialises(w, a.caller, start);
    } else {
      SerialFrame(w, Act(w, a), start, w.order);
    }
  }

  lemma {:induction false} RunSerialises(w: World, actions: seq<Action>, start: Log)
    requires Sane(w) && Serialised(w, start)
    ensures Sane(Interleave(w, actions)) && Serialised(Interleave(w, actions), start)
    decreases |actions|
  {
    if actions != [] {
      ActKeeps(w, actions[0]);
      ActSerialises(w, actions[0], start);
      RunSerialises(Act(w, actions[0]), actions[1..], start);
    }
  }

  /** Every interleaving, stops included, commits the log that the same posts give one after
      the other in commit order; there is at most one transaction per key and no USER account
      below zero; and each finished call got the answer an atomic post would have given at
      some moment between its start and its end. */
  lemma Linearizable(w: World, actions: seq<Action>)
    requires Initial(w)
    ensures Sane(w)
    ensures var w' := Interleave(w, actions);
            && |w'.callers| == |w.callers|
            && (forall n :: 0 <= n < |w'.order| ==> w'.order[n] < |w'.callers|)
            && w'.log == Serial(w', w.log, w'.order)
            && UniqueKeys(w'.log) && NonNegative(w'.log)
            && forall c :: 0 <= c < |w'.callers| && w'.callers[c].pc.Done? ==>
                 Answers(w'.log, w'.callers[c].input, w'.callers[c].pc.result, w'.callers[c].began, w'.callers[c].pc.at)
  {
    InitialSane(w);
    RunSerialises(w, actions, w.log);
    SameCallers(w, actions);
    var w' := Interleave(w, actions);
    forall c | 0 <= c < |w'.callers| && w'.callers[c].pc.Done?
      ensures Answers(w'.log, w'.callers[c].input, w'.callers[c].pc.result, w'.callers[c].began, w'.callers[c].pc.at)
    {
      assert CallerOk(w', c);
    }
  }

  lemma {:induction false} SameCallers(w: World, actions: seq<Action>)
    requires Sane(w)
    ensures |Interleave(w, actions).callers| == |w.callers|
    decreases |actions|
  {
    if actions != [] {
      ActKeeps(w, actions[0]);
      DoneStays(w, actions[0]);
      SameCallers(Act(w, actions[0]), actions[1..]);
    }
  }

  // --------------------------------------------------------------- deadlock

  /** c cannot move until d does: d holds the row c wants, or has inserted the key c wants. */
  ghost predicate WaitsFor(w: World, c: nat, d: nat)
    requires Known(w)
  {
    && c < |w.callers| && d < |w.callers|
    && var caller := w.callers[c];
       match caller.pc
       case Locking(k) => k < |IdsOf(w, c)| && IdsOf(w, c)[k] in w.locks && w.locks[IdsOf(w, c)[k]] == d
       case Checking(_, j) =>
         && j >= |Ledger.GuardList(caller.input)| && Find(w.log, caller.input.key) == Nothing
         && caller.input.key in w.pending && w.pending[caller.input.key] == d
       case _ => false
  }

  /** How far a caller has got in the global order of what callers wait for. */
  ghost function Level(w: World, c: nat): nat
    requires Known(w) && c < |w.callers|
  {
    match w.callers[c].pc
    case Locking(k) => if k < |IdsOf(w, c)| then IdsOf(w, c)[k] else |w.rows| + 1
    case Checking(_, _) => |w.rows|
    case _ => |w.rows| + 1
  }

  /** A caller waits only for callers further on. */
  lemma WaitsForFurther(w: World, c: nat, d: nat)
    requires Sane(w) && WaitsFor(w, c, d)
    ensures Level(w, c) < Level(w, d) && !w.callers[d].pc.Done? && !w.callers[d].pc.Stopped?
  {
    assert CallerOk(w, c) && CallerOk(w, d);
    LockIdsSorted(w.rows, w.callers[c].input.entries);
    LockIdsSorted(w.rows, w.callers[d].input.entries);
    if w.callers[c].pc.Locking? {
      var k := w.callers[c].pc.next;
      var want := IdsOf(w, c)[k];
      assert want in IdsOf(w, c);
      assert want < |w.rows|;
      if w.callers[d].pc.Locking? {
        var held := IdsOf(w, d)[..w.callers[d].pc.next];
        assert want in held;
        var n :| 0 <= n < |held| && held[n] == want;
      }
    }
  }

  /** The waits-for relation never has a cycle: along any chain the level grows. */
  lemma {:induction false} NoDeadlock(w: World, chain: seq<nat>)
    requires Sane(w) && |chain| >= 2
    requires forall n :: 0 <= n < |chain| - 1 ==> WaitsFor(w, chain[n], chain[n + 1])
    ensures chain[0] != chain[|chain| - 1]
    ensures chain[0] < |w.callers| && chain[|chain| - 1] < |w.callers|
    ensures Level(w, chain[0]) < Level(w, chain[|chain| - 1])
  {
    var n := |chain| - 1;
    assert WaitsFor(w, chain[n - 1], chain[n]);
    WaitsForFurther(w, chain[n - 1], chain[n]);
    if n > 1 {
      forall m | 0 <= m < n - 1 ensures WaitsFor(w, chain[..n][m], chain[..n][m + 1]) {
        assert WaitsFor(w, chain[m], chain[m + 1]);
      }
      NoDeadlock(w, chain[..n]);
    }
  }

  predicate Running(w: World, c: nat) {
    c < |w.callers| && !w.callers[c].pc.Done? && !w.callers[c].pc.Stopped?
  }

  ghost predicate Blocked(w: World, c: nat)
    requires Known(w)
  {
    exists d :: 0 <= d < |w.callers| && WaitsFor(w, c, d)
  }

  /** As long as a call is unfinished, some unfinished call is not waiting for anyone. */
  lemma {:induction false} SomeoneMoves(w: World, c: nat)
    requires Sane(w) && Running(w, c)
    ensures exists d :: 0 <= d < |w.callers| && Running(w, d) && !Blocked(w, d)
    decreases |w.rows| + 1 - Level(w, c)
  {
    if Blocked(w, c) {
      var d :| 0 <= d < |w.callers| && WaitsFor(w, c, d);
      WaitsForFurther(w, c, d);
      LevelBounded(w, d);
      LevelBounded(w, c);
      SomeoneMoves(w, d);
    }
  }

  lemma LevelBounded(w: World, c: nat)
    requires Sane(w) && c < |w.callers|
    ensures Level(w, c) <= |w.rows| + 1
  {
    if w.callers[c].pc.Locking? && w.callers[c].pc.next < |IdsOf(w, c)| {
      LockIdsSorted(w.rows, w.callers[c].input.entries);
      assert IdsOf(w, c)[w.callers[c].pc.next] in IdsOf(w, c);
    }
  }

  lemma LockMovesOrWaits(w: World, c: nat)
    requires Known(w) && c < |w.callers| && w.callers[c].pc.Locking?
    requires forall id :: id in w.locks ==> w.locks[id] < |w.callers|
    ensures Lock(w, c, w.callers[c].pc.next).callers[c].pc != w.callers[c].pc || Blocked(w, c)
  {
    var k := w.callers[c].pc.next;
    if k < |IdsOf(w, c)| && IdsOf(w, c)[k] in w.locks { assert WaitsFor(w, c, w.locks[IdsOf(w, c)[k]]); }
  }

  lemma CheckMovesOrWaits(w: World, c: nat)
    requires Known(w) && c < |w.callers| && w.callers[c].pc.Checking?
    requires forall key :: key in w.pending ==> w.pending[key] < |w.callers|
    ensures Check(w, c, w.callers[c].pc.seen, w.callers[c].pc.next).callers[c].pc != w.callers[c].pc || Blocked(w, c)
  {
    var key := w.callers[c].input.key;
    if w.callers[c].pc.next >= |Ledger.GuardList(w.callers[c].input)| && key in w.pending && Find(w.log, key).Nothing? {
      assert WaitsFor(w, c, w.pending[key]);
    }
  }

  /** A caller that waits for nobody and is not finished takes a step. */
  lemma UnblockedMoves(w: World, c: nat)
    requires Sane(w) && Running(w, c)
    ensures Advance(w, c) != w || Blocked(w, c)
  {
    match w.callers[c].pc {
      case Locking(_) => LockMovesOrWaits(w, c);
      case Checking(_, _) => CheckMovesOrWaits(w, c);
      case Start => assert Advance(w, c).callers[c].pc != w.callers[c].pc;
      case Inserted(_) => assert Advance(w, c).callers[c].pc != w.callers[c].pc;
      case Violated => assert Advance(w, c).callers[c].pc != w.callers[c].pc;
      case _ =>
    }
  }
}
