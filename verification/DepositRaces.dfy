/** Deposits when webhooks, rechecks, the expiry job and forced completions run at the same
    time and may stop anywhere (`src/modules/payments/payments.service.ts`): the ledger post
    and the update of the intent are separate commits, and neither re-reads the intent. */
module DepositRaces {
  import opened Decimals
  import opened LedgerModel
  import opened BrokerageModel

  /** Where one call has got to. `seen` is the intent as the call read it. */
  datatype Caller =
    | Ready
    | Asking(id: nat, seen: Intent)
    | Crediting(id: nat, seen: Intent)
    | Credited(id: nat, seen: Intent, txn: nat)
    | Failing(id: nat)
    | Expiring(id: nat)
    /** `createDeposit` waiting for the collection request, and for the confirmation it starts. */
    | Requesting(id: nat)
    | Syncing(id: nat)

  datatype World = World(log: Log, intents: seq<Intent>, callers: seq<Caller>)

  datatype Event =
    | Confirm(id: nat)
    | Answered(answer: ProviderAnswer)
    | Force(id: nat)
    | PostDeposit
    | MarkPaid
    | MarkFailed
    | StartExpiry(id: nat)
    | MarkExpired
    | CreateDeposit(intent: Intent)
    | Requested(answer: ProviderAnswer)
    | SyncDone
    | SyncFailed
    | Crash
    /** Anything else that happens on the ledger or the intent table. */
    | Elsewhere(call: Call)
    | Created(intent: Intent)

  function With(w: World, a: nat, c: Caller): World
    requires a < |w.callers|
  {
    w.(callers := w.callers[a := c])
  }

  function Store(w: World, id: nat, i: Intent): World {
    if id < |w.intents| then w.(intents := w.intents[id := i]) else w
  }

  predicate IsOpen(i: Intent) {
    i.state == IntentState.Created || i.state == IntentState.Pending
  }

  /** One step of caller a. */
  ghost function Advance(w: World, a: nat, e: Event): World
    requires a < |w.callers|
  {
    var c := w.callers[a];
    match e
    case Confirm(id) =>
      if c.Ready? && id < |w.intents| && w.intents[id].direction == IN &&
         w.intents[id].state !in {Paid, FailedIntent, Cancelled}
      then With(w, a, Asking(id, w.intents[id])) else w
    case Answered(answer) =>
      if !c.Asking? then w
      else if answer == AnswerPaid then With(w, a, Crediting(c.id, c.seen))
      else if answer == AnswerFailed then With(w, a, Failing(c.id))
      else With(w, a, Ready)
    case Force(id) =>
      if c.Ready? && id < |w.intents| && w.intents[id].direction == IN && w.intents[id].state !in {Paid, Cancelled}
      then With(w, a, Crediting(id, w.intents[id])) else w
    case PostDeposit =>
      if !c.Crediting? then w
      else
        var input := DepositInput(c.id, c.seen);
        (match Outcome(w.log, input)
         case Posted(txn) => With(w.(log := Post(w.log, input)), a, Credited(c.id, c.seen, txn))
         case Existing(txn) => With(w, a, Credited(c.id, c.seen, txn))
         case Refused(_) => With(w, a, Ready))
    case MarkPaid =>
      if c.Credited? && c.id < |w.intents|
      then With(Store(w, c.id, w.intents[c.id].(state := Paid, txn := Just(c.txn))), a, Ready) else w
    case MarkFailed =>
      if c.Failing? && c.id < |w.intents|
      then With(Store(w, c.id, w.intents[c.id].(state := FailedIntent)), a, Ready) else w
    case StartExpiry(id) =>
      if c.Ready? && id < |w.intents| && w.intents[id].direction == IN && IsOpen(w.intents[id])
      then With(w, a, Expiring(id)) else w
    case MarkExpired =>
      if !c.Expiring? then w
      else if c.id < |w.intents| && IsOpen(w.intents[c.id])
      then With(Store(w, c.id, w.intents[c.id].(state := Expired)), a, Ready)
      else With(w, a, Ready)
    case CreateDeposit(intent) =>
      if c.Ready? && intent.direction == IN && intent.state == IntentState.Created
      then With(w.(intents := w.intents + [intent]), a, Requesting(|w.intents|)) else w
    case Requested(answer) =>
      if c.Requesting? && c.id < |w.intents|
      then With(Store(w, c.id, w.intents[c.id].(state := if answer == AnswerFailed then FailedIntent else IntentState.Pending)),
                a, if answer == AnswerPaid then Syncing(c.id) else Ready)
      else w
    case SyncDone => if c.Syncing? then With(w, a, Ready) else w
    case SyncFailed =>
      if c.Syncing? && c.id < |w.intents|
      then With(Store(w, c.id, w.intents[c.id].(state := IntentState.Pending)), a, Ready) else w
    case Crash => With(w, a, Ready)
    case Elsewhere(call) => if Foreign(w.log, call) then w.(log := Step(w.log, call)) else w
    case Created(intent) => if intent.state != Paid then w.(intents := w.intents + [intent]) else w
  }

  /** Every other use of the ledger: no deposit key, no reversal of a deposit. */
  predicate Foreign(log: Log, call: Call) {
    match call
    case PostCall(input) => Ordinary(input) && !input.key.Deposit?
    case ReverseCall(id) => id < |log| && log[id].typ != DEPOSIT
  }

  datatype Action = Action(caller: nat, event: Event)

  ghost function Interleave(w: World, actions: seq<Action>): World
    decreases |actions|
  {
    if actions == [] then w
    else Interleave(if actions[0].caller < |w.callers| then Advance(w, actions[0].caller, actions[0].event) else w,
                    actions[1..])
  }

  // ------------------------------------------------------------- invariant

  /** The same deposit: what an update never changes. */
  predicate SameDeal(i: Intent, j: Intent) {
    j == i.(state := j.state, txn := j.txn)
  }

  /** A DEPOSIT is for exactly its intent's amount. */
  predicate DepositOk(intents: seq<Intent>, t: Txn) {
    t.key.Deposit? ==>
      && t.key.intent < |intents|
      && intents[t.key.intent].direction == IN
      && t == Record(DepositInput(t.key.intent, intents[t.key.intent]), Nothing).(status := t.status)
  }

  predicate PaidOk(log: Log, n: nat, i: Intent) {
    i.direction == IN && i.state == Paid ==>
      i.txn.Just? && i.txn.value < |log| && log[i.txn.value].key == Key.Deposit(n)
  }

  predicate CallerOk(w: World, c: Caller) {
    match c
    case Asking(id, seen) => id < |w.intents| && SameDeal(seen, w.intents[id]) && seen.direction == IN
    case Crediting(id, seen) => id < |w.intents| && SameDeal(seen, w.intents[id]) && seen.direction == IN
    case Credited(id, seen, txn) =>
      && id < |w.intents| && SameDeal(seen, w.intents[id]) && seen.direction == IN
      && txn < |w.log| && w.log[txn].key == Key.Deposit(id)
    case _ => true
  }

  ghost predicate Sane(w: World) {
    && WellFormed(w.log)
    && (forall t :: 0 <= t < |w.log| ==> DepositOk(w.intents, w.log[t]))
    && (forall n :: 0 <= n < |w.intents| ==> PaidOk(w.log, n, w.intents[n]))
    && (forall a :: 0 <= a < |w.callers| ==> CallerOk(w, w.callers[a]))
  }

  lemma IntentStored(w: World, a: nat, id: nat, i: Intent, c: Caller)
    requires Sane(w) && a < |w.callers| && id < |w.intents| && SameDeal(w.intents[id], i) && PaidOk(w.log, id, i)
    requires c == Ready || c.Syncing?
    ensures Sane(With(Store(w, id, i), a, c))
  {
    var next := With(Store(w, id, i), a, c);
    forall t | 0 <= t < |next.log| ensures DepositOk(next.intents, next.log[t]) {
      assert DepositOk(w.intents, w.log[t]);
    }
    forall n | 0 <= n < |next.intents| ensures PaidOk(next.log, n, next.intents[n]) {
      assert PaidOk(w.log, n, w.intents[n]);
    }
    forall b | 0 <= b < |next.callers| ensures CallerOk(next, next.callers[b]) {
      assert CallerOk(w, w.callers[b]);
    }
  }

  lemma CallerMoved(w: World, a: nat, c: Caller)
    requires Sane(w) && a < |w.callers| && CallerOk(w, c)
    ensures Sane(With(w, a, c))
  {
    var next := With(w, a, c);
    forall b | 0 <= b < |next.callers| ensures CallerOk(next, next.callers[b]) {
      if b != a { assert CallerOk(w, w.callers[b]); }
    }
    forall n | 0 <= n < |next.intents| ensures PaidOk(next.log, n, next.intents[n]) {
      assert PaidOk(w.log, n, w.intents[n]);
    }
  }

  lemma LogGrew(w: World, log: Log)
    requires Sane(w) && WellFormed(log) && Grows(w.log, log)
    requires forall t :: |w.log| <= t < |log| ==> DepositOk(w.intents, log[t])
    ensures Sane(w.(log := log))
  {
    var next := w.(log := log);
    forall t | 0 <= t < |log| ensures DepositOk(w.intents, log[t]) {
      if t < |w.log| { assert DepositOk(w.intents, w.log[t]); }
    }
    forall n | 0 <= n < |w.intents| ensures PaidOk(log, n, w.intents[n]) {
      assert PaidOk(w.log, n, w.intents[n]);
    }
    forall b | 0 <= b < |w.callers| ensures CallerOk(next, w.callers[b]) {
      assert CallerOk(w, w.callers[b]);
    }
  }

  lemma DepositPosted(w: World, a: nat)
    requires Sane(w) && a < |w.callers| && w.callers[a].Crediting?
    ensures Sane(Advance(w, a, PostDeposit))
  {
    var c := w.callers[a];
    assert CallerOk(w, c);
    var input := DepositInput(c.id, c.seen);
    assert input == DepositInput(c.id, w.intents[c.id]);
    FindIsKey(w.log, input.key);
    match Outcome(w.log, input) {
      case Posted(txn) =>
        PostKeepsWellFormed(w.log, input);
        var log := Post(w.log, input);
        LogGrew(w, log);
        CallerMoved(w.(log := log), a, Credited(c.id, c.seen, txn));
      case Existing(txn) => CallerMoved(w, a, Credited(c.id, c.seen, txn));
      case Refused(_) => CallerMoved(w, a, Ready);
    }
  }

  /** What other calls add to the ledger is no deposit. */
  lemma ForeignAdds(log: Log, call: Call)
    requires WellFormed(log) && Foreign(log, call)
    ensures var after := Step(log, call);
            WellFormed(after) && Grows(log, after) &&
            forall t :: |log| <= t < |after| ==> !after[t].key.Deposit?
  {
    match call {
      case PostCall(input) => PostKeepsWellFormed(log, input);
      case ReverseCall(id) => ReverseKeepsWellFormed(log, id);
    }
  }

  lemma ElsewhereKeeps(w: World, call: Call)
    requires Sane(w) && Foreign(w.log, call)
    ensures Sane(w.(log := Step(w.log, call)))
  {
    ForeignAdds(w.log, call);
    LogGrew(w, Step(w.log, call));
  }

  lemma CreatedKeeps(w: World, i: Intent)
    requires Sane(w) && i.state != Paid
    ensures Sane(w.(intents := w.intents + [i]))
  {
    var next := w.(intents := w.intents + [i]);
    forall t | 0 <= t < |next.log| ensures DepositOk(next.intents, next.log[t]) {
      assert DepositOk(w.intents, w.log[t]);
    }
    forall n | 0 <= n < |next.intents| ensures PaidOk(next.log, n, next.intents[n]) {
      if n < |w.intents| { assert PaidOk(w.log, n, w.intents[n]); }
    }
    forall b | 0 <= b < |next.callers| ensures CallerOk(next, next.callers[b]) {
      assert CallerOk(w, w.callers[b]);
    }
  }

  lemma AdvanceKeeps(w: World, a: nat, e: Event)
    requires Sane(w) && a < |w.callers|
    ensures Sane(Advance(w, a, e))
  {
    var c := w.callers[a];
    assert CallerOk(w, c);
    match e {
      case Confirm(id) => if Advance(w, a, e) != w { CallerMoved(w, a, Asking(id, w.intents[id])); }
      case Answered(answer) =>
        if c.Asking? {
          CallerMoved(w, a, if answer == AnswerPaid then Crediting(c.id, c.seen)
                            else if answer == AnswerFailed then Failing(c.id) else Ready);
        }
      case Force(id) => if Advance(w, a, e) != w { CallerMoved(w, a, Crediting(id, w.intents[id])); }
      case PostDeposit => if c.Crediting? { DepositPosted(w, a); }
      case MarkPaid => if c.Credited? { IntentStored(w, a, c.id, w.intents[c.id].(state := Paid, txn := Just(c.txn)), Ready); }
      case MarkFailed =>
        if c.Failing? && c.id < |w.intents| { IntentStored(w, a, c.id, w.intents[c.id].(state := FailedIntent), Ready); }
      case StartExpiry(id) => if Advance(w, a, e) != w { CallerMoved(w, a, Expiring(id)); }
      case MarkExpired =>
        if c.Expiring? {
          if c.id < |w.intents| && IsOpen(w.intents[c.id]) {
            IntentStored(w, a, c.id, w.intents[c.id].(state := Expired), Ready);
          } else {
            CallerMoved(w, a, Ready);
          }
        }
      case CreateDeposit(intent) =>
        if Advance(w, a, e) != w {
          CreatedKeeps(w, intent);
          CallerMoved(w.(intents := w.intents + [intent]), a, Requesting(|w.intents|));
        }
      case Requested(answer) =>
        if c.Requesting? && c.id < |w.intents| {
          IntentStored(w, a, c.id, w.intents[c.id].(state := if answer == AnswerFailed then FailedIntent else IntentState.Pending),
                       if answer == AnswerPaid then Syncing(c.id) else Ready);
        }
      case SyncDone => if c.Syncing? { CallerMoved(w, a, Ready); }
      case SyncFailed =>
        if c.Syncing? && c.id < |w.intents| { IntentStored(w, a, c.id, w.intents[c.id].(state := IntentState.Pending), Ready); }
      case Crash => CallerMoved(w, a, Ready);
      case Elsewhere(call) => if Foreign(w.log, call) { ElsewhereKeeps(w, call); }
      case Created(intent) => if intent.state != Paid { CreatedKeeps(w, intent); }
    }
  }

  lemma {:induction false} InterleavingKeeps(w: World, actions: seq<Action>)
    requires Sane(w)
    ensures Sane(Interleave(w, actions))
    decreases |actions|
  {
    if actions != [] {
      if actions[0].caller < |w.callers| {
        AdvanceKeeps(w, actions[0].caller, actions[0].event);
        InterleavingKeeps(Advance(w, actions[0].caller, actions[0].event), actions[1..]);
      } else {
        InterleavingKeeps(w, actions[1..]);
      }
    }
  }

  /** Nothing has happened yet. */
  predicate Blank(w: World) {
    && w.log == [] && (forall n :: 0 <= n < |w.intents| ==> w.intents[n].state != Paid)
    && forall a :: 0 <= a < |w.callers| ==> w.callers[a] == Ready
  }

  /** In every interleaving of any number of calls, crashes included: an intent has at most one
      DEPOSIT, for exactly its amount, credited to its user; and a deposit intent is PAID only
      when it points at that transaction. */
  lemma AtMostOneDeposit(start: World, actions: seq<Action>, n: nat)
    requires Blank(start) && n < |Interleave(start, actions).intents|
    ensures var w := Interleave(start, actions);
            var i := w.intents[n];
            && (forall s, t :: (0 <= s < |w.log| && 0 <= t < |w.log| &&
                                w.log[s].key == Key.Deposit(n) && w.log[t].key == Key.Deposit(n)) ==> s == t)
            && (forall t :: 0 <= t < |w.log| && w.log[t].key == Key.Deposit(n) ==>
                  w.log[t].typ == DEPOSIT && i.direction == IN && w.log[t].entries == DepositInput(n, i).entries)
            && (i.direction == IN && i.state == Paid ==> i.txn.Just? && Find(w.log, Key.Deposit(n)) == i.txn)
  {
    assert NonNegative([]);
    InterleavingKeeps(start, actions);
    var w := Interleave(start, actions);
    forall t | 0 <= t < |w.log| && w.log[t].key == Key.Deposit(n)
      ensures w.log[t].typ == DEPOSIT && w.intents[n].direction == IN && w.log[t].entries == DepositInput(n, w.intents[n]).entries
    {
      assert DepositOk(w.intents, w.log[t]);
    }
    FindIsKey(w.log, Key.Deposit(n));
    assert PaidOk(w.log, n, w.intents[n]);
  }

  /** A crash between the two commits is healed by the next confirmation: the same transaction
      is found, nothing is posted, and the intent becomes PAID. */
  lemma ConfirmHeals(w: World, a: nat, n: nat)
    requires Sane(w) && a < |w.callers| && w.callers[a] == Ready && n < |w.intents|
    requires w.intents[n].direction == IN && w.intents[n].state !in {Paid, FailedIntent, Cancelled}
    requires Find(w.log, Key.Deposit(n)).Just?
    ensures var txn := Find(w.log, Key.Deposit(n)).value;
            var w1 := Advance(w, a, Event.Confirm(n));
            var w2 := Advance(w1, a, Answered(AnswerPaid));
            var w3 := Advance(w2, a, PostDeposit);
            Advance(w3, a, MarkPaid) == w.(intents := w.intents[n := w.intents[n].(state := Paid, txn := Just(txn))])
  {
    var txn := Find(w.log, Key.Deposit(n)).value;
    FindIsKey(w.log, Key.Deposit(n));
    assert DepositOk(w.intents, w.log[txn]);
    DepositPasses(w.log[txn], n, w.intents[n]);
    var w3 := With(w, a, Credited(n, w.intents[n], txn));
    assert Advance(With(w, a, Crediting(n, w.intents[n])), a, PostDeposit) == w3;
    assert w.callers[a := Ready] == w.callers;
  }

  /** What a stored deposit was posted with still passes validation. */
  lemma DepositPasses(t: Txn, n: nat, i: Intent)
    requires Sound(t) && t == Record(DepositInput(n, i), Nothing).(status := t.status)
    ensures Normalise(DepositInput(n, i)) == Nothing
  {
  }

  lemma {:induction false} DepositAccepted(log: Log, n: nat, i: Intent)
    requires NonNegative(log) && Find(log, Key.Deposit(n)) == Nothing
    requires ValidAmount(i.amount, i.currency) && IsUpper(i.currency) && i.currency != ""
    ensures Outcome(log, DepositInput(n, i)) == Posted(|log|)
  {
    var input := DepositInput(n, i);
    var es := input.entries;
    RoundedNegated(i.amount, i.currency);
    EntriesFine(es, i.currency);
    assert es[1..] == [es[1]];
    assert Sum([es[1]]) == -i.amount;
    forall a | Guarded(input, a) ensures Affordable(log, es, a) {
      assert Delta([es[1]], Of(a)) == 0;
    }
  }

  // ------------------------------------------------- when a credit is lost track of

  predicate HasDeposit(w: World, n: nat) {
    Find(w.log, Key.Deposit(n)).Just?
  }

  predicate Holds(c: Caller, n: nat) {
    c.Credited? && c.id == n
  }

  /** Some caller has posted the deposit, or found it posted, and will mark the intent PAID. */
  predicate Held(w: World, n: nat) {
    exists b :: 0 <= b < |w.callers| && Holds(w.callers[b], n)
  }

  predicate HeldBut(w: World, a: nat, n: nat) {
    exists b :: 0 <= b < |w.callers| && b != a && Holds(w.callers[b], n)
  }

  /** A credited deposit is PAID, or about to be. */
  predicate Tracked(w: World, n: nat)
    requires n < |w.intents|
  {
    HasDeposit(w, n) ==> w.intents[n].state == Paid || Held(w, n)
  }

  /** A step that writes another state than PAID on intent n. The expiry job alone looks at the
      state it replaces. */
  predicate Overwrites(w: World, a: nat, e: Event, n: nat)
    requires a < |w.callers| && n < |w.intents|
  {
    var c := w.callers[a];
    || (e.MarkFailed? && c == Failing(n))
    || (e.MarkExpired? && c == Expiring(n) && IsOpen(w.intents[n]))
    || (e.Requested? && c == Requesting(n))
    || (e.SyncFailed? && c == Syncing(n))
  }

  /** The steps that lose track of a credited deposit: the crash of the last caller that would
      have marked it PAID, and an overwrite when no such caller is left. */
  predicate Loses(w: World, a: nat, e: Event, n: nat)
    requires a < |w.callers| && n < |w.intents|
  {
    HasDeposit(w, n) &&
    (|| (e.Crash? && Holds(w.callers[a], n) && w.intents[n].state != Paid && !HeldBut(w, a, n))
     || (Overwrites(w, a, e, n) && !Held(w, n)))
  }

  lemma HeldSplits(w: World, a: nat, n: nat)
    requires a < |w.callers|
    ensures Held(w, n) <==> HeldBut(w, a, n) || Holds(w.callers[a], n)
  {
  }

  lemma HeldMoves(w: World, next: World, a: nat, n: nat)
    requires a < |w.callers| && |next.callers| == |w.callers| && next.callers == w.callers[a := next.callers[a]]
    ensures HeldBut(next, a, n) <==> HeldBut(w, a, n)
    ensures Held(next, n) <==> HeldBut(w, a, n) || Holds(next.callers[a], n)
  {
    if HeldBut(w, a, n) {
      var b :| 0 <= b < |w.callers| && b != a && Holds(w.callers[b], n);
      assert Holds(next.callers[b], n);
    }
    if HeldBut(next, a, n) {
      var b :| 0 <= b < |next.callers| && b != a && Holds(next.callers[b], n);
      assert Holds(w.callers[b], n);
    }
    HeldSplits(next, a, n);
  }

  /** Only a deposit's own post adds its key. */
  lemma ForeignFinds(log: Log, call: Call, n: nat)
    requires WellFormed(log) && Foreign(log, call)
    ensures Find(Step(log, call), Key.Deposit(n)).Just? <==> Find(log, Key.Deposit(n)).Just?
  {
    var after := Step(log, call);
    ForeignAdds(log, call);
    FindIsKey(log, Key.Deposit(n));
    FindIsKey(after, Key.Deposit(n));
    if Find(log, Key.Deposit(n)).Just? { assert after[Find(log, Key.Deposit(n)).value].key == Key.Deposit(n); }
    if Find(after, Key.Deposit(n)).Just? {
      var t := Find(after, Key.Deposit(n)).value;
      assert t < |log| ==> log[t].key == after[t].key;
    }
  }

  /** A step that touches neither the ledger nor the state of intent n. */
  lemma QuietStep(w: World, next: World, a: nat, n: nat)
    requires a < |w.callers| && |next.callers| == |w.callers| && next.callers == w.callers[a := next.callers[a]]
    requires n < |w.intents| && n < |next.intents| && next.intents[n].state == w.intents[n].state
    requires HasDeposit(next, n) == HasDeposit(w, n)
    ensures Tracked(next, n) <==>
      (HasDeposit(w, n) ==> w.intents[n].state == Paid || HeldBut(w, a, n) || Holds(next.callers[a], n))
  {
    HeldMoves(w, next, a, n);
  }

  lemma PostTracks(w: World, a: nat, n: nat)
    requires a < |w.callers| && w.callers[a].Crediting? && n < |w.intents| && Tracked(w, n)
    ensures Tracked(Advance(w, a, PostDeposit), n)
  {
    var c := w.callers[a];
    var input := DepositInput(c.id, c.seen);
    HeldSplits(w, a, n);
    FindAppend(w.log, Record(input, Nothing), Key.Deposit(n));
    match Outcome(w.log, input) {
      case Posted(txn) => QuietPost(w, With(w.(log := Post(w.log, input)), a, Credited(c.id, c.seen, txn)), a, n);
      case Existing(txn) => QuietStep(w, With(w, a, Credited(c.id, c.seen, txn)), a, n);
      case Refused(_) => QuietStep(w, With(w, a, Ready), a, n);
    }
  }

  /** A post by the caller that then holds the deposit. */
  lemma QuietPost(w: World, next: World, a: nat, n: nat)
    requires a < |w.callers| && |next.callers| == |w.callers| && next.callers == w.callers[a := next.callers[a]]
    requires n < |w.intents| && next.intents == w.intents && Tracked(w, n) && !Holds(w.callers[a], n)
    requires HasDeposit(next, n) ==> HasDeposit(w, n) || Holds(next.callers[a], n)
    ensures Tracked(next, n)
  {
    HeldSplits(w, a, n);
    HeldMoves(w, next, a, n);
  }

  /** A write on one intent, by a caller that then goes on as c. */
  lemma StoreStep(w: World, a: nat, id: nat, i: Intent, c: Caller, n: nat)
    requires a < |w.callers| && n < |w.intents| && id < |w.intents| && !c.Credited?
    ensures var next := With(Store(w, id, i), a, c);
            && n < |next.intents|
            && (Tracked(next, n) <==>
                  (HasDeposit(w, n) ==> (if id == n then i.state else w.intents[n].state) == Paid || HeldBut(w, a, n)))
  {
    HeldMoves(w, With(Store(w, id, i), a, c), a, n);
  }

  lemma MarkTracks(w: World, a: nat, e: Event, n: nat)
    requires a < |w.callers| && n < |w.intents| && Tracked(w, n) && CallerOk(w, w.callers[a])
    requires e.MarkPaid? || e.MarkFailed? || e.MarkExpired?
    ensures var next := Advance(w, a, e); n < |next.intents| && (!Tracked(next, n) <==> Loses(w, a, e, n))
  {
    var c := w.callers[a];
    HeldSplits(w, a, n);
    if e.MarkPaid? && c.Credited? {
      StoreStep(w, a, c.id, w.intents[c.id].(state := Paid, txn := Just(c.txn)), Ready, n);
    } else if e.MarkFailed? && c.Failing? && c.id < |w.intents| {
      StoreStep(w, a, c.id, w.intents[c.id].(state := FailedIntent), Ready, n);
    } else if e.MarkExpired? && c.Expiring? {
      if c.id < |w.intents| && IsOpen(w.intents[c.id]) {
        StoreStep(w, a, c.id, w.intents[c.id].(state := Expired), Ready, n);
      } else {
        QuietStep(w, With(w, a, Ready), a, n);
      }
    }
  }

  lemma CreateTracks(w: World, a: nat, e: Event, n: nat)
    requires a < |w.callers| && n < |w.intents| && Tracked(w, n)
    requires e.CreateDeposit? || e.Requested? || e.SyncDone? || e.SyncFailed?
    ensures var next := Advance(w, a, e); n < |next.intents| && (!Tracked(next, n) <==> Loses(w, a, e, n))
  {
    var c := w.callers[a];
    HeldSplits(w, a, n);
    if e.Requested? && c.Requesting? && c.id < |w.intents| {
      StoreStep(w, a, c.id, w.intents[c.id].(state := if e.answer == AnswerFailed then FailedIntent else IntentState.Pending),
                if e.answer == AnswerPaid then Syncing(c.id) else Ready, n);
    } else if e.SyncFailed? && c.Syncing? && c.id < |w.intents| {
      StoreStep(w, a, c.id, w.intents[c.id].(state := IntentState.Pending), Ready, n);
    } else if !e.Requested? && !e.SyncFailed? {
      QuietStep(w, Advance(w, a, e), a, n);
    }
  }

  lemma StartTracks(w: World, a: nat, e: Event, n: nat)
    requires a < |w.callers| && n < |w.intents| && Tracked(w, n)
    requires e.Confirm? || e.Answered? || e.Force? || e.StartExpiry?
    ensures var next := Advance(w, a, e); n < |next.intents| && (!Tracked(next, n) <==> Loses(w, a, e, n))
  {
    HeldSplits(w, a, n);
    QuietStep(w, Advance(w, a, e), a, n);
  }

  lemma CrashTracks(w: World, a: nat, n: nat)
    requires a < |w.callers| && n < |w.intents| && Tracked(w, n)
    ensures !Tracked(With(w, a, Ready), n) <==> Loses(w, a, Crash, n)
  {
    HeldSplits(w, a, n);
    QuietStep(w, With(w, a, Ready), a, n);
  }

  lemma ElsewhereTracks(w: World, call: Call, n: nat)
    requires WellFormed(w.log) && n < |w.intents| && Tracked(w, n) && Foreign(w.log, call)
    ensures Tracked(w.(log := Step(w.log, call)), n)
  {
    ForeignFinds(w.log, call, n);
  }

  /** From a state in which every credited deposit is PAID or about to be, exactly these steps
      leave one that is neither. */
  lemma LosesTrackIff(w: World, a: nat, e: Event, n: nat)
    requires Sane(w) && a < |w.callers| && n < |w.intents| && Tracked(w, n)
    ensures var next := Advance(w, a, e); n < |next.intents| && (!Tracked(next, n) <==> Loses(w, a, e, n))
  {
    assert CallerOk(w, w.callers[a]);
    match e {
      case PostDeposit => if w.callers[a].Crediting? { PostTracks(w, a, n); }
      case MarkPaid => MarkTracks(w, a, e, n);
      case MarkFailed => MarkTracks(w, a, e, n);
      case MarkExpired => MarkTracks(w, a, e, n);
      case CreateDeposit(intent) => CreateTracks(w, a, e, n);
      case Requested(answer) => CreateTracks(w, a, e, n);
      case SyncDone => CreateTracks(w, a, e, n);
      case SyncFailed => CreateTracks(w, a, e, n);
      case Crash => CrashTracks(w, a, n);
      case Elsewhere(call) => if Foreign(w.log, call) { ElsewhereTracks(w, call, n); }
      case Created(intent) =>
      case _ => StartTracks(w, a, e, n);
    }
  }

  predicate AllTracked(w: World) {
    forall n :: 0 <= n < |w.intents| ==> Tracked(w, n)
  }

  /** A new intent has no deposit. */
  lemma NewIsTracked(w: World, a: nat, e: Event, n: nat)
    requires Sane(w) && a < |w.callers| && |w.intents| <= n < |Advance(w, a, e).intents|
    ensures Tracked(Advance(w, a, e), n)
  {
    FindIsKey(w.log, Key.Deposit(n));
    forall t | 0 <= t < |w.log| ensures w.log[t].key != Key.Deposit(n) { assert DepositOk(w.intents, w.log[t]); }
  }

  lemma WorldTrackIff(w: World, a: nat, e: Event)
    requires Sane(w) && a < |w.callers| && AllTracked(w)
    ensures AllTracked(Advance(w, a, e)) <==> forall n :: 0 <= n < |w.intents| ==> !Loses(w, a, e, n)
  {
    var next := Advance(w, a, e);
    forall n | 0 <= n < |w.intents| ensures n < |next.intents| && (Tracked(next, n) <==> !Loses(w, a, e, n)) {
      LosesTrackIff(w, a, e, n);
    }
    forall n | |w.intents| <= n < |next.intents| ensures Tracked(next, n) { NewIsTracked(w, a, e, n); }
  }

  /** No step of the interleaving loses track of a credited deposit. */
  ghost predicate LosesNone(w: World, actions: seq<Action>)
    decreases |actions|
  {
    actions != [] ==>
      if actions[0].caller < |w.callers|
      then
        && (forall n :: 0 <= n < |w.intents| ==> !Loses(w, actions[0].caller, actions[0].event, n))
        && LosesNone(Advance(w, actions[0].caller, actions[0].event), actions[1..])
      else LosesNone(w, actions[1..])
  }

  lemma {:induction false} TrackedAlong(w: World, actions: seq<Action>)
    requires Sane(w) && AllTracked(w) && LosesNone(w, actions)
    ensures AllTracked(Interleave(w, actions))
    decreases |actions|
  {
    if actions != [] {
      if actions[0].caller < |w.callers| {
        WorldTrackIff(w, actions[0].caller, actions[0].event);
        AdvanceKeeps(w, actions[0].caller, actions[0].event);
        TrackedAlong(Advance(w, actions[0].caller, actions[0].event), actions[1..]);
      } else {
        TrackedAlong(w, actions[1..]);
      }
    }
  }

  /** In an interleaving without such a step, once every call is over, a deposit is PAID if and
      only if its DEPOSIT is in the ledger. */
  lemma PaidIffPosted(start: World, actions: seq<Action>, n: nat)
    requires Blank(start) && LosesNone(start, actions) && n < |Interleave(start, actions).intents|
    requires var w := Interleave(start, actions);
      w.intents[n].direction == IN && forall a :: 0 <= a < |w.callers| ==> w.callers[a] == Ready
    ensures var w := Interleave(start, actions); w.intents[n].state == Paid <==> HasDeposit(w, n)
  {
    assert NonNegative([]);
    InterleavingKeeps(start, actions);
    TrackedAlong(start, actions);
    var w := Interleave(start, actions);
    assert PaidOk(w.log, n, w.intents[n]) && Tracked(w, n);
    FindIsKey(w.log, Key.Deposit(n));
  }

  // ------------------------------------------------------------------ schedules

  lemma {:induction false} InterleaveConcat(w: World, xs: seq<Action>, ys: seq<Action>)
    ensures Interleave(w, xs + ys) == Interleave(Interleave(w, xs), ys)
    decreases |xs|
  {
    if xs == [] {
      assert xs + ys == ys;
    } else {
      assert (xs + ys)[1..] == xs[1..] + ys;
      InterleaveConcat(if xs[0].caller < |w.callers| then Advance(w, xs[0].caller, xs[0].event) else w, xs[1..], ys);
    }
  }

  lemma One(w: World, a: nat, e: Event)
    requires a < |w.callers|
    ensures Interleave(w, [Action(a, e)]) == Advance(w, a, e)
  {
    assert [Action(a, e)][1..] == [];
  }

  lemma Two(w: World, a: nat, e: Event, f: Event)
    requires a < |w.callers| && |Advance(w, a, e).callers| == |w.callers|
    ensures Interleave(w, [Action(a, e), Action(a, f)]) == Advance(Advance(w, a, e), a, f)
  {
    One(w, a, e);
    One(Advance(w, a, e), a, f);
    InterleaveConcat(w, [Action(a, e)], [Action(a, f)]);
    assert [Action(a, e)] + [Action(a, f)] == [Action(a, e), Action(a, f)];
  }

  predicate Depositable(i: Intent) {
    i.direction == IN && IsUpper(i.currency) && i.currency != "" && ValidAmount(i.amount, i.currency)
  }

  function DepositOf(i: Intent): Txn {
    Record(DepositInput(0, i), Nothing)
  }

  function Marked(i: Intent): Intent {
    i.(state := Paid, txn := Just(0))
  }

  function Asks(a: nat, answer: ProviderAnswer): seq<Action> {
    [Action(a, Event.Confirm(0)), Action(a, Answered(answer))]
  }

  /** A caller that reads the first intent and gets an answer. */
  lemma AskPath(i: Intent, log: Log, callers: seq<Caller>, a: nat, answer: ProviderAnswer)
    requires i.direction == IN && IsOpen(i) && a < |callers| && callers[a] == Ready
    requires answer == AnswerPaid || answer == AnswerFailed
    ensures Interleave(World(log, [i], callers), Asks(a, answer)) ==
            World(log, [i], callers[a := if answer == AnswerPaid then Crediting(0, i) else Failing(0)])
  {
    var w := World(log, [i], callers);
    var asking := World(log, [i], callers[a := Asking(0, i)]);
    assert Advance(w, a, Event.Confirm(0)) == asking;
    Two(w, a, Event.Confirm(0), Answered(answer));
    var c := if answer == AnswerPaid then Crediting(0, i) else Failing(0);
    assert callers[a := Asking(0, i)][a := c] == callers[a := c];
  }

  lemma PostStep(i: Intent, callers: seq<Caller>, a: nat)
    requires Depositable(i) && a < |callers| && callers[a] == Crediting(0, i)
    ensures Advance(World([], [i], callers), a, PostDeposit) == World([DepositOf(i)], [i], callers[a := Credited(0, i, 0)])
  {
    assert NonNegative([]);
    DepositAccepted([], 0, i);
  }

  function Credits(a: nat): seq<Action> {
    [Action(a, PostDeposit), Action(a, MarkPaid)]
  }

  /** A caller that credits the first intent of an empty ledger, uninterrupted. */
  lemma CreditPath(i: Intent, callers: seq<Caller>, a: nat)
    requires Depositable(i) && a < |callers| && callers[a] == Crediting(0, i)
    ensures Interleave(World([], [i], callers), Credits(a)) == World([DepositOf(i)], [Marked(i)], callers[a := Ready])
  {
    PostStep(i, callers, a);
    Two(World([], [i], callers), a, PostDeposit, MarkPaid);
    assert callers[a := Credited(0, i, 0)][a := Ready] == callers[a := Ready];
  }

  lemma Then(w: World, xs: seq<Action>, v: World, ys: seq<Action>, u: World)
    requires Interleave(w, xs) == v && Interleave(v, ys) == u
    ensures Interleave(w, xs + ys) == u
  {
    InterleaveConcat(w, xs, ys);
  }

  function Forced(): seq<Action> {
    [Action(0, Event.Force(0)), Action(0, PostDeposit)]
  }

  lemma ForcedPath(i: Intent)
    requires Depositable(i) && IsOpen(i)
    ensures Interleave(World([], [i], [Ready]), Forced()) == World([DepositOf(i)], [i], [Credited(0, i, 0)])
  {
    var w := World([], [i], [Ready]);
    assert Advance(w, 0, Event.Force(0)) == World([], [i], [Crediting(0, i)]);
    Two(w, 0, Event.Force(0), PostDeposit);
    PostStep(i, [Crediting(0, i)], 0);
  }

  lemma CrashPath(txn: Txn, i: Intent)
    ensures Interleave(World([txn], [i], [Credited(0, i, 0)]), [Action(0, Crash)]) == World([txn], [i], [Ready])
  {
    One(World([txn], [i], [Credited(0, i, 0)]), 0, Crash);
  }

  /** The converse of PAID-only-if-posted fails: a forced completion that stops between its
      two commits, then the expiry job, leave an EXPIRED intent whose money was credited. */
  lemma CreditedYetExpired(i: Intent)
    requires Depositable(i) && IsOpen(i)
    ensures Interleave(World([], [i], [Ready]), Forced() + [Action(0, Crash)] + Expires()) ==
            World([DepositOf(i)], [i.(state := Expired)], [Ready])
  {
    var w, txn := World([], [i], [Ready]), DepositOf(i);
    ForcedPath(i);
    CrashPath(txn, i);
    ExpiryPath(txn, i);
    var posted, stopped := World([txn], [i], [Credited(0, i, 0)]), World([txn], [i], [Ready]);
    Then(w, Forced(), posted, [Action(0, Crash)], stopped);
    Then(w, Forced() + [Action(0, Crash)], stopped, Expires(), World([txn], [i.(state := Expired)], [Ready]));
  }

  function Expires(): seq<Action> {
    [Action(0, StartExpiry(0)), Action(0, MarkExpired)]
  }

  lemma ExpiryPath(txn: Txn, i: Intent)
    requires i.direction == IN && IsOpen(i)
    ensures Interleave(World([txn], [i], [Ready]), Expires()) ==
            World([txn], [i.(state := Expired)], [Ready])
  {
    var w := World([txn], [i], [Ready]);
    assert Advance(w, 0, StartExpiry(0)) == World([txn], [i], [Expiring(0)]);
    Two(w, 0, StartExpiry(0), MarkExpired);
  }

  lemma ForceStep(i: Intent, c: Caller)
    requires i.direction == IN && IsOpen(i)
    ensures Interleave(World([], [i], [Ready, c]), [Action(0, Event.Force(0))]) == World([], [i], [Crediting(0, i), c])
  {
    One(World([], [i], [Ready, c]), 0, Event.Force(0));
  }

  lemma FailLast(txn: Txn, i: Intent)
    ensures Interleave(World([txn], [i], [Ready, Failing(0)]), [Action(1, MarkFailed)]) ==
            World([txn], [i.(state := FailedIntent)], [Ready, Ready])
  {
    One(World([txn], [i], [Ready, Failing(0)]), 1, MarkFailed);
  }

  /** Nor need anything crash: the provider's FAILED answer to one call is written after an
      administrator's forced completion credited the deposit. */
  lemma CreditedYetFailed(i: Intent)
    requires Depositable(i) && IsOpen(i)
    ensures var actions := Asks(1, AnswerFailed) + [Action(0, Event.Force(0))] + Credits(0) + [Action(1, MarkFailed)];
            Interleave(World([], [i], [Ready, Ready]), actions) ==
            World([DepositOf(i)], [Marked(i).(state := FailedIntent)], [Ready, Ready])
  {
    var w, txn := World([], [i], [Ready, Ready]), DepositOf(i);
    var w1, w2 := World([], [i], [Ready, Failing(0)]), World([], [i], [Crediting(0, i), Failing(0)]);
    var w3, w4 := World([txn], [Marked(i)], [Ready, Failing(0)]), World([txn], [Marked(i).(state := FailedIntent)], [Ready, Ready]);
    var force, fail := [Action(0, Event.Force(0))], [Action(1, MarkFailed)];
    AskPath(i, [], w.callers, 1, AnswerFailed);
    ForceStep(i, Failing(0));
    CreditPath(i, w2.callers, 0);
    FailLast(txn, Marked(i));
    Then(w, Asks(1, AnswerFailed), w1, force, w2);
    Then(w, Asks(1, AnswerFailed) + force, w2, Credits(0), w3);
    Then(w, Asks(1, AnswerFailed) + force + Credits(0), w3, fail, w4);
  }

  lemma CreateStep(i: Intent)
    requires i.direction == IN && i.state == IntentState.Created
    ensures Interleave(World([], [], [Ready, Ready]), [Action(0, Event.CreateDeposit(i))]) ==
            World([], [i], [Requesting(0), Ready])
  {
    One(World([], [], [Ready, Ready]), 0, Event.CreateDeposit(i));
  }

  lemma AnswerLast(txn: Txn, i: Intent)
    ensures Interleave(World([txn], [i], [Requesting(0), Ready]), [Action(0, Requested(AnswerPending))]) ==
            World([txn], [i.(state := IntentState.Pending)], [Ready, Ready])
  {
    One(World([txn], [i], [Requesting(0), Ready]), 0, Requested(AnswerPending));
  }

  /** A webhook that credits a deposit before `createDeposit` has written the answer of its own
      request: PENDING is written over PAID. */
  lemma CreditedYetPending(i: Intent)
    requires Depositable(i) && i.state == IntentState.Created
    ensures var actions := [Action(0, Event.CreateDeposit(i))] + Asks(1, AnswerPaid) + Credits(1)
                           + [Action(0, Requested(AnswerPending))];
            Interleave(World([], [], [Ready, Ready]), actions) ==
            World([DepositOf(i)], [Marked(i).(state := IntentState.Pending)], [Ready, Ready])
  {
    var w, txn := World([], [], [Ready, Ready]), DepositOf(i);
    var w1, w2 := World([], [i], [Requesting(0), Ready]), World([], [i], [Requesting(0), Crediting(0, i)]);
    var w3 := World([txn], [Marked(i)], [Requesting(0), Ready]);
    var w4 := World([txn], [Marked(i).(state := IntentState.Pending)], [Ready, Ready]);
    var create, answer := [Action(0, Event.CreateDeposit(i))], [Action(0, Requested(AnswerPending))];
    CreateStep(i);
    AskPath(i, [], w1.callers, 1, AnswerPaid);
    CreditPath(i, w2.callers, 1);
    AnswerLast(txn, Marked(i));
    Then(w, create, w1, Asks(1, AnswerPaid), w2);
    Then(w, create + Asks(1, AnswerPaid), w2, Credits(1), w3);
    Then(w, create + Asks(1, AnswerPaid) + Credits(1), w3, answer, w4);
  }
}
