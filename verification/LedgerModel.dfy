/** The double-entry ledger as a value: the append-only transaction log, posting and
    reversal (`src/modules/ledger/ledger.service.ts`, `ledger.types.ts`).
    A transaction's id is its position in the log. */
module LedgerModel {
  import opened Decimals

  datatype OwnerType = USER | SDB | ALKE | FEE | PROVIDER | TAX
  datatype Kind = AVAILABLE | RESERVED | SETTLING | WITHDRAWABLE | CLEARING
  datatype Account = Account(owner: OwnerType, ownerId: string, currency: string, kind: Kind)

  datatype TxnType = DEPOSIT | RESERVE | RELEASE | FILL | SETTLEMENT | WITHDRAWAL | ADJUST | REVERSAL
  datatype TxnStatus = POSTED | REVERSED

  /** Idempotency keys: the prefixes of `LedgerKeys` and `BrokerageKeys` as constructors,
      so that keys of different kinds never collide. `Free` is any other text. */
  datatype Key =
    | Free(text: string)
    | Reserve(order: nat) | Release(order: nat)
    | Fill(execution: nat) | Settlement(execution: nat) | FailRelease(execution: nat)
    | Deposit(intent: nat) | WithdrawReserve(intent: nat) | Withdraw(intent: nat) | WithdrawRelease(intent: nat)
    | Reversal(txn: nat)

  datatype Entry = Entry(account: Account, amount: Dec)

  datatype Txn = Txn(typ: TxnType, key: Key, currency: string, entries: seq<Entry>,
                     status: TxnStatus, reversalOf: Maybe<nat>)

  type Log = seq<Txn>

  /** `guard` is `enforceNonNegative`: when absent, every USER account touched is guarded. */
  datatype PostInput = PostInput(typ: TxnType, key: Key, currency: string, entries: seq<Entry>,
                                 guard: Maybe<seq<Account>>)

  datatype Refusal =
    | KeyRequired | TooFewEntries | CurrencyRequired | CurrencyNotUpper
    | BadPrecision | WrongCurrency | Unbalanced | Insufficient
    | NotFound | CannotReverseReversal | AlreadyReversed

  datatype PostResult = Posted(id: nat) | Existing(id: nat) | Refused(why: Refusal)

  // ------------------------------------------------------------------ sums

  function Sum(entries: seq<Entry>): Dec {
    if entries == [] then 0 else entries[0].amount + Sum(entries[1..])
  }

  /** What a balance query adds up: one account, or the mirror total of a currency. */
  datatype View = Of(account: Account) | Mirror(currency: string)

  predicate Covers(v: View, a: Account) {
    match v
    case Of(account) => a == account
    case Mirror(currency) => a.owner == USER && a.currency == currency && a.kind in {AVAILABLE, RESERVED, SETTLING}
  }

  /** Net movement of one transaction on a view. */
  function Delta(entries: seq<Entry>, v: View): Dec {
    if entries == [] then 0
    else (if Covers(v, entries[0].account) then entries[0].amount else 0) + Delta(entries[1..], v)
  }

  /** SUM(entries) over the whole log: an account's balance, or `mirrorTotal`. */
  function Total(log: Log, v: View): Dec {
    if log == [] then 0 else Total(log[..|log| - 1], v) + Delta(log[|log| - 1].entries, v)
  }

  function Balance(log: Log, a: Account): Dec {
    Total(log, Of(a))
  }

  // ------------------------------------------------------------------ post

  /** First offending entry, in order: precision before currency. */
  function EntryFault(entries: seq<Entry>, currency: string): Maybe<Refusal> {
    if entries == [] then Nothing
    else if !IsRounded(entries[0].amount, currency) then Just(BadPrecision)
    else if entries[0].account.currency != currency then Just(WrongCurrency)
    else EntryFault(entries[1..], currency)
  }

  function Normalise(input: PostInput): Maybe<Refusal> {
    if input.key == Free("") then Just(KeyRequired)
    else if |input.entries| < 2 then Just(TooFewEntries)
    else if input.currency == "" then Just(CurrencyRequired)
    else if Upper(input.currency) != input.currency then Just(CurrencyNotUpper)
    else match EntryFault(input.entries, input.currency)
      case Just(why) => Just(why)
      case Nothing => if Sum(input.entries) != 0 then Just(Unbalanced) else Nothing
  }

  /** Id of the transaction holding an idempotency key. */
  function Find(log: Log, key: Key): Maybe<nat> {
    if log == [] then Nothing
    else if log[|log| - 1].key == key then Just(|log| - 1)
    else Find(log[..|log| - 1], key)
  }

  predicate Touches(entries: seq<Entry>, a: Account) {
    exists i :: 0 <= i < |entries| && entries[i].account == a
  }

  predicate Guarded(input: PostInput, a: Account) {
    Touches(input.entries, a) && if input.guard.Just? then a in input.guard.value else a.owner == USER
  }

  predicate Affordable(log: Log, entries: seq<Entry>, a: Account) {
    Delta(entries, Of(a)) >= 0 || Balance(log, a) + Delta(entries, Of(a)) >= 0
  }

  ghost predicate Funded(log: Log, input: PostInput) {
    forall a :: Guarded(input, a) ==> Affordable(log, input.entries, a)
  }

  function Record(input: PostInput, reversalOf: Maybe<nat>): Txn {
    Txn(input.typ, input.key, input.currency, input.entries, POSTED, reversalOf)
  }

  /** `postIn` after `normalise`: the outcome of one atomic post. */
  ghost function Outcome(log: Log, input: PostInput): PostResult {
    if Normalise(input).Just? then Refused(Normalise(input).value)
    else if Find(log, input.key).Just? then Existing(Find(log, input.key).value)
    else if !Funded(log, input) then Refused(Insufficient)
    else Posted(|log|)
  }

  ghost function Commit(log: Log, input: PostInput, reversalOf: Maybe<nat>): Log {
    if Outcome(log, input).Posted? then log + [Record(input, reversalOf)] else log
  }

  ghost function Post(log: Log, input: PostInput): Log {
    Commit(log, input, Nothing)
  }

  // --------------------------------------------------------------- reverse

  function Negated(entries: seq<Entry>): seq<Entry> {
    if entries == [] then [] else [Entry(entries[0].account, -entries[0].amount)] + Negated(entries[1..])
  }

  function ReversalInput(original: Txn, id: nat): PostInput {
    PostInput(REVERSAL, Reversal(id), original.currency, Negated(original.entries), Nothing)
  }

  function ReverseFault(log: Log, id: nat): Maybe<Refusal> {
    if id >= |log| then Just(NotFound)
    else if log[id].typ == REVERSAL then Just(CannotReverseReversal)
    else if log[id].status == REVERSED then Just(AlreadyReversed)
    else Nothing
  }

  ghost function ReverseOutcome(log: Log, id: nat): PostResult {
    match ReverseFault(log, id)
    case Just(why) => Refused(why)
    case Nothing => Outcome(log, ReversalInput(log[id], id))
  }

  function MarkReversed(log: Log, id: nat): Log
    requires id < |log|
  {
    log[id := log[id].(status := REVERSED)]
  }

  ghost function Reverse(log: Log, id: nat): Log {
    if ReverseOutcome(log, id).Posted? then
      MarkReversed(Commit(log, ReversalInput(log[id], id), Just(id)), id)
    else log
  }

  // ---------------------------------------------------------- linear facts

  lemma TotalAppend(log: Log, t: Txn, v: View)
    ensures Total(log + [t], v) == Total(log, v) + Delta(t.entries, v)
  {
    assert (log + [t])[..|log|] == log;
  }

  lemma {:induction false} TotalStatus(log: Log, id: nat, s: TxnStatus, v: View)
    requires id < |log|
    ensures Total(log[id := log[id].(status := s)], v) == Total(log, v)
  {
    var changed := log[id := log[id].(status := s)];
    var n := |log| - 1;
    if id < n {
      TotalStatus(log[..n], id, s, v);
      assert changed[..n] == log[..n][id := log[..n][id].(status := s)];
    } else {
      assert changed[..n] == log[..n];
    }
  }

  lemma {:induction false} DeltaConcat(xs: seq<Entry>, ys: seq<Entry>, v: View)
    ensures Delta(xs + ys, v) == Delta(xs, v) + Delta(ys, v)
  {
    if xs == [] {
      assert xs + ys == ys;
    } else {
      DeltaConcat(xs[1..], ys, v);
      assert (xs + ys)[1..] == xs[1..] + ys;
    }
  }

  lemma {:induction false} SumConcat(xs: seq<Entry>, ys: seq<Entry>)
    ensures Sum(xs + ys) == Sum(xs) + Sum(ys)
  {
    if xs == [] {
      assert xs + ys == ys;
    } else {
      SumConcat(xs[1..], ys);
      assert (xs + ys)[1..] == xs[1..] + ys;
    }
  }

  lemma {:induction false} NegatedShape(entries: seq<Entry>)
    ensures |Negated(entries)| == |entries|
    ensures forall i :: 0 <= i < |entries| ==>
      Negated(entries)[i] == Entry(entries[i].account, -entries[i].amount)
    ensures Sum(Negated(entries)) == -Sum(entries)
  {
    if entries != [] { NegatedShape(entries[1..]); }
  }

  lemma {:induction false} NegatedDelta(entries: seq<Entry>, v: View)
    ensures Delta(Negated(entries), v) == -Delta(entries, v)
  {
    if entries != [] { NegatedDelta(entries[1..], v); }
  }

  lemma {:induction false} UntouchedDelta(entries: seq<Entry>, a: Account)
    requires !Touches(entries, a)
    ensures Delta(entries, Of(a)) == 0
  {
    if entries != [] {
      assert entries[0].account != a;
      forall i | 0 <= i < |entries[1..]| ensures entries[1..][i].account != a {
        assert entries[1..][i] == entries[i + 1];
      }
      UntouchedDelta(entries[1..], a);
    }
  }

  lemma {:induction false} EntriesFine(entries: seq<Entry>, currency: string)
    ensures EntryFault(entries, currency) == Nothing <==>
      forall i :: 0 <= i < |entries| ==>
        IsRounded(entries[i].amount, currency) && entries[i].account.currency == currency
  {
    if entries != [] {
      EntriesFine(entries[1..], currency);
      assert forall i :: 0 < i < |entries| ==> entries[i] == entries[1..][i - 1];
      assert forall i :: 0 <= i < |entries[1..]| ==> entries[1..][i] == entries[i + 1];
    }
  }

  lemma {:induction false} FindIsKey(log: Log, key: Key)
    ensures Find(log, key).Just? ==> Find(log, key).value < |log| && log[Find(log, key).value].key == key
    ensures Find(log, key).Nothing? <==> forall i :: 0 <= i < |log| ==> log[i].key != key
  {
    if log != [] {
      FindIsKey(log[..|log| - 1], key);
      assert forall i :: 0 <= i < |log| - 1 ==> log[i] == log[..|log| - 1][i];
    }
  }

  // ------------------------------------------------------------- invariant

  /** A stored transaction: what `normalise` lets through. */
  predicate Sound(t: Txn) {
    && |t.entries| >= 2
    && t.currency != "" && IsUpper(t.currency)
    && EntryFault(t.entries, t.currency) == Nothing
    && Sum(t.entries) == 0
  }

  ghost predicate UniqueKeys(log: Log) {
    forall i, j :: 0 <= i < j < |log| ==> log[i].key != log[j].key
  }

  /** Reversals point back at the reversed transaction and undo its entries. */
  ghost predicate Linked(log: Log) {
    && (forall i :: 0 <= i < |log| ==>
          && (log[i].typ == REVERSAL <==> log[i].key.Reversal?)
          && log[i].reversalOf == (if log[i].key.Reversal? then Just(log[i].key.txn) else Nothing))
    && (forall i :: 0 <= i < |log| && log[i].key.Reversal? ==>
          var j := log[i].key.txn;
          && j < i && log[j].status == REVERSED && log[j].typ != REVERSAL
          && log[i].entries == Negated(log[j].entries))
    && (forall j :: 0 <= j < |log| && log[j].status == REVERSED ==> Find(log, Reversal(j)).Just?)
  }

  ghost predicate NonNegative(log: Log) {
    forall a: Account :: a.owner == USER ==> Balance(log, a) >= 0
  }

  ghost predicate WellFormed(log: Log) {
    && (forall i :: 0 <= i < |log| ==> Sound(log[i]))
    && UniqueKeys(log)
    && Linked(log)
    && NonNegative(log)
  }

  /** Posts made through `post` with the default guard; only `reverse` uses reversal keys. */
  predicate Ordinary(input: PostInput) {
    input.guard == Nothing && input.typ != REVERSAL && !input.key.Reversal?
  }

  lemma FundedStaysNonNegative(log: Log, input: PostInput, r: Maybe<nat>)
    requires NonNegative(log) && input.guard == Nothing && Funded(log, input)
    ensures NonNegative(log + [Record(input, r)])
  {
    forall a: Account | a.owner == USER ensures Balance(log + [Record(input, r)], a) >= 0 {
      TotalAppend(log, Record(input, r), Of(a));
      if Touches(input.entries, a) {
        assert Guarded(input, a);
      } else {
        UntouchedDelta(input.entries, a);
      }
    }
  }

  lemma FindAppend(log: Log, t: Txn, key: Key)
    ensures Find(log + [t], key) == if t.key == key then Just(|log|) else Find(log, key)
  {
    assert (log + [t])[..|log|] == log;
  }

  lemma {:induction false} FindStatus(log: Log, id: nat, s: TxnStatus, key: Key)
    requires id < |log|
    ensures Find(log[id := log[id].(status := s)], key) == Find(log, key)
  {
    var changed := log[id := log[id].(status := s)];
    var n := |log| - 1;
    if id < n {
      FindStatus(log[..n], id, s, key);
      assert changed[..n] == log[..n][id := log[..n][id].(status := s)];
    } else {
      assert changed[..n] == log[..n];
    }
  }

  lemma AppendKeepsLinks(log: Log, t: Txn)
    requires Linked(log) && !t.key.Reversal? && t.typ != REVERSAL && t.reversalOf == Nothing && t.status == POSTED
    ensures Linked(log + [t])
  {
    var after := log + [t];
    forall j | 0 <= j < |after| && after[j].status == REVERSED ensures Find(after, Reversal(j)).Just? {
      FindAppend(log, t, Reversal(j));
    }
  }

  lemma PostKeepsWellFormed(log: Log, input: PostInput)
    requires WellFormed(log) && Ordinary(input)
    ensures WellFormed(Post(log, input))
  {
    if Outcome(log, input).Posted? {
      FindIsKey(log, input.key);
      FundedStaysNonNegative(log, input, Nothing);
      AppendKeepsLinks(log, Record(input, Nothing));
    }
  }

  /** The negated entries of a stored transaction always pass `normalise`. */
  lemma ReversalNormalises(t: Txn, id: nat)
    requires Sound(t)
    ensures Normalise(ReversalInput(t, id)) == Nothing
    ensures Sound(Record(ReversalInput(t, id), Just(id)))
  {
    NegatedShape(t.entries);
    EntriesFine(t.entries, t.currency);
    EntriesFine(Negated(t.entries), t.currency);
    forall i | 0 <= i < |t.entries| ensures IsRounded(Negated(t.entries)[i].amount, t.currency) {
      RoundedNegated(t.entries[i].amount, t.currency);
    }
  }

  lemma ReverseKeepsLinks(log: Log, id: nat)
    requires UniqueKeys(log) && Linked(log) && id < |log| && log[id].typ != REVERSAL
    ensures Linked(MarkReversed(log + [Record(ReversalInput(log[id], id), Just(id))], id))
  {
    var t := Record(ReversalInput(log[id], id), Just(id));
    var after := MarkReversed(log + [t], id);
    forall j | 0 <= j < |after| && after[j].status == REVERSED ensures Find(after, Reversal(j)).Just? {
      FindAppend(log, t, Reversal(j));
      FindStatus(log + [t], id, REVERSED, Reversal(j));
    }
  }

  lemma MarkKeepsNonNegative(log: Log, id: nat)
    requires NonNegative(log) && id < |log|
    ensures NonNegative(MarkReversed(log, id))
  {
    forall a: Account | a.owner == USER ensures Balance(MarkReversed(log, id), a) >= 0 {
      TotalStatus(log, id, REVERSED, Of(a));
    }
  }

  lemma ReverseKeepsWellFormed(log: Log, id: nat)
    requires WellFormed(log)
    ensures WellFormed(Reverse(log, id))
  {
    if ReverseOutcome(log, id).Posted? {
      var input := ReversalInput(log[id], id);
      var middle := log + [Record(input, Just(id))];
      FindIsKey(log, input.key);
      ReversalNormalises(log[id], id);
      FundedStaysNonNegative(log, input, Just(id));
      ReverseKeepsLinks(log, id);
      MarkKeepsNonNegative(middle, id);
    }
  }

  // ------------------------------------------------------------------ runs

  datatype Call = PostCall(input: PostInput) | ReverseCall(id: nat)

  ghost function Step(log: Log, call: Call): Log {
    match call
    case PostCall(input) => Post(log, input)
    case ReverseCall(id) => Reverse(log, id)
  }

  ghost function Run(log: Log, calls: seq<Call>): Log
    decreases |calls|
  {
    if calls == [] then log else Run(Step(log, calls[0]), calls[1..])
  }

  /** Nothing is deleted or rewritten: a stored transaction keeps everything but its status,
      and a status only goes from POSTED to REVERSED. */
  ghost predicate Grows(before: Log, after: Log) {
    && |before| <= |after|
    && forall i :: 0 <= i < |before| ==>
      && after[i] == before[i].(status := after[i].status)
      && (before[i].status == REVERSED ==> after[i].status == REVERSED)
  }

  /** Over every sequence of posts and reversals: each transaction sums to zero, user
      balances stay non-negative, the links hold, and the log only grows. */
  lemma {:induction false} RunKeepsWellFormed(log: Log, calls: seq<Call>)
    requires WellFormed(log)
    requires forall i :: 0 <= i < |calls| && calls[i].PostCall? ==> Ordinary(calls[i].input)
    ensures WellFormed(Run(log, calls))
    ensures Grows(log, Run(log, calls))
    decreases |calls|
  {
    if calls != [] {
      var next := Step(log, calls[0]);
      match calls[0] {
        case PostCall(input) => PostKeepsWellFormed(log, input);
        case ReverseCall(id) => ReverseKeepsWellFormed(log, id);
      }
      assert Grows(log, next);
      RunKeepsWellFormed(next, calls[1..]);
    }
  }

  // ------------------------------------------------------ verifyInvariants

  /** Sum of the entries of every transaction in a currency. */
  function CurrencyTotal(log: Log, currency: string): Dec {
    if log == [] then 0
    else CurrencyTotal(log[..|log| - 1], currency) +
         (if log[|log| - 1].currency == currency then Sum(log[|log| - 1].entries) else 0)
  }

  datatype Report = Report(unbalancedTxns: set<nat>, unbalancedCurrencies: set<string>, negativeUsers: set<Account>) {
    predicate Ok() {
      unbalancedTxns == {} && unbalancedCurrencies == {} && negativeUsers == {}
    }
  }

  function AccountsOf(log: Log): set<Account> {
    set i, j | 0 <= i < |log| && 0 <= j < |log[i].entries| :: log[i].entries[j].account
  }

  function VerifyInvariants(log: Log): Report {
    Report(
      set i | 0 <= i < |log| && Sum(log[i].entries) != 0,
      set i | 0 <= i < |log| && CurrencyTotal(log, log[i].currency) != 0 :: log[i].currency,
      set a | a in AccountsOf(log) && a.owner == USER && Balance(log, a) < 0)
  }

  /** On any log whatever, an unbalanced currency comes from an unbalanced transaction in it:
      the second query can report nothing that the first does not. */
  lemma {:induction false} UnbalancedCurrencyHasUnbalancedTxn(log: Log, currency: string)
    requires CurrencyTotal(log, currency) != 0
    ensures exists i :: 0 <= i < |log| && log[i].currency == currency && Sum(log[i].entries) != 0
  {
    var n := |log| - 1;
    if CurrencyTotal(log[..n], currency) != 0 {
      UnbalancedCurrencyHasUnbalancedTxn(log[..n], currency);
      var i :| 0 <= i < n && log[..n][i].currency == currency && Sum(log[..n][i].entries) != 0;
      assert log[i] == log[..n][i];
    } else {
      assert log[n].currency == currency && Sum(log[n].entries) != 0;
    }
  }

  /** The report is clean after every run of posts and reversals from an empty ledger. */
  lemma RunsVerifyClean(calls: seq<Call>)
    requires forall i :: 0 <= i < |calls| && calls[i].PostCall? ==> Ordinary(calls[i].input)
    ensures VerifyInvariants(Run([], calls)).Ok()
  {
    assert NonNegative([]);
    RunKeepsWellFormed([], calls);
    WellFormedIsClean(Run([], calls));
  }

  lemma WellFormedIsClean(log: Log)
    requires WellFormed(log)
    ensures VerifyInvariants(log).Ok()
  {
    forall i | 0 <= i < |log| ensures CurrencyTotal(log, log[i].currency) == 0 { SoundIsBalanced(log, log[i].currency); }
    assert VerifyInvariants(log).unbalancedTxns == {};
  }

  lemma SoundIsBalanced(log: Log, currency: string)
    requires forall i :: 0 <= i < |log| ==> Sound(log[i])
    ensures CurrencyTotal(log, currency) == 0
  {
    if CurrencyTotal(log, currency) != 0 {
      UnbalancedCurrencyHasUnbalancedTxn(log, currency);
      assert false;
    }
  }

  // ------------------------------------------------------ reversal algebra

  /** A transaction is REVERSED iff a reversal refers to it; there is exactly one, it is not
      reversed itself, and the pair nets to zero on every account and on the mirror. */
  lemma ReversedIffOneReversal(log: Log, j: nat)
    requires WellFormed(log) && j < |log|
    ensures log[j].status == REVERSED <==> exists i :: 0 <= i < |log| && log[i].reversalOf == Just(j)
    ensures forall i, k :: (0 <= i < |log| && 0 <= k < |log| &&
                            log[i].reversalOf == Just(j) && log[k].reversalOf == Just(j)) ==> i == k
    ensures forall i :: 0 <= i < |log| && log[i].reversalOf == Just(j) ==> log[i].status == POSTED
    ensures forall i, v :: 0 <= i < |log| && log[i].reversalOf == Just(j) ==>
              Delta(log[i].entries, v) + Delta(log[j].entries, v) == 0
  {
    FindIsKey(log, Reversal(j));
    forall i, v | 0 <= i < |log| && log[i].reversalOf == Just(j)
      ensures Delta(log[i].entries, v) + Delta(log[j].entries, v) == 0
    {
      NegatedDelta(log[j].entries, v);
    }
    forall i | 0 <= i < |log| && log[i].reversalOf == Just(j) ensures log[i].status == POSTED {
      if log[i].status == REVERSED {
        FindIsKey(log, Reversal(i));
        assert false;
      }
    }
    if log[j].status == REVERSED {
      assert log[Find(log, Reversal(j)).value].reversalOf == Just(j);
    }
  }

  /** Posting again under a key already accepted, whatever happened since and whatever the
      entries, returns the first transaction and writes nothing. */
  lemma RepeatedPostWritesNothing(log: Log, first: PostInput, calls: seq<Call>, again: PostInput)
    requires WellFormed(log) && Ordinary(first) && Outcome(log, first).Posted?
    requires forall i :: 0 <= i < |calls| && calls[i].PostCall? ==> Ordinary(calls[i].input)
    requires again.key == first.key && Normalise(again) == Nothing
    ensures var later := Run(Post(log, first), calls);
            Outcome(later, again) == Existing(|log|) && Post(later, again) == later
  {
    PostKeepsWellFormed(log, first);
    RunKeepsWellFormed(Post(log, first), calls);
    KeyStaysPut(Post(log, first), Run(Post(log, first), calls), |log|);
  }

  /** A key keeps pointing at its transaction as the log grows. */
  lemma KeyStaysPut(before: Log, after: Log, id: nat)
    requires Grows(before, after) && UniqueKeys(after) && id < |before|
    ensures Find(after, before[id].key) == Just(id)
  {
    FindIsKey(after, before[id].key);
  }

  /** A second reversal is refused, whatever happened since, and writes nothing. */
  lemma RepeatedReverseWritesNothing(log: Log, id: nat, calls: seq<Call>)
    requires WellFormed(log) && ReverseOutcome(log, id).Posted?
    requires forall i :: 0 <= i < |calls| && calls[i].PostCall? ==> Ordinary(calls[i].input)
    ensures var later := Run(Reverse(log, id), calls);
            ReverseOutcome(later, id) == Refused(AlreadyReversed) && Reverse(later, id) == later
  {
    ReverseKeepsWellFormed(log, id);
    RunKeepsWellFormed(Reverse(log, id), calls);
  }
}
