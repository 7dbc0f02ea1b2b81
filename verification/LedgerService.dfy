/** The ledger as the stateful service (`src/modules/ledger/ledger.service.ts`): tables
    with their unique indexes, and the loops of `postIn`, each proved against the ledger
    value of `LedgerModel`. */
module LedgerService {
  import opened Decimals
  import opened LedgerModel

  /** What a database transaction puts back when it aborts. */
  datatype Savepoint = Savepoint(log: Log, byKey: map<Key, nat>, accountIds: map<Account, nat>)

  ghost predicate Extends<K, V>(before: map<K, V>, after: map<K, V>) {
    forall k :: k in before ==> k in after && after[k] == before[k]
  }

  /** Row ids are unique, below the number of rows. */
  ghost predicate UniqueIds(accountIds: map<Account, nat>) {
    && (forall a, b :: a in accountIds && b in accountIds && accountIds[a] == accountIds[b] ==> a == b)
    && (forall a :: a in accountIds ==> accountIds[a] < |accountIds|)
  }

  ghost predicate Rows(entries: seq<Entry>, accountIds: map<Account, nat>) {
    forall j :: 0 <= j < |entries| ==> entries[j].account in accountIds
  }

  ghost predicate Indexed(log: Log, byKey: map<Key, nat>, accountIds: map<Account, nat>) {
    && (forall key :: (if key in byKey then Just(byKey[key]) else Nothing) == Find(log, key))
    && (forall i :: 0 <= i < |log| ==> Rows(log[i].entries, accountIds))
    && UniqueIds(accountIds)
  }

  class Ledger {
    var log: Log
    /** Unique index on `idempotencyKey`. */
    var byKey: map<Key, nat>
    /** Account rows, unique per (owner, id, currency, kind). */
    var accountIds: map<Account, nat>

    ghost predicate Valid()
      reads this
    {
      Indexed(log, byKey, accountIds)
    }

    constructor ()
      ensures Valid() && log == []
    {
      log, byKey, accountIds := [], map[], map[];
    }

    method Save() returns (s: Savepoint)
      ensures s == Savepoint(log, byKey, accountIds)
    {
      s := Savepoint(log, byKey, accountIds);
    }

    method Rollback(s: Savepoint)
      requires Indexed(s.log, s.byKey, s.accountIds)
      modifies this
      ensures Valid() && Savepoint(log, byKey, accountIds) == s
    {
      log, byKey, accountIds := s.log, s.byKey, s.accountIds;
    }

    /** `ensureAccount`: the row's id, created when missing. */
    method EnsureAccount(a: Account) returns (id: nat)
      requires UniqueIds(accountIds)
      modifies this`accountIds
      ensures UniqueIds(accountIds)
      ensures a in accountIds && accountIds[a] == id
      ensures Extends(old(accountIds), accountIds)
    {
      if a !in accountIds {
        accountIds := accountIds[a := |accountIds|];
      }
      id := accountIds[a];
    }

    /** `sumAccount`: SUM(amount) over the account's entries. */
    method SumAccount(a: Account) returns (total: Dec)
      ensures total == Balance(log, a)
    {
      total := 0;
      for i := 0 to |log|
        invariant total == Balance(log[..i], a)
      {
        var entries := log[i].entries;
        for j := 0 to |entries|
          invariant total + Delta(entries[j..], Of(a)) == Balance(log[..i], a) + Delta(entries, Of(a))
        {
          if entries[j].account == a {
            total := total + entries[j].amount;
          }
        }
        assert log[..i + 1][..i] == log[..i];
      }
      assert log[..|log|] == log;
    }

    /** The `deltas` map: net movement of every account touched. */
    method NetMovements(entries: seq<Entry>) returns (deltas: map<Account, Dec>)
      ensures forall a :: a in deltas <==> Touches(entries, a)
      ensures forall a :: a in deltas ==> deltas[a] == Delta(entries, Of(a))
    {
      deltas := map[];
      for i := 0 to |entries|
        invariant forall a :: a in deltas <==> Touches(entries[..i], a)
        invariant forall a ::
          (if a in deltas then deltas[a] else 0) + Delta(entries[i..], Of(a)) == Delta(entries, Of(a))
      {
        var e := entries[i];
        deltas := deltas[e.account := (if e.account in deltas then deltas[e.account] else 0) + e.amount];
        forall a ensures Touches(entries[..i + 1], a) <==> Touches(entries[..i], a) || a == e.account {
          assert entries[..i + 1] == entries[..i] + [e];
          if a == e.account { assert entries[..i + 1][i].account == a; }
          if Touches(entries[..i], a) {
            var k :| 0 <= k < i && entries[..i][k].account == a;
            assert entries[..i + 1][k].account == a;
          }
        }
      }
      assert entries[..|entries|] == entries;
    }

    /** The accounts the non-negative rule looks at, in entry order. */
    static function GuardList(input: PostInput): seq<Account> {
      if input.guard.Just? then input.guard.value else UserAccounts(input.entries)
    }

    static function UserAccounts(entries: seq<Entry>): (accounts: seq<Account>)
      ensures forall a :: a in accounts <==> a.owner == USER && Touches(entries, a)
    {
      if entries == [] then []
      else
        var rest := UserAccounts(entries[1..]);
        assert forall a :: Touches(entries, a) <==> a == entries[0].account || Touches(entries[1..], a) by {
          forall a ensures Touches(entries, a) <==> a == entries[0].account || Touches(entries[1..], a) {
            if Touches(entries[1..], a) {
              var i :| 0 <= i < |entries[1..]| && entries[1..][i].account == a;
              assert entries[i + 1].account == a;
            }
            if Touches(entries, a) && a != entries[0].account {
              var i :| 0 <= i < |entries| && entries[i].account == a;
              assert entries[1..][i - 1].account == a;
            }
          }
        }
        if entries[0].account.owner == USER then [entries[0].account] + rest else rest
    }

    /** The non-negative rule: every guarded account that is debited can afford it. */
    method CheckFunds(input: PostInput, deltas: map<Account, Dec>) returns (funded: bool)
      requires forall a :: a in deltas <==> Touches(input.entries, a)
      requires forall a :: a in deltas ==> deltas[a] == Delta(input.entries, Of(a))
      ensures funded == Funded(log, input)
    {
      var guarded := GuardList(input);
      for i := 0 to |guarded|
        invariant forall j :: 0 <= j < i && guarded[j] in deltas ==> Affordable(log, input.entries, guarded[j])
      {
        var a := guarded[i];
        if a !in deltas || deltas[a] >= 0 {
          continue;
        }
        var current := SumAccount(a);
        if current + deltas[a] < 0 {
          assert Guarded(input, a) && !Affordable(log, input.entries, a);
          return false;
        }
      }
      forall a | Guarded(input, a) ensures Affordable(log, input.entries, a) {
        assert a in guarded;
      }
      return true;
    }

    /** Resolves, creating when missing, every account the entries touch. */
    method EnsureAccounts(entries: seq<Entry>) returns (accounts: map<Account, nat>)
      requires UniqueIds(accountIds)
      modifies this`accountIds
      ensures UniqueIds(accountIds)
      ensures Rows(entries, accounts)
      ensures Extends(accounts, accountIds) && Extends(old(accountIds), accountIds)
    {
      accounts := map[];
      for i := 0 to |entries|
        invariant UniqueIds(accountIds)
        invariant Rows(entries[..i], accounts)
        invariant Extends(accounts, accountIds) && Extends(old(accountIds), accountIds)
      {
        assert entries[..i + 1] == entries[..i] + [entries[i]];
        if entries[i].account !in accounts {
          var id := EnsureAccount(entries[i].account);
          accounts := accounts[entries[i].account := id];
        }
      }
      assert entries[..|entries|] == entries;
    }

    /** Inserts a transaction under a key that is not taken yet. */
    method Insert(txn: Txn)
      requires Valid() && Find(log, txn.key) == Nothing
      requires Rows(txn.entries, accountIds)
      modifies this`log, this`byKey
      ensures Valid()
      ensures log == old(log) + [txn]
    {
      forall key ensures Find(log + [txn], key) == if txn.key == key then Just(|log|) else Find(log, key) {
        FindAppend(log, txn, key);
      }
      byKey := byKey[txn.key := |log|];
      log := log + [txn];
    }

    /** `postIn`: one post inside its database transaction. The key is looked up once: the
        second look-up, after the row locks, matters only to `ConcurrentLedger`. */
    method PostIn(input: PostInput, reversalOf: Maybe<nat>) returns (result: PostResult)
      requires Valid() && Normalise(input) == Nothing
      modifies this
      ensures Valid()
      ensures result == Outcome(old(log), input)
      ensures log == Commit(old(log), input, reversalOf)
    {
      if input.key in byKey {
        return Existing(byKey[input.key]);
      }
      var rows := accountIds;
      var accounts := EnsureAccounts(input.entries);
      var deltas := NetMovements(input.entries);
      var funded := CheckFunds(input, deltas);
      if !funded {
        accountIds := rows;
        return Refused(Insufficient);
      }
      result := Posted(|log|);
      Insert(Record(input, reversalOf));
    }

    /** `post`: validation, then one atomic post. */
    method Post(input: PostInput) returns (result: PostResult)
      requires Valid()
      modifies this
      ensures Valid()
      ensures result == Outcome(old(log), input)
      ensures log == LedgerModel.Post(old(log), input)
    {
      var fault := Normalise(input);
      if fault.Just? {
        return Refused(fault.value);
      }
      result := PostIn(input, Nothing);
    }

    /** `reverse`: a REVERSAL of every entry, then the original is marked. */
    method Reverse(id: nat) returns (result: PostResult)
      requires Valid()
      modifies this
      ensures Valid()
      ensures result == ReverseOutcome(old(log), id)
      ensures log == LedgerModel.Reverse(old(log), id)
    {
      var fault := ReverseFault(log, id);
      if fault.Just? {
        return Refused(fault.value);
      }
      var input := ReversalInput(log[id], id);
      var invalid := Normalise(input);
      if invalid.Just? {
        return Refused(invalid.value);
      }
      result := PostIn(input, Just(id));
      if result.Posted? {
        forall key ensures Find(MarkReversed(log, id), key) == Find(log, key) {
          FindStatus(log, id, REVERSED, key);
        }
        log := MarkReversed(log, id);
      }
    }
  }
}
